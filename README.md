# NetWatch state logic in Dafny

NetWatch is a browser dashboard for network security: a firewall-rule editor,
a live feed of security events, a header whose title follows the current
path, and a form that sends pasted traffic text to an external classifier.
This project models the state logic of those four pieces and proves what
their handlers promise.

- `wrappers.dfy`: `Option`, the model of JavaScript's `T | null`.
- `firewall.dfy` (module `Firewall`): the firewall page. Rules form an ordered
  table. One form adds rules or, when `editingRuleId` holds a truthy id,
  edits one. The list operations (`[...rules, r]`, `rules.map`,
  `rules.filter`) are pure functions. The page's state is the class
  `RuleEditor`, with one method per handler: submit, edit, delete and cancel-edit, plus one per form input.
- `dashboard.dfy` (module `Dashboard`): the activity feed is the class
  `ActivityFeed`. Each timer tick puts a new "Info" login event at the front
  and cuts the feed to `MAX_ACTIVITIES = 10`. The module also holds the
  severity badge mapping and the rule that decides when a stat card shows its
  change line.
- `header.dfy` (module `Header`): the page title of a path. `split`,
  `filter(Boolean)`, the dash replacement, `map` and `join` are pure functions.
- `anomalies.dfy` (module `Anomalies`): the anomaly form is the class
  `AnomalyForm`. Its submit is split into `Start` and `Complete`. `Start`
  checks that traffic text is present, builds the request and marks the page
  busy. `Complete` stores the outcome of the awaited call and clears the busy
  flag. The classifier is represented only by that outcome.

Points where the code is narrower or broader than its comments and labels suggest, modelled as the code does it:
- Delete removes every rule with the id, because it is a `filter`.
- An edit replaces every rule with the target id, because it is a `map`.
- Protocol and action are free strings, checked only for being non-empty.
- A thrown value that is not an `Error` is reported with a fixed default
  message; the thrown value itself is not passed through.

## Model

| member | source | states |
|---|---|---|
| `Firewall.EditTarget` | src/app/firewall/page.tsx:46-53 | edit mode holds exactly when `editingRuleId` is a non-empty string (JavaScript truthiness); `null` and `""` both mean add mode |
| `Firewall.PortRoundTrip` | src/app/firewall/page.tsx:48-72 | for a stored port that is not empty, loading it into the form (`"*"` shown as `""`) and submitting it again (`""` stored as `"*"`) gives back the same port |
| `Firewall.NewRule` | src/app/firewall/page.tsx:45-51 | a rule built by submit never has an empty port |
| `Firewall.ReplaceById` | src/app/firewall/page.tsx:54 | the map keeps the length; each position holds the new rule if its id matches, and the old rule otherwise |
| `Firewall.RemoveById` | src/app/firewall/page.tsx:78 | the filter keeps exactly the rules whose id differs, and never makes the list longer |
| `Firewall.RemoveKeepsOrder` | src/app/firewall/page.tsx:78 | the kept rules appear in their original order (a subsequence of the old list) |
| `Firewall.RemoveCount` | src/app/firewall/page.tsx:78 | the list shrinks by exactly the number of rules with that id |
| `Firewall.RemoveAbsent` | src/app/firewall/page.tsx:77-79 | deleting an id that no rule has leaves the list identical |
| `Firewall.RemoveIdempotent` | src/app/firewall/page.tsx:77-79 | deleting the same id twice gives the same list as deleting it once |
| `Firewall.ReplaceAbsent` | src/app/firewall/page.tsx:53-54 | replacing by an id that no rule has leaves the list identical |
| `Firewall.ReplaceKeepsIds` | src/app/firewall/page.tsx:46-54 | an update keeps every rule's id, in order, because the new rule reuses the edited id |
| `Firewall.InitialRulesWellFormed` | src/app/firewall/page.tsx:23-27 | the three initial rules have distinct non-empty ids, non-empty ports and complete fields |
| `Firewall.SubmitAppends` | src/app/firewall/page.tsx:45-58 | in add mode a valid submit appends exactly one rule at the end; the earlier rules are unchanged and in order; the new rule has the generated id, the form's address, protocol and action, and the port `"*"` when the form's port is empty (the form's port otherwise) |
| `Firewall.SubmitReplaces` | src/app/firewall/page.tsx:45-55 | in edit mode the length and the id column are unchanged; the rule with the edited id takes the form's values, keeping its id; every other rule is untouched |
| `Firewall.SubmitMissingTarget` | src/app/firewall/page.tsx:53-55 | editing an id that is no longer in the table leaves the list unchanged |
| `Firewall.DeleteWhileEditing` | src/app/firewall/page.tsx:53-79 | after the rule under edit is deleted, the pending submit cannot bring it back or change any other rule |
| `Firewall.EditThenSubmit` | src/app/firewall/page.tsx:45-75 | loading a rule of a well-formed table into the form and submitting it unchanged leaves the table identical |
| `Firewall.SubmitWellFormed` | src/app/firewall/page.tsx:40-57 | a submit keeps ids unique and non-empty, and keeps every rule complete, given a fresh id in add mode |
| `Firewall.RemoveWellFormed` | src/app/firewall/page.tsx:77-79 | a delete keeps the same table invariant |
| `Firewall.RuleEditor.constructor` | src/app/firewall/page.tsx:31-36 | the page starts with the initial rules, an empty form (`""`, `""`, `TCP`, `Allow`) and no edit target |
| `Firewall.RuleEditor.Submit` | src/app/firewall/page.tsx:38-67 | with an empty address, protocol or action, nothing changes: not the rules, the form or the edit target. Otherwise the rules become the appended or replaced list, the form is reset and the page leaves edit mode. The table invariant is kept |
| `Firewall.RuleEditor.Edit` | src/app/firewall/page.tsx:69-75 | the form shows the rule (port `"*"` as empty), the edit target is its id, the table is unchanged |
| `Firewall.RuleEditor.Delete` | src/app/firewall/page.tsx:77-80 | the table loses the rules with that id; form and edit target stay as they were |
| `Firewall.RuleEditor.CancelEdit` | src/app/firewall/page.tsx:133 | the form is reset, the page leaves edit mode, the table is unchanged |
| `Firewall.EditThenSubmitScenario` | src/app/firewall/page.tsx:38-75 | on the page object, edit followed by submit leaves the rules as they were, resets the form and keeps the table invariant |
| `Firewall.AddRuleScenario` | src/app/firewall/page.tsx:38-66 | typing a complete form in add mode and submitting appends exactly the rule built from the typed values (`"*"` for an empty port) with the generated id, and resets the form |
| `Firewall.RuleEditor.SetIpAddress` | src/app/firewall/page.tsx:99 | typing an address changes only that form field |
| `Firewall.RuleEditor.SetPort` | src/app/firewall/page.tsx:103 | typing a port changes only that form field |
| `Firewall.RuleEditor.SetProtocol` | src/app/firewall/page.tsx:107 | choosing a protocol changes only that form field |
| `Firewall.RuleEditor.SetAction` | src/app/firewall/page.tsx:121 | choosing an action changes only that form field |
| `Dashboard.LoginEvent` | src/app/page.tsx:64-70 | the event a tick adds always has severity Info and carries the tick's id and time |
| `Dashboard.Prepended` | src/app/page.tsx:72-75 | after a tick the feed holds at most 10 events, the new one first, then the previous events in order, cut to the first 9; its length grows by one below the bound and stays 10 at the bound |
| `Dashboard.AfterTicksIsNewestFirst` | src/app/page.tsx:72-75 | after any run of ticks the feed is the newest events first, then the original feed, cut to 10 |
| `Dashboard.AfterTicksLength` | src/app/page.tsx:45-75 | after k ticks the feed has min(its old length + k, 10) events, so never more than 10 |
| `Dashboard.AfterTicksNewestFirst` | src/app/page.tsx:72-75 | after at least one tick the most recent event heads the feed |
| `Dashboard.ActivityFeed.constructor` | src/app/page.tsx:25-48 | the feed starts with the four initial events, within the bound |
| `Dashboard.ActivityFeed.Tick` | src/app/page.tsx:58-75 | a tick puts the login event at the front and cuts the feed to 10; the bound is kept |
| `Dashboard.SeverityVariant` | src/app/page.tsx:159-163 | the badge is destructive exactly for High, secondary exactly for Medium, and default exactly for Low and Info |
| `Dashboard.SeverityClassDistinct` | src/app/page.tsx:164-167 | different severities get different badge colour classes |
| `Dashboard.OverviewChangeLines` | src/app/page.tsx:118-122 | of the four stat cards defined at lines 32-37, only "Anomalies Detected" hides its "from yesterday" line |
| `Header.Split` | src/components/layout/main-header.tsx:16 | a split gives at least one part, and no part contains the separator |
| `Header.JoinSplit` | src/components/layout/main-header.tsx:16 | joining the parts of a split with the separator gives the path back, so a split loses no character |
| `Header.SplitJoin` | src/components/layout/main-header.tsx:16 | splitting a join of parts that contain no separator gives the parts back |
| `Header.NonEmpty` | src/components/layout/main-header.tsx:16 | `filter(Boolean)` returns only non-empty strings, drawn from the parts, and its length is the number of parts minus the number of empty ones |
| `Header.NonEmptyAppend` | src/components/layout/main-header.tsx:16 | the filter of a concatenation is the concatenation of the filters, so the kept parts stay in their order |
| `Header.SplitAtSeparator` | src/components/layout/main-header.tsx:16 | splitting at any occurrence of the separator gives the parts of the left side followed by the parts of the right side |
| `Header.SegmentsAcrossSlash` | src/components/layout/main-header.tsx:16 | for any path `p + "/" + q`, the segments are those of `p` followed by those of `q`; extra slashes ("/a/", "/a//b") drop, duplicate or reorder no segment |
| `Header.DashesToSpaces` | src/components/layout/main-header.tsx:18 | every `-` becomes a space and every other character stays |
| `Header.SegmentTitles` | src/components/layout/main-header.tsx:18 | one title per segment, in order: the segment with dashes turned to spaces, then capitalized |
| `Header.FirewallTitleFixed` | src/components/layout/main-header.tsx:10-14 | "/firewall" has the title "Firewall Configuration" and "/" has "Dashboard", whatever `capitalize` does |
| `Header.NoSegmentsIffSlashes` | src/components/layout/main-header.tsx:16-17 | a path has no non-empty segment exactly when it consists only of `/` |
| `Header.SlashesOnlyIsDashboard` | src/components/layout/main-header.tsx:10-20 | a path made only of slashes, such as "//", keeps the default title "Dashboard" |
| `Header.SegmentsOfPath` | src/components/layout/main-header.tsx:16 | the non-empty segments of "/s1/…/sn" are exactly s1 … sn, in path order; none is dropped or added |
| `Header.SegmentsInPathOrder` | src/components/layout/main-header.tsx:12-19 | for such a path, other than "/firewall", the title is the `" / "`-join of the n segments in path order, each with dashes turned to spaces and capitalized |
| `Anomalies.BuildInput` | src/app/anomalies/page.tsx:34-37 | the request always carries the traffic text; it carries the baseline if and only if the baseline is non-empty, and then unchanged |
| `Anomalies.ErrorMessage` | src/app/anomalies/page.tsx:43 | the stored message of an `Error` is its own message, which may be empty; for any other thrown value it is the fixed default text |
| `Anomalies.Settled` | src/app/anomalies/page.tsx:38-48 | once the call has ended the page is not busy; the result is non-null exactly on success and the error is non-null exactly on failure |
| `Anomalies.SettledShowsOutcome` | src/app/anomalies/page.tsx:38-48 | the stored result is the returned value, unmodified (no clamping of the confidence score); the stored error is the failure's message; the two are never both non-null |
| `Anomalies.SettledAlert` | src/app/anomalies/page.tsx:41-48 | the inline error alert (which tests `error` for truthiness, line 109) renders after the call exactly when it failed and the message is not empty, so an `Error` with an empty message leaves no alert |
| `Anomalies.AnomalyForm.constructor` | src/app/anomalies/page.tsx:16-20 | the page starts with empty fields, not busy, with no error and no result |
| `Anomalies.AnomalyForm.SetNetworkTrafficData` | src/app/anomalies/page.tsx:71 | typing traffic text changes only that field |
| `Anomalies.AnomalyForm.SetBaselineProfile` | src/app/anomalies/page.tsx:83 | typing a baseline changes only that field |
| `Anomalies.AnomalyForm.Start` | src/app/anomalies/page.tsx:22-37 | with empty traffic text no call is made and busy flag, error and result are unchanged. Otherwise the page is busy with no error and no result, and the returned request is the one `BuildInput` builds |
| `Anomalies.AnomalyForm.Complete` | src/app/anomalies/page.tsx:38-48 | after the call the busy flag is off and the panel is what `Settled` gives for the outcome; error and result are never both set |
| `Anomalies.HandleSubmit` | src/app/anomalies/page.tsx:22-49 | a whole submit leaves the traffic and baseline fields as they were; without traffic text the panel is unchanged too; with traffic text the page ends idle, holding what the classifier returned for exactly the request `BuildInput` gives |

## Left out

- Toast notifications, all rendering (JSX, icons, CSS classes except the severity badge's), and `console.error`.
- `crypto.randomUUID()` is a `freshId` argument of `RuleEditor.Submit`. In add mode the argument must be non-empty and unused by any rule, as a UUID is.
- `capitalize` from `@/lib/utils` is not part of this model. It is a parameter `capitalize: string -> string`, and every title lemma holds for any choice of it.
- `usePathname` is not modelled: the path is an argument of `Header.PageTitle`.
- The dashboard timers (`setInterval`, `clearInterval`), `Date`, `toLocaleTimeString` and the random address are not modelled. A tick receives its id, time and address as arguments.
- The network-health chart fluctuation (`Math.random`, floating point, `Math.round`) is not modelled.
- The confidence percentage shown on the anomaly page (`toFixed`) is not modelled. The score is a `real` that is only passed through.
- The classifier flow (src/ai/flows/detect-network-anomalies.ts) is an external language-model call. It is represented only by its outcome: a result, an `Error` with a message, or another thrown value.
- The awaited call's asynchrony: `Start` and `Complete` are two separate steps, and the model does not track how several outstanding calls interleave.
- The firewall table's "Allow"/"Deny" badge and the empty-table row are not modelled.
- The sidebar, the app shell (cookie read) and the root layout (fonts, metadata) are not modelled.
