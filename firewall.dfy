/**
 * The firewall rule editor of the firewall page: an ordered in-memory table of
 * rules edited through one form that is either in "add" mode or in "edit" mode
 * (the latter when `editingRuleId` holds a truthy id).
 *
 * The list transformations the handlers use (`[...rules, r]`, `rules.map`,
 * `rules.filter`) are pure functions here; the handlers themselves are methods
 * of `RuleEditor`, whose fields are the page's state variables.
 */
module Firewall {
  import opened Wrappers

  datatype Rule = Rule(id: string, ipAddress: string, port: string, protocol: string, action: string)

  /** The four input fields of the rule form. */
  datatype FormFields = FormFields(ipAddress: string, port: string, protocol: string, action: string)

  /** Port token stored when the form's port is left empty. */
  const Wildcard: string := "*"

  /** The form after a reset: empty address and port, TCP, Allow. */
  const EmptyForm: FormFields := FormFields("", "", "TCP", "Allow")

  function InitialRules(): seq<Rule>
  {
    [ Rule("1", "192.168.1.100", "80", "TCP", "Allow"),
      Rule("2", "0.0.0.0/0", "22", "TCP", "Deny"),
      Rule("3", "10.0.0.5", "*", "ICMP", "Allow") ]
  }

  // ---------------------------------------------------------------------------
  // Identifiers

  function Ids(rules: seq<Rule>): (ids: seq<string>)
    ensures |ids| == |rules|
    ensures forall i :: 0 <= i < |rules| ==> ids[i] == rules[i].id
  {
    if rules == [] then [] else [rules[0].id] + Ids(rules[1..])
  }

  ghost predicate UniqueIds(rules: seq<Rule>)
  {
    forall i, j :: 0 <= i < j < |rules| ==> rules[i].id != rules[j].id
  }

  /** A generated id: non-empty (a UUID) and used by no rule in the table. */
  ghost predicate FreshFor(id: string, rules: seq<Rule>)
  {
    id != "" && id !in Ids(rules)
  }

  /**
   * The rule the form is editing. `editingRuleId` is `string | null` and the
   * handlers test it for truthiness, so the empty string counts as "not editing".
   */
  function EditTarget(editingRuleId: Option<string>): (t: Option<string>)
    ensures t.Some? ==> editingRuleId == t && t.value != ""
    ensures t.None? ==> editingRuleId == None || editingRuleId == Some("")
  {
    if editingRuleId.Some? && editingRuleId.value != "" then editingRuleId else None
  }

  // ---------------------------------------------------------------------------
  // Form <-> rule

  /** Submit refuses a form with an empty address, protocol or action. */
  predicate IsComplete(f: FormFields)
  {
    f.ipAddress != "" && f.protocol != "" && f.action != ""
  }

  /** `port || "*"`: the port stored for a form port. */
  function StoredPort(port: string): string
  {
    if port == "" then Wildcard else port
  }

  /** `rule.port === "*" ? "" : rule.port`: the form port shown for a stored port. */
  function FormPort(port: string): string
  {
    if port == Wildcard then "" else port
  }

  /** Loading a stored port into the form and submitting it gives the stored port back. */
  lemma PortRoundTrip(port: string)
    requires port != ""
    ensures StoredPort(FormPort(port)) == port
  {
  }

  /** The rule built from the form by handleSubmit. */
  function NewRule(f: FormFields, id: string): (r: Rule)
    ensures r.port != ""
  {
    Rule(id, f.ipAddress, StoredPort(f.port), f.protocol, f.action)
  }

  /** The form handleEdit fills in from a rule. */
  function EditForm(r: Rule): FormFields
  {
    FormFields(r.ipAddress, FormPort(r.port), r.protocol, r.action)
  }

  // ---------------------------------------------------------------------------
  // List transformations

  /** `rules.map(rule => rule.id === id ? r : rule)` */
  function ReplaceById(rules: seq<Rule>, id: string, r: Rule): (res: seq<Rule>)
    ensures |res| == |rules|
    ensures forall i :: 0 <= i < |rules| ==> res[i] == if rules[i].id == id then r else rules[i]
  {
    if rules == [] then []
    else [if rules[0].id == id then r else rules[0]] + ReplaceById(rules[1..], id, r)
  }

  /** `rules.filter(rule => rule.id !== id)` */
  function RemoveById(rules: seq<Rule>, id: string): (res: seq<Rule>)
    ensures |res| <= |rules|
    ensures forall x :: x in res <==> x in rules && x.id != id
  {
    if rules == [] then []
    else if rules[0].id != id then [rules[0]] + RemoveById(rules[1..], id)
    else RemoveById(rules[1..], id)
  }

  /** `a` is `b` with some elements dropped, the rest in their original order. */
  ghost predicate IsSubsequence(a: seq<Rule>, b: seq<Rule>)
    decreases |b|
  {
    if a == [] then true
    else if b == [] then false
    else (a[0] == b[0] && IsSubsequence(a[1..], b[1..])) || IsSubsequence(a, b[1..])
  }

  /** The new list handleSubmit stores, given the form, the edit target and a generated id. */
  function SubmitRules(rules: seq<Rule>, f: FormFields, editingRuleId: Option<string>, freshId: string): seq<Rule>
  {
    if !IsComplete(f) then rules
    else match EditTarget(editingRuleId)
      case Some(id) => ReplaceById(rules, id, NewRule(f, id))
      case None => rules + [NewRule(f, freshId)]
  }

  // ---------------------------------------------------------------------------
  // Properties of the list transformations

  /** Every rule the filter keeps is kept in order. */
  lemma {:induction false} RemoveKeepsOrder(rules: seq<Rule>, id: string)
    ensures IsSubsequence(RemoveById(rules, id), rules)
  {
    if rules != [] {
      RemoveKeepsOrder(rules[1..], id);
      var res := RemoveById(rules, id);
      if rules[0].id != id {
        assert res[0] == rules[0] && res[1..] == RemoveById(rules[1..], id);
      } else {
        SubsequenceOfTail(res, rules);
      }
    }
  }

  lemma SubsequenceOfTail(a: seq<Rule>, b: seq<Rule>)
    requires b != [] && IsSubsequence(a, b[1..])
    ensures IsSubsequence(a, b)
  {
  }

  /** The filter removes exactly the rules with the given id: as many as there are. */
  lemma {:induction false} RemoveCount(rules: seq<Rule>, id: string)
    ensures |RemoveById(rules, id)| == |rules| - CountId(rules, id)
  {
    if rules != [] {
      RemoveCount(rules[1..], id);
    }
  }

  function CountId(rules: seq<Rule>, id: string): nat
  {
    if rules == [] then 0 else (if rules[0].id == id then 1 else 0) + CountId(rules[1..], id)
  }

  /** Deleting an id that no rule has leaves the list as it is. */
  lemma {:induction false} RemoveAbsent(rules: seq<Rule>, id: string)
    requires id !in Ids(rules)
    ensures RemoveById(rules, id) == rules
  {
    if rules != [] {
      assert Ids(rules)[0] == rules[0].id;
      assert Ids(rules[1..]) == Ids(rules)[1..];
      RemoveAbsent(rules[1..], id);
    }
  }

  /** handleDelete twice with the same id is handleDelete once. */
  lemma RemoveIdempotent(rules: seq<Rule>, id: string)
    ensures RemoveById(RemoveById(rules, id), id) == RemoveById(rules, id)
  {
    var once := RemoveById(rules, id);
    forall i | 0 <= i < |once| ensures Ids(once)[i] != id {
      assert once[i] in once;
    }
    RemoveAbsent(once, id);
  }

  /** Replacing by an id that no rule has leaves the list as it is. */
  lemma ReplaceAbsent(rules: seq<Rule>, id: string, r: Rule)
    requires id !in Ids(rules)
    ensures ReplaceById(rules, id, r) == rules
  {
    var res := ReplaceById(rules, id, r);
    forall i | 0 <= i < |rules| ensures res[i] == rules[i] {
      assert Ids(rules)[i] == rules[i].id;
    }
  }

  /** Replacing a rule by one with the same id keeps the id column as it is. */
  lemma ReplaceKeepsIds(rules: seq<Rule>, id: string, r: Rule)
    requires r.id == id
    ensures Ids(ReplaceById(rules, id, r)) == Ids(rules)
  {
    var res := ReplaceById(rules, id, r);
    assert forall i :: 0 <= i < |rules| ==> Ids(res)[i] == res[i].id;
  }

  /** A subsequence of a list with unique ids has unique ids. */
  lemma {:induction false} SubsequenceUnique(a: seq<Rule>, b: seq<Rule>)
    requires IsSubsequence(a, b) && UniqueIds(b)
    ensures UniqueIds(a)
    decreases |b|
  {
    if a != [] && b != [] {
      assert UniqueIds(b[1..]) by {
        forall i, j | 0 <= i < j < |b[1..]| ensures b[1..][i].id != b[1..][j].id {
          assert b[1..][i] == b[i + 1] && b[1..][j] == b[j + 1];
        }
      }
      if a[0] == b[0] && IsSubsequence(a[1..], b[1..]) {
        SubsequenceUnique(a[1..], b[1..]);
        SubsequenceMembers(a[1..], b[1..]);
        forall j | 0 < j < |a| ensures a[0].id != a[j].id {
          assert a[j] == a[1..][j - 1];
          var k :| 0 <= k < |b[1..]| && b[1..][k] == a[j];
          assert b[k + 1] == a[j];
        }
      } else {
        SubsequenceUnique(a, b[1..]);
      }
    }
  }

  lemma {:induction false} SubsequenceMembers(a: seq<Rule>, b: seq<Rule>)
    requires IsSubsequence(a, b)
    ensures forall i :: 0 <= i < |a| ==> exists k :: 0 <= k < |b| && b[k] == a[i]
    decreases |b|
  {
    if a != [] && b != [] {
      if a[0] == b[0] && IsSubsequence(a[1..], b[1..]) {
        SubsequenceMembers(a[1..], b[1..]);
        forall i | 0 < i < |a| ensures exists k :: 0 <= k < |b| && b[k] == a[i] {
          assert a[i] == a[1..][i - 1];
          var k :| 0 <= k < |b[1..]| && b[1..][k] == a[i];
          assert b[k + 1] == a[i];
        }
        assert b[0] == a[0];
      } else {
        SubsequenceMembers(a, b[1..]);
        forall i | 0 <= i < |a| ensures exists k :: 0 <= k < |b| && b[k] == a[i] {
          var k :| 0 <= k < |b[1..]| && b[1..][k] == a[i];
          assert b[k + 1] == a[i];
        }
      }
    }
  }

  // ---------------------------------------------------------------------------
  // Properties of a submit

  /**
   * The table invariant: ids unique and non-empty, and every rule as a submit
   * stores it (address, protocol and action non-empty, port non-empty).
   */
  ghost predicate WellFormed(rules: seq<Rule>)
  {
    && UniqueIds(rules)
    && forall i :: 0 <= i < |rules| ==>
         rules[i].id != "" && rules[i].port != "" && IsComplete(EditForm(rules[i]))
  }

  lemma InitialRulesWellFormed()
    ensures WellFormed(InitialRules())
  {
  }

  /** Add mode: exactly one rule is appended, built from the form, with the fresh id. */
  lemma SubmitAppends(rules: seq<Rule>, f: FormFields, editingRuleId: Option<string>, freshId: string)
    requires IsComplete(f) && EditTarget(editingRuleId) == None
    ensures var res := SubmitRules(rules, f, editingRuleId, freshId);
      && |res| == |rules| + 1
      && res[..|rules|] == rules
      && res[|rules|] == Rule(freshId, f.ipAddress, StoredPort(f.port), f.protocol, f.action)
  {
  }

  /**
   * Edit mode: the length and the id column are unchanged; the rules with the
   * target id take the form's values and every other rule is untouched.
   */
  lemma SubmitReplaces(rules: seq<Rule>, f: FormFields, editingRuleId: Option<string>, freshId: string)
    requires IsComplete(f) && EditTarget(editingRuleId).Some?
    ensures var res := SubmitRules(rules, f, editingRuleId, freshId);
      && |res| == |rules|
      && Ids(res) == Ids(rules)
      && forall i :: 0 <= i < |rules| ==>
           res[i] == if rules[i].id == editingRuleId.value
                     then Rule(rules[i].id, f.ipAddress, StoredPort(f.port), f.protocol, f.action)
                     else rules[i]
  {
    var id := editingRuleId.value;
    ReplaceKeepsIds(rules, id, NewRule(f, id));
  }

  /** Edit mode on an id no rule has (deleted while being edited): the list stays as it is. */
  lemma SubmitMissingTarget(rules: seq<Rule>, f: FormFields, editingRuleId: Option<string>, freshId: string)
    requires EditTarget(editingRuleId).Some? && editingRuleId.value !in Ids(rules)
    ensures SubmitRules(rules, f, editingRuleId, freshId) == rules
  {
    if IsComplete(f) {
      ReplaceAbsent(rules, editingRuleId.value, NewRule(f, editingRuleId.value));
    }
  }

  /** Deleting the rule under edit turns the later submit into a no-op on the list. */
  lemma DeleteWhileEditing(rules: seq<Rule>, id: string, f: FormFields, freshId: string)
    requires id != ""
    ensures var left := RemoveById(rules, id);
      SubmitRules(left, f, Some(id), freshId) == left
  {
    var left := RemoveById(rules, id);
    forall i | 0 <= i < |left| ensures Ids(left)[i] != id {
      assert left[i] in left;
    }
    SubmitMissingTarget(left, f, Some(id), freshId);
  }

  /** handleEdit of a rule in the table followed by an unchanged submit leaves the table as it was. */
  lemma EditThenSubmit(rules: seq<Rule>, r: Rule, freshId: string)
    requires WellFormed(rules) && r in rules
    ensures SubmitRules(rules, EditForm(r), Some(r.id), freshId) == rules
  {
    var f := EditForm(r);
    if IsComplete(f) {
      PortRoundTrip(r.port);
      assert NewRule(f, r.id) == r;
      var res := ReplaceById(rules, r.id, r);
      forall i | 0 <= i < |rules| ensures res[i] == rules[i] {
        var k :| 0 <= k < |rules| && rules[k] == r;
        assert rules[i].id == r.id ==> i == k;
      }
    }
  }

  /** A submit keeps the table invariant, given a fresh id in add mode. */
  lemma SubmitWellFormed(rules: seq<Rule>, f: FormFields, editingRuleId: Option<string>, freshId: string)
    requires WellFormed(rules)
    requires EditTarget(editingRuleId) == None ==> FreshFor(freshId, rules)
    ensures WellFormed(SubmitRules(rules, f, editingRuleId, freshId))
  {
    if IsComplete(f) {
      match EditTarget(editingRuleId)
      case Some(id) => ReplaceWellFormed(rules, id, NewRule(f, id));
      case None => AppendWellFormed(rules, NewRule(f, freshId));
    }
  }

  lemma ReplaceWellFormed(rules: seq<Rule>, id: string, r: Rule)
    requires WellFormed(rules) && r.id == id && r.port != "" && IsComplete(EditForm(r))
    ensures WellFormed(ReplaceById(rules, id, r))
  {
    var res := ReplaceById(rules, id, r);
    ReplaceKeepsIds(rules, id, r);
    forall i | 0 <= i < |res| ensures res[i].id == rules[i].id {
      assert Ids(res)[i] == Ids(rules)[i];
    }
  }

  lemma AppendWellFormed(rules: seq<Rule>, r: Rule)
    requires WellFormed(rules) && FreshFor(r.id, rules) && r.port != "" && IsComplete(EditForm(r))
    ensures WellFormed(rules + [r])
  {
    forall i | 0 <= i < |rules| ensures rules[i].id != r.id {
      assert Ids(rules)[i] == rules[i].id;
    }
  }

  /** A delete keeps the table invariant. */
  lemma RemoveWellFormed(rules: seq<Rule>, id: string)
    requires WellFormed(rules)
    ensures WellFormed(RemoveById(rules, id))
  {
    var res := RemoveById(rules, id);
    RemoveKeepsOrder(rules, id);
    SubsequenceUnique(res, rules);
    forall i | 0 <= i < |res| ensures res[i].id != "" && res[i].port != "" && IsComplete(EditForm(res[i])) {
      assert res[i] in rules;
    }
  }

  // ---------------------------------------------------------------------------
  // The page's state

  /**
   * The state of the firewall page: the rule table, the four form fields and
   * the id of the rule being edited (`null` in add mode).
   */
  class RuleEditor {
    var rules: seq<Rule>
    var ipAddress: string
    var port: string
    var protocol: string
    var action: string
    var editingRuleId: Option<string>

    function Fields(): FormFields
      reads this
    {
      FormFields(ipAddress, port, protocol, action)
    }

    /** The table invariant; an edit target, when set, is a non-empty id. */
    ghost predicate Valid()
      reads this
    {
      WellFormed(rules) && editingRuleId != Some("")
    }

    predicate Editing()
      reads this
    {
      EditTarget(editingRuleId).Some?
    }

    constructor ()
      ensures Valid()
      ensures rules == InitialRules() && Fields() == EmptyForm && editingRuleId == None
    {
      rules := InitialRules();
      ipAddress, port, protocol, action := "", "", "TCP", "Allow";
      editingRuleId := None;
    }

    /** Typing in the address input. */
    method SetIpAddress(text: string)
      requires Valid()
      modifies this
      ensures Valid()
      ensures Fields() == old(Fields()).(ipAddress := text)
      ensures rules == old(rules) && editingRuleId == old(editingRuleId)
    {
      ipAddress := text;
    }

    /** Typing in the port input. */
    method SetPort(text: string)
      requires Valid()
      modifies this
      ensures Valid()
      ensures Fields() == old(Fields()).(port := text)
      ensures rules == old(rules) && editingRuleId == old(editingRuleId)
    {
      port := text;
    }

    /** Choosing a protocol in the selector. */
    method SetProtocol(value: string)
      requires Valid()
      modifies this
      ensures Valid()
      ensures Fields() == old(Fields()).(protocol := value)
      ensures rules == old(rules) && editingRuleId == old(editingRuleId)
    {
      protocol := value;
    }

    /** Choosing an action in the selector. */
    method SetAction(value: string)
      requires Valid()
      modifies this
      ensures Valid()
      ensures Fields() == old(Fields()).(action := value)
      ensures rules == old(rules) && editingRuleId == old(editingRuleId)
    {
      action := value;
    }

    /**
     * handleSubmit. An incomplete form changes nothing (`ok` is false). Otherwise
     * the table becomes SubmitRules(...) and the form is reset to add mode.
     * `freshId` stands for `crypto.randomUUID()`, which is only called in add mode.
     */
    method Submit(freshId: string) returns (ok: bool)
      requires Valid()
      requires !Editing() ==> FreshFor(freshId, rules)
      modifies this
      ensures Valid()
      ensures ok <==> IsComplete(old(Fields()))
      ensures rules == SubmitRules(old(rules), old(Fields()), old(editingRuleId), freshId)
      ensures ok ==> Fields() == EmptyForm && editingRuleId == None
      ensures !ok ==> Fields() == old(Fields()) && editingRuleId == old(editingRuleId)
    {
      if ipAddress == "" || protocol == "" || action == "" {
        return false;
      }
      SubmitWellFormed(rules, Fields(), editingRuleId, freshId);
      var id := if editingRuleId.Some? && editingRuleId.value != "" then editingRuleId.value else freshId;
      var newRule := Rule(id, ipAddress, if port == "" then Wildcard else port, protocol, action);
      if editingRuleId.Some? && editingRuleId.value != "" {
        rules := ReplaceById(rules, editingRuleId.value, newRule);
      } else {
        rules := rules + [newRule];
      }
      ipAddress, port, protocol, action := "", "", "TCP", "Allow";
      editingRuleId := None;
      ok := true;
    }

    /** handleEdit: loads a rule of the table into the form; the table is untouched. */
    method Edit(r: Rule)
      requires Valid() && r in rules
      modifies this
      ensures Valid()
      ensures rules == old(rules)
      ensures Fields() == EditForm(r) && editingRuleId == Some(r.id)
    {
      editingRuleId := Some(r.id);
      ipAddress := r.ipAddress;
      port := if r.port == Wildcard then "" else r.port;
      protocol := r.protocol;
      action := r.action;
    }

    /** handleDelete: removes every rule with the id; form and edit target stay. */
    method Delete(id: string)
      requires Valid()
      modifies this
      ensures Valid()
      ensures rules == RemoveById(old(rules), id)
      ensures Fields() == old(Fields()) && editingRuleId == old(editingRuleId)
    {
      RemoveWellFormed(rules, id);
      rules := RemoveById(rules, id);
    }

    /** The "Cancel Edit" button: resets the form and leaves add mode; the table is untouched. */
    method CancelEdit()
      requires Valid()
      modifies this
      ensures Valid()
      ensures rules == old(rules)
      ensures Fields() == EmptyForm && editingRuleId == None
    {
      editingRuleId := None;
      ipAddress, port, protocol, action := "", "", "TCP", "Allow";
    }
  }

  /** An edit followed by an unchanged submit leaves the table of the page as it was. */
  method EditThenSubmitScenario(page: RuleEditor, r: Rule, freshId: string)
    requires page.Valid() && r in page.rules
    modifies page
    ensures page.Valid()
    ensures page.rules == old(page.rules)
    ensures page.Fields() == EmptyForm && page.editingRuleId == None
  {
    page.Edit(r);
    var ok := page.Submit(freshId);
    EditThenSubmit(old(page.rules), r, freshId);
  }

  /**
   * Filling in the form in add mode and submitting it appends one rule built
   * from the typed values, with the wildcard for an empty port.
   */
  method AddRuleScenario(page: RuleEditor, ip: string, port: string, protocol: string, action: string, freshId: string)
    requires page.Valid() && !page.Editing() && FreshFor(freshId, page.rules)
    requires ip != "" && protocol != "" && action != ""
    modifies page
    ensures page.Valid()
    ensures page.rules == old(page.rules) + [Rule(freshId, ip, StoredPort(port), protocol, action)]
    ensures page.Fields() == EmptyForm && page.editingRuleId == None
  {
    page.SetIpAddress(ip);
    page.SetPort(port);
    page.SetProtocol(protocol);
    page.SetAction(action);
    var ok := page.Submit(freshId);
  }
}
