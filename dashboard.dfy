/**
 * The dashboard page: the live "Recent Security Activity" feed, a bounded list
 * with the newest event first, and the two display rules of the page (the
 * severity badge and the "from yesterday" change line of the stat cards).
 */
module Dashboard {

  datatype Severity = High | Medium | Low | Info

  /** An entry of the feed (its icon, a rendered element, is not modelled). */
  datatype Activity = Activity(id: string, time: string, event: string, severity: Severity)

  /** The feed never holds more than this many events. */
  const MaxActivities: nat := 10

  function InitialActivities(): seq<Activity>
  {
    [ Activity("evt1", "10:45 AM", "Unusual login attempt from IP 192.168.1.100", High),
      Activity("evt2", "10:30 AM", "Port scan detected on port 80", Medium),
      Activity("evt3", "09:15 AM", "Firewall rule 'Block All Inbound Port 22' updated", Low),
      Activity("evt4", "08:00 AM", "Anomaly detected: High outbound traffic to unknown IP", High) ]
  }

  function Min(a: int, b: int): int { if a <= b then a else b }

  /** The event a tick produces, from the tick's id, time and random address. */
  function LoginEvent(id: string, time: string, ip: string): (a: Activity)
    ensures a.severity == Info && a.id == id && a.time == time
  {
    Activity(id, time, "New successful login from IP " + ip, Info)
  }

  /** `[e, ...prev].slice(0, MAX_ACTIVITIES)`: the feed after one tick. */
  function Prepended(prev: seq<Activity>, e: Activity): (feed: seq<Activity>)
    ensures |feed| == Min(|prev| + 1, MaxActivities)
    ensures feed[0] == e
    ensures feed[1..] == prev[..|feed| - 1]
  {
    var updated := [e] + prev;
    if |updated| <= MaxActivities then updated else updated[..MaxActivities]
  }

  /** The feed after a run of ticks, `events` in the order they happened. */
  function AfterTicks(feed: seq<Activity>, events: seq<Activity>): seq<Activity>
    decreases |events|
  {
    if events == [] then feed else AfterTicks(Prepended(feed, events[0]), events[1..])
  }

  function Reversed(s: seq<Activity>): (r: seq<Activity>)
    ensures |r| == |s|
  {
    if s == [] then [] else Reversed(s[1..]) + [s[0]]
  }

  /** Prepending to a prefix of `b` is a prefix of `a + b` when the length allows it. */
  lemma PrefixOfPrefix(a: seq<Activity>, b: seq<Activity>, k: nat, n: nat)
    requires k <= |b| && n <= |a| + k
    ensures (a + b[..k])[..n] == (a + b)[..n]
  {
    assert forall i :: 0 <= i < n ==> (a + b[..k])[i] == (a + b)[i];
  }

  /**
   * Whatever the ticks, the feed is the newest events first followed by the
   * original feed, cut at MaxActivities: nothing is reordered or lost before the cut.
   */
  lemma {:induction false} AfterTicksIsNewestFirst(feed: seq<Activity>, events: seq<Activity>)
    requires |feed| <= MaxActivities
    ensures var n := Min(|events| + |feed|, MaxActivities);
      AfterTicks(feed, events) == (Reversed(events) + feed)[..n]
    decreases |events|
  {
    if events != [] {
      var e, rest := events[0], events[1..];
      var next := Prepended(feed, e);
      AfterTicksIsNewestFirst(next, rest);
      var n := Min(|events| + |feed|, MaxActivities);
      // The feed after the first tick is a prefix of [e] + feed.
      assert next == ([e] + feed)[..|next|];
      calc {
        AfterTicks(feed, events);
        AfterTicks(next, rest);
        (Reversed(rest) + next)[..n];
        (Reversed(rest) + ([e] + feed)[..|next|])[..n];
        { PrefixOfPrefix(Reversed(rest), [e] + feed, |next|, n); }
        (Reversed(rest) + ([e] + feed))[..n];
        { assert Reversed(rest) + ([e] + feed) == Reversed(events) + feed; }
        (Reversed(events) + feed)[..n];
      }
    }
  }

  /** The bound holds after any run of ticks, and each tick below the bound adds one. */
  lemma AfterTicksLength(feed: seq<Activity>, events: seq<Activity>)
    requires |feed| <= MaxActivities
    ensures |AfterTicks(feed, events)| == Min(|events| + |feed|, MaxActivities)
    ensures |AfterTicks(feed, events)| <= MaxActivities
  {
    AfterTicksIsNewestFirst(feed, events);
  }

  /** After at least one tick the most recent event heads the feed. */
  lemma AfterTicksNewestFirst(feed: seq<Activity>, events: seq<Activity>)
    requires |feed| <= MaxActivities && events != []
    ensures |AfterTicks(feed, events)| > 0 && AfterTicks(feed, events)[0] == events[|events| - 1]
  {
    AfterTicksIsNewestFirst(feed, events);
    ReversedHead(events);
  }

  lemma {:induction false} ReversedHead(s: seq<Activity>)
    requires s != []
    ensures Reversed(s)[0] == s[|s| - 1]
  {
    if |s| > 1 {
      ReversedHead(s[1..]);
    }
  }

  /** The feed of the page, updated every five seconds by a tick. */
  class ActivityFeed {
    var recentActivities: seq<Activity>

    ghost predicate Valid()
      reads this
    {
      |recentActivities| <= MaxActivities
    }

    constructor ()
      ensures Valid() && recentActivities == InitialActivities()
    {
      recentActivities := InitialActivities();
    }

    /**
     * One tick of the timer: a successful-login event, built from the tick's
     * id, time and address, goes to the front and the feed is cut to the bound.
     */
    method Tick(id: string, time: string, ip: string)
      requires Valid()
      modifies this
      ensures Valid()
      ensures recentActivities == Prepended(old(recentActivities), LoginEvent(id, time, ip))
    {
      var newLoginEvent := LoginEvent(id, time, ip);
      var updated := [newLoginEvent] + recentActivities;
      recentActivities := if |updated| <= MaxActivities then updated else updated[..MaxActivities];
    }
  }

  // ---------------------------------------------------------------------------
  // Display rules

  datatype BadgeVariant = Default | Secondary | Destructive

  /** The badge variant of a severity in the feed table. */
  function SeverityVariant(s: Severity): (v: BadgeVariant)
    ensures v.Destructive? <==> s.High?
    ensures v.Secondary? <==> s.Medium?
    ensures v.Default? <==> (s.Low? || s.Info?)
  {
    if s == High then Destructive
    else if s == Medium then Secondary
    else if s == Info then Default
    else Default
  }

  /** The badge colour class of a severity in the feed table. */
  function SeverityClass(s: Severity): string
  {
    if s == Medium then "bg-yellow-500 text-white"
    else if s == Info then "bg-green-500 text-white"
    else if s == Low then "bg-blue-500 text-white"
    else ""
  }

  /** Every severity but High gets its own colour; High keeps the variant's. */
  lemma SeverityClassDistinct(s: Severity, t: Severity)
    requires s != t
    ensures SeverityClass(s) != SeverityClass(t)
  {
  }

  datatype ChangeType = Positive | Negative

  /** An overview stat card (its icon is not modelled). */
  datatype StatCard = StatCard(title: string, value: string, change: string, changeType: ChangeType)

  function OverviewStats(): seq<StatCard>
  {
    [ StatCard("Total Alerts Today", "12", "+5%", Positive),
      StatCard("Critical Threats", "3", "+1", Negative),
      StatCard("Failed Logins", "27", "-10%", Negative),
      StatCard("Anomalies Detected", "2", "0", Positive) ]
  }

  /** Whether a card renders its "from yesterday" line. */
  predicate ShowsChange(c: StatCard)
  {
    c.change != "0"
  }

  /** Of the four cards only "Anomalies Detected" (change "0") hides its change line. */
  lemma OverviewChangeLines()
    ensures forall i :: 0 <= i < |OverviewStats()| ==>
      (ShowsChange(OverviewStats()[i]) <==> OverviewStats()[i].title != "Anomalies Detected")
  {
  }
}
