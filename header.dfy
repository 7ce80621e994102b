/**
 * The title shown in the page header, derived from the current path:
 * "/firewall" and "/" have fixed titles; any other path is split on '/',
 * empty segments are dropped, each '-' becomes a space, each segment is
 * capitalized and the segments are joined with " / ".
 *
 * `capitalize` comes from a utility module outside this model, so it is a
 * parameter of every function that uses it and the lemmas hold for any choice.
 */
module Header {

  const FirewallPath: string := "/firewall"
  const FirewallTitle: string := "Firewall Configuration"
  const DefaultTitle: string := "Dashboard"
  const TitleSeparator: string := " / "

  /** `s.split(sep)` for a one-character separator: always at least one part. */
  function Split(s: string, sep: char): (parts: seq<string>)
    ensures |parts| >= 1
    ensures forall i :: 0 <= i < |parts| ==> sep !in parts[i]
  {
    if s == [] then [""]
    else if s[0] == sep then [""] + Split(s[1..], sep)
    else
      var rest := Split(s[1..], sep);
      [[s[0]] + rest[0]] + rest[1..]
  }

  /** `parts.join(sep)` */
  function Join(parts: seq<string>, sep: string): string
  {
    if parts == [] then ""
    else if |parts| == 1 then parts[0]
    else parts[0] + sep + Join(parts[1..], sep)
  }

  /** The number of empty strings among the parts. */
  function CountEmpty(parts: seq<string>): nat
  {
    if parts == [] then 0 else (if parts[0] == "" then 1 else 0) + CountEmpty(parts[1..])
  }

  /**
   * `parts.filter(Boolean)`: the non-empty strings, in order (the order is
   * fixed by NonEmptyAppend).
   */
  function NonEmpty(parts: seq<string>): (r: seq<string>)
    ensures |r| == |parts| - CountEmpty(parts)
    ensures forall i :: 0 <= i < |r| ==> r[i] != ""
    ensures forall x :: x in r <==> x in parts && x != ""
  {
    if parts == [] then []
    else if parts[0] != "" then [parts[0]] + NonEmpty(parts[1..])
    else NonEmpty(parts[1..])
  }

  /** `s.replace(/-/g, " ")` */
  function DashesToSpaces(s: string): (r: string)
    ensures |r| == |s|
    ensures forall i :: 0 <= i < |s| ==> r[i] == if s[i] == '-' then ' ' else s[i]
  {
    if s == [] then [] else [if s[0] == '-' then ' ' else s[0]] + DashesToSpaces(s[1..])
  }

  /** `segments.map(s => capitalize(s.replace(/-/g, " ")))` */
  function SegmentTitles(segments: seq<string>, capitalize: string -> string): (r: seq<string>)
    ensures |r| == |segments|
    ensures forall i :: 0 <= i < |segments| ==> r[i] == capitalize(DashesToSpaces(segments[i]))
  {
    if segments == [] then []
    else [capitalize(DashesToSpaces(segments[0]))] + SegmentTitles(segments[1..], capitalize)
  }

  /** The header title of a path. */
  function PageTitle(pathname: string, capitalize: string -> string): string
  {
    if pathname == FirewallPath then FirewallTitle
    else if pathname == "/" then DefaultTitle
    else
      var segments := NonEmpty(Split(pathname, '/'));
      if |segments| > 0 then Join(SegmentTitles(segments, capitalize), TitleSeparator)
      else DefaultTitle
  }

  // ---------------------------------------------------------------------------
  // Split and Join

  /** Joining the parts of a split with the separator gives the string back. */
  lemma {:induction false} JoinSplit(s: string, sep: char)
    ensures Join(Split(s, sep), [sep]) == s
  {
    if s != [] {
      var rest := Split(s[1..], sep);
      JoinSplit(s[1..], sep);
      if s[0] == sep {
        assert Split(s, sep) == [""] + rest;
        assert Join([""] + rest, [sep]) == "" + [sep] + Join(rest, [sep]);
      } else {
        var parts := Split(s, sep);
        assert parts == [[s[0]] + rest[0]] + rest[1..];
        if |rest| == 1 {
          assert Join(parts, [sep]) == [s[0]] + rest[0];
        } else {
          assert parts[1..] == rest[1..];
          assert Join(rest, [sep]) == rest[0] + [sep] + Join(rest[1..], [sep]);
        }
      }
    }
  }

  /** A string without the separator splits into itself. */
  lemma {:induction false} SplitPlain(s: string, sep: char)
    requires sep !in s
    ensures Split(s, sep) == [s]
  {
    if s != [] {
      assert sep !in s[1..] by { assert forall c :: c in s[1..] ==> c in s; }
      SplitPlain(s[1..], sep);
      assert s[0] != sep;
      assert [s[0]] + s[1..] == s;
    }
  }

  /** Splitting `x + sep + y`, where `x` has no separator, yields `x` then the parts of `y`. */
  lemma {:induction false} SplitAtFirst(x: string, y: string, sep: char)
    requires sep !in x
    ensures Split(x + [sep] + y, sep) == [x] + Split(y, sep)
  {
    if x == [] {
      assert x + [sep] + y == [sep] + y;
    } else {
      assert sep !in x[1..] by { assert forall c :: c in x[1..] ==> c in x; }
      var z := x + [sep] + y;
      SplitAtFirst(x[1..], y, sep);
      assert z[0] == x[0] != sep;
      assert z[1..] == x[1..] + [sep] + y;
      var rest := Split(z[1..], sep);
      assert rest == [x[1..]] + Split(y, sep);
      assert Split(z, sep) == [[x[0]] + rest[0]] + rest[1..];
      assert [x[0]] + x[1..] == x;
    }
  }

  /** Splitting a join of separator-free parts gives the parts back. */
  lemma {:induction false} SplitJoin(parts: seq<string>, sep: char)
    requires |parts| >= 1
    requires forall i :: 0 <= i < |parts| ==> sep !in parts[i]
    ensures Split(Join(parts, [sep]), sep) == parts
  {
    if |parts| == 1 {
      SplitPlain(parts[0], sep);
    } else {
      SplitJoin(parts[1..], sep);
      SplitAtFirst(parts[0], Join(parts[1..], [sep]), sep);
    }
  }

  // ---------------------------------------------------------------------------
  // Titles

  /** Only the fixed "/firewall" title is not derived from segments. */
  lemma FirewallTitleFixed(capitalize: string -> string)
    ensures PageTitle(FirewallPath, capitalize) == FirewallTitle
    ensures PageTitle("/", capitalize) == DefaultTitle
  {
  }

  /** A path has no non-empty segment exactly when it is made of '/' only. */
  lemma {:induction false} NoSegmentsIffSlashes(pathname: string)
    ensures NonEmpty(Split(pathname, '/')) == [] <==> forall i :: 0 <= i < |pathname| ==> pathname[i] == '/'
  {
    if pathname != [] {
      NoSegmentsIffSlashes(pathname[1..]);
      var rest := Split(pathname[1..], '/');
      if pathname[0] != '/' {
        var parts := Split(pathname, '/');
        assert parts[0] == [pathname[0]] + rest[0] && parts[0] != "";
        assert parts[0] in NonEmpty(parts);
      } else {
        assert Split(pathname, '/') == [""] + rest;
        assert NonEmpty([""] + rest) == NonEmpty(rest);
        assert forall i :: 0 < i < |pathname| ==> pathname[i] == pathname[1..][i - 1];
      }
    }
  }

  /** A path of slashes only, such as "//", keeps the default title. */
  lemma SlashesOnlyIsDashboard(pathname: string, capitalize: string -> string)
    requires forall i :: 0 <= i < |pathname| ==> pathname[i] == '/'
    ensures PageTitle(pathname, capitalize) == DefaultTitle
  {
    NoSegmentsIffSlashes(pathname);
  }

  /**
   * The non-empty segments of "/" + s1 + "/" + ... + "/" + sn, where the si are
   * non-empty and free of '/', are s1, ..., sn: none is dropped, added or reordered.
   */
  lemma SegmentsOfPath(segments: seq<string>)
    requires |segments| >= 1
    requires forall i :: 0 <= i < |segments| ==> segments[i] != "" && '/' !in segments[i]
    ensures NonEmpty(Split("/" + Join(segments, "/"), '/')) == segments
  {
    var joined := Join(segments, "/");
    SplitJoin(segments, '/');
    SplitAtFirst("", joined, '/');
    assert "" + ['/'] + joined == "/" + joined;
    AllNonEmpty(segments);
    assert NonEmpty([""] + segments) == NonEmpty(segments);
  }

  /**
   * For such a path (other than "/firewall") the title lists its segments in
   * path order, each with its dashes turned into spaces and capitalized.
   */
  lemma SegmentsInPathOrder(pathname: string, segments: seq<string>, capitalize: string -> string)
    requires |segments| >= 1
    requires forall i :: 0 <= i < |segments| ==> segments[i] != "" && '/' !in segments[i]
    requires pathname == "/" + Join(segments, "/") && pathname != FirewallPath
    ensures PageTitle(pathname, capitalize) == Join(SegmentTitles(segments, capitalize), TitleSeparator)
  {
    JoinNonEmpty(segments, "/");
    assert |pathname| >= 2;
    SegmentsOfPath(segments);
    DerivedTitle(pathname, segments, capitalize);
  }

  /** PageTitle's derived branch, as a step for SegmentsInPathOrder. */
  lemma DerivedTitle(pathname: string, segments: seq<string>, capitalize: string -> string)
    requires pathname != FirewallPath && pathname != "/"
    requires NonEmpty(Split(pathname, '/')) == segments && |segments| > 0
    ensures PageTitle(pathname, capitalize) == Join(SegmentTitles(segments, capitalize), TitleSeparator)
  {
  }

  lemma {:induction false} AllNonEmpty(parts: seq<string>)
    requires forall i :: 0 <= i < |parts| ==> parts[i] != ""
    ensures NonEmpty(parts) == parts
  {
    if parts != [] {
      AllNonEmpty(parts[1..]);
    }
  }

  lemma JoinNonEmpty(parts: seq<string>, sep: string)
    requires |parts| >= 1 && parts[0] != ""
    ensures |Join(parts, sep)| >= 1
  {
  }

  /** The filter distributes over concatenation: it keeps each part's non-empty strings in order. */
  lemma {:induction false} NonEmptyAppend(a: seq<string>, b: seq<string>)
    ensures NonEmpty(a + b) == NonEmpty(a) + NonEmpty(b)
  {
    if a != [] {
      assert (a + b)[0] == a[0] && (a + b)[1..] == a[1..] + b;
      NonEmptyAppend(a[1..], b);
    } else {
      assert a + b == b;
    }
  }

  /** Splitting at any separator occurrence: the parts of the two sides, one after the other. */
  lemma {:induction false} SplitAtSeparator(x: string, y: string, sep: char)
    ensures Split(x + [sep] + y, sep) == Split(x, sep) + Split(y, sep)
  {
    var z := x + [sep] + y;
    if x == [] {
      assert z == [sep] + y && z[1..] == y;
    } else {
      assert z[0] == x[0] && z[1..] == x[1..] + [sep] + y;
      SplitAtSeparator(x[1..], y, sep);
      if x[0] != sep {
        var rest := Split(z[1..], sep);
        var left := Split(x[1..], sep);
        assert rest == left + Split(y, sep);
        assert rest[0] == left[0] && rest[1..] == left[1..] + Split(y, sep);
      }
    }
  }

  /**
   * The segments of any path `p + "/" + q` are those of `p` followed by those
   * of `q`: whatever slashes surround them ("/a/", "/a//b"), segments keep
   * their order and none is dropped or duplicated.
   */
  lemma SegmentsAcrossSlash(p: string, q: string)
    ensures NonEmpty(Split(p + "/" + q, '/')) == NonEmpty(Split(p, '/')) + NonEmpty(Split(q, '/'))
  {
    SplitAtSeparator(p, q, '/');
    NonEmptyAppend(Split(p, '/'), Split(q, '/'));
  }
}
