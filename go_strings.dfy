/**
 * The handful of functions from Go's `strings` package that the workflow code
 * relies on: `Index`, `Contains`, `HasPrefix`, `TrimPrefix`, `TrimSuffix`,
 * `Split` and `ReplaceAll`. All of them are defined through `IndexOf`, the
 * leftmost occurrence of a non-empty separator, which is how Go scans.
 */
module GoStrings {
  import opened Wrappers

  /** True when `t` occurs in `s` starting at position `j`. */
  predicate OccursAt(s: string, t: string, j: int) {
    0 <= j && j + |t| <= |s| && s[j..j + |t|] == t
  }

  /** `strings.Index`: the leftmost position at which `t` occurs in `s`. */
  function IndexOf(s: string, t: string): (r: Option<nat>)
    ensures r.Some? ==> OccursAt(s, t, r.value)
    ensures r.Some? ==> forall j :: 0 <= j < r.value ==> !OccursAt(s, t, j)
    ensures r.None? ==> forall j :: !OccursAt(s, t, j)
    decreases |s|
  {
    if |s| < |t| then None
    else if s[..|t|] == t then Some(0)
    else
      match IndexOf(s[1..], t)
      case None =>
        assert forall j :: !OccursAt(s, t, j) by {
          forall j | OccursAt(s, t, j) ensures false {
            if j > 0 {
              assert s[1..][j - 1..j - 1 + |t|] == s[j..j + |t|];
              assert OccursAt(s[1..], t, j - 1);
            }
          }
        }
        None
      case Some(k) =>
        assert s[1..][k..k + |t|] == s[k + 1..k + 1 + |t|];
        assert forall j :: 0 <= j < k + 1 ==> !OccursAt(s, t, j) by {
          forall j | 0 <= j < k + 1 && OccursAt(s, t, j) ensures false {
            if j > 0 {
              assert s[1..][j - 1..j - 1 + |t|] == s[j..j + |t|];
              assert OccursAt(s[1..], t, j - 1);
            }
          }
        }
        Some(k + 1)
  }

  /** `strings.Contains`. */
  predicate Contains(s: string, t: string) {
    IndexOf(s, t).Some?
  }

  /** `strings.HasPrefix`. */
  predicate HasPrefix(s: string, p: string) {
    |p| <= |s| && s[..|p|] == p
  }

  /** `strings.HasSuffix`. */
  predicate HasSuffix(s: string, p: string) {
    |p| <= |s| && s[|s| - |p|..] == p
  }

  /** `strings.TrimPrefix`: drops one leading `p`, if there is one. */
  function TrimPrefix(s: string, p: string): (r: string)
    ensures HasPrefix(s, p) ==> s == p + r
    ensures !HasPrefix(s, p) ==> r == s
  {
    if HasPrefix(s, p) then s[|p|..] else s
  }

  /** `strings.TrimSuffix`: drops one trailing `p`, if there is one. */
  function TrimSuffix(s: string, p: string): (r: string)
    ensures HasSuffix(s, p) ==> s == r + p
    ensures !HasSuffix(s, p) ==> r == s
  {
    if HasSuffix(s, p) then s[..|s| - |p|] else s
  }

  /** `strings.Split` for a non-empty separator: the pieces between the
      successive leftmost, non-overlapping occurrences of `sep`. */
  function Split(s: string, sep: string): (r: seq<string>)
    requires |sep| > 0
    ensures |r| >= 1
    decreases |s|
  {
    match IndexOf(s, sep)
    case None => [s]
    case Some(i) => [s[..i]] + Split(s[i + |sep|..], sep)
  }

  /** `strings.Join`, the inverse of `Split`. */
  function Join(parts: seq<string>, sep: string): string
    requires |parts| >= 1
  {
    if |parts| == 1 then parts[0] else parts[0] + sep + Join(parts[1..], sep)
  }

  /** `strings.ReplaceAll` for a non-empty `old`: every leftmost,
      non-overlapping occurrence of `old` is replaced by `new`. */
  function ReplaceAll(s: string, target: string, repl: string): string
    requires |target| > 0
    decreases |s|
  {
    match IndexOf(s, target)
    case None => s
    case Some(i) => s[..i] + repl + ReplaceAll(s[i + |target|..], target, repl)
  }

  /** Number of pieces `Split` yields: one more than the number of separators found. */
  function CountOccurrences(s: string, sep: string): nat
    requires |sep| > 0
    decreases |s|
  {
    match IndexOf(s, sep)
    case None => 0
    case Some(i) => 1 + CountOccurrences(s[i + |sep|..], sep)
  }

  /** Splitting and re-joining with the same separator gives the string back. */
  lemma {:induction false} SplitJoin(s: string, sep: string)
    requires |sep| > 0
    ensures Join(Split(s, sep), sep) == s
    decreases |s|
  {
    match IndexOf(s, sep)
    case None =>
    case Some(i) =>
      var rest := s[i + |sep|..];
      var tail := Split(rest, sep);
      SplitJoin(rest, sep);
      assert Split(s, sep) == [s[..i]] + tail;
      JoinCons(s[..i], tail, sep);
      assert s[i..i + |sep|] == sep;
      assert s == s[..i] + s[i..i + |sep|] + rest;
  }

  /** Joining a head and at least one more part. */
  lemma JoinCons(a: string, parts: seq<string>, sep: string)
    requires |parts| >= 1
    ensures Join([a] + parts, sep) == a + sep + Join(parts, sep)
  {
    assert ([a] + parts)[1..] == parts;
  }

  /** No piece produced by `Split` contains the separator. */
  lemma {:induction false} SplitPiecesFree(s: string, sep: string)
    requires |sep| > 0
    ensures forall p :: p in Split(s, sep) ==> !Contains(p, sep)
    decreases |s|
  {
    match IndexOf(s, sep)
    case None =>
    case Some(i) =>
      SplitPiecesFree(s[i + |sep|..], sep);
      forall j | OccursAt(s[..i], sep, j) ensures false {
        assert s[..i][j..j + |sep|] == s[j..j + |sep|];
        assert OccursAt(s, sep, j);
      }
  }

  /** `Split` yields one piece per separator occurrence, plus one. */
  lemma {:induction false} SplitCount(s: string, sep: string)
    requires |sep| > 0
    ensures |Split(s, sep)| == CountOccurrences(s, sep) + 1
    decreases |s|
  {
    match IndexOf(s, sep)
    case None =>
    case Some(i) => SplitCount(s[i + |sep|..], sep);
  }

  /** A string without the separator is its own single piece. */
  lemma SplitNoSeparator(s: string, sep: string)
    requires |sep| > 0 && !Contains(s, sep)
    ensures Split(s, sep) == [s]
  {
  }

  /** `ReplaceAll` is `Split` followed by `Join` with the replacement. */
  lemma {:induction false} ReplaceAllIsSplitJoin(s: string, target: string, repl: string)
    requires |target| > 0
    ensures ReplaceAll(s, target, repl) == Join(Split(s, target), repl)
    decreases |s|
  {
    match IndexOf(s, target)
    case None =>
    case Some(i) => ReplaceAllIsSplitJoin(s[i + |target|..], target, repl);
  }

  /** Replacing with the empty string never makes a string longer, and
      each removal shortens it by at least the length of `target`. */
  lemma {:induction false} ReplaceAllRemoveLength(s: string, target: string)
    requires |target| > 0
    ensures |ReplaceAll(s, target, "")| <= |s|
    ensures Contains(s, target) ==> |ReplaceAll(s, target, "")| + |target| <= |s|
    decreases |s|
  {
    match IndexOf(s, target)
    case None =>
    case Some(i) =>
      var rest := s[i + |target|..];
      ReplaceAllRemoveLength(rest, target);
      assert |ReplaceAll(s, target, "")| == i + |ReplaceAll(rest, target, "")|;
  }

  /** Text before the first occurrence of `old` is left alone by `ReplaceAll`. */
  lemma ReplaceAllKeepsPrefix(s: string, target: string, repl: string, i: nat)
    requires |target| > 0 && IndexOf(s, target) == Some(i)
    ensures |ReplaceAll(s, target, repl)| >= i
    ensures ReplaceAll(s, target, repl)[..i] == s[..i]
  {
  }

  /** When the first character of `t` does not occur in `p`, the leftmost
      occurrence of `t` in `p + rest` is found in `rest`. */
  /** The leftmost occurrence is the one with no occurrence before it. */
  lemma FirstOccurrence(str: string, t: string, i: nat)
    requires OccursAt(str, t, i)
    requires forall j :: 0 <= j < i ==> !OccursAt(str, t, j)
    ensures IndexOf(str, t) == Some(i)
  {
    var r := IndexOf(str, t);
    assert r != None;
    assert !(r.value < i);
    assert !(r.value > i);
  }
  /** Behind a prefix that lacks the head of `t`, `t` occurs in `p + rest`
      exactly where it occurs in `rest`, shifted. */
  lemma OccursAfterPrefix(p: string, rest: string, t: string)
    requires |t| > 0 && t[0] !in p
    ensures forall j :: 0 <= j < |p| ==> !OccursAt(p + rest, t, j)
    ensures forall j :: |p| <= j ==> (OccursAt(p + rest, t, j) <==> OccursAt(rest, t, j - |p|))
  {
    var s := p + rest;
    forall j | 0 <= j < |p| ensures !OccursAt(s, t, j) {
      if j + |t| <= |s| {
        assert s[j..j + |t|][0] == p[j];
        assert p[j] in p;
      }
    }
    forall j | |p| <= j ensures OccursAt(s, t, j) <==> OccursAt(rest, t, j - |p|) {
      if j + |t| <= |s| {
        assert s[j..j + |t|] == rest[j - |p|..j - |p| + |t|];
      }
    }
  }

  /** Where `t` occurs nowhere, `strings.Index` finds nothing. */
  lemma NoOccurrence(s: string, t: string)
    requires forall j :: !OccursAt(s, t, j)
    ensures IndexOf(s, t).None?
  {
  }

  lemma IndexOfSkips(p: string, rest: string, t: string)
    requires |t| > 0 && t[0] !in p
    ensures IndexOf(p + rest, t) ==
      match IndexOf(rest, t) case None => None case Some(j) => Some(|p| + j)
  {
    var s := p + rest;
    OccursAfterPrefix(p, rest, t);
    match IndexOf(rest, t)
    case None =>
      forall j ensures !OccursAt(s, t, j) {
        if j >= |p| {
          assert !OccursAt(rest, t, j - |p|);
        }
      }
      NoOccurrence(s, t);
    case Some(k) =>
      FirstOccurrence(s, t, |p| + k);
  }

  /** A string lacking the first character of `t` does not contain `t`. */
  lemma NotContainsWithoutHead(s: string, t: string)
    requires |t| > 0 && t[0] !in s
    ensures !Contains(s, t)
  {
    forall j ensures !OccursAt(s, t, j) {
      if 0 <= j && j + |t| <= |s| {
        assert s[j..j + |t|][0] == s[j];
        assert s[j] in s;
      }
    }
  }

  /** Splitting `a + sep + b` gives back `[a, b]` when the separator's first
      character occurs in neither part. */
  lemma SplitAround(a: string, b: string, sep: string)
    requires |sep| > 0 && sep[0] !in a && sep[0] !in b
    ensures Split(a + sep + b, sep) == [a, b]
  {
    var s := a + sep + b;
    assert s == a + (sep + b);
    IndexOfSkips(a, sep + b, sep);
    assert (sep + b)[..|sep|] == sep;
    assert IndexOf(sep + b, sep) == Some(0);
    assert IndexOf(s, sep) == Some(|a|);
    assert s[..|a|] == a;
    assert s[|a| + |sep|..] == b;
    NotContainsWithoutHead(b, sep);
    calc {
      Split(s, sep);
      [s[..|a|]] + Split(s[|a| + |sep|..], sep);
      [a] + Split(b, sep);
      [a] + [b];
    }
  }
}
