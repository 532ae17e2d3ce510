/**
 * `trim` of the shared executor helpers (`pkg/node/nodes/helper.go`), which
 * `Evaluate` applies to strip the `$formData.` and `$variable.` qualifiers
 * from a rewritten rule before handing it to the expression library.
 *
 * `Trim`/`TrimAsWritten` follow the code: after the first occurrence `i` of
 * `sub`, every '.' at a position `j` removes every occurrence of
 * `str[i..j+1]`, and the scan goes on over the shortened string. So a later
 * '.', such as the one in a decimal literal, removes everything from the
 * reference up to it (`TrimEatsDecimalLiteral`). `TrimOnce` is the evident
 * intent: strip the segment up to the first '.', once.
 */
module NodesHelper {
  import opened Wrappers
  import opened GoStrings

  /** The scan of `trim` from position `j`, with `i` the start of `sub`. */
  function TrimLoop(str: string, i: nat, j: nat): (r: string)
    requires i <= j
    ensures |r| <= |str|
    decreases |str| - j
  {
    if j >= |str| then str
    else if str[j] == '.' then
      var t := ReplaceAll(str, str[i..j + 1], "");
      ReplaceAllRemoveLength(str, str[i..j + 1]);
      TrimLoop(t, i, j + 1)
    else TrimLoop(str, i, j + 1)
  }

  /** `trim` as written: nothing happens unless `sub` occurs at a positive index. */
  function TrimAsWritten(str: string, sub: string): (r: string)
    ensures |r| <= |str|
  {
    match IndexOf(str, sub)
    case Some(i) => if i > 0 then TrimLoop(str, i, i) else str
    case None => str
  }

  /** `trim`: the loop over a string that shrinks under it. */
  method Trim(str0: string, sub: string) returns (str: string)
    ensures str == TrimAsWritten(str0, sub)
  {
    str := str0;
    var found := IndexOf(str, sub);
    if found.Some? && found.value > 0 {
      var i := found.value;
      var j := i;
      while j < |str|
        invariant i <= j
        invariant TrimLoop(str, i, j) == TrimLoop(str0, i, i)
        decreases |str| - j
      {
        if str[j] == '.' {
          ReplaceAllRemoveLength(str, str[i..j + 1]);
          var t := ReplaceAll(str, str[i..j + 1], "");
          assert TrimLoop(str, i, j) == TrimLoop(t, i, j + 1);
          str := t;
        } else {
          assert TrimLoop(str, i, j) == TrimLoop(str, i, j + 1);
        }
        j := j + 1;
      }
    }
  }

  /** Without `sub`, or with `sub` at the very start, `trim` changes nothing. */
  lemma TrimNeedsInnerReference(str: string, sub: string)
    requires IndexOf(str, sub).None? || IndexOf(str, sub) == Some(0)
    ensures TrimAsWritten(str, sub) == str
  {
  }

  /** A scan over a stretch without '.' changes nothing. */
  lemma {:induction false} TrimLoopNoDot(str: string, i: nat, j: nat)
    requires i <= j
    requires forall k :: j <= k < |str| ==> str[k] != '.'
    ensures TrimLoop(str, i, j) == str
    decreases |str| - j
  {
    if j < |str| {
      TrimLoopNoDot(str, i, j + 1);
    }
  }

  /** With no '.' after the first occurrence of `sub`, `trim` changes nothing. */
  lemma TrimWithoutDot(str: string, sub: string)
    requires IndexOf(str, sub).Some?
    requires forall k :: IndexOf(str, sub).value <= k < |str| ==> str[k] != '.'
    ensures TrimAsWritten(str, sub) == str
  {
    var i := IndexOf(str, sub).value;
    if i > 0 {
      TrimLoopNoDot(str, i, i);
    }
  }

  /** The scan skips over characters that are not '.'. */
  lemma {:induction false} TrimLoopSkips(str: string, i: nat, j: nat, d: nat)
    requires i <= j <= d < |str|
    requires forall k :: j <= k < d ==> str[k] != '.'
    ensures TrimLoop(str, i, j) == TrimLoop(str, i, d)
    decreases d - j
  {
    if j < d {
      TrimLoopSkips(str, i, j + 1, d);
    }
  }


  /** Where a segment occurs, so does each of its prefixes. */
  lemma PrefixOccurs(str: string, sub: string, seg: string, j: int)
    requires |sub| <= |seg| && seg[..|sub|] == sub && OccursAt(str, seg, j)
    ensures OccursAt(str, sub, j)
  {
    assert str[j..j + |seg|][..|sub|] == str[j..j + |sub|];
  }

  /** A segment that starts with `sub` and occurs where `sub` first occurs
      has its own first occurrence there. */
  lemma SegmentFirstAt(str: string, sub: string, seg: string, i: nat)
    requires IndexOf(str, sub) == Some(i)
    requires |sub| <= |seg| && seg[..|sub|] == sub && OccursAt(str, seg, i)
    ensures IndexOf(str, seg) == Some(i)
  {
    forall j | 0 <= j < i ensures !OccursAt(str, seg, j) {
      if OccursAt(str, seg, j) {
        PrefixOccurs(str, sub, seg, j);
      }
    }
    FirstOccurrence(str, seg, i);
  }

  /** The first '.' at or after the occurrence of `sub` at `i` (with no '.'
      inside `sub`) removes every occurrence of the segment `str[i..d+1]`,
      leaving the text before `i` alone, and the scan goes on after it. */
  lemma TrimFirstDot(str: string, sub: string, d: nat)
    requires |sub| > 0 && '.' !in sub
    requires IndexOf(str, sub).Some? && IndexOf(str, sub).value > 0
    requires IndexOf(str, sub).value <= d < |str| && str[d] == '.'
    requires forall k :: IndexOf(str, sub).value <= k < d ==> str[k] != '.'
    ensures var i := IndexOf(str, sub).value;
      var t := ReplaceAll(str, str[i..d + 1], "");
      && TrimAsWritten(str, sub) == TrimLoop(t, i, d + 1)
      && |t| >= i && t[..i] == str[..i]
  {
    var i := IndexOf(str, sub).value;
    var seg := str[i..d + 1];
    DotAfterReference(str, sub, i, d);
    SegmentFirstAt(str, sub, seg, i);
    ReplaceAllKeepsPrefix(str, seg, "", i);
    TrimLoopSkips(str, i, i, d);
    assert TrimAsWritten(str, sub) == TrimLoop(str, i, i);
    assert TrimLoop(str, i, d) == TrimLoop(ReplaceAll(str, seg, ""), i, d + 1);
  }

  /** The first '.' after an occurrence of a dot-free `sub` lies past it, so
      the segment up to it starts with `sub`. */
  lemma DotAfterReference(str: string, sub: string, i: nat, d: nat)
    requires '.' !in sub && OccursAt(str, sub, i)
    requires i <= d < |str| && str[d] == '.'
    ensures d >= i + |sub| && str[i..d + 1][..|sub|] == sub && OccursAt(str, str[i..d + 1], i)
  {
    forall k | i <= k < i + |sub| ensures str[k] != '.' {
      assert str[k] == sub[k - i];
      assert sub[k - i] in sub;
    }
  }

  /** When the head of `t` is not in `p`, `t` first occurs right after `p`. */
  lemma FirstAfter(p: string, t: string, rest: string)
    requires |t| > 0 && t[0] !in p
    ensures IndexOf(p + t + rest, t) == Some(|p|)
  {
    assert p + t + rest == p + (t + rest);
    IndexOfSkips(p, t + rest, t);
    assert (t + rest)[..|t|] == t;
    assert IndexOf(t + rest, t) == Some(0);
  }

  /** Replacing a `t` whose head occurs nowhere else removes just that `t`. */
  lemma RemoveOnly(p: string, t: string, rest: string)
    requires |t| > 0 && t[0] !in p && t[0] !in rest
    ensures ReplaceAll(p + t + rest, t, "") == p + rest
  {
    RemoveAfter(p, t, rest);
    NotContainsWithoutHead(rest, t);
  }

  /** `$x` first occurs at 1, and the scan goes straight to the '.' after it. */
  lemma EatStep0()
    ensures TrimAsWritten("[$x.a]>1.5", "$x") == TrimLoop("[$x.a]>1.5", 1, 3)
  {
    var s := "[$x.a]>1.5";
    assert s == "[" + "$x" + ".a]>1.5";
    FirstAfter("[", "$x", ".a]>1.5");
    assert s[1] != '.' && s[2] != '.';
    TrimLoopSkips(s, 1, 1, 3);
  }

  /** At a '.' that ends a segment found nowhere else, the scan removes
      that segment and moves past it. */
  lemma DotStep(p: string, seg: string, rest: string)
    requires |p| > 0 && |seg| > 0 && seg[|seg| - 1] == '.'
    requires seg[0] !in p && seg[0] !in rest
    ensures TrimLoop(p + seg + rest, |p|, |p| + |seg| - 1) == TrimLoop(p + rest, |p|, |p| + |seg|)
  {
    var str := p + seg + rest;
    assert str[|p| + |seg| - 1] == '.';
    assert str[|p|..|p| + |seg|] == seg;
    RemoveOnly(p, seg, rest);
  }

  /** The '.' of `$x.` strips `$x.`. */
  lemma EatStep1()
    ensures TrimLoop("[$x.a]>1.5", 1, 3) == TrimLoop("[a]>1.5", 1, 4)
  {
    assert "[$x.a]>1.5" == "[" + "$x." + "a]>1.5";
    assert "[a]>1.5" == "[" + "a]>1.5";
    DotStep("[", "$x.", "a]>1.5");
  }

  /** The scan then reaches the '.' of the literal, which strips `a]>1.`. */
  lemma EatStep2()
    ensures TrimLoop("[a]>1.5", 1, 4) == "[5"
  {
    var t1 := "[a]>1.5";
    assert t1[4] != '.';
    TrimLoopSkips(t1, 1, 4, 5);
    assert t1 == "[" + "a]>1." + "5";
    assert "[5" == "[" + "5";
    DotStep("[", "a]>1.", "5");
    assert TrimLoop("[5", 1, 6) == "[5";
  }

  /** A rule `[$x.a]>1.5` trimmed of `$x` collapses to `[5`: the first '.'
      strips `$x.`, and the '.' of the literal then strips `a]>1.`. */
  lemma TrimEatsDecimalLiteral()
    ensures TrimAsWritten("[$x.a]>1.5", "$x") == "[5"
  {
    EatStep0();
    EatStep1();
    EatStep2();
  }

  /** The first '.' at or after position `j`, if any. */
  function DotFrom(str: string, j: nat): (r: Option<nat>)
    ensures r.Some? ==> j <= r.value < |str| && str[r.value] == '.'
                        && forall k :: j <= k < r.value ==> str[k] != '.'
    ensures r.None? ==> forall k :: j <= k < |str| ==> str[k] != '.'
    decreases |str| - j
  {
    if j >= |str| then None
    else if str[j] == '.' then Some(j)
    else DotFrom(str, j + 1)
  }

  /** `trim` as intended: strip every occurrence of the segment from the
      first occurrence of `sub` (at a positive index) to the '.' after it,
      and stop there. */
  function TrimOnce(str: string, sub: string): (r: string)
    ensures |r| <= |str|
  {
    match IndexOf(str, sub)
    case None => str
    case Some(i) =>
      if i == 0 then str
      else match DotFrom(str, i)
        case None => str
        case Some(d) =>
          ReplaceAllRemoveLength(str, str[i..d + 1]);
          ReplaceAll(str, str[i..d + 1], "")
  }

  /** `DotFrom` finds the first '.' from `j`. */
  lemma DotFromFinds(str: string, j: nat, d: nat)
    requires j <= d < |str| && str[d] == '.'
    requires forall k :: j <= k < d ==> str[k] != '.'
    ensures DotFrom(str, j) == Some(d)
  {
    var r := DotFrom(str, j);
    assert r != None;
    assert !(r.value < d);
    assert !(r.value > d);
  }

  /** Removing every `t` from `p + t + rest`, when the head of `t` is not in `p`. */
  lemma RemoveAfter(p: string, t: string, rest: string)
    requires |t| > 0 && t[0] !in p
    ensures ReplaceAll(p + t + rest, t, "") == p + ReplaceAll(rest, t, "")
  {
    var s := p + t + rest;
    FirstAfter(p, t, rest);
    assert s[..|p|] == p;
    assert s[|p| + |t|..] == rest;
    calc {
      ReplaceAll(s, t, "");
      s[..|p|] + "" + ReplaceAll(s[|p| + |t|..], t, "");
      p + "" + ReplaceAll(rest, t, "");
      { assert p + "" == p; }
      p + ReplaceAll(rest, t, "");
    }
  }

  /** The intended trim strips the qualifier `sub.` from every reference and
      leaves the text before the first one, and everything else, alone: for
      `p + sub + "." + rest` it yields `p` followed by `rest` with every
      `sub.` removed. */
  lemma TrimOnceStripsQualifier(p: string, sub: string, rest: string)
    requires |p| > 0 && |sub| > 0 && '.' !in sub && sub[0] !in p
    ensures TrimOnce(p + sub + "." + rest, sub) == p + ReplaceAll(rest, sub + ".", "")
  {
    var seg := sub + ".";
    var s := p + seg + rest;
    assert p + sub + "." + rest == s == p + sub + ("." + rest);
    FirstAfter(p, sub, "." + rest);
    forall k | |p| <= k < |p| + |sub| ensures s[k] != '.' {
      assert s[k] == sub[k - |p|];
      assert sub[k - |p|] in sub;
    }
    DotFromFinds(s, |p|, |p| + |sub|);
    assert s[|p|..|p| + |sub| + 1] == seg;
    RemoveAfter(p, seg, rest);
  }

  /** With a single reference, the intended trim strips just its qualifier. */
  lemma TrimOnceSingle(p: string, sub: string, rest: string)
    requires |p| > 0 && |sub| > 0 && '.' !in sub && sub[0] !in p && sub[0] !in rest
    ensures TrimOnce(p + sub + "." + rest, sub) == p + rest
  {
    TrimOnceStripsQualifier(p, sub, rest);
    NotContainsWithoutHead(rest, sub + ".");
  }

  /** On the rule above the intended trim keeps the comparison intact. */
  lemma TrimOnceKeepsDecimalLiteral()
    ensures TrimOnce("[$x.a]>1.5", "$x") == "[a]>1.5"
  {
    assert "[$x.a]>1.5" == "[" + "$x" + "." + "a]>1.5";
    assert "[a]>1.5" == "[" + "a]>1.5";
    TrimOnceSingle("[", "$x", "a]>1.5");
  }
}
