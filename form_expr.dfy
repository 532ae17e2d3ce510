/**
 * `ParseExpr` of the form executors (`pkg/node/nodes/quanxiang_form`): a
 * rule string is cut at every "||" and then at every "&&", and each piece,
 * with its spaces removed, becomes a key/operator/value triple when it splits
 * into exactly two parts at the first operator found.
 */
module FormExpr {
  import opened Wrappers
  import opened GoStrings

  /** `Expr`. */
  datatype Expr = Expr(key: string, value: string, op: string)

  /** The operators in the order the `switch` tests them. */
  const Operators: seq<string> := ["==", "!=", ">", ">=", "<", "<="]

  /** `subsection`: every string split at `symbol`, the pieces kept in
      order; no piece contains `symbol`. */
  function Subsection(symbol: string, strs: seq<string>): (r: seq<string>)
    requires |symbol| > 0
    ensures forall p :: p in r ==> !Contains(p, symbol)
    ensures |r| >= |strs|
  {
    if |strs| == 0 then []
    else
      SplitPiecesFree(strs[0], symbol);
      Split(strs[0], symbol) + Subsection(symbol, strs[1..])
  }

  /** The pieces of a concatenation are the pieces of each part, in order. */
  lemma {:induction false} SubsectionAppend(symbol: string, a: seq<string>, b: seq<string>)
    requires |symbol| > 0
    ensures Subsection(symbol, a + b) == Subsection(symbol, a) + Subsection(symbol, b)
  {
    if |a| > 0 {
      assert (a + b)[0] == a[0];
      assert (a + b)[1..] == a[1..] + b;
      SubsectionAppend(symbol, a[1..], b);
    } else {
      assert a + b == b;
    }
  }

  /** The pieces of one string joined back with `symbol` give the string. */
  lemma SubsectionOne(symbol: string, s: string)
    requires |symbol| > 0
    ensures Join(Subsection(symbol, [s]), symbol) == s
  {
    assert [s][1..] == [];
    assert Subsection(symbol, [s]) == Split(s, symbol);
    SplitJoin(s, symbol);
  }

  /** The pieces `ParseExpr` looks at. */
  function Pieces(str: string): seq<string>
  {
    Subsection("&&", Subsection("||", [str]))
  }

  /** The operator the `switch` picks: the first of `Operators`, in that
      order, that the string contains. */
  function OperatorOf(str: string): (r: Option<string>)
    ensures r.Some? ==> r.value in Operators && Contains(str, r.value) && |r.value| > 0
    ensures r.None? <==> forall k :: 0 <= k < |Operators| ==> !Contains(str, Operators[k])
    ensures forall k :: 0 <= k < |Operators| && r == Some(Operators[k]) ==>
      forall j :: 0 <= j < k ==> !Contains(str, Operators[j])
  {
    if Contains(str, "==") then Some("==")
    else if Contains(str, "!=") then Some("!=")
    else if Contains(str, ">") then Some(">")
    else if Contains(str, ">=") then Some(">=")
    else if Contains(str, "<") then Some("<")
    else if Contains(str, "<=") then Some("<=")
    else None
  }

  /** `parseExpr`: spaces removed, the first operator found, and a triple
      when the piece splits into exactly two parts at it. */
  function ParseOne(str: string): Option<Expr>
  {
    var s := ReplaceAll(str, " ", "");
    match OperatorOf(s)
    case None => None
    case Some(op) =>
      var sub := Split(s, op);
      if |sub| == 2 then Some(Expr(sub[0], sub[1], op)) else None
  }

  /** A triple exists exactly when the first operator of the space-free
      piece occurs in it once; the triple then holds the text before it,
      that operator and the text after it. */
  lemma ParseOneSpec(str: string)
    ensures var s := ReplaceAll(str, " ", "");
      ParseOne(str).Some? <==> OperatorOf(s).Some? && CountOccurrences(s, OperatorOf(s).value) == 1
    ensures var r := ParseOne(str);
      r.Some? ==> r.value.op == OperatorOf(ReplaceAll(str, " ", "")).value
    ensures var r := ParseOne(str);
      r.Some? ==> r.value.key + r.value.op + r.value.value == ReplaceAll(str, " ", "")
    ensures var r := ParseOne(str);
      r.Some? ==> !Contains(r.value.key, r.value.op) && !Contains(r.value.value, r.value.op)
  {
    var s := ReplaceAll(str, " ", "");
    match OperatorOf(s)
    case None =>
    case Some(op) =>
      var sub := Split(s, op);
      SplitCount(s, op);
      if |sub| == 2 {
        SplitJoin(s, op);
        SplitPiecesFree(s, op);
        assert sub[1..] == [sub[1]];
        assert sub[0] in sub && sub[1] in sub;
      }
  }

  /** `ParseExpr`: one triple per piece that parses, in order. */
  function ParseExpr(str: string): seq<Expr>
  {
    ParseAll(Pieces(str))
  }

  /** The collecting loop: pieces that do not parse are dropped, and when
      every piece parses there is one triple per piece. */
  function ParseAll(pieces: seq<string>): (r: seq<Expr>)
    ensures |r| <= |pieces|
  {
    if |pieces| == 0 then []
    else
      Parsed(pieces[0]) + ParseAll(pieces[1..])
  }

  /** The triple of one piece, if it parses. */
  function Parsed(piece: string): seq<Expr>
  {
    match ParseOne(piece) case None => [] case Some(e) => [e]
  }

  /** When every piece parses there is one triple per piece. */
  lemma {:induction false} ParseAllEveryPiece(pieces: seq<string>)
    requires forall k :: 0 <= k < |pieces| ==> ParseOne(pieces[k]).Some?
    ensures |ParseAll(pieces)| == |pieces|
  {
    if |pieces| > 0 {
      assert ParseAll(pieces) == Parsed(pieces[0]) + ParseAll(pieces[1..]);
      assert forall k :: 0 <= k < |pieces[1..]| ==> pieces[1..][k] == pieces[k + 1];
      ParseAllEveryPiece(pieces[1..]);
    }
  }

  /** The triples keep the order of the pieces: those of a concatenation
      are those of the first part followed by those of the second. */
  lemma {:induction false} ParseAllAppend(a: seq<string>, b: seq<string>)
    ensures ParseAll(a + b) == ParseAll(a) + ParseAll(b)
  {
    if |a| > 0 {
      assert (a + b)[0] == a[0];
      assert (a + b)[1..] == a[1..] + b;
      ParseAllAppend(a[1..], b);
      calc {
        ParseAll(a + b);
        Parsed(a[0]) + ParseAll(a[1..] + b);
        Parsed(a[0]) + (ParseAll(a[1..]) + ParseAll(b));
        (Parsed(a[0]) + ParseAll(a[1..])) + ParseAll(b);
      }
    } else {
      assert a + b == b;
    }
  }

  /** Every triple is what some piece parses to, and every piece that
      parses contributes its triple. */
  lemma ParseAllFromPieces(pieces: seq<string>)
    ensures forall e :: e in ParseAll(pieces) ==> exists p :: p in pieces && ParseOne(p) == Some(e)
    ensures forall p :: p in pieces && ParseOne(p).Some? ==> ParseOne(p).value in ParseAll(pieces)
  {
    ParseAllSound(pieces);
    forall p | p in pieces && ParseOne(p).Some? ensures ParseOne(p).value in ParseAll(pieces) {
      var i :| 0 <= i < |pieces| && pieces[i] == p;
      ParseAllComplete(pieces, i);
    }
  }

  lemma {:induction false} ParseAllSound(pieces: seq<string>)
    ensures forall e :: e in ParseAll(pieces) ==> exists p :: p in pieces && ParseOne(p) == Some(e)
  {
    if |pieces| > 0 {
      ParseAllSound(pieces[1..]);
      assert ParseAll(pieces) == Parsed(pieces[0]) + ParseAll(pieces[1..]);
      forall e | e in ParseAll(pieces) ensures exists p :: p in pieces && ParseOne(p) == Some(e) {
        if e in ParseAll(pieces[1..]) {
          var p :| p in pieces[1..] && ParseOne(p) == Some(e);
          assert p in pieces;
        } else {
          assert e in Parsed(pieces[0]);
          assert ParseOne(pieces[0]) == Some(e);
        }
      }
    }
  }

  lemma {:induction false} ParseAllComplete(pieces: seq<string>, i: nat)
    requires i < |pieces| && |Parsed(pieces[i])| == 1
    ensures Parsed(pieces[i])[0] in ParseAll(pieces)
  {
    var head, tail := Parsed(pieces[0]), ParseAll(pieces[1..]);
    assert ParseAll(pieces) == head + tail;
    if i > 0 {
      assert pieces[1..][i - 1] == pieces[i];
      ParseAllComplete(pieces[1..], i - 1);
    }
  }

  /** The triples of a rule are exactly those of its pieces. */
  lemma ParseExprMembers(str: string, e: Expr)
    ensures e in ParseExpr(str) <==> exists p :: p in Pieces(str) && ParseOne(p) == Some(e)
  {
    ParseAllFromPieces(Pieces(str));
  }

  /** A string that contains `t` contains every non-empty prefix of `t`. */
  lemma ContainsPrefix(s: string, t: string, n: nat)
    requires 0 < n <= |t| && Contains(s, t)
    ensures Contains(s, t[..n])
  {
    var j := IndexOf(s, t).value;
    assert s[j..j + n] == s[j..j + |t|][..n];
    assert OccursAt(s, t[..n], j);
  }

  /** ">=" and "<=" are never reported: ">" and "<" are tested first and a
      string containing ">=" (or "<=") contains ">" (or "<"). */
  lemma NoCompoundOperator(str: string)
    ensures ParseOne(str).Some? ==> ParseOne(str).value.op in ["==", "!=", ">", "<"]
  {
    var s := ReplaceAll(str, " ", "");
    if Contains(s, ">=") {
      ContainsPrefix(s, ">=", 1);
      assert ">="[..1] == ">";
    }
    if Contains(s, "<=") {
      ContainsPrefix(s, "<=", 1);
      assert "<="[..1] == "<";
    }
  }

  /** A key or value with no space and no character of an operator. */
  predicate Plain(x: string) {
    ' ' !in x && '=' !in x && '!' !in x && '<' !in x && '>' !in x
  }

  /** In `key + [c] + "=" + value` the only '=' is the one after `c`, so
      "==" does not occur. */
  lemma NoDoubleEquals(key: string, value: string, c: char)
    requires Plain(key) && Plain(value) && c != '='
    ensures !Contains(key + [c] + "=" + value, "==")
  {
    var s := key + [c] + "=" + value;
    forall j ensures !OccursAt(s, "==", j) {
      if 0 <= j && j + 2 <= |s| {
        assert s[j..j + 2][0] == s[j] && s[j..j + 2][1] == s[j + 1];
        if j < |key| {
          assert s[j] == key[j] && key[j] in key;
        } else if j == |key| {
          assert s[j] == c;
        } else {
          var m := j + 1 - |key| - 2;
          assert s[j + 1] == value[m] && value[m] in value;
        }
      }
    }
  }

  /** `key + [c] + "=" + value` contains `[c]` and splits at it into the
      key and "=" + value. */
  lemma SplitAtHead(key: string, value: string, c: char)
    requires c !in key && c !in value && c != '='
    ensures Contains(key + [c] + "=" + value, [c])
    ensures Split(key + [c] + "=" + value, [c]) == [key, "=" + value]
  {
    var s := key + [c] + "=" + value;
    assert s == key + [c] + ("=" + value);
    SplitAround(key, "=" + value, [c]);
    assert s[|key|..|key| + 1] == [c];
    assert OccursAt(s, [c], |key|);
  }

  /** ">=" and "<=" are misread: with a plain key and value, "key>=value"
      parses as key, operator ">" and value "=value", and "key<=value" as
      key, operator "<" and value "=value". */
  lemma CompoundOperatorMisread(key: string, value: string, c: char)
    requires c == '>' || c == '<'
    requires Plain(key) && Plain(value)
    ensures ParseOne(key + [c] + "=" + value) == Some(Expr(key, "=" + value, [c]))
  {
    var s := key + [c] + "=" + value;
    NotContainsWithoutHead(s, " ");
    assert ReplaceAll(s, " ", "") == s;
    NoDoubleEquals(key, value, c);
    NotContainsWithoutHead(s, "!=");
    SplitAtHead(key, value, c);
    if c == '<' {
      NotContainsWithoutHead(s, ">");
      NotContainsWithoutHead(s, ">=");
    }
    assert OperatorOf(s) == Some([c]);
  }
}
