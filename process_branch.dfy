/**
 * The process-branch executor (`core/pkg/node/nodes/process_branch`). It
 * gathers its parameters into a rule, fetches the form data when the rule
 * refers to form fields, rewrites the rule's `$flowVar_`/`$field_`
 * references into the bracketed variable syntax of the expression library,
 * evaluates it and reports `ok=true` or `ok=false` as its output, which the
 * engine's `When` conditions then test. The form lookup and the expression
 * library are parameters of the model.
 */
module ProcessBranch {
  import opened Wrappers
  import opened GoStrings
  import opened V1alpha1
  import opened NodeInterface

  /** The keys `genRule` stores in fields of its own. */
  const RuleKeys: set<string> := {"appID", "tableID", "dataID", "rule"}

  /** `rule`: the form coordinates, the expression and the other parameters. */
  datatype Rule = Rule(appID: string, tableID: string, dataID: string, rule: string, communal: map<string, string>)

  /** The value a field of `rule` ends up with: the last same-key parameter. */
  function FieldOf(key: string, params: seq<KeyAndValue>): string
  {
    LastValue(key, params).GetOr("")
  }

  /** The `communal` map after the loop has seen `params`. */
  function CommunalOf(params: seq<KeyAndValue>): map<string, string>
  {
    if |params| == 0 then map[]
    else
      var m := CommunalOf(params[..|params| - 1]);
      var kv := params[|params| - 1];
      if kv.key in RuleKeys then m else m[kv.key := kv.value]
  }

  /** Every parameter whose key is not one of the four rule keys lands in
      the map, and a later duplicate overwrites an earlier one. */
  lemma {:induction false} CommunalOfLookup(params: seq<KeyAndValue>, k: string)
    ensures k in CommunalOf(params) <==> k !in RuleKeys && LastValue(k, params).Some?
    ensures k in CommunalOf(params) ==> CommunalOf(params)[k] == LastValue(k, params).value
    decreases |params|
  {
    if |params| > 0 {
      CommunalOfLookup(params[..|params| - 1], k);
    }
  }

  /** `genRule`: the four rule keys fill their fields, every other key goes
      to the map, and the last occurrence of a key wins. */
  method GenRule(params: seq<KeyAndValue>) returns (r: Rule)
    ensures r.appID == FieldOf("appID", params) && r.tableID == FieldOf("tableID", params)
    ensures r.dataID == FieldOf("dataID", params) && r.rule == FieldOf("rule", params)
    ensures r.communal == CommunalOf(params)
  {
    r := Rule("", "", "", "", map[]);
    for i := 0 to |params|
      invariant r.appID == FieldOf("appID", params[..i]) && r.tableID == FieldOf("tableID", params[..i])
      invariant r.dataID == FieldOf("dataID", params[..i]) && r.rule == FieldOf("rule", params[..i])
      invariant r.communal == CommunalOf(params[..i])
    {
      var elem := params[i];
      assert params[..i + 1][..i] == params[..i];
      match elem.key {
        case "appID" => r := r.(appID := elem.value);
        case "tableID" => r := r.(tableID := elem.value);
        case "dataID" => r := r.(dataID := elem.value);
        case "rule" => r := r.(rule := elem.value);
        case _ => r := r.(communal := r.communal[elem.key := elem.value]);
      }
    }
    assert params[..|params|] == params;
  }

  /** Rewrite step 1: every `$flowVar_` becomes `[$variable.flowVar_`, then
      every `$field_` becomes `[$formData.field_`. */
  function OpenReferences(expr: string): string
  {
    ReplaceAll(ReplaceAll(expr, "$flowVar_", "[$variable.flowVar_"), "$field_", "[$formData.field_")
  }

  /** Rewrite step 2 from a given flag: copy every character, and once a
      '$' has been seen put a ']' in front of the next space and clear the flag. */
  function Close(s: string, flag: bool): string
  {
    if |s| == 0 then ""
    else
      var c := s[0];
      var f := flag || c == '$';
      if f && c == ' ' then "] " + Close(s[1..], false)
      else [c] + Close(s[1..], f)
  }

  /** The string with every ']' removed. */
  function EraseClosers(s: string): string
  {
    if |s| == 0 then ""
    else (if s[0] == ']' then "" else [s[0]]) + EraseClosers(s[1..])
  }

  /** Number of ']' in a string. */
  function Closers(s: string): nat
  {
    if |s| == 0 then 0 else (if s[0] == ']' then 1 else 0) + Closers(s[1..])
  }

  lemma {:induction false} EraseAppend(a: string, b: string)
    ensures EraseClosers(a + b) == EraseClosers(a) + EraseClosers(b)
    ensures Closers(a + b) == Closers(a) + Closers(b)
  {
    if |a| > 0 {
      assert (a + b)[1..] == a[1..] + b;
      EraseAppend(a[1..], b);
    } else {
      assert a + b == b;
    }
  }

  /** The rewrite only inserts ']': deleting every ']' from the output
      gives the input with its own ']'s deleted, and the output is longer by
      the number of ']'s it added. */
  lemma {:induction false} CloseOnlyInserts(s: string, flag: bool)
    ensures EraseClosers(Close(s, flag)) == EraseClosers(s)
    ensures |Close(s, flag)| == |s| + Closers(Close(s, flag)) - Closers(s)
  {
    if |s| > 0 {
      var c := s[0];
      var f := flag || c == '$';
      assert s == [c] + s[1..];
      EraseAppend([c], s[1..]);
      assert [c][1..] == "";
      if f && c == ' ' {
        CloseOnlyInserts(s[1..], false);
        EraseAppend("] ", Close(s[1..], false));
        assert EraseClosers("] ") == " " by {
          assert "] "[1..] == " ";
          assert " "[1..] == "";
        }
        assert Closers("] ") == 1 by {
          assert "] "[1..] == " ";
          assert " "[1..] == "";
        }
      } else {
        CloseOnlyInserts(s[1..], f);
        EraseAppend([c], Close(s[1..], f));
      }
    }
  }

  /** A stretch without a space is copied unchanged, whatever the flag. */
  lemma {:induction false} CloseWithoutSpace(a: string, flag: bool)
    requires ' ' !in a
    ensures Close(a, flag) == a
  {
    if |a| > 0 {
      assert ' ' !in a[1..] by { assert forall x :: x in a[1..] ==> x in a; }
      assert a[0] != ' ' by { assert a[0] in a; }
      CloseWithoutSpace(a[1..], flag || a[0] == '$');
      assert a == [a[0]] + a[1..];
    }
  }

  /** The rewrite up to the first space: the stretch before it is copied, a
      ']' goes in front of the space exactly when a '$' was pending or occurs
      in the stretch, and the rest is rewritten with the flag cleared. */
  lemma {:induction false} CloseAtFirstSpace(a: string, b: string, flag: bool)
    requires ' ' !in a
    ensures Close(a + " " + b, flag) == a + (if flag || '$' in a then "] " else " ") + Close(b, false)
  {
    if |a| == 0 {
      assert a + " " + b == [' '] + b;
      assert (a + " " + b)[1..] == b;
    } else {
      var c := a[0];
      var f := flag || c == '$';
      assert ' ' !in a[1..] by { assert forall x :: x in a[1..] ==> x in a; }
      assert c != ' ' by { assert c in a; }
      assert (a + " " + b)[0] == c;
      assert (a + " " + b)[1..] == a[1..] + " " + b;
      CloseAtFirstSpace(a[1..], b, f);
      assert ('$' in a) == (c == '$' || '$' in a[1..]) by {
        assert a == [c] + a[1..];
      }
      assert a == [c] + a[1..];
    }
  }

  /** Every ']' the rewrite inserts stands right before a space. */
  lemma {:induction false} CloserBeforeSpace(s: string, flag: bool, i: nat)
    requires ']' !in s
    requires i < |Close(s, flag)| && Close(s, flag)[i] == ']'
    ensures i + 1 < |Close(s, flag)| && Close(s, flag)[i + 1] == ' '
  {
    if |s| > 0 {
      var c := s[0];
      var f := flag || c == '$';
      assert ']' !in s[1..] by { assert forall x :: x in s[1..] ==> x in s; }
      assert c != ']' by { assert s[0] in s; }
      if f && c == ' ' {
        if i >= 2 {
          assert Close(s, flag)[i] == Close(s[1..], false)[i - 2];
          CloserBeforeSpace(s[1..], false, i - 2);
        }
      } else {
        assert i >= 1;
        assert Close(s, flag)[i] == Close(s[1..], f)[i - 1];
        CloserBeforeSpace(s[1..], f, i - 1);
      }
    }
  }

  /** Without a '$' (and no pending flag) the rewrite changes nothing. */
  lemma {:induction false} CloseWithoutReference(s: string)
    requires '$' !in s
    ensures Close(s, false) == s
  {
    if |s| > 0 {
      assert '$' !in s[1..] by { assert forall x :: x in s[1..] ==> x in s; }
      assert s[0] != '$' by { assert s[0] in s; }
      CloseWithoutReference(s[1..]);
      assert s == [s[0]] + s[1..];
    }
  }

  /** The character loop of `Do`: the buffer ends up holding `Close(expr, false)`. */
  method CloseReferences(expr: string) returns (buf: string)
    ensures buf == Close(expr, false)
  {
    buf := "";
    var flag := false;
    for i := 0 to |expr|
      invariant buf + Close(expr[i..], flag) == Close(expr, false)
    {
      var c := expr[i];
      assert expr[i..][1..] == expr[i + 1..];
      if c == '$' {
        flag := true;
      }
      if flag && c == ' ' {
        buf := buf + "]";
        flag := false;
      }
      buf := buf + [c];
    }
  }

  /** What the expression library returns: an error, a boolean, or a value
      of another type. */
  datatype Evaluated = EvalError | BoolValue(b: bool) | NonBool

  const FieldPrefix := "$field_"
  const FetchFailure := "fail get from data"

  /** The output of `Do` once the expression has been evaluated: "true" only
      for the boolean true. */
  function Verdict(v: Evaluated): (r: Outcome)
    ensures r.Succeeded? && r.result.status == Finish
    ensures r.result.communal == [] && r.result.message == ""
    ensures r.result.out == [KeyAndValue("ok", if v == BoolValue(true) then "true" else "false")]
  {
    if v == BoolValue(true) then Succeeded(Result([KeyAndValue("ok", "true")], [], Finish, ""))
    else Succeeded(Result([KeyAndValue("ok", "false")], [], Finish, ""))
  }

  /** `ProcessBranch.Do`. The form is fetched only for a rule starting with
      `$field_`, and a fetch error is the only failure, reported with an empty
      result; every other path finishes with `ok` set to whether the
      rewritten rule evaluated to the boolean true. */
  method Do<E>(params: seq<KeyAndValue>,
               fetch: (string, string, string) -> Fetched<E>,
               evaluate: (string, Option<E>, map<string, string>) -> Evaluated)
    returns (outcome: Outcome)
    ensures var rule := FieldOf("rule", params);
      var fetches := HasPrefix(rule, FieldPrefix);
      var fetched := fetch(FieldOf("appID", params), FieldOf("tableID", params), FieldOf("dataID", params));
      if fetches && fetched.FetchError? then
        outcome == Failed(Result([], [], Unset, ""), FetchFailure + ": " + fetched.message)
      else
        var formData := if fetches then Some(fetched.entity) else None;
        outcome == Verdict(evaluate(Close(OpenReferences(rule), false), formData, CommunalOf(params)))
  {
    var rule := GenRule(params);
    var formData: Option<E> := None;
    if HasPrefix(rule.rule, FieldPrefix) {
      var result := fetch(rule.appID, rule.tableID, rule.dataID);
      if result.FetchError? {
        return Failed(Result([], [], Unset, ""), FetchFailure + ": " + result.message);
      }
      formData := Some(result.entity);
    }
    var expr := rule.rule;
    expr := ReplaceAll(expr, "$flowVar_", "[$variable.flowVar_");
    expr := ReplaceAll(expr, "$field_", "[$formData.field_");
    var buf := CloseReferences(expr);
    outcome := Verdict(evaluate(buf, formData, rule.communal));
  }
}
