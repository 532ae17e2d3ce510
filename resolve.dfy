/**
 * The parameter resolver of the engine (`runner.parseParams`): it turns a
 * node's parameter list into concrete values against a run. Three reference
 * forms are understood, `$(params.x)`, `$(communal.x)` and
 * `$(task.N.output.k)`; anything else is a literal. Resolution is a single
 * pass and never fails: whatever cannot be resolved becomes "".
 */
module Resolve {
  import opened Wrappers
  import opened GoStrings
  import opened V1alpha1

  const ParamsPrefix := "$(params."
  const TaskPrefix := "$(task."
  const CommunalPrefix := "$(communal."
  const OutputSeparator := ".output."

  /** `genKV`: one pair per declaration, in declaration order, valued by the
      first same-key override or else by the declared default. */
  function Declared(overrides: seq<KeyAndValue>, decls: seq<ParamSpec>): seq<KeyAndValue>
  {
    seq(|decls|, i requires 0 <= i < |decls| =>
      KeyAndValue(decls[i].name, FirstValue(decls[i].name, overrides).GetOr(decls[i].default)))
  }

  /** The first declaration called `name`, if any. */
  function FirstDecl(name: string, decls: seq<ParamSpec>): Option<ParamSpec>
  {
    if |decls| == 0 then None
    else if decls[0].name == name then Some(decls[0])
    else FirstDecl(name, decls[1..])
  }

  /** The first node record called `name`, if any. */
  function FirstRecord(name: string, nodeRun: seq<NodeStatusSpec>): Option<NodeStatusSpec>
  {
    if |nodeRun| == 0 then None
    else if nodeRun[0].name == name then Some(nodeRun[0])
    else FirstRecord(name, nodeRun[1..])
  }

  /** What references are resolved against: the visible parameters (declared
      params, then declared communal names looked up among the run's params),
      the visible communal values, and the node records so far. */
  datatype Scope = Scope(params: seq<KeyAndValue>, communal: seq<KeyAndValue>, nodeRun: seq<NodeStatusSpec>)

  function ScopeOf(pipeline: Pipeline, spec: RunSpec, nodeRun: seq<NodeStatusSpec>): Scope
  {
    Scope(
      Declared(spec.params, pipeline.spec.params) + Declared(spec.params, pipeline.spec.communal),
      Declared(spec.communal, pipeline.spec.communal),
      nodeRun)
  }

  /** The body of a `$(prefix...)` reference: the prefix and one trailing ")" dropped. */
  function RefBody(v: string, prefix: string): string
  {
    TrimSuffix(TrimPrefix(v, prefix), ")")
  }

  /** `N.output.k` looked up among the node records. */
  function TaskOutput(body: string, nodeRun: seq<NodeStatusSpec>): Option<string>
  {
    var nwn := Split(body, OutputSeparator);
    if |nwn| == 2 then
      match FirstRecord(nwn[0], nodeRun)
      case None => None
      case Some(record) => FirstValue(nwn[1], record.output)
    else None
  }

  /** The value one parameter string resolves to. */
  function ResolveValue(v: string, sc: Scope): string
  {
    var value :=
      if HasPrefix(v, ParamsPrefix) then FirstValue(RefBody(v, ParamsPrefix), sc.params)
      else if HasPrefix(v, TaskPrefix) then TaskOutput(RefBody(v, TaskPrefix), sc.nodeRun)
      else if HasPrefix(v, CommunalPrefix) then FirstValue(RefBody(v, CommunalPrefix), sc.communal)
      else Some(v);
    value.GetOr("")
  }

  /** `parseParams`: one pair per input, same keys, same order. */
  function ParseParams(input: seq<KeyAndValue>, sc: Scope): (r: seq<KeyAndValue>)
    ensures |r| == |input|
    ensures forall i :: 0 <= i < |input| ==> r[i].key == input[i].key
  {
    seq(|input|, i requires 0 <= i < |input| => KeyAndValue(input[i].key, ResolveValue(input[i].value, sc)))
  }

  /** A literal, one that starts with none of the three reference prefixes,
      is passed through unchanged. */
  lemma LiteralPassesThrough(input: seq<KeyAndValue>, sc: Scope, i: nat)
    requires i < |input|
    requires !HasPrefix(input[i].value, ParamsPrefix)
    requires !HasPrefix(input[i].value, TaskPrefix)
    requires !HasPrefix(input[i].value, CommunalPrefix)
    ensures ParseParams(input, sc)[i] == input[i]
  {
  }

  /** Looking up a name in a concatenation looks in the first part first. */
  lemma {:induction false} FirstValueAppend(name: string, a: seq<KeyAndValue>, b: seq<KeyAndValue>)
    ensures FirstValue(name, a + b) == if FirstValue(name, a).Some? then FirstValue(name, a) else FirstValue(name, b)
  {
    if |a| > 0 {
      assert (a + b)[1..] == a[1..] + b;
      FirstValueAppend(name, a[1..], b);
    } else {
      assert a + b == b;
    }
  }

  /** Looking a name up among the declared pairs: nothing for an undeclared
      name; otherwise the first override, else the first declaration's default. */
  lemma {:induction false} DeclaredLookup(name: string, overrides: seq<KeyAndValue>, decls: seq<ParamSpec>)
    ensures FirstValue(name, Declared(overrides, decls)) ==
      match FirstDecl(name, decls)
      case None => None
      case Some(d) => Some(FirstValue(name, overrides).GetOr(d.default))
  {
    if |decls| > 0 {
      DeclaredLookup(name, overrides, decls[1..]);
      assert Declared(overrides, decls)[1..] == Declared(overrides, decls[1..]);
    }
  }

  lemma FirstDeclAppend(name: string, a: seq<ParamSpec>, b: seq<ParamSpec>)
    ensures FirstDecl(name, a + b) == if FirstDecl(name, a).Some? then FirstDecl(name, a) else FirstDecl(name, b)
  {
    if |a| > 0 {
      assert (a + b)[1..] == a[1..] + b;
      FirstDeclAppend(name, a[1..], b);
    } else {
      assert a + b == b;
    }
  }

  lemma RefBodyOf(prefix: string, x: string)
    ensures RefBody(prefix + x + ")", prefix) == x
  {
    var v := prefix + x + ")";
    assert v[..|prefix|] == prefix;
    assert v[|prefix|..] == x + ")";
    assert (x + ")")[|x + ")"| - 1..] == ")";
    assert (x + ")")[..|x|] == x;
  }

  /** `$(params.x)` sees only names declared as params or as communal
      variables of the pipeline; a declared name takes the run's first
      same-key param, else the default of its first declaration. */
  lemma ParamsReference(pipeline: Pipeline, spec: RunSpec, nodeRun: seq<NodeStatusSpec>, x: string)
    ensures ResolveValue(ParamsPrefix + x + ")", ScopeOf(pipeline, spec, nodeRun)) ==
      match FirstDecl(x, pipeline.spec.params + pipeline.spec.communal)
      case None => ""
      case Some(d) => FirstValue(x, spec.params).GetOr(d.default)
  {
    var v := ParamsPrefix + x + ")";
    assert v[..|ParamsPrefix|] == ParamsPrefix;
    RefBodyOf(ParamsPrefix, x);
    FirstValueAppend(x, Declared(spec.params, pipeline.spec.params), Declared(spec.params, pipeline.spec.communal));
    DeclaredLookup(x, spec.params, pipeline.spec.params);
    DeclaredLookup(x, spec.params, pipeline.spec.communal);
    FirstDeclAppend(x, pipeline.spec.params, pipeline.spec.communal);
  }

  /** `$(communal.x)` sees only names declared as communal variables; a
      declared name takes the run's first same-key communal value, else the
      default of its first declaration. */
  lemma CommunalReference(pipeline: Pipeline, spec: RunSpec, nodeRun: seq<NodeStatusSpec>, x: string)
    ensures ResolveValue(CommunalPrefix + x + ")", ScopeOf(pipeline, spec, nodeRun)) ==
      match FirstDecl(x, pipeline.spec.communal)
      case None => ""
      case Some(d) => FirstValue(x, spec.communal).GetOr(d.default)
  {
    var v := CommunalPrefix + x + ")";
    assert v[..|CommunalPrefix|] == CommunalPrefix;
    assert v[2] == 'c';
    assert !HasPrefix(v, ParamsPrefix) by { assert ParamsPrefix[2] == 'p'; }
    assert !HasPrefix(v, TaskPrefix) by { assert TaskPrefix[2] == 't'; }
    RefBodyOf(CommunalPrefix, x);
    DeclaredLookup(x, spec.communal, pipeline.spec.communal);
  }

  /** `$(task.N.output.k)` is the value of `k` in the first record named
      `N`, or "" when there is no such record or key; `N` and `k` may hold
      dots, as long as the split at ".output." finds the separator between
      them (see `OutputSplit`). */
  lemma TaskReference(sc: Scope, n: string, k: string)
    requires SplitsAtOutput(n, k)
    ensures ResolveValue(TaskPrefix + n + OutputSeparator + k + ")", sc) ==
      match FirstRecord(n, sc.nodeRun)
      case None => ""
      case Some(record) => FirstValue(k, record.output).GetOr("")
  {
    var body := n + OutputSeparator + k;
    assert TaskPrefix + body + ")" == TaskPrefix + n + OutputSeparator + k + ")";
    TaskPrefixed(body);
    TaskBranch(TaskPrefix + body + ")", sc);
    RefBodyOf(TaskPrefix, body);
    TaskOutputOf(n, k, sc.nodeRun);
  }

  /** A string built as a task reference is one, and is no params reference. */
  lemma TaskPrefixed(body: string)
    ensures HasPrefix(TaskPrefix + body + ")", TaskPrefix)
    ensures !HasPrefix(TaskPrefix + body + ")", ParamsPrefix)
  {
    var v := TaskPrefix + body + ")";
    assert v[..|TaskPrefix|] == TaskPrefix;
    assert v[2] == 't';
    assert ParamsPrefix[2] == 'p';
  }

  /** A task reference resolves through `TaskOutput`. */
  lemma TaskBranch(v: string, sc: Scope)
    requires HasPrefix(v, TaskPrefix) && !HasPrefix(v, ParamsPrefix)
    ensures ResolveValue(v, sc) == TaskOutput(RefBody(v, TaskPrefix), sc.nodeRun).GetOr("")
  {
  }

  /** `N` and `k` are cut apart again by the split at ".output.": neither
      holds the separator, and `N` does not end in ".output", which would
      let the separator start inside it. */
  predicate SplitsAtOutput(n: string, k: string) {
    !Contains(n, OutputSeparator) && !HasSuffix(n, ".output") && !Contains(k, OutputSeparator)
  }

  /** Under `SplitsAtOutput`, `N.output.k` splits into exactly `N` and `k`,
      dotted names included. */
  lemma OutputSplit(n: string, k: string)
    requires SplitsAtOutput(n, k)
    ensures Split(n + OutputSeparator + k, OutputSeparator) == [n, k]
  {
    var sep := OutputSeparator;
    var s := n + sep + k;
    forall j | 0 <= j < |n| ensures !OccursAt(s, sep, j) {
      NoEarlyOutput(n, k, j);
    }
    assert s[|n|..|n| + |sep|] == sep;
    FirstOccurrence(s, sep, |n|);
    assert s[..|n|] == n;
    assert s[|n| + |sep|..] == k;
    SplitNoSeparator(k, sep);
    calc {
      Split(s, sep);
      [s[..|n|]] + Split(s[|n| + |sep|..], sep);
      [n] + Split(k, sep);
    }
  }

  /** No ".output." of `N.output.k` starts inside `N`. */
  lemma NoEarlyOutput(n: string, k: string, j: nat)
    requires SplitsAtOutput(n, k) && j < |n|
    ensures !OccursAt(n + OutputSeparator + k, OutputSeparator, j)
  {
    var s := n + OutputSeparator + k;
    if j + 8 <= |n| {
      assert s[j..j + 8] == n[j..j + 8];
      assert !OccursAt(n, OutputSeparator, j);
    } else if j + 7 == |n| {
      SuffixStraddle(n, s, j);
    } else {
      DotStraddle(n, s, j);
    }
  }

  /** An occurrence starting 7 characters before the end of `N` would make
      `N` end in ".output". */
  lemma SuffixStraddle(n: string, s: string, j: nat)
    requires !HasSuffix(n, ".output") && j + 7 == |n| && HasPrefix(s, n)
    ensures !OccursAt(s, OutputSeparator, j)
  {
    if j + 8 <= |s| {
      assert s[j..j + 8][..7] == s[j..j + 7] == n[j..];
    }
  }

  /** An occurrence starting fewer than 7 characters before the end of `N`
      would put the '.' after `N` inside "output". */
  lemma DotStraddle(n: string, s: string, j: nat)
    requires j < |n| < j + 7 && |s| > |n| && s[|n|] == '.'
    ensures !OccursAt(s, OutputSeparator, j)
  {
    if j + 8 <= |s| {
      assert s[j..j + 8][|n| - j] == '.';
      assert forall m :: 0 < m < 7 ==> OutputSeparator[m] != '.';
    }
  }

  /** A dot-free name meets `SplitsAtOutput`. */
  lemma DotFreeSplitsAtOutput(n: string, k: string)
    requires '.' !in n && '.' !in k
    ensures SplitsAtOutput(n, k)
  {
    NotContainsWithoutHead(n, OutputSeparator);
    NotContainsWithoutHead(k, OutputSeparator);
    if |n| >= 7 {
      assert n[|n| - 7..][0] == n[|n| - 7];
      assert n[|n| - 7] in n;
    }
  }

  /** `N.output.k` looks up `k` in the first record named `N`. */
  lemma TaskOutputOf(n: string, k: string, nodeRun: seq<NodeStatusSpec>)
    requires SplitsAtOutput(n, k)
    ensures TaskOutput(n + OutputSeparator + k, nodeRun) ==
      match FirstRecord(n, nodeRun)
      case None => None
      case Some(record) => FirstValue(k, record.output)
  {
    OutputSplit(n, k);
  }

  /** A task reference whose body has no ".output." resolves to "". */
  lemma TaskReferenceWithoutOutput(sc: Scope, v: string)
    requires HasPrefix(v, TaskPrefix)
    requires !Contains(RefBody(v, TaskPrefix), OutputSeparator)
    ensures ResolveValue(v, sc) == ""
  {
    assert !HasPrefix(v, ParamsPrefix) by {
      assert v[2] == TaskPrefix[2] == 't';
      assert ParamsPrefix[2] == 'p';
    }
    SplitNoSeparator(RefBody(v, TaskPrefix), OutputSeparator);
  }
}
