/**
 * Choosing the next node of a run (`runner.getNodeToExecute`): resume a
 * Pending last record, otherwise walk the pipeline's nodes from the first one
 * without a record, appending a fresh record for each node examined and
 * marking it Skip when its dependencies are not all Finished or its first
 * `When` condition fails. The skip test sees the record just appended.
 */
module Gating {
  import opened Wrappers
  import opened V1alpha1
  import opened Resolve

  /** Some record of `nodeRun` is named `dep` and Finished. */
  ghost predicate FinishedIn(dep: string, nodeRun: seq<NodeStatusSpec>) {
    exists i :: 0 <= i < |nodeRun| && nodeRun[i].name == dep && nodeRun[i].status == Finish
  }

  /** The inner closure of `skipByDependency`: no Finished record named `dep`. */
  function Unfinished(dep: string, nodeRun: seq<NodeStatusSpec>): (r: bool)
    ensures r <==> !FinishedIn(dep, nodeRun)
  {
    if |nodeRun| == 0 then true
    else if nodeRun[0].name == dep && nodeRun[0].status == Finish then false
    else
      var r := Unfinished(dep, nodeRun[1..]);
      assert FinishedIn(dep, nodeRun[1..]) ==> FinishedIn(dep, nodeRun) by {
        if FinishedIn(dep, nodeRun[1..]) {
          var i :| 0 <= i < |nodeRun[1..]| && nodeRun[1..][i].name == dep && nodeRun[1..][i].status == Finish;
          assert nodeRun[i + 1] == nodeRun[1..][i];
        }
      }
      assert FinishedIn(dep, nodeRun) ==> FinishedIn(dep, nodeRun[1..]) by {
        if FinishedIn(dep, nodeRun) {
          var i :| 0 <= i < |nodeRun| && nodeRun[i].name == dep && nodeRun[i].status == Finish;
          assert i > 0;
          assert nodeRun[1..][i - 1] == nodeRun[i];
        }
      }
      r
  }

  /** The loop over the dependencies: some dependency is unfinished. */
  function AnyUnfinished(deps: seq<string>, nodeRun: seq<NodeStatusSpec>): (r: bool)
    ensures r <==> exists d :: d in deps && !FinishedIn(d, nodeRun)
  {
    if |deps| == 0 then false
    else if Unfinished(deps[0], nodeRun) then true
    else
      var r := AnyUnfinished(deps[1..], nodeRun);
      assert forall d :: d in deps ==> d == deps[0] || d in deps[1..];
      r
  }

  /** `skipByDependency`: skip exactly when some dependency has no Finished
      record; a node without dependencies is never skipped this way. */
  function SkipByDependency(deps: seq<string>, nodeRun: seq<NodeStatusSpec>): (r: bool)
    ensures r <==> |deps| > 0 && exists d :: d in deps && !FinishedIn(d, nodeRun)
  {
    if |deps| == 0 then false
    else if |nodeRun| == 0 then
      assert !FinishedIn(deps[0], nodeRun);
      true
    else AnyUnfinished(deps, nodeRun)
  }

  /** The `in` loop: no resolved value equals the resolved input. */
  function NotAmong(input: string, values: seq<string>, sc: Scope): (r: bool)
    ensures r <==> forall v :: v in values ==> ResolveValue(v, sc) != input
  {
    if |values| == 0 then true
    else if ResolveValue(values[0], sc) == input then false
    else
      var r := NotAmong(input, values[1..], sc);
      assert forall v :: v in values ==> v == values[0] || v in values[1..];
      r
  }

  /** `skipByWhen`. Only the first condition is ever consulted, because every
      branch of the loop body returns. A condition without values never skips;
      `eq` skips unless the input equals the first value; `in` skips unless
      the input equals one of the values; any other operator always skips. */
  function SkipByWhen(when: seq<When>, sc: Scope): (r: bool)
    ensures |when| == 0 ==> !r
    ensures |when| > 0 && |when[0].values| == 0 ==> !r
    ensures |when| > 0 && |when[0].values| > 0 && when[0].operator == "eq" ==>
      (r <==> ResolveValue(when[0].input, sc) != ResolveValue(when[0].values[0], sc))
    ensures |when| > 0 && |when[0].values| > 0 && when[0].operator == "in" ==>
      (r <==> forall v :: v in when[0].values ==> ResolveValue(v, sc) != ResolveValue(when[0].input, sc))
    ensures |when| > 0 && |when[0].values| > 0 && when[0].operator != "eq" && when[0].operator != "in" ==> r
  {
    if |when| == 0 then false
    else
      var w := when[0];
      if |w.values| == 0 then false
      else
        var input := ResolveValue(w.input, sc);
        if w.operator == "eq" then input != ResolveValue(w.values[0], sc)
        else if w.operator == "in" then NotAmong(input, w.values, sc)
        else true
  }

  /** `sholdSkip`: the dependency test first, then the condition, both
      against the run as it stands (including the record just appended). */
  function ShouldSkip(node: Node, pipeline: Pipeline, spec: RunSpec, nodeRun: seq<NodeStatusSpec>): bool
  {
    SkipByDependency(node.spec.dependencies, nodeRun)
      || SkipByWhen(node.spec.when, ScopeOf(pipeline, spec, nodeRun))
  }

  /** The record appended for a node as it is examined. */
  function Started(node: Node, now: int): NodeStatusSpec
  {
    NodeStatusSpec(node.name, [], Unset, now, 0, "")
  }

  /** That record once the node is skipped. */
  function Skipped(node: Node, now: int): NodeStatusSpec
  {
    Started(node, now).(status := Skip, completionTime := now)
  }

  /** The records after the choice, and the index of the chosen node. */
  datatype Selection = Selection(nodeRun: seq<NodeStatusSpec>, index: Option<nat>)

  /** The scanning loop of `getNodeToExecute`, from the node at position
      `|nodeRun|` on. */
  function Scan(pipeline: Pipeline, spec: RunSpec, nodeRun: seq<NodeStatusSpec>, now: int): Selection
    decreases |pipeline.spec.nodes| - |nodeRun|
  {
    var nodes := pipeline.spec.nodes;
    if |nodeRun| >= |nodes| then Selection(nodeRun, None)
    else
      var c := |nodeRun|;
      var appended := nodeRun + [Started(nodes[c], now)];
      if ShouldSkip(nodes[c], pipeline, spec, appended) then
        Scan(pipeline, spec, nodeRun + [Skipped(nodes[c], now)], now)
      else Selection(appended, Some(c))
  }

  predicate LastPending(nodeRun: seq<NodeStatusSpec>) {
    |nodeRun| > 0 && nodeRun[|nodeRun| - 1].status == Pending
  }

  /** `getNodeToExecute`: a Pending last record is resumed as is; otherwise
      the scan starts right after the last record. */
  function SelectNode(pipeline: Pipeline, spec: RunSpec, nodeRun: seq<NodeStatusSpec>, now: int): Selection
  {
    if LastPending(nodeRun) then Selection(nodeRun, Some(|nodeRun| - 1))
    else Scan(pipeline, spec, nodeRun, now)
  }

  /** A scan keeps the existing records, appends at most one record per
      remaining node, and a chosen node is the last one it examined, whose
      record is the fresh one and whose skip test failed. */
  lemma {:induction false} ScanKeepsPrefix(pipeline: Pipeline, spec: RunSpec, nodeRun: seq<NodeStatusSpec>, now: int)
    ensures var r := Scan(pipeline, spec, nodeRun, now);
      var nodes := pipeline.spec.nodes;
      && |nodeRun| <= |r.nodeRun|
      && r.nodeRun[..|nodeRun|] == nodeRun
      && (|r.nodeRun| > |nodeRun| ==> |r.nodeRun| <= |nodes|)
      && (r.index.Some? ==>
            && r.index.value == |r.nodeRun| - 1 >= |nodeRun|
            && r.index.value < |nodes|
            && r.nodeRun[r.index.value] == Started(nodes[r.index.value], now)
            && !ShouldSkip(nodes[r.index.value], pipeline, spec, r.nodeRun))
      && (r.index.None? ==> |r.nodeRun| == if |nodeRun| >= |nodes| then |nodeRun| else |nodes|)
    decreases |pipeline.spec.nodes| - |nodeRun|
  {
    var nodes := pipeline.spec.nodes;
    if |nodeRun| < |nodes| {
      var c := |nodeRun|;
      var appended := nodeRun + [Started(nodes[c], now)];
      if ShouldSkip(nodes[c], pipeline, spec, appended) {
        var next := nodeRun + [Skipped(nodes[c], now)];
        ScanKeepsPrefix(pipeline, spec, next, now);
        var r := Scan(pipeline, spec, next, now);
        assert r.nodeRun[..|nodeRun|] == r.nodeRun[..|next|][..|nodeRun|];
      }
    }
  }

  /** Every record a scan appends, other than a chosen last one, is the Skip
      record of its node, and the skip test held for the run as it stood when
      that record was appended. */
  lemma {:induction false} ScanSkips(pipeline: Pipeline, spec: RunSpec, nodeRun: seq<NodeStatusSpec>, now: int)
    ensures var r := Scan(pipeline, spec, nodeRun, now);
      var nodes := pipeline.spec.nodes;
      var examinedEnd := if r.index.Some? then |r.nodeRun| - 1 else |r.nodeRun|;
      forall i :: |nodeRun| <= i < examinedEnd ==>
        && i < |nodes|
        && r.nodeRun[i] == Skipped(nodes[i], now)
        && ShouldSkip(nodes[i], pipeline, spec, r.nodeRun[..i] + [Started(nodes[i], now)])
    decreases |pipeline.spec.nodes| - |nodeRun|
  {
    var nodes := pipeline.spec.nodes;
    if |nodeRun| < |nodes| {
      var c := |nodeRun|;
      var appended := nodeRun + [Started(nodes[c], now)];
      if ShouldSkip(nodes[c], pipeline, spec, appended) {
        var next := nodeRun + [Skipped(nodes[c], now)];
        ScanSkips(pipeline, spec, next, now);
        ScanKeepsPrefix(pipeline, spec, next, now);
        var r := Scan(pipeline, spec, next, now);
        assert r.nodeRun[..c] == r.nodeRun[..|next|][..c] == nodeRun;
        assert r.nodeRun[c] == r.nodeRun[..|next|][c] == Skipped(nodes[c], now);
      }
    }
  }

  /** A Pending last record is resumed: nothing is appended and the chosen
      node is the one at the last record's position. */
  lemma ResumePending(pipeline: Pipeline, spec: RunSpec, nodeRun: seq<NodeStatusSpec>, now: int)
    requires LastPending(nodeRun)
    ensures SelectNode(pipeline, spec, nodeRun, now) == Selection(nodeRun, Some(|nodeRun| - 1))
  {
  }

  /** A node reached by the scan runs only when every one of its dependencies
      has a Finished record and its first condition, if any, lets it through. */
  lemma ScannedNodeIsReady(pipeline: Pipeline, spec: RunSpec, nodeRun: seq<NodeStatusSpec>, now: int)
    requires !LastPending(nodeRun)
    ensures var r := SelectNode(pipeline, spec, nodeRun, now);
      r.index.Some? ==>
        r.index.value < |pipeline.spec.nodes| &&
        var node := pipeline.spec.nodes[r.index.value];
        && (forall d :: d in node.spec.dependencies ==> FinishedIn(d, r.nodeRun))
        && !SkipByWhen(node.spec.when, ScopeOf(pipeline, spec, r.nodeRun))
  {
    ScanKeepsPrefix(pipeline, spec, nodeRun, now);
  }

  /** The records stay aligned with the pipeline: record `i` is named after
      node `i`, and there are never more records than nodes. */
  ghost predicate Aligned(pipeline: Pipeline, nodeRun: seq<NodeStatusSpec>) {
    && |nodeRun| <= |pipeline.spec.nodes|
    && forall i :: 0 <= i < |nodeRun| ==> nodeRun[i].name == pipeline.spec.nodes[i].name
  }

  /** Choosing a node keeps the records aligned, keeps every earlier record,
      and a chosen index lies inside the pipeline. */
  lemma SelectKeepsAligned(pipeline: Pipeline, spec: RunSpec, nodeRun: seq<NodeStatusSpec>, now: int)
    requires Aligned(pipeline, nodeRun)
    ensures var r := SelectNode(pipeline, spec, nodeRun, now);
      && Aligned(pipeline, r.nodeRun)
      && |nodeRun| <= |r.nodeRun|
      && r.nodeRun[..|nodeRun|] == nodeRun
      && (r.index.Some? ==> r.index.value == |r.nodeRun| - 1)
  {
    ScanKeepsPrefix(pipeline, spec, nodeRun, now);
    ScanSkips(pipeline, spec, nodeRun, now);
    var r := SelectNode(pipeline, spec, nodeRun, now);
    if !LastPending(nodeRun) {
      forall i | 0 <= i < |r.nodeRun| ensures r.nodeRun[i].name == pipeline.spec.nodes[i].name {
        if i < |nodeRun| {
          assert r.nodeRun[i] == r.nodeRun[..|nodeRun|][i];
        } else if r.index.Some? && i == |r.nodeRun| - 1 {
        } else {
          assert r.nodeRun[i] == Skipped(pipeline.spec.nodes[i], now);
        }
      }
    }
  }

  /** A scan that finds nothing has examined every remaining node, marking
      each one Skip. */
  lemma ExhaustedScanSkipsAll(pipeline: Pipeline, spec: RunSpec, nodeRun: seq<NodeStatusSpec>, now: int)
    requires !LastPending(nodeRun) && |nodeRun| <= |pipeline.spec.nodes|
    ensures var r := SelectNode(pipeline, spec, nodeRun, now);
      r.index.None? ==>
        && |r.nodeRun| == |pipeline.spec.nodes|
        && forall i :: |nodeRun| <= i < |r.nodeRun| ==> r.nodeRun[i].status == Skip
  {
    ScanKeepsPrefix(pipeline, spec, nodeRun, now);
    ScanSkips(pipeline, spec, nodeRun, now);
  }
}
