/**
 * The runner of `internal/service/pipeline_run.go`: it takes a run id from
 * its queue, loads the run, picks the next node, executes it, folds the
 * executor's result into the run and stores it back, re-queueing the run
 * unless the node is left Pending. A failed executor call stores nothing and
 * hands the id to the retarder instead.
 *
 * The store is a map from id to `RunRecord` values; loading builds a fresh
 * `PipelineRun` object from a record, and the runner's step changes that
 * object in place, as the Go code changes the loaded struct.
 */
module Engine {
  import opened Wrappers
  import opened V1alpha1
  import opened NodeInterface
  import opened Resolve
  import opened Gating
  import Retarder

  /** A stored run: its id, the frozen pipeline, its inputs, its observed
      status with the node records, and its lifecycle state. */
  datatype RunRecord = RunRecord(id: int, pipeline: Pipeline, spec: RunSpec, status: RunStatus, state: PipelineStatus)

  /** `getKV`: the position of the first entry keyed `name`. */
  function KeyIndex(name: string, kvs: seq<KeyAndValue>): (r: Option<nat>)
    ensures r.Some? ==> r.value < |kvs| && kvs[r.value].key == name
                        && forall j :: 0 <= j < r.value ==> kvs[j].key != name
    ensures r.None? ==> forall j :: 0 <= j < |kvs| ==> kvs[j].key != name
  {
    if |kvs| == 0 then None
    else if kvs[0].key == name then Some(0)
    else match KeyIndex(name, kvs[1..])
      case None => None
      case Some(i) =>
        assert kvs[i + 1] == kvs[1..][i];
        assert forall j :: 1 <= j < i + 1 ==> kvs[j] == kvs[1..][j - 1];
        Some(i + 1)
  }

  /** One iteration of the communal loop of `exec`: overwrite the value of the
      first entry with the same key, or append the pair. */
  function MergeOne(kvs: seq<KeyAndValue>, u: KeyAndValue): seq<KeyAndValue>
  {
    match KeyIndex(u.key, kvs)
    case None => kvs + [u]
    case Some(i) => kvs[i := kvs[i].(value := u.value)]
  }

  /** The whole communal loop, over the executor's pairs in order. */
  function MergeCommunal(kvs: seq<KeyAndValue>, updates: seq<KeyAndValue>): seq<KeyAndValue>
    decreases |updates|
  {
    if |updates| == 0 then kvs
    else MergeOne(MergeCommunal(kvs, updates[..|updates| - 1]), updates[|updates| - 1])
  }

  lemma {:induction false} FirstValueOverwrite(k: string, kvs: seq<KeyAndValue>, i: nat, v: string)
    requires i < |kvs| && forall j :: 0 <= j < i ==> kvs[j].key != kvs[i].key
    ensures FirstValue(k, kvs[i := kvs[i].(value := v)]) ==
      if k == kvs[i].key then Some(v) else FirstValue(k, kvs)
  {
    var kvs' := kvs[i := kvs[i].(value := v)];
    if i > 0 {
      assert kvs'[1..] == kvs[1..][i - 1 := kvs[1..][i - 1].(value := v)];
      assert forall j :: 0 <= j < i - 1 ==> kvs[1..][j] == kvs[j + 1];
      FirstValueOverwrite(k, kvs[1..], i - 1, v);
    }
  }

  /** After one merge step, the pair's key reads the pair's value and every
      other key reads what it read before; keys already present keep their
      positions. */
  lemma MergeOneLookup(kvs: seq<KeyAndValue>, u: KeyAndValue, k: string)
    ensures FirstValue(k, MergeOne(kvs, u)) == if k == u.key then Some(u.value) else FirstValue(k, kvs)
    ensures |kvs| <= |MergeOne(kvs, u)| <= |kvs| + 1
    ensures forall j :: 0 <= j < |kvs| ==> MergeOne(kvs, u)[j].key == kvs[j].key
  {
    match KeyIndex(u.key, kvs)
    case None =>
      FirstValueAppend(k, kvs, [u]);
    case Some(i) =>
      FirstValueOverwrite(k, kvs, i, u.value);
  }

  /** Merging the executor's communal pairs: a key the executor reported
      reads the value it reported last; any other key reads what it read
      before. The existing entries keep their keys and positions, and the list
      grows by at most one entry per reported pair. */
  lemma {:induction false} MergeCommunalLookup(kvs: seq<KeyAndValue>, updates: seq<KeyAndValue>, k: string)
    ensures FirstValue(k, MergeCommunal(kvs, updates)) ==
      if LastValue(k, updates).Some? then LastValue(k, updates) else FirstValue(k, kvs)
    ensures |kvs| <= |MergeCommunal(kvs, updates)| <= |kvs| + |updates|
    ensures forall j :: 0 <= j < |kvs| ==> MergeCommunal(kvs, updates)[j].key == kvs[j].key
    decreases |updates|
  {
    if |updates| > 0 {
      var pre := updates[..|updates| - 1];
      var u := updates[|updates| - 1];
      MergeCommunalLookup(kvs, pre, k);
      MergeOneLookup(MergeCommunal(kvs, pre), u, k);
    }
  }

  /** The `switch` at the end of `exec`: Finish and Kill stand, anything else
      becomes Pending. */
  function Normalize(st: NodeStatus): (r: NodeStatus)
    ensures r in {Finish, Kill, Pending}
    ensures st in {Finish, Kill} ==> r == st
  {
    if st == Finish then Finish else if st == Kill then Kill else Pending
  }

  /** The request `exec` sends: the node's parameters resolved against the
      run, annotated with the run id and the node name. */
  function RequestFor(rec: RunRecord, node: Node): Request
  {
    Request(ParseParams(node.spec.params, ScopeOf(rec.pipeline, rec.spec, rec.status.nodeRun)), rec.id, node.name)
  }

  /** The success branch of `exec`: the last record takes the result's
      status, outputs and message, the communal pairs are merged, and the
      status is normalised (Finish stamps the completion time, Kill kills the
      run). */
  function ApplyResult(rec: RunRecord, res: Result, now: int): RunRecord
    requires |rec.status.nodeRun| > 0
  {
    var nr := rec.status.nodeRun;
    var last := nr[|nr| - 1];
    var record := last.(
      status := Normalize(res.status),
      output := res.out,
      message := res.message,
      completionTime := if res.status == Finish then now else last.completionTime);
    rec.(
      spec := rec.spec.(communal := MergeCommunal(rec.spec.communal, res.communal)),
      status := rec.status.(nodeRun := nr[|nr| - 1 := record]),
      state := if res.status == Kill then PipelineRunKill else rec.state)
  }

  /** `exec`: the run after the call and the error, if the executor failed. On
      failure only the last record's message changes. */
  function ExecSpec(rec: RunRecord, node: Node, remoteTypes: set<string>, remote: Executor, now: int): (RunRecord, Option<string>)
    requires |rec.status.nodeRun| > 0
  {
    var nr := rec.status.nodeRun;
    match Dispatch(remoteTypes, remote, node.spec.nodeType, RequestFor(rec, node))
    case Failed(_, e) =>
      (rec.(status := rec.status.(nodeRun := nr[|nr| - 1 := nr[|nr| - 1].(message := e)])), Some(e))
    case Succeeded(res) => (ApplyResult(rec, res, now), None)
  }

  /** The check after the node step: a finished status forces a finished state. */
  function Finalize(rec: RunRecord): RunRecord
  {
    if IsFinish(rec.status.status) && !IsFinish(rec.state) then rec.(state := PipelineRunFinish) else rec
  }

  /** The invariant of stored runs: the records are aligned with the
      pipeline's nodes; every record but the last is Skip or Finish; the last
      is Skip, Finish, Kill or Pending; and a Killed last record means a
      Killed run. */
  ghost predicate WellFormed(rec: RunRecord) {
    var nr := rec.status.nodeRun;
    && Aligned(rec.pipeline, nr)
    && (forall i :: 0 <= i < |nr| - 1 ==> nr[i].status == Skip || nr[i].status == Finish)
    && (|nr| > 0 ==> nr[|nr| - 1].status in {Skip, Finish, Kill, Pending})
    && (|nr| > 0 && nr[|nr| - 1].status == Kill ==> rec.state == PipelineRunKill)
  }

  /** What one step of `run` decides for a loaded, unfinished run. */
  datatype Step = Retry(error: string) | Persist(rec: RunRecord)

  /** Lines `run` executes after the terminal-state check: mark the status
      Running, pick a node; with none left finish the run, otherwise execute
      the node; a failure is retried without storing anything. */
  function Advance(rec: RunRecord, now: int, remoteTypes: set<string>, remote: Executor): Step
    requires WellFormed(rec)
  {
    var sel := SelectNode(rec.pipeline, rec.spec, rec.status.nodeRun, now);
    SelectKeepsAligned(rec.pipeline, rec.spec, rec.status.nodeRun, now);
    var chosen := rec.(status := rec.status.(status := PipelineRunRunning, nodeRun := sel.nodeRun));
    match sel.index
    case None =>
      Persist(Finalize(chosen.(state := PipelineRunFinish, status := chosen.status.(status := PipelineRunFinish))))
    case Some(k) =>
      var (after, err) := ExecSpec(chosen, rec.pipeline.spec.nodes[k], remoteTypes, remote, now);
      if err.Some? then Retry(err.value) else Persist(Finalize(after))
  }

  /** A measure that every automatic re-queue lowers: twice the nodes still
      without a record, plus one while the last record is Pending. */
  function Remaining(rec: RunRecord): int
  {
    2 * (|rec.pipeline.spec.nodes| - |rec.status.nodeRun|) + (if LastPending(rec.status.nodeRun) then 1 else 0)
  }

  /** What node selection does to a well-formed, unfinished run: the old
      records are kept, the records stay aligned, every record but the last
      is Skip or Finish, a chosen node is the last record, and an exhausted
      scan leaves a Skip or Finish last record. */
  lemma SelectionShape(rec: RunRecord, now: int)
    requires WellFormed(rec) && !IsFinish(rec.state)
    ensures var nr := rec.status.nodeRun;
      var sel := SelectNode(rec.pipeline, rec.spec, nr, now);
      && Aligned(rec.pipeline, sel.nodeRun)
      && |nr| <= |sel.nodeRun|
      && (forall i :: 0 <= i < |nr| ==> sel.nodeRun[i] == nr[i])
      && (forall i :: 0 <= i < |sel.nodeRun| - 1 ==> sel.nodeRun[i].status == Skip || sel.nodeRun[i].status == Finish)
      && (sel.index.Some? ==> sel.index.value == |sel.nodeRun| - 1)
      && (sel.index.None? && |sel.nodeRun| > 0 ==>
            sel.nodeRun[|sel.nodeRun| - 1].status == Skip || sel.nodeRun[|sel.nodeRun| - 1].status == Finish)
  {
    var nr := rec.status.nodeRun;
    var sel := SelectNode(rec.pipeline, rec.spec, nr, now);
    SelectKeepsAligned(rec.pipeline, rec.spec, nr, now);
    forall i | 0 <= i < |nr| ensures sel.nodeRun[i] == nr[i] {
      assert sel.nodeRun[i] == sel.nodeRun[..|nr|][i];
    }
    if !LastPending(nr) {
      ScanSkips(rec.pipeline, rec.spec, nr, now);
    }
  }

  /** Storing the result of a node keeps a run well formed, provided every
      record before the last is Skip or Finish. */
  lemma ApplyResultWellFormed(rec: RunRecord, res: Result, now: int)
    requires |rec.status.nodeRun| > 0 && Aligned(rec.pipeline, rec.status.nodeRun)
    requires forall i :: 0 <= i < |rec.status.nodeRun| - 1 ==>
      rec.status.nodeRun[i].status == Skip || rec.status.nodeRun[i].status == Finish
    ensures var r := Finalize(ApplyResult(rec, res, now));
      && WellFormed(r)
      && r.id == rec.id && r.pipeline == rec.pipeline
      && |r.status.nodeRun| == |rec.status.nodeRun|
      && forall i :: 0 <= i < |rec.status.nodeRun| - 1 ==> r.status.nodeRun[i] == rec.status.nodeRun[i]
  {
  }

  /** Every stored run stays well formed: stepping an unfinished well-formed
      run keeps its id and pipeline, never rewrites a record other than the
      last one it had, and stores a well-formed run. */
  lemma AdvanceKeepsWellFormed(rec: RunRecord, now: int, remoteTypes: set<string>, remote: Executor)
    requires WellFormed(rec) && !IsFinish(rec.state)
    ensures Advance(rec, now, remoteTypes, remote).Persist? ==>
      var r := Advance(rec, now, remoteTypes, remote).rec;
      && WellFormed(r)
      && r.id == rec.id && r.pipeline == rec.pipeline
      && |rec.status.nodeRun| <= |r.status.nodeRun|
      && forall i :: 0 <= i < |rec.status.nodeRun| - 1 ==> r.status.nodeRun[i] == rec.status.nodeRun[i]
  {
    var nr := rec.status.nodeRun;
    var sel := SelectNode(rec.pipeline, rec.spec, nr, now);
    SelectionShape(rec, now);
    var chosen := rec.(status := rec.status.(status := PipelineRunRunning, nodeRun := sel.nodeRun));
    match sel.index
    case None =>
    case Some(k) =>
      match Dispatch(remoteTypes, remote, rec.pipeline.spec.nodes[k].spec.nodeType, RequestFor(chosen, rec.pipeline.spec.nodes[k]))
      case Failed(_, _) =>
      case Succeeded(res) =>
        ApplyResultWellFormed(chosen, res, now);
  }

  /** A run whose nodes are all used up is finished: the status and the state
      both become Finish, and every node has a record. */
  lemma AdvanceExhausted(rec: RunRecord, now: int, remoteTypes: set<string>, remote: Executor)
    requires WellFormed(rec) && !IsFinish(rec.state)
    requires SelectNode(rec.pipeline, rec.spec, rec.status.nodeRun, now).index.None?
    ensures Advance(rec, now, remoteTypes, remote).Persist?
    ensures var r := Advance(rec, now, remoteTypes, remote).rec;
      && r.state == PipelineRunFinish && r.status.status == PipelineRunFinish
      && |r.status.nodeRun| == |rec.pipeline.spec.nodes|
  {
    ScanKeepsPrefix(rec.pipeline, rec.spec, rec.status.nodeRun, now);
  }

  /** Executing the chosen node: an executor error is retried and stores
      nothing; a Kill result kills the run while its status stays Running; a
      Finish result stamps the completion time and leaves the run Running;
      any other result leaves the node Pending. */
  lemma AdvanceExecutes(rec: RunRecord, now: int, remoteTypes: set<string>, remote: Executor)
    requires WellFormed(rec) && !IsFinish(rec.state)
    ensures var sel := SelectNode(rec.pipeline, rec.spec, rec.status.nodeRun, now);
      sel.index.Some? ==>
        && sel.index.value < |rec.pipeline.spec.nodes|
        && var node := rec.pipeline.spec.nodes[sel.index.value];
        var chosen := rec.(status := rec.status.(status := PipelineRunRunning, nodeRun := sel.nodeRun));
        var step := Advance(rec, now, remoteTypes, remote);
        match Dispatch(remoteTypes, remote, node.spec.nodeType, RequestFor(chosen, node))
        case Failed(_, e) => step == Retry(e)
        case Succeeded(res) =>
          && step.Persist?
          && |step.rec.status.nodeRun| == |sel.nodeRun| > 0
          && var last := step.rec.status.nodeRun[|sel.nodeRun| - 1];
          && step.rec.status.status == PipelineRunRunning
          && last.output == res.out
          && (res.status == Kill ==> step.rec.state == PipelineRunKill && last.status == Kill)
          && (res.status == Finish ==> step.rec.state == rec.state && last.status == Finish && last.completionTime == now)
          && (res.status !in {Kill, Finish} ==> step.rec.state == rec.state && last.status == Pending)
  {
    SelectKeepsAligned(rec.pipeline, rec.spec, rec.status.nodeRun, now);
  }

  /** Re-queueing terminates: when a stored run is neither finished nor left
      Pending (the two cases in which `run` does not queue it again), its
      `Remaining` measure is lower than before the step and still
      non-negative. */
  lemma AdvanceProgress(rec: RunRecord, now: int, remoteTypes: set<string>, remote: Executor)
    requires WellFormed(rec) && !IsFinish(rec.state)
    ensures var step := Advance(rec, now, remoteTypes, remote);
      step.Persist? && !IsFinish(step.rec.state) && !LastPending(step.rec.status.nodeRun) ==>
        0 <= Remaining(step.rec) < Remaining(rec)
  {
    var nr := rec.status.nodeRun;
    var sel := SelectNode(rec.pipeline, rec.spec, nr, now);
    SelectKeepsAligned(rec.pipeline, rec.spec, nr, now);
    AdvanceKeepsWellFormed(rec, now, remoteTypes, remote);
    if !LastPending(nr) {
      ScanKeepsPrefix(rec.pipeline, rec.spec, nr, now);
    }
  }

  /** A pipeline without nodes, run for the first time, is stored finished
      with no records; `run` then reads the last record of an empty list. */
  lemma EmptyPipelineStoresNoRecord(rec: RunRecord, now: int, remoteTypes: set<string>, remote: Executor)
    requires WellFormed(rec) && !IsFinish(rec.state)
    requires |rec.pipeline.spec.nodes| == 0
    ensures Advance(rec, now, remoteTypes, remote).Persist?
    ensures Advance(rec, now, remoteTypes, remote).rec.status.nodeRun == []
    ensures Advance(rec, now, remoteTypes, remote).rec.state == PipelineRunFinish
  {
  }

  /** A run as loaded from the store (`database.PipelineRun`), changed in
      place by `getNodeToExecute` and `exec`. */
  class PipelineRun {
    const id: int
    const pipeline: Pipeline
    var spec: RunSpec
    var status: RunStatus
    var state: PipelineStatus

    function Snapshot(): RunRecord
      reads this
    {
      RunRecord(id, pipeline, spec, status, state)
    }

    /** Loading a stored run gives a fresh object holding its values. */
    constructor Load(rec: RunRecord)
      ensures Snapshot() == rec
    {
      id := rec.id;
      pipeline := rec.pipeline;
      spec := rec.spec;
      status := rec.status;
      state := rec.state;
    }

    /** `getNodeToExecute`: the records after the call are those of
        `SelectNode`, and the node returned is the one it chose. */
    method GetNodeToExecute(now: int) returns (node: Option<Node>)
      requires LastPending(status.nodeRun) ==> |status.nodeRun| <= |pipeline.spec.nodes|
      modifies this
      ensures var sel := SelectNode(pipeline, old(spec), old(status.nodeRun), now);
        && spec == old(spec) && state == old(state)
        && status == old(status).(nodeRun := sel.nodeRun)
        && (sel.index.None? ==> node.None?)
        && (sel.index.Some? ==> sel.index.value < |pipeline.spec.nodes| && node == Some(pipeline.spec.nodes[sel.index.value]))
    {
      var nodes := pipeline.spec.nodes;
      if LastPending(status.nodeRun) {
        return Some(nodes[|status.nodeRun| - 1]);
      }
      ScanKeepsPrefix(pipeline, spec, status.nodeRun, now);
      var cursor := |status.nodeRun|;
      while cursor < |nodes|
        invariant cursor == |status.nodeRun|
        invariant spec == old(spec) && state == old(state)
        invariant status == old(status).(nodeRun := status.nodeRun)
        invariant Scan(pipeline, spec, status.nodeRun, now) == Scan(pipeline, spec, old(status.nodeRun), now)
        decreases |nodes| - cursor
      {
        var record := Started(nodes[cursor], now);
        ghost var before := status.nodeRun;
        status := status.(nodeRun := status.nodeRun + [record]);
        if ShouldSkip(nodes[cursor], pipeline, spec, status.nodeRun) {
          status := status.(nodeRun := status.nodeRun[cursor := record.(status := Skip, completionTime := now)]);
          assert status.nodeRun == before + [Skipped(nodes[cursor], now)];
          cursor := cursor + 1;
        } else {
          return Some(nodes[cursor]);
        }
      }
      return None;
    }

    /** `exec`: the run afterwards, and the error, are those of `ExecSpec`. */
    method Exec(node: Node, remoteTypes: set<string>, remote: Executor, now: int) returns (err: Option<string>)
      requires |status.nodeRun| > 0
      modifies this
      ensures (Snapshot(), err) == ExecSpec(old(Snapshot()), node, remoteTypes, remote, now)
    {
      var outcome := Dispatch(remoteTypes, remote, node.spec.nodeType, RequestFor(Snapshot(), node));
      var n := |status.nodeRun| - 1;
      var record := status.nodeRun[n];
      match outcome
      case Failed(_, e) =>
        record := record.(message := e);
        status := status.(nodeRun := status.nodeRun[n := record]);
        return Some(e);
      case Succeeded(result) =>
        record := record.(status := result.status, output := result.out, message := result.message);
        var communal := spec.communal;
        for i := 0 to |result.communal|
          invariant communal == MergeCommunal(spec.communal, result.communal[..i])
        {
          var cp := result.communal[i];
          assert result.communal[..i + 1][..i] == result.communal[..i];
          match KeyIndex(cp.key, communal)
          case None =>
            communal := communal + [cp];
          case Some(j) =>
            communal := communal[j := communal[j].(value := cp.value)];
        }
        assert result.communal[..|result.communal|] == result.communal;
        spec := spec.(communal := communal);
        if record.status == Finish {
          record := record.(completionTime := now);
        } else if record.status == Kill {
          state := PipelineRunKill;
        } else {
          record := record.(status := Pending);
        }
        status := status.(nodeRun := status.nodeRun[n := record]);
        return None;
    }
    /** The part of `run` between loading and storing: mark the status
        Running, pick a node, execute it or, with none left, finish the run,
        then force a finished state on a finished status. The error, or the
        run afterwards, is what `Advance` decides. */
    method Step(now: int, remoteTypes: set<string>, remote: Executor) returns (err: Option<string>)
      requires WellFormed(Snapshot())
      modifies this
      ensures match Advance(old(Snapshot()), now, remoteTypes, remote)
        case Retry(e) => err == Some(e)
        case Persist(r) => err.None? && Snapshot() == r
    {
      SelectKeepsAligned(pipeline, spec, status.nodeRun, now);
      status := status.(status := PipelineRunRunning);
      var node := GetNodeToExecute(now);
      if node.Some? {
        err := Exec(node.value, remoteTypes, remote, now);
        if err.Some? {
          return;
        }
      } else {
        state := PipelineRunFinish;
        status := status.(status := PipelineRunFinish);
      }
      if IsFinish(status.status) && !IsFinish(state) {
        state := PipelineRunFinish;
      }
      err := None;
    }
  }

  /** The part of `run` that loads the stored run into a fresh object and
      steps it: the error, or the run to store back, of `Advance`. */
  method StepRun(rec: RunRecord, now: int, remoteTypes: set<string>, remote: Executor)
    returns (err: Option<string>, r: RunRecord)
    requires WellFormed(rec)
    ensures match Advance(rec, now, remoteTypes, remote)
      case Retry(e) => err == Some(e)
      case Persist(x) => err.None? && r == x
  {
    var plr := new PipelineRun.Load(rec);
    err := plr.Step(now, remoteTypes, remote);
    r := plr.Snapshot();
  }

  /** How one call of `run` ends. `Crashed` is the index panic on a stored
      run without records; `Retried` carries the executor's error and, when
      a retarder is configured, what its `Add` reported. */
  datatype RunOutcome =
    | Dropped
    | AlreadyFinished
    | Retried(error: string, add: Option<Retarder.AddError>)
    | Persisted(requeued: bool)
    | Crashed

  /** `runner`: the store of runs, the queue of ids to run (the channel), the
      optional retarder with its delay, and the configured executor types. */
  class Runner {
    var repo: map<int, RunRecord>
    var queue: seq<int>
    const retarder: Retarder.Retarder?<int>
    const delay: int
    const remoteTypes: set<string>

    ghost predicate Valid()
      reads this, retarder
    {
      && (retarder != null ==> retarder.Valid())
      && forall k :: k in repo ==> repo[k].id == k && WellFormed(repo[k])
    }

    constructor (repo: map<int, RunRecord>, retarder: Retarder.Retarder?<int>, delay: int, remoteTypes: set<string>)
      requires retarder != null ==> retarder.Valid()
      requires forall k :: k in repo ==> repo[k].id == k && WellFormed(repo[k])
      ensures Valid()
      ensures this.repo == repo && queue == [] && this.retarder == retarder
      ensures this.delay == delay && this.remoteTypes == remoteTypes
    {
      this.repo := repo;
      this.queue := [];
      this.retarder := retarder;
      this.delay := delay;
      this.remoteTypes := remoteTypes;
    }

    /** `set`: the id joins the queue. */
    method Set(id: int)
      modifies this
      ensures queue == old(queue) + [id]
      ensures repo == old(repo)
    {
      queue := queue + [id];
    }

    /** `run`: the store and the queue afterwards follow `Advance`. */
    method Run(id: int, now: int, remote: Executor) returns (outcome: RunOutcome)
      requires Valid()
      modifies this, if retarder != null then {retarder.ringBuffer} else {}
      ensures Valid()
      ensures id !in old(repo) ==> outcome == Dropped && repo == old(repo) && queue == old(queue)
      ensures id in old(repo) && IsFinish(old(repo)[id].state) ==>
        outcome == AlreadyFinished && repo == old(repo) && queue == old(queue)
      ensures id in old(repo) && !IsFinish(old(repo)[id].state) ==>
        match Advance(old(repo)[id], now, remoteTypes, remote)
        case Retry(e) =>
          && repo == old(repo) && queue == old(queue)
          && outcome.Retried? && outcome.error == e
          && (retarder == null ==> outcome.add.None?)
          && (retarder != null ==>
                (retarder.State(), outcome.add) == (Retarder.AddSpec(old(retarder.State()), delay, id).0, Some(Retarder.AddSpec(old(retarder.State()), delay, id).1)))
        case Persist(r) =>
          && repo == old(repo)[id := r]
          && (r.status.nodeRun == [] ==> outcome == Crashed && queue == old(queue))
          && (r.status.nodeRun != [] ==>
                var requeue := r.status.nodeRun[|r.status.nodeRun| - 1].status != Pending;
                outcome == Persisted(requeue) && queue == old(queue) + (if requeue then [id] else []))
      ensures outcome.Retried? ==> retarder != null ==> retarder.Valid()
      ensures !outcome.Retried? && retarder != null ==> retarder.State() == old(retarder.State())
    {
      if id !in repo {
        return Dropped;
      }
      var rec := repo[id];
      if IsFinish(rec.state) {
        return AlreadyFinished;
      }
      var err, r := StepRun(rec, now, remoteTypes, remote);
      if err.Some? {
        var added := Postpone(id);
        return Retried(err.value, added);
      }
      AdvanceKeepsWellFormed(rec, now, remoteTypes, remote);
      assert Advance(rec, now, remoteTypes, remote) == Persist(r) && r.id == id;
      outcome := Store(r);
    }

    /** The error path of `run`: with a retarder, the id is handed to it
        with the configured delay. */
    method Postpone(id: int) returns (added: Option<Retarder.AddError>)
      requires Valid()
      modifies if retarder != null then {retarder.ringBuffer} else {}
      ensures Valid()
      ensures retarder == null ==> added.None?
      ensures retarder != null ==>
        (retarder.State(), added) == (Retarder.AddSpec(old(retarder.State()), delay, id).0, Some(Retarder.AddSpec(old(retarder.State()), delay, id).1))
    {
      added := None;
      if retarder != null {
        var e := retarder.Add(id, delay);
        added := Some(e);
      }
    }

    /** The success path of `run`: the advanced run replaces the stored one,
        and it is queued again unless its last record is Pending; a run
        without records is the index panic. */
    method Store(r: RunRecord) returns (outcome: RunOutcome)
      requires Valid() && WellFormed(r)
      modifies this
      ensures Valid()
      ensures repo == old(repo)[r.id := r]
      ensures r.status.nodeRun == [] ==> outcome == Crashed && queue == old(queue)
      ensures r.status.nodeRun != [] ==>
        var requeue := r.status.nodeRun[|r.status.nodeRun| - 1].status != Pending;
        outcome == Persisted(requeue) && queue == old(queue) + (if requeue then [r.id] else [])
    {
      repo := repo[r.id := r];
      if |r.status.nodeRun| == 0 {
        return Crashed;
      }
      if r.status.nodeRun[|r.status.nodeRun| - 1].status != Pending {
        Set(r.id);
        outcome := Persisted(true);
      } else {
        outcome := Persisted(false);
      }
    }

    /** One tick of the retarder with its callback: every payload drained
        from the bucket is passed to `set`, in order. */
    method TickRetarder() returns (drained: seq<int>)
      requires Valid() && retarder != null
      modifies this, retarder, retarder.ringBuffer
      ensures Valid()
      ensures (retarder.State(), drained) == Retarder.TickSpec(old(retarder.State()))
      ensures queue == old(queue) + drained && repo == old(repo)
    {
      drained := retarder.Tick();
      ghost var ticked := retarder.State();
      for i := 0 to |drained|
        invariant queue == old(queue) + drained[..i]
        invariant repo == old(repo)
        invariant retarder.Valid() && retarder.State() == ticked
      {
        assert drained[..i + 1] == drained[..i] + [drained[i]];
        Set(drained[i]);
      }
      assert drained[..|drained|] == drained;
    }
  }
}
