/**
 * The API types shared by the engine and the executors: key/value pairs,
 * parameter declarations, pipelines and their nodes, and the status records a
 * run accumulates. Go's string-typed enumerations become datatypes; a value
 * outside the named constants (the empty string of a never-assigned field, or
 * whatever an executor reports) is kept as its own constructor.
 */
module V1alpha1 {
  import opened Wrappers

  /** `KeyAndValue`: one entry of the ordered key/value lists used everywhere. */
  datatype KeyAndValue = KeyAndValue(key: string, value: string)

  /** `ParamSpec`: a declared parameter with its default. */
  datatype ParamSpec = ParamSpec(name: string, default: string, description: string)

  /** `NodeStatus`. `Unset` is the empty string of a record that was just
      appended; `Other` is any other string an executor may report. */
  datatype NodeStatus = Skip | Pending | Finish | Kill | Unset | Other

  /** `PipelineSatus`. `PipelineRunUnset` is the empty string (and the nil
      status pointer) of a run that has never been advanced; `PipelineRunOther`
      is any other string read back from storage. */
  datatype PipelineStatus =
    | PipelineRunRunning
    | PipelineRunFinish
    | PipelineRunKill
    | PipelineRunUnset
    | PipelineRunOther

  /** `PipelineSatus.IsFinish`: a run is terminal when Finished or Killed. */
  predicate IsFinish(p: PipelineStatus)
    ensures IsFinish(p) <==> p in {PipelineRunFinish, PipelineRunKill}
  {
    p == PipelineRunFinish || p == PipelineRunKill
  }

  /** `When`: a condition on an input expression. */
  datatype When = When(input: string, operator: string, values: seq<string>)

  /** `NodeSpec`; `Type` selects the executor. */
  datatype NodeSpec = NodeSpec(
    nodeType: string,
    dependencies: seq<string>,
    params: seq<KeyAndValue>,
    outPut: seq<string>,
    when: seq<When>)

  /** `Node`: a named step of a pipeline. */
  datatype Node = Node(name: string, spec: NodeSpec)

  /** `PipelineSpec` and `Pipeline`: the template a run freezes. */
  datatype PipelineSpec = PipelineSpec(params: seq<ParamSpec>, nodes: seq<Node>, communal: seq<ParamSpec>)
  datatype Pipeline = Pipeline(name: string, spec: PipelineSpec)

  /** `NodeStatusSpec`: what a run records for one attempted node. */
  datatype NodeStatusSpec = NodeStatusSpec(
    name: string,
    output: seq<KeyAndValue>,
    status: NodeStatus,
    startTime: int,
    completionTime: int,
    message: string)

  /** `PipeplineRunSpec`: the run's own inputs. */
  datatype RunSpec = RunSpec(params: seq<KeyAndValue>, communal: seq<KeyAndValue>, pipelineRef: string)

  /** `PipeplineRunStatus`: the observed state, with the ordered node records. */
  datatype RunStatus = RunStatus(status: PipelineStatus, message: string, nodeRun: seq<NodeStatusSpec>)

  /** The value the first entry keyed `name` holds (`getValueFromKV` and
      `getKV` in the engine). */
  function FirstValue(name: string, kvs: seq<KeyAndValue>): (r: Option<string>)
    ensures r.None? <==> forall i :: 0 <= i < |kvs| ==> kvs[i].key != name
    ensures r.Some? ==> exists i :: 0 <= i < |kvs| && kvs[i].key == name && kvs[i].value == r.value
                          && forall j :: 0 <= j < i ==> kvs[j].key != name
  {
    if |kvs| == 0 then None
    else if kvs[0].key == name then Some(kvs[0].value)
    else
      var r := FirstValue(name, kvs[1..]);
      assert r.Some? ==> exists i :: 0 <= i < |kvs| && kvs[i].key == name && kvs[i].value == r.value
                          && forall j :: 0 <= j < i ==> kvs[j].key != name by {
        if r.Some? {
          var i :| 0 <= i < |kvs[1..]| && kvs[1..][i].key == name && kvs[1..][i].value == r.value
                   && forall j :: 0 <= j < i ==> kvs[1..][j].key != name;
          assert kvs[i + 1] == kvs[1..][i];
          forall j | 0 <= j < i + 1 ensures kvs[j].key != name {
            if j > 0 { assert kvs[j] == kvs[1..][j - 1]; }
          }
        }
      }
      r
  }

  /** The value the last entry keyed `name` holds: what a loop that assigns on
      every match leaves behind. */
  function LastValue(name: string, kvs: seq<KeyAndValue>): (r: Option<string>)
    ensures r.None? <==> forall i :: 0 <= i < |kvs| ==> kvs[i].key != name
    ensures r.Some? ==> exists i :: 0 <= i < |kvs| && kvs[i].key == name && kvs[i].value == r.value
                          && forall j :: i < j < |kvs| ==> kvs[j].key != name
  {
    if |kvs| == 0 then None
    else if kvs[|kvs| - 1].key == name then Some(kvs[|kvs| - 1].value)
    else
      var r := LastValue(name, kvs[..|kvs| - 1]);
      assert r.Some? ==> exists i :: 0 <= i < |kvs| && kvs[i].key == name && kvs[i].value == r.value
                          && forall j :: i < j < |kvs| ==> kvs[j].key != name by {
        if r.Some? {
          var pre := kvs[..|kvs| - 1];
          var i :| 0 <= i < |pre| && pre[i].key == name && pre[i].value == r.value
                   && forall j :: i < j < |pre| ==> pre[j].key != name;
          assert kvs[i] == pre[i];
          forall j | i < j < |kvs| ensures kvs[j].key != name {
            if j < |kvs| - 1 { assert kvs[j] == pre[j]; }
          }
        }
      }
      r
  }
}
