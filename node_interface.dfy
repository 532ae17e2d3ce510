/**
 * The executor boundary (`pkg/node`): what the engine sends a node executor,
 * what it gets back, and the two built-in executors, `None` for an unknown
 * node type and `Null` for the "null" type.
 */
module NodeInterface {
  import opened V1alpha1

  /** `Result`: what an executor reports for one node. */
  datatype Result = Result(out: seq<KeyAndValue>, communal: seq<KeyAndValue>, status: NodeStatus, message: string)

  /** `Request`: the resolved parameters plus the two annotations the engine
      attaches (the run id and the node name). */
  datatype Request = Request(params: seq<KeyAndValue>, runId: int, nodeName: string)

  /** The pair `(*Result, error)` an executor returns; `Failed` carries the
      error text together with the result the executor built anyway. */
  datatype Outcome = Succeeded(result: Result) | Failed(partial: Result, error: string)

  /** What the form service's `GetFormData` returns to an executor: the
      entity, or an error message. */
  datatype Fetched<E> = Entity(entity: E) | FetchError(message: string)

  const IllegalNodeType := "Illegal node type"

  /** An executor as the engine sees it: a node type and a request in, an outcome out. */
  type Executor = (string, Request) -> Outcome

  /** `None.Do`: always an error, although the result it carries says Finish. */
  function NoneDo(req: Request): (r: Outcome)
    ensures r.Failed? && r.error == IllegalNodeType
    ensures r.partial.status == Finish
  {
    Failed(Result([], [], Finish, ""), IllegalNodeType)
  }

  /** `Null.Do`: always Finish, no error, nothing produced. */
  function NullDo(req: Request): (r: Outcome)
    ensures r.Succeeded? && r.result.status == Finish
    ensures r.result.out == [] && r.result.communal == [] && r.result.message == ""
  {
    Succeeded(Result([], [], Finish, ""))
  }

  /** `runner.getNode` followed by `Do`: the "null" type always runs `Null`
      (it is registered after the configured types), a configured type runs
      its remote executor, and anything else runs `None`. */
  function Dispatch(remoteTypes: set<string>, remote: Executor, nodeType: string, req: Request): (r: Outcome)
    ensures nodeType == "null" ==> r == NullDo(req)
    ensures nodeType != "null" && nodeType !in remoteTypes ==> r.Failed? && r.error == IllegalNodeType
    ensures nodeType != "null" && nodeType in remoteTypes ==> r == remote(nodeType, req)
  {
    if nodeType == "null" then NullDo(req)
    else if nodeType in remoteTypes then remote(nodeType, req)
    else NoneDo(req)
  }
}
