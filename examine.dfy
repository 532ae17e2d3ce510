/**
 * The approval ("examine") executor (`core/pkg/node/nodes/examine/service`).
 * `Do` reads its parameters, honours an earlier approval's "false" verdict,
 * resolves the `dealUsers` list into user ids, and then either creates one
 * Pending approval record per user (first visit) or aggregates the records
 * already there into Pending or Finish with an "agree" result. Decisions
 * (`examineTask`), urging and recalling update the records.
 *
 * The SQL table of approval records is the `tasks` field of `TaskStore`;
 * each repository call becomes the query or update it performs on that
 * sequence. The form service, the user service and the UUID generator are
 * parameters.
 */
module Examine {
  import opened Wrappers
  import opened GoStrings
  import opened V1alpha1
  import opened NodeInterface

  // ---------------------------------------------------------------------
  // Records and the queries over them
  // ---------------------------------------------------------------------

  /** One approval record (`model.Task`); timestamps, substitute and form
      reference are left out. `taskID` is the pipeline run id. */
  datatype Task = Task(
    id: string, taskID: int, flowID: string, userID: string, createdBy: string,
    examineType: string, result: string, nodeResult: NodeStatus,
    appID: string, formTableID: string, formDataID: string,
    urgeTimes: int, remark: string, nodeDefKey: string)

  const ResultAgree := "agree"
  const ResultReject := "reject"
  const ResultRecall := "recall"
  const ExamineOr := "or"
  const ExamineAll := "and"

  const NoUserToDeal := "have no user to deal"
  const NoFormData := "no form data"
  const GetFormDataErr := "get form data err"
  const NoUsersResolved := "审核节点解析人员为空，解析字段为"
  const NoMatchingTask := "当前任务与审核人不匹配"
  const AlreadyDecided := "任务已经被执行完成，具体请看任务进度详情"

  /** `ListByTaskIDAndNodeDefKey`: the records of one approval node of one run, in order. */
  function ListBy(tasks: seq<Task>, taskID: int, nodeDefKey: string): (r: seq<Task>)
    ensures |r| <= |tasks|
  {
    if |tasks| == 0 then []
    else
      var t := tasks[|tasks| - 1];
      ListBy(tasks[..|tasks| - 1], taskID, nodeDefKey)
        + (if t.taskID == taskID && t.nodeDefKey == nodeDefKey then [t] else [])
  }

  /** The node's list holds exactly the table's records of that node. */
  lemma {:induction false} ListByMembers(tasks: seq<Task>, taskID: int, nodeDefKey: string)
    ensures forall x :: x in ListBy(tasks, taskID, nodeDefKey) <==>
      x in tasks && x.taskID == taskID && x.nodeDefKey == nodeDefKey
    decreases |tasks|
  {
    if |tasks| > 0 {
      var n := |tasks| - 1;
      ListByMembers(tasks[..n], taskID, nodeDefKey);
      assert tasks == tasks[..n] + [tasks[n]];
    }
  }

  /** `GetByID`: the first record with the given id. */
  function FindById(tasks: seq<Task>, id: string): (r: Option<nat>)
    ensures r.Some? ==> r.value < |tasks| && tasks[r.value].id == id
    ensures r.Some? ==> forall k :: 0 <= k < r.value ==> tasks[k].id != id
    ensures r.None? ==> forall k :: 0 <= k < |tasks| ==> tasks[k].id != id
  {
    if |tasks| == 0 then None
    else if tasks[0].id == id then Some(0)
    else match FindById(tasks[1..], id)
      case None => None
      case Some(k) => Some(k + 1)
  }

  /** `GetByUserIDAndTaskID`: the first record of that user in that run. */
  function FindByUser(tasks: seq<Task>, userID: string, taskID: int): (r: Option<nat>)
    ensures r.Some? ==> r.value < |tasks| && tasks[r.value].userID == userID && tasks[r.value].taskID == taskID
    ensures r.None? ==> forall k :: 0 <= k < |tasks| ==> tasks[k].userID != userID || tasks[k].taskID != taskID
  {
    if |tasks| == 0 then None
    else if tasks[0].userID == userID && tasks[0].taskID == taskID then Some(0)
    else match FindByUser(tasks[1..], userID, taskID)
      case None => None
      case Some(k) => Some(k + 1)
  }

  predicate AnyPending(ts: seq<Task>) {
    exists k :: 0 <= k < |ts| && ts[k].nodeResult == Pending
  }

  predicate AnyRejected(ts: seq<Task>) {
    exists k :: 0 <= k < |ts| && (ts[k].result == ResultReject || ts[k].result == ResultRecall)
  }

  /** The aggregation in `do` over existing records: Pending while any
      record is Pending, otherwise Finish with "false" when some record was
      rejected or recalled and "true" when none was. */
  method Aggregate(ts: seq<Task>) returns (nodeType: NodeStatus, result: string)
    ensures AnyPending(ts) ==> nodeType == Pending && result == ""
    ensures !AnyPending(ts) ==> nodeType == Finish && result == (if AnyRejected(ts) then "false" else "true")
  {
    var flag := true;
    var k := 0;
    while k < |ts|
      invariant 0 <= k <= |ts|
      invariant flag <==> forall j :: 0 <= j < k ==> ts[j].nodeResult != Pending
      invariant !flag ==> AnyPending(ts)
    {
      if ts[k].nodeResult == Pending {
        flag := false;
        break;
      }
      k := k + 1;
    }
    result := "true";
    if flag {
      k := 0;
      while k < |ts|
        invariant 0 <= k <= |ts|
        invariant result == "true" ==> forall j :: 0 <= j < k ==> ts[j].result != ResultReject && ts[j].result != ResultRecall
        invariant result == "false" ==> AnyRejected(ts)
        invariant result == "true" || result == "false"
      {
        if ts[k].result == ResultReject || ts[k].result == ResultRecall {
          result := "false";
          break;
        }
        k := k + 1;
      }
    }
    if flag {
      nodeType := Finish;
    } else {
      nodeType := Pending;
      result := "";
    }
  }

  // ---------------------------------------------------------------------
  // The request
  // ---------------------------------------------------------------------

  /** `DoRequest` plus the `dealUsers` string `Do` keeps aside. */
  datatype DoRequest = DoRequest(
    taskID: int, flowID: string, taskType: string, appID: string, formID: string,
    formDataID: string, createdBy: string, sysAuditBool: string, nodeDefKey: string,
    dealUsers: string)

  const GatheredKeys: set<string> :=
    {"appID", "flowID", "tableID", "dataID", "created_by", "taskType", "dealUsers", "SYS_AUDIT_BOOL"}

  /** The first loop of `Do`: every parameter it knows is copied, the last
      same-key parameter winning; the run id and the node name come from
      the request's annotations. */
  method GatherRequest(req: Request) returns (d: DoRequest)
    ensures d.taskID == req.runId && d.nodeDefKey == req.nodeName
    ensures d.appID == LastValue("appID", req.params).GetOr("")
    ensures d.flowID == LastValue("flowID", req.params).GetOr("")
    ensures d.formID == LastValue("tableID", req.params).GetOr("")
    ensures d.formDataID == LastValue("dataID", req.params).GetOr("")
    ensures d.createdBy == LastValue("created_by", req.params).GetOr("")
    ensures d.taskType == LastValue("taskType", req.params).GetOr("")
    ensures d.dealUsers == LastValue("dealUsers", req.params).GetOr("")
    ensures d.sysAuditBool == LastValue("SYS_AUDIT_BOOL", req.params).GetOr("")
  {
    var ps := req.params;
    d := DoRequest(req.runId, "", "", "", "", "", "", "", req.nodeName, "");
    for k := 0 to |ps|
      invariant d.taskID == req.runId && d.nodeDefKey == req.nodeName
      invariant d.appID == LastValue("appID", ps[..k]).GetOr("")
      invariant d.flowID == LastValue("flowID", ps[..k]).GetOr("")
      invariant d.formID == LastValue("tableID", ps[..k]).GetOr("")
      invariant d.formDataID == LastValue("dataID", ps[..k]).GetOr("")
      invariant d.createdBy == LastValue("created_by", ps[..k]).GetOr("")
      invariant d.taskType == LastValue("taskType", ps[..k]).GetOr("")
      invariant d.dealUsers == LastValue("dealUsers", ps[..k]).GetOr("")
      invariant d.sysAuditBool == LastValue("SYS_AUDIT_BOOL", ps[..k]).GetOr("")
    {
      var kv := ps[k];
      forall name | name in GatheredKeys
        ensures LastValue(name, ps[..k + 1]) == if kv.key == name then Some(kv.value) else LastValue(name, ps[..k])
      {
        assert ps[..k + 1][..k] == ps[..k];
      }
      // The keys are distinct constants, so at most one branch applies.
      if kv.key == "appID" { d := d.(appID := kv.value); }
      else if kv.key == "flowID" { d := d.(flowID := kv.value); }
      else if kv.key == "tableID" { d := d.(formID := kv.value); }
      else if kv.key == "dataID" { d := d.(formDataID := kv.value); }
      else if kv.key == "created_by" { d := d.(createdBy := kv.value); }
      else if kv.key == "taskType" { d := d.(taskType := kv.value); }
      else if kv.key == "dealUsers" { d := d.(dealUsers := kv.value); }
      else if kv.key == "SYS_AUDIT_BOOL" { d := d.(sysAuditBool := kv.value); }
    }
    assert ps[..|ps|] == ps;
  }

  /** The earlier approval's verdict: some parameter keyed by the value of
      SYS_AUDIT_BOOL holds "false". */
  predicate AuditRejected(params: seq<KeyAndValue>, code: string) {
    exists k :: 0 <= k < |params| && params[k].key == code && params[k].value == "false"
  }

  /** The second loop of `Do`. */
  method CheckAudit(params: seq<KeyAndValue>, code: string) returns (rejected: bool)
    ensures rejected <==> AuditRejected(params, code)
  {
    for k := 0 to |params|
      invariant forall j :: 0 <= j < k ==> !(params[j].key == code && params[j].value == "false")
    {
      if params[k].key == code && params[k].value == "false" {
        return true;
      }
    }
    return false;
  }

  // ---------------------------------------------------------------------
  // Resolving the users who decide
  // ---------------------------------------------------------------------

  /** What resolving one or more `dealUsers` entries gives: user ids, an
      error to return, or a panic (an index past the end of a split). */
  datatype Lookup = Ids(ids: seq<string>) | LookupError(message: string) | Panic

  /** The part of the fetched form the resolution reads: the creator's id
      ("" unless it is a non-empty string) and, for a form field, the user
      ids it lists. */
  datatype Form = Form(creatorId: string, fieldUsers: string -> seq<string>)

  /** One `dealUsers` entry, split at '.': "leader" and "formApplyUserID"
      ask the user service, "field.<name>" reads the users listed in that
      form field, a "field" entry of another shape falls back to the
      `created_by` parameter, "person.<id>" contributes `<id>` verbatim and
      a bare "person" indexes past the split; any other kind contributes
      nothing. */
  function ResolveEntry(entry: string, createdBy: string, form: Form, users: seq<string> -> Lookup): Lookup
  {
    var split := Split(entry, ".");
    match split[0]
    case "leader" => users(split)
    case "field" => if |split| != 2 then Ids([createdBy]) else Ids(form.fieldUsers(split[1]))
    case "person" => if |split| >= 2 then Ids([split[1]]) else Panic
    case "formApplyUserID" => users(split)
    case _ => Ids([])
  }

  /** A "person" entry panics exactly when it has no '.', and otherwise
      contributes the id after the first '.'; an entry of an unknown kind
      contributes nothing. */
  lemma ResolveEntryKinds(entry: string, createdBy: string, form: Form, users: seq<string> -> Lookup)
    ensures var split := Split(entry, ".");
      var r := ResolveEntry(entry, createdBy, form, users);
      && (split[0] == "person" ==> (r.Panic? <==> |split| == 1))
      && (split[0] == "person" && |split| >= 2 ==> r == Ids([split[1]]))
      && (split[0] !in {"leader", "field", "person", "formApplyUserID"} ==> r == Ids([]))
  {
  }

  /** The entries resolved left to right; the first entry that fails decides
      the outcome. */
  function ResolveAll(entries: seq<string>, createdBy: string, form: Form, users: seq<string> -> Lookup): Lookup
  {
    if |entries| == 0 then Ids([])
    else match ResolveAll(entries[..|entries| - 1], createdBy, form, users)
      case Ids(ids) =>
        (match ResolveEntry(entries[|entries| - 1], createdBy, form, users)
         case Ids(more) => Ids(ids + more)
         case other => other)
      case other => other
  }

  /** Ids in order, and success, when every entry succeeds. */
  lemma {:induction false} ResolveAllConcat(entries: seq<string>, createdBy: string, form: Form,
                                            users: seq<string> -> Lookup, ids: seq<seq<string>>)
    requires |ids| == |entries|
    requires forall k :: 0 <= k < |entries| ==> ResolveEntry(entries[k], createdBy, form, users) == Ids(ids[k])
    ensures ResolveAll(entries, createdBy, form, users) == Ids(Flatten(ids))
  {
    if |entries| > 0 {
      var n := |entries| - 1;
      var front, before := entries[..n], ids[..n];
      forall k | 0 <= k < |front| ensures ResolveEntry(front[k], createdBy, form, users) == Ids(before[k]) {
        assert front[k] == entries[k] && before[k] == ids[k];
      }
      ResolveAllConcat(front, createdBy, form, users, before);
      ResolveAllStep(entries, createdBy, form, users, Flatten(before), ids[n]);
      FlattenLast(ids);
    }
  }

  lemma ResolveAllStep(entries: seq<string>, createdBy: string, form: Form, users: seq<string> -> Lookup,
                       earlier: seq<string>, more: seq<string>)
    requires |entries| > 0
    requires ResolveAll(entries[..|entries| - 1], createdBy, form, users) == Ids(earlier)
    requires ResolveEntry(entries[|entries| - 1], createdBy, form, users) == Ids(more)
    ensures ResolveAll(entries, createdBy, form, users) == Ids(earlier + more)
  {
  }

  function Flatten(xss: seq<seq<string>>): seq<string>
  {
    if |xss| == 0 then [] else xss[0] + Flatten(xss[1..])
  }

  lemma FlattenLast(xss: seq<seq<string>>)
    requires |xss| > 0
    ensures Flatten(xss) == Flatten(xss[..|xss| - 1]) + xss[|xss| - 1]
  {
    var n := |xss| - 1;
    assert xss == xss[..n] + [xss[n]];
    FlattenSnoc(xss[..n], xss[n]);
  }

  lemma {:induction false} FlattenSnoc(xss: seq<seq<string>>, last: seq<string>)
    ensures Flatten(xss + [last]) == Flatten(xss) + last
  {
    if |xss| > 0 {
      assert (xss + [last])[1..] == xss[1..] + [last];
      FlattenSnoc(xss[1..], last);
    } else {
      assert xss + [last] == [last];
    }
  }

  /** "person.<id>" contributes the text of `<id>` up to its first '.',
      so all of `<id>` when it has no '.'. */
  lemma PersonEntry(id: string, createdBy: string, form: Form, users: seq<string> -> Lookup)
    ensures ResolveEntry("person." + id, createdBy, form, users) == Ids([Split(id, ".")[0]])
    ensures '.' !in id ==> ResolveEntry("person." + id, createdBy, form, users) == Ids([id])
  {
    assert "person." + id == "person" + ("." + id);
    IndexOfSkips("person", "." + id, ".");
    assert IndexOf("." + id, ".") == Some(0) by {
      assert ("." + id)[..1] == ".";
    }
    var s := "person." + id;
    assert s[..6] == "person" && s[7..] == id;
    assert Split(s, ".") == [s[..6]] + Split(s[7..], ".");
    if '.' !in id {
      NotContainsWithoutHead(id, ".");
      SplitNoSeparator(id, ".");
    }
  }

  /** A bare "person" entry panics. */
  lemma BarePersonPanics(createdBy: string, form: Form, users: seq<string> -> Lookup)
    ensures ResolveEntry("person", createdBy, form, users) == Panic
  {
    NotContainsWithoutHead("person", ".");
    SplitNoSeparator("person", ".");
  }

  /** A list of "person.<id>" entries resolves to exactly those ids, in order. */
  lemma PersonsInOrder(ids: seq<string>, createdBy: string, form: Form, users: seq<string> -> Lookup)
    requires forall k :: 0 <= k < |ids| ==> '.' !in ids[k]
    ensures ResolveAll(seq(|ids|, k requires 0 <= k < |ids| => "person." + ids[k]), createdBy, form, users) == Ids(ids)
  {
    var entries := seq(|ids|, k requires 0 <= k < |ids| => "person." + ids[k]);
    var parts := seq(|ids|, k requires 0 <= k < |ids| => [ids[k]]);
    forall k | 0 <= k < |entries| ensures ResolveEntry(entries[k], createdBy, form, users) == Ids(parts[k]) {
      PersonEntry(ids[k], createdBy, form, users);
    }
    ResolveAllConcat(entries, createdBy, form, users, parts);
    FlattenSingletons(ids);
  }

  lemma {:induction false} FlattenSingletons(ids: seq<string>)
    ensures Flatten(seq(|ids|, k requires 0 <= k < |ids| => [ids[k]])) == ids
  {
    if |ids| > 0 {
      var parts := seq(|ids|, k requires 0 <= k < |ids| => [ids[k]]);
      assert parts[1..] == seq(|ids[1..]|, k requires 0 <= k < |ids[1..]| => [ids[1..][k]]);
      FlattenSingletons(ids[1..]);
      assert ids == [ids[0]] + ids[1..];
    }
  }

  /** What `resolutionDealObjects` returns. */
  datatype Resolution = Resolved(ids: seq<string>, creator: string) | ResolveFailed(message: string) | ResolvePanic

  /** `resolutionDealObjects`: no `dealUsers` is an error; so is a failed
      or empty form fetch; otherwise the entries split at ',' are resolved
      in order, and the form's creator is returned beside the ids. */
  function ResolveDealUsers(dealUsers: string, createdBy: string, fetched: Fetched<Option<Form>>,
                      users: seq<string> -> Lookup): (r: Resolution)
    ensures dealUsers == "" ==> r == ResolveFailed(NoUserToDeal)
    ensures dealUsers != "" && fetched.FetchError? ==> r == ResolveFailed(GetFormDataErr + ": " + fetched.message)
    ensures dealUsers != "" && fetched == Entity(None) ==> r == ResolveFailed(NoFormData)
    ensures r.Resolved? ==> fetched.Entity? && fetched.entity.Some? && r.creator == fetched.entity.value.creatorId
  {
    if dealUsers == "" then ResolveFailed(NoUserToDeal)
    else match fetched
      case FetchError(m) => ResolveFailed(GetFormDataErr + ": " + m)
      case Entity(None) => ResolveFailed(NoFormData)
      case Entity(Some(form)) =>
        match ResolveAll(Split(dealUsers, ","), createdBy, form, users)
        case Ids(ids) => Resolved(ids, form.creatorId)
        case LookupError(m) => ResolveFailed(m)
        case Panic => ResolvePanic
  }

  /** The loop of `resolutionDealObjects` over the entries. */
  method ResolveEntries(entries: seq<string>, createdBy: string, form: Form, users: seq<string> -> Lookup)
    returns (r: Lookup)
    ensures r == ResolveAll(entries, createdBy, form, users)
  {
    var ids: seq<string> := [];
    for k := 0 to |entries|
      invariant ResolveAll(entries[..k], createdBy, form, users) == Ids(ids)
    {
      assert entries[..k + 1][..k] == entries[..k];
      var one := ResolveEntry(entries[k], createdBy, form, users);
      if !one.Ids? {
        assert ResolveAll(entries[..k + 1], createdBy, form, users) == one;
        ResolveAllStops(entries, k + 1, createdBy, form, users);
        return one;
      }
      ids := ids + one.ids;
    }
    assert entries[..|entries|] == entries;
    r := Ids(ids);
  }

  /** Once a prefix fails, the whole list fails the same way. */
  lemma {:induction false} ResolveAllStops(entries: seq<string>, k: nat, createdBy: string, form: Form,
                                           users: seq<string> -> Lookup)
    requires k <= |entries|
    requires !ResolveAll(entries[..k], createdBy, form, users).Ids?
    ensures ResolveAll(entries, createdBy, form, users) == ResolveAll(entries[..k], createdBy, form, users)
    decreases |entries| - k
  {
    if k < |entries| {
      assert entries[..k + 1][..k] == entries[..k];
      ResolveAllStops(entries, k + 1, createdBy, form, users);
    } else {
      assert entries[..k] == entries;
    }
  }

  // ---------------------------------------------------------------------
  // Do
  // ---------------------------------------------------------------------

  /** The record `do` inserts for one user: Pending, with no result yet. */
  function NewTask(d: DoRequest, userID: string, id: string): (t: Task)
    ensures t.nodeResult == Pending && t.result == "" && t.urgeTimes == 0
    ensures t.userID == userID && t.taskID == d.taskID && t.nodeDefKey == d.nodeDefKey
  {
    Task(id, d.taskID, d.flowID, userID, d.createdBy, d.taskType, "", Pending,
         d.appID, d.formID, d.formDataID, 0, "", d.nodeDefKey)
  }

  /** What `Do` ends in: the executor's pair, or a panic. */
  datatype DoResult = Returned(outcome: Outcome) | Panicked

  /** The answer `Do` gives once `do` has reported Finish with `result`. */
  function FinishAnswer(code: string, result: string): (r: Outcome)
    ensures r.Succeeded? && r.result.status == Finish && r.result.message == ""
    ensures r.result.out == [KeyAndValue("agree", result)]
    ensures r.result.communal == [KeyAndValue(code, if result == "true" then "true" else "false")]
  {
    Succeeded(Result([KeyAndValue("agree", result)],
                     [KeyAndValue(code, if result == "true" then "true" else "false")], Finish, ""))
  }

  /** The resolution step of `Do`: no `dealUsers`, a failed fetch and a
      missing form are errors; otherwise every entry is resolved. */
  method ResolveRequest(dealUsers: string, createdBy: string, fetched: Fetched<Option<Form>>,
                        users: seq<string> -> Lookup) returns (res: Resolution)
    ensures res == ResolveDealUsers(dealUsers, createdBy, fetched, users)
  {
    if dealUsers == "" {
      return ResolveFailed(NoUserToDeal);
    }
    match fetched {
      case FetchError(m) => res := ResolveFailed(GetFormDataErr + ": " + m);
      case Entity(None) => res := ResolveFailed(NoFormData);
      case Entity(Some(form)) =>
        var found := ResolveEntries(Split(dealUsers, ","), createdBy, form, users);
        match found {
          case Ids(ids) => res := Resolved(ids, form.creatorId);
          case LookupError(m) => res := ResolveFailed(m);
          case Panic => res := ResolvePanic;
        }
    }
  }

  /** `Do` over the record list: its answer and the records afterwards. */
  function DoSpec(tasks: seq<Task>, d: DoRequest, params: seq<KeyAndValue>, fetched: Fetched<Option<Form>>,
                  users: seq<string> -> Lookup, uuids: nat -> string): (DoResult, seq<Task>)
  {
    if AuditRejected(params, d.sysAuditBool) then (Returned(Succeeded(Result([], [], Finish, ""))), tasks)
    else match ResolveDealUsers(d.dealUsers, d.createdBy, fetched, users)
      case ResolvePanic => (Panicked, tasks)
      case ResolveFailed(m) => (Returned(Failed(Result([], [], Kill, ""), m)), tasks)
      case Resolved(ids, creator) =>
        if |ids| == 0 then
          (Returned(Succeeded(Result([], [], Kill, NoUsersResolved + d.dealUsers))), tasks)
        else
          var existing := ListBy(tasks, d.taskID, d.nodeDefKey);
          if |existing| == 0 then
            var d' := d.(createdBy := creator);
            (Returned(Succeeded(Result([], [], Pending, ""))),
             tasks + seq(|ids|, k requires 0 <= k < |ids| => NewTask(d', ids[k], uuids(k))))
          else if AnyPending(existing) then
            (Returned(Succeeded(Result([], [], Pending, ""))), tasks)
          else
            (Returned(FinishAnswer(d.sysAuditBool, if AnyRejected(existing) then "false" else "true")), tasks)
  }

  /** If the earlier approval said "false", `Do` finishes at once with no
      output and touches no record. */
  lemma AuditFalseFinishes(tasks: seq<Task>, d: DoRequest, params: seq<KeyAndValue>, fetched: Fetched<Option<Form>>,
                           users: seq<string> -> Lookup, uuids: nat -> string)
    requires AuditRejected(params, d.sysAuditBool)
    ensures var (r, after) := DoSpec(tasks, d, params, fetched, users, uuids);
      r == Returned(NullDo(Request(params, d.taskID, d.nodeDefKey))) && after == tasks
  {
  }

  /** No `dealUsers` kills the node with an error; users that resolve to
      nobody kill it with a message and no error. */
  lemma NobodyToDecideKills(tasks: seq<Task>, d: DoRequest, params: seq<KeyAndValue>, fetched: Fetched<Option<Form>>,
                            users: seq<string> -> Lookup, uuids: nat -> string)
    requires !AuditRejected(params, d.sysAuditBool)
    ensures d.dealUsers == "" ==>
      DoSpec(tasks, d, params, fetched, users, uuids) == (Returned(Failed(Result([], [], Kill, ""), NoUserToDeal)), tasks)
    ensures var res := ResolveDealUsers(d.dealUsers, d.createdBy, fetched, users);
      res.Resolved? && res.ids == [] ==>
      DoSpec(tasks, d, params, fetched, users, uuids) ==
        (Returned(Succeeded(Result([], [], Kill, NoUsersResolved + d.dealUsers))), tasks)
  {
  }

  /** The first visit to a node creates exactly one Pending record per
      resolved user, in order, and answers Pending; afterwards the node's
      records are exactly those. */
  lemma {:induction false} FirstVisitCreatesRecords(tasks: seq<Task>, d: DoRequest, params: seq<KeyAndValue>,
                                                    fetched: Fetched<Option<Form>>, users: seq<string> -> Lookup,
                                                    uuids: nat -> string)
    requires !AuditRejected(params, d.sysAuditBool)
    requires ResolveDealUsers(d.dealUsers, d.createdBy, fetched, users).Resolved?
    requires |ResolveDealUsers(d.dealUsers, d.createdBy, fetched, users).ids| > 0
    requires |ListBy(tasks, d.taskID, d.nodeDefKey)| == 0
    ensures var ids := ResolveDealUsers(d.dealUsers, d.createdBy, fetched, users).ids;
      var (r, after) := DoSpec(tasks, d, params, fetched, users, uuids);
      var mine := ListBy(after, d.taskID, d.nodeDefKey);
      && r == Returned(Succeeded(Result([], [], Pending, "")))
      && |mine| == |ids|
      && (forall k :: 0 <= k < |ids| ==> mine[k].userID == ids[k] && mine[k].nodeResult == Pending)
      && after[..|tasks|] == tasks
  {
    var res := ResolveDealUsers(d.dealUsers, d.createdBy, fetched, users);
    var d' := d.(createdBy := res.creator);
    var added := seq(|res.ids|, k requires 0 <= k < |res.ids| => NewTask(d', res.ids[k], uuids(k)));
    forall k | 0 <= k < |added| ensures added[k].taskID == d.taskID && added[k].nodeDefKey == d.nodeDefKey {
      assert added[k] == NewTask(d', res.ids[k], uuids(k));
    }
    assert DoSpec(tasks, d, params, fetched, users, uuids) == (Returned(Succeeded(Result([], [], Pending, ""))), tasks + added);
    ListByAppendOwn(tasks, added, d.taskID, d.nodeDefKey);
    assert ListBy(tasks + added, d.taskID, d.nodeDefKey) == added;
    forall k | 0 <= k < |res.ids| ensures added[k].userID == res.ids[k] && added[k].nodeResult == Pending {
      assert added[k] == NewTask(d', res.ids[k], uuids(k));
    }
    assert (tasks + added)[..|tasks|] == tasks;
  }

  /** Appending records that all belong to the node lists them after the old ones. */
  lemma {:induction false} ListByAppendOwn(tasks: seq<Task>, added: seq<Task>, taskID: int, nodeDefKey: string)
    requires forall k :: 0 <= k < |added| ==> added[k].taskID == taskID && added[k].nodeDefKey == nodeDefKey
    ensures ListBy(tasks + added, taskID, nodeDefKey) == ListBy(tasks, taskID, nodeDefKey) + added
    decreases |added|
  {
    if |added| == 0 {
      assert tasks + added == tasks;
    } else {
      var n := |added| - 1;
      var front := tasks + added[..n];
      ListByAppendOwn(tasks, added[..n], taskID, nodeDefKey);
      assert tasks + added == front + [added[n]] by {
        assert added == added[..n] + [added[n]];
      }
      ListBySnoc(front, added[n], taskID, nodeDefKey);
      assert ListBy(tasks, taskID, nodeDefKey) + added[..n] + [added[n]]
          == ListBy(tasks, taskID, nodeDefKey) + added by {
        assert added == added[..n] + [added[n]];
      }
    }
  }

  lemma ListBySnoc(tasks: seq<Task>, t: Task, taskID: int, nodeDefKey: string)
    ensures ListBy(tasks + [t], taskID, nodeDefKey)
         == ListBy(tasks, taskID, nodeDefKey) + (if t.taskID == taskID && t.nodeDefKey == nodeDefKey then [t] else [])
  {
    assert (tasks + [t])[..|tasks|] == tasks;
  }

  /** A later visit answers Pending while any record is Pending, and
      otherwise finishes with `agree` = "false" exactly when some record was
      rejected or recalled; the communal flag carries the same verdict.
      Nothing is written. */
  lemma LaterVisitAggregates(tasks: seq<Task>, d: DoRequest, params: seq<KeyAndValue>,
                             fetched: Fetched<Option<Form>>, users: seq<string> -> Lookup, uuids: nat -> string)
    requires !AuditRejected(params, d.sysAuditBool)
    requires ResolveDealUsers(d.dealUsers, d.createdBy, fetched, users).Resolved?
    requires |ResolveDealUsers(d.dealUsers, d.createdBy, fetched, users).ids| > 0
    requires |ListBy(tasks, d.taskID, d.nodeDefKey)| > 0
    ensures var mine := ListBy(tasks, d.taskID, d.nodeDefKey);
      var (r, after) := DoSpec(tasks, d, params, fetched, users, uuids);
      && after == tasks
      && (AnyPending(mine) ==> r == Returned(Succeeded(Result([], [], Pending, ""))))
      && (!AnyPending(mine) ==>
            (&& r.Returned? && r.outcome.Succeeded? && r.outcome.result.status == Finish
             && r.outcome.result.out == [KeyAndValue("agree", if AnyRejected(mine) then "false" else "true")]
             && r.outcome.result.communal == [KeyAndValue(d.sysAuditBool, if AnyRejected(mine) then "false" else "true")]))
  {
  }

  // ---------------------------------------------------------------------
  // Decisions on records
  // ---------------------------------------------------------------------

  /** `UpdateResult`: every record with the id gets the result, the remark
      and Finish. */
  function Decide(tasks: seq<Task>, id: string, result: string, remark: string): (r: seq<Task>)
    ensures |r| == |tasks|
    ensures forall k :: 0 <= k < |r| ==> r[k].id == tasks[k].id && r[k].taskID == tasks[k].taskID
                                         && r[k].nodeDefKey == tasks[k].nodeDefKey
  {
    seq(|tasks|, k requires 0 <= k < |tasks| =>
      if tasks[k].id == id then tasks[k].(result := result, remark := remark, nodeResult := Finish) else tasks[k])
  }

  /** `UpdateByTaskID`: every record of the run gets Finish; nothing else,
      the result included, is written. */
  function CloseRun(tasks: seq<Task>, taskID: int): (r: seq<Task>)
    ensures |r| == |tasks|
    ensures forall k :: 0 <= k < |r| ==> r[k].id == tasks[k].id && r[k].taskID == tasks[k].taskID
                                         && r[k].nodeDefKey == tasks[k].nodeDefKey && r[k].result == tasks[k].result
  {
    seq(|tasks|, k requires 0 <= k < |tasks| =>
      if tasks[k].taskID == taskID then tasks[k].(nodeResult := Finish) else tasks[k])
  }

  /** Whether a decision completes the whole approval: any decision does
      for "or", only a rejection does for "and". */
  predicate Completes(examineType: string, result: string) {
    examineType == ExamineOr || (examineType == ExamineAll && result == ResultReject)
  }

  /** `examineTask` over the record list: the error, or the records afterwards. */
  function ExamineSpec(tasks: seq<Task>, examineID: string, result: string, remark: string): (Option<string>, seq<Task>)
  {
    match FindById(tasks, examineID)
    case None => (Some(NoMatchingTask), tasks)
    case Some(i) =>
      if tasks[i].nodeResult == Finish then (Some(AlreadyDecided), tasks)
      else
        var decided := Decide(tasks, examineID, result, remark);
        if Completes(tasks[i].examineType, result) then (None, CloseRun(decided, tasks[i].taskID))
        else (None, decided)
  }

  /** A decision on an unknown record, or one already decided, is refused
      and changes nothing; an accepted one marks the record Finish with the
      result and remark, never touches another run, and keeps every
      record's identity. */
  lemma {:induction false} ExamineEffect(tasks: seq<Task>, examineID: string, result: string, remark: string)
    ensures var (err, after) := ExamineSpec(tasks, examineID, result, remark);
      && (err.Some? <==> FindById(tasks, examineID).None? || tasks[FindById(tasks, examineID).value].nodeResult == Finish)
      && (err.Some? ==> after == tasks)
      && |after| == |tasks|
      && (err.None? ==> forall k :: 0 <= k < |tasks| && tasks[k].id == examineID ==>
            after[k].result == result && after[k].remark == remark && after[k].nodeResult == Finish)
      && (err.None? ==> forall k ::
            (0 <= k < |tasks| && tasks[k].taskID != tasks[FindById(tasks, examineID).value].taskID
             && tasks[k].id != examineID) ==> after[k] == tasks[k])
  {
  }

  /** An "or" decision, or an "and" rejection, leaves no record of the run
      Pending, so the node's next `Do` finishes; after an "and" rejection it
      finishes with "false". */
  lemma CompletingDecision(tasks: seq<Task>, examineID: string, result: string, remark: string)
    requires FindById(tasks, examineID).Some?
    requires tasks[FindById(tasks, examineID).value].nodeResult != Finish
    requires Completes(tasks[FindById(tasks, examineID).value].examineType, result)
    ensures var t := tasks[FindById(tasks, examineID).value];
      var after := ExamineSpec(tasks, examineID, result, remark).1;
      && !AnyPending(ListBy(after, t.taskID, t.nodeDefKey))
      && (result == ResultReject ==> AnyRejected(ListBy(after, t.taskID, t.nodeDefKey)))
  {
    var i := FindById(tasks, examineID).value;
    var t := tasks[i];
    var after := ExamineSpec(tasks, examineID, result, remark).1;
    var mine := ListBy(after, t.taskID, t.nodeDefKey);
    ListByMembers(after, t.taskID, t.nodeDefKey);
    forall k | 0 <= k < |mine| ensures mine[k].nodeResult != Pending {
      var j :| 0 <= j < |after| && after[j] == mine[k];
    }
    if result == ResultReject {
      assert after[i].result == ResultReject;
      assert after[i] in mine;
      var k :| 0 <= k < |mine| && mine[k] == after[i];
    }
  }

  /** An "and" agreement finishes only the records with that id; every other
      record keeps its status and result. */
  lemma AndAgreeKeepsOthers(tasks: seq<Task>, examineID: string, remark: string)
    requires FindById(tasks, examineID).Some?
    requires tasks[FindById(tasks, examineID).value].examineType == ExamineAll
    requires tasks[FindById(tasks, examineID).value].nodeResult != Finish
    ensures var after := ExamineSpec(tasks, examineID, ResultAgree, remark).1;
      forall k :: 0 <= k < |tasks| && tasks[k].id != examineID ==> after[k] == tasks[k]
  {
  }

  /** `UpdateUrgeTimes`: every record with the id gets the given urge count,
      as the update `WHERE id = ?` writes one value to all matching rows; no
      other field and no other record changes. */
  function Urged(tasks: seq<Task>, id: string, times: int): (r: seq<Task>)
    ensures |r| == |tasks|
    ensures forall k :: 0 <= k < |tasks| ==> r[k].(urgeTimes := tasks[k].urgeTimes) == tasks[k]
    ensures forall k :: 0 <= k < |tasks| && tasks[k].id == id ==> r[k].urgeTimes == times
    ensures forall k :: 0 <= k < |tasks| && tasks[k].id != id ==> r[k] == tasks[k]
  {
    seq(|tasks|, k requires 0 <= k < |tasks| =>
      if tasks[k].id == id then tasks[k].(urgeTimes := times) else tasks[k])
  }

  /** Urging counts and nothing else: every node's Pending and rejected
      state, and so the next `Do`, is as before. */
  lemma {:induction false} UrgeKeepsVerdict(tasks: seq<Task>, id: string, times: int, taskID: int, nodeDefKey: string)
    ensures AnyPending(ListBy(Urged(tasks, id, times), taskID, nodeDefKey)) == AnyPending(ListBy(tasks, taskID, nodeDefKey))
    ensures AnyRejected(ListBy(Urged(tasks, id, times), taskID, nodeDefKey)) == AnyRejected(ListBy(tasks, taskID, nodeDefKey))
  {
    UrgedListBy(tasks, id, times, taskID, nodeDefKey);
  }

  lemma {:induction false} UrgedListBy(tasks: seq<Task>, id: string, times: int, taskID: int, nodeDefKey: string)
    ensures |ListBy(Urged(tasks, id, times), taskID, nodeDefKey)| == |ListBy(tasks, taskID, nodeDefKey)|
    ensures forall k :: 0 <= k < |ListBy(tasks, taskID, nodeDefKey)| ==>
      ListBy(Urged(tasks, id, times), taskID, nodeDefKey)[k].nodeResult == ListBy(tasks, taskID, nodeDefKey)[k].nodeResult
      && ListBy(Urged(tasks, id, times), taskID, nodeDefKey)[k].result == ListBy(tasks, taskID, nodeDefKey)[k].result
    decreases |tasks|
  {
    if |tasks| > 0 {
      var n := |tasks| - 1;
      assert Urged(tasks, id, times)[..n] == Urged(tasks[..n], id, times);
      UrgedListBy(tasks[..n], id, times, taskID, nodeDefKey);
    }
  }

  // ---------------------------------------------------------------------
  // The store
  // ---------------------------------------------------------------------

  /** The approval-record table and the operations that change it. */
  class TaskStore {
    var tasks: seq<Task>

    constructor()
      ensures tasks == []
    {
      tasks := [];
    }

    /** `do`: insert one Pending record per user on the first visit,
        otherwise aggregate the node's records. */
    method Record(d: DoRequest, userIDs: seq<string>, uuids: nat -> string) returns (nodeType: NodeStatus, result: string)
      modifies this
      ensures var existing := ListBy(old(tasks), d.taskID, d.nodeDefKey);
        if |existing| == 0 then
          && nodeType == Pending && result == ""
          && tasks == old(tasks) + seq(|userIDs|, k requires 0 <= k < |userIDs| => NewTask(d, userIDs[k], uuids(k)))
        else
          && tasks == old(tasks)
          && (AnyPending(existing) ==> nodeType == Pending && result == "")
          && (!AnyPending(existing) ==> nodeType == Finish && result == (if AnyRejected(existing) then "false" else "true"))
    {
      var existing := ListBy(tasks, d.taskID, d.nodeDefKey);
      if |existing| == 0 {
        var datas: seq<Task> := [];
        for k := 0 to |userIDs|
          invariant datas == seq(k, j requires 0 <= j < k => NewTask(d, userIDs[j], uuids(j)))
        {
          datas := datas + [NewTask(d, userIDs[k], uuids(k))];
        }
        tasks := tasks + datas;
        return Pending, "";
      }
      nodeType, result := Aggregate(existing);
    }

    /** `task.Do`. */
    method Do(req: Request, fetched: Fetched<Option<Form>>, users: seq<string> -> Lookup, uuids: nat -> string)
      returns (r: DoResult)
      modifies this
      ensures var d := DoRequest(req.runId,
          LastValue("flowID", req.params).GetOr(""), LastValue("taskType", req.params).GetOr(""),
          LastValue("appID", req.params).GetOr(""), LastValue("tableID", req.params).GetOr(""),
          LastValue("dataID", req.params).GetOr(""), LastValue("created_by", req.params).GetOr(""),
          LastValue("SYS_AUDIT_BOOL", req.params).GetOr(""), req.nodeName,
          LastValue("dealUsers", req.params).GetOr(""));
        (r, tasks) == DoSpec(old(tasks), d, req.params, fetched, users, uuids)
    {
      var d := GatherRequest(req);
      var rejected := CheckAudit(req.params, d.sysAuditBool);
      if rejected {
        return Returned(Succeeded(Result([], [], Finish, "")));
      }
      var res := ResolveRequest(d.dealUsers, d.createdBy, fetched, users);
      match res {
        case ResolvePanic => return Panicked;
        case ResolveFailed(m) => return Returned(Failed(Result([], [], Kill, ""), m));
        case Resolved(ids, creator) =>
          if |ids| == 0 {
            return Returned(Succeeded(Result([], [], Kill, NoUsersResolved + d.dealUsers)));
          }
          var nodeType, result := Record(d.(createdBy := creator), ids, uuids);
          if nodeType == Finish {
            r := Returned(FinishAnswer(d.sysAuditBool, result));
          } else {
            r := Returned(Succeeded(Result([], [], nodeType, "")));
          }
      }
    }

    /** `examineTask`. */
    method ExamineTask(examineID: string, result: string, remark: string) returns (err: Option<string>)
      modifies this
      ensures (err, tasks) == ExamineSpec(old(tasks), examineID, result, remark)
    {
      var found := FindById(tasks, examineID);
      if found.None? {
        return Some(NoMatchingTask);
      }
      var task := tasks[found.value];
      if task.nodeResult == Finish {
        return Some(AlreadyDecided);
      }
      tasks := Decide(tasks, examineID, result, remark);
      if Completes(task.examineType, result) {
        tasks := CloseRun(tasks, task.taskID);
      }
      err := None;
    }

    /** `Urge`: the first record of the user in the run is found, and its
        urge count plus one is written to every record with its id; an
        unknown pair is an error. */
    method Urge(userID: string, taskID: int) returns (err: Option<string>)
      modifies this
      ensures FindByUser(old(tasks), userID, taskID).None? ==> err == Some(NoMatchingTask) && tasks == old(tasks)
      ensures FindByUser(old(tasks), userID, taskID).Some? ==>
        var found := old(tasks)[FindByUser(old(tasks), userID, taskID).value];
        err.None? && tasks == Urged(old(tasks), found.id, found.urgeTimes + 1)
    {
      var found := FindByUser(tasks, userID, taskID);
      if found.None? {
        return Some(NoMatchingTask);
      }
      var task := tasks[found.value];
      tasks := Urged(tasks, task.id, task.urgeTimes + 1);
      err := None;
    }

    /** `Recall` as written: the records of the run are marked Finish, but
        the "recall" result it sets is never stored, since `UpdateByTaskID`
        writes only the status. */
    method Recall(taskID: int)
      modifies this
      ensures tasks == RecallAsWritten(old(tasks), taskID)
    {
      tasks := RecallAsWritten(tasks, taskID);
    }

    /** `Recall` as intended: the run's records end Finish with result "recall". */
    method RecallIntended(taskID: int)
      modifies this
      ensures tasks == RecallFixed(old(tasks), taskID)
    {
      tasks := RecallFixed(tasks, taskID);
    }
  }

  // ---------------------------------------------------------------------
  // Recall
  // ---------------------------------------------------------------------

  /** `Recall` as written: when the run has records, `UpdateByTaskID` marks
      them Finish and stores nothing else. */
  function RecallAsWritten(tasks: seq<Task>, taskID: int): (r: seq<Task>)
    ensures |r| == |tasks|
  {
    CloseRun(tasks, taskID)
  }

  /** `Recall` as intended: the run's records end Finish with result "recall". */
  function RecallFixed(tasks: seq<Task>, taskID: int): (r: seq<Task>)
    ensures |r| == |tasks|
  {
    seq(|tasks|, k requires 0 <= k < |tasks| =>
      if tasks[k].taskID == taskID then tasks[k].(nodeResult := Finish, result := ResultRecall) else tasks[k])
  }

  /** A recalled approval that nobody had decided is read by the next `Do`
      as approved: no record is Pending and none carries "reject" or
      "recall", so the node finishes with `agree` = "true". */
  lemma RecallReadsAsApproval(tasks: seq<Task>, taskID: int, nodeDefKey: string)
    requires forall k :: 0 <= k < |tasks| ==> tasks[k].result == ""
    requires |ListBy(tasks, taskID, nodeDefKey)| > 0
    ensures var mine := ListBy(RecallAsWritten(tasks, taskID), taskID, nodeDefKey);
      |mine| > 0 && !AnyPending(mine) && !AnyRejected(mine)
  {
    var after := RecallAsWritten(tasks, taskID);
    var mine := ListBy(after, taskID, nodeDefKey);
    ListByRecall(tasks, after, taskID, nodeDefKey);
    ListByMembers(after, taskID, nodeDefKey);
    forall k | 0 <= k < |mine| ensures mine[k].nodeResult != Pending && mine[k].result == "" {
      assert mine[k] in after && mine[k].taskID == taskID;
      var j :| 0 <= j < |after| && after[j] == mine[k];
      assert after[j].taskID == taskID && tasks[j].result == "";
    }
  }

  /** With the intended recall the next `Do` finishes with `agree` = "false". */
  lemma RecallIntendedRejects(tasks: seq<Task>, taskID: int, nodeDefKey: string)
    requires |ListBy(tasks, taskID, nodeDefKey)| > 0
    ensures var mine := ListBy(RecallFixed(tasks, taskID), taskID, nodeDefKey);
      |mine| > 0 && !AnyPending(mine) && AnyRejected(mine)
  {
    var after := RecallFixed(tasks, taskID);
    var mine := ListBy(after, taskID, nodeDefKey);
    ListByRecall(tasks, after, taskID, nodeDefKey);
    ListByMembers(after, taskID, nodeDefKey);
    forall k | 0 <= k < |mine| ensures mine[k].nodeResult != Pending && mine[k].result == ResultRecall {
      assert mine[k] in after && mine[k].taskID == taskID;
      var j :| 0 <= j < |after| && after[j] == mine[k];
      assert after[j].taskID == taskID;
    }
    assert mine[0].result == ResultRecall;
  }

  /** An update that keeps every record's run and node keeps the node's list length. */
  lemma {:induction false} ListByRecall(tasks: seq<Task>, after: seq<Task>, taskID: int, nodeDefKey: string)
    requires |after| == |tasks|
    requires forall k :: 0 <= k < |tasks| ==> after[k].taskID == tasks[k].taskID && after[k].nodeDefKey == tasks[k].nodeDefKey
    ensures |ListBy(after, taskID, nodeDefKey)| == |ListBy(tasks, taskID, nodeDefKey)|
    decreases |tasks|
  {
    if |tasks| > 0 {
      var n := |tasks| - 1;
      ListByRecall(tasks[..n], after[..n], taskID, nodeDefKey);
    }
  }
}
