/**
 * The form trigger service (`trigger/cmd/form`): a name-keyed store of
 * triggers that each tie a form table and an action (CREATE or UPDATE) to a
 * pipeline, and the handler that, for each form change it is told about,
 * starts the pipelines of the matching triggers with the form coordinates as
 * parameters.
 *
 * The trigger table is the `triggers` field of `FormService`, with its
 * auto-increment id counter; the pipeline executions sent are returned as a
 * list. The duplicate-suppression cache is the `compliant` parameter.
 */
module FormTrigger {
  import opened Wrappers

  /** The action a trigger watches. */
  const Create := "CREATE"
  const Update := "UPDATE"

  const BadRequest := 400
  const Conflict := 409

  const Unparsable := "form data structures cannot be parsed correctly"
  const NoDataId := "can not get form data id"
  const DataIdNotString := "can not change id type to string"
  const ProcessFailed := "fail process quanxaing form data"

  /** `FormData`: what `Add` is given besides the names. */
  datatype FormData = FormData(appID: string, tableID: string, kind: string, filters: seq<string>)

  /** `FormTrigger`: a stored trigger (timestamps left out). */
  datatype Trigger = Trigger(id: int, name: string, pipelineName: string, appID: string,
                             tableID: string, kind: string, filters: seq<string>)

  /** A value of the form entity: a string, or anything else JSON can hold. */
  datatype Value = Str(s: string) | NonString

  /** `Data`: a form change notification. `entity` is None when it is not a JSON object. */
  datatype Data = Data(tableID: string, entity: Option<map<string, Value>>, verb: string)

  /** One `ExecPipeline` call: the pipeline name and its parameters, in order. */
  datatype Execution = Execution(name: string, params: seq<(string, string)>)

  /** `oneOf`. */
  method OneOf(src: string, dst: seq<string>) returns (found: bool)
    ensures found <==> src in dst
  {
    for k := 0 to |dst|
      invariant src !in dst[..k]
    {
      if dst[k] == src {
        assert dst[k] in dst;
        return true;
      }
      assert dst[..k + 1] == dst[..k] + [dst[k]];
    }
    assert dst[..|dst|] == dst;
    return false;
  }

  /** `GetByTableID`: exactly the triggers of one table and action, in
      table order. */
  function ByTable(triggers: seq<Trigger>, tableID: string, kind: string): (r: seq<Trigger>)
    ensures |r| <= |triggers|
    ensures forall k :: 0 <= k < |r| ==> r[k].tableID == tableID && r[k].kind == kind && r[k] in triggers
    ensures forall t :: t in triggers && t.tableID == tableID && t.kind == kind ==> t in r
  {
    if |triggers| == 0 then []
    else
      var t := triggers[0];
      (if t.tableID == tableID && t.kind == kind then [t] else []) + ByTable(triggers[1..], tableID, kind)
  }

  /** The selection keeps table order: the triggers selected from a
      concatenation are those selected from each part, in turn. */
  lemma {:induction false} ByTableAppend(a: seq<Trigger>, b: seq<Trigger>, tableID: string, kind: string)
    ensures ByTable(a + b, tableID, kind) == ByTable(a, tableID, kind) + ByTable(b, tableID, kind)
  {
    if |a| > 0 {
      assert (a + b)[0] == a[0];
      assert (a + b)[1..] == a[1..] + b;
      ByTableAppend(a[1..], b, tableID, kind);
    } else {
      assert a + b == b;
    }
  }

  /** `Get`: the first trigger with the name. */
  function FindByName(triggers: seq<Trigger>, name: string): (r: Option<nat>)
    ensures r.Some? ==> r.value < |triggers| && triggers[r.value].name == name
    ensures r.None? ==> forall k :: 0 <= k < |triggers| ==> triggers[k].name != name
  {
    if |triggers| == 0 then None
    else if triggers[0].name == name then Some(0)
    else match FindByName(triggers[1..], name)
      case None => None
      case Some(k) => Some(k + 1)
  }

  /** The action a notification's method stands for, and the entity key
      that must hold a non-empty value for it: "post" is CREATE and needs
      `creator_id`, "put" is UPDATE and needs `modifier_id`. */
  function MethodKind(verb: string): (r: Option<(string, string)>)
    ensures verb == "post" <==> r == Some((Create, "creator_id"))
    ensures verb == "put" <==> r == Some((Update, "modifier_id"))
    ensures verb != "post" && verb != "put" <==> r.None?
  {
    if verb == "post" then Some((Create, "creator_id"))
    else if verb == "put" then Some((Update, "modifier_id"))
    else None
  }

  /** An UPDATE trigger holds the loop up when none of its filters (there
      may be none) is a key of the entity. */
  predicate Blocks(t: Trigger, entity: map<string, Value>) {
    t.kind == Update && forall f :: f in t.filters ==> f !in entity
  }

  /** The pipeline execution sent for a trigger. */
  function ExecFor(t: Trigger, dataID: string): (e: Execution)
    ensures e.name == t.pipelineName
    ensures e.params == [("appID", t.appID), ("tableID", t.tableID), ("dataID", dataID)]
  {
    Execution(t.pipelineName, [("appID", t.appID), ("tableID", t.tableID), ("dataID", dataID)])
  }

  /** The executions the loop of `processQuanxiangFrom` sends: one per
      trigger, in order, up to the first trigger that blocks. */
  function Dispatches(fts: seq<Trigger>, entity: map<string, Value>, dataID: string): (r: seq<Execution>)
    ensures |r| <= |fts|
  {
    if |fts| == 0 || Blocks(fts[0], entity) then []
    else [ExecFor(fts[0], dataID)] + Dispatches(fts[1..], entity, dataID)
  }

  /** The triggers before the first blocking one are each executed, in
      order, and nothing after it. */
  lemma {:induction false} DispatchesUpToBlock(fts: seq<Trigger>, entity: map<string, Value>, dataID: string, b: nat)
    requires b <= |fts|
    requires forall k :: 0 <= k < b ==> !Blocks(fts[k], entity)
    requires b == |fts| || Blocks(fts[b], entity)
    ensures |Dispatches(fts, entity, dataID)| == b
    ensures forall k :: 0 <= k < b ==> Dispatches(fts, entity, dataID)[k] == ExecFor(fts[k], dataID)
  {
    if b > 0 {
      DispatchesUpToBlock(fts[1..], entity, dataID, b - 1);
    }
  }

  /** An UPDATE trigger with no filters blocks every notification; a CREATE
      trigger never blocks. */
  lemma BlockingKinds(t: Trigger, entity: map<string, Value>)
    ensures t.kind == Update && t.filters == [] ==> Blocks(t, entity)
    ensures t.kind == Create ==> !Blocks(t, entity)
  {
  }

  /** `processQuanxiangFrom` over a notification whose entity parsed: the
      error, and the executions sent. Execution errors are only logged. */
  function ProcessSpec(fts: seq<Trigger>, entity: map<string, Value>): (Option<string>, seq<Execution>)
  {
    if |fts| == 0 then (None, [])
    else if "_id" !in entity then (Some(NoDataId), [])
    else match entity["_id"]
      case NonString => (Some(DataIdNotString), [])
      case Str(dataID) => (None, Dispatches(fts, entity, dataID))
  }

  /** `Exec` over the trigger table: the error, and the executions sent. */
  function ExecSpec(triggers: seq<Trigger>, input: Data, compliant: bool): (Option<string>, seq<Execution>)
  {
    match input.entity
    case None => (Some(Unparsable), [])
    case Some(entity) =>
      match MethodKind(input.verb)
      case None => (None, [])
      case Some((kind, key)) =>
        if key !in entity || entity[key] == Str("") then (None, [])
        else if !compliant then (None, [])
        else
          var (err, sent) := ProcessSpec(ByTable(triggers, input.tableID, kind), entity);
          (if err.Some? then Some(ProcessFailed + ": " + err.value) else None, sent)
  }

  /** Only "post" and "put" notifications with the needed id reach the
      triggers, and only the triggers of their table and of the action the
      method stands for run. */
  lemma ExecSelects(triggers: seq<Trigger>, input: Data, compliant: bool)
    ensures input.entity.None? ==> ExecSpec(triggers, input, compliant) == (Some(Unparsable), [])
    ensures input.entity.Some? && input.verb != "post" && input.verb != "put" ==>
      ExecSpec(triggers, input, compliant) == (None, [])
    ensures (input.entity.Some? && input.verb == "post" &&
             ("creator_id" !in input.entity.value || input.entity.value["creator_id"] == Str(""))) ==>
      ExecSpec(triggers, input, compliant) == (None, [])
    ensures (input.entity.Some? && input.verb == "put" &&
             ("modifier_id" !in input.entity.value || input.entity.value["modifier_id"] == Str(""))) ==>
      ExecSpec(triggers, input, compliant) == (None, [])
    ensures var (_, sent) := ExecSpec(triggers, input, compliant);
      forall e :: e in sent ==>
        MethodKind(input.verb).Some? &&
        exists t :: t in triggers && t.tableID == input.tableID && t.kind == MethodKind(input.verb).value.0
          && e.name == t.pipelineName
  {
    var (_, sent) := ExecSpec(triggers, input, compliant);
    forall e | e in sent
      ensures MethodKind(input.verb).Some? &&
        exists t :: t in triggers && t.tableID == input.tableID && t.kind == MethodKind(input.verb).value.0
          && e.name == t.pipelineName
    {
      var entity := input.entity.value;
      var kind := MethodKind(input.verb).value.0;
      var fts := ByTable(triggers, input.tableID, kind);
      var dataID := entity["_id"].s;
      DispatchesFrom(fts, entity, dataID);
      var k :| 0 <= k < |fts| && e == ExecFor(fts[k], dataID);
      assert fts[k] in triggers;
    }
  }

  /** Every execution sent comes from one of the triggers. */
  lemma {:induction false} DispatchesFrom(fts: seq<Trigger>, entity: map<string, Value>, dataID: string)
    ensures forall e :: e in Dispatches(fts, entity, dataID) ==> exists k :: 0 <= k < |fts| && e == ExecFor(fts[k], dataID)
  {
    if |fts| > 0 && !Blocks(fts[0], entity) {
      DispatchesFrom(fts[1..], entity, dataID);
      forall e | e in Dispatches(fts, entity, dataID) ensures exists k :: 0 <= k < |fts| && e == ExecFor(fts[k], dataID) {
        if e != ExecFor(fts[0], dataID) {
          var k :| 0 <= k < |fts[1..]| && e == ExecFor(fts[1..][k], dataID);
          assert fts[1..][k] == fts[k + 1];
        }
      }
    }
  }

  /** `Delete`: the table without the rows of one id, in order. */
  function Without(triggers: seq<Trigger>, id: int): (r: seq<Trigger>)
    ensures |r| <= |triggers|
  {
    if |triggers| == 0 then []
    else
      var last := triggers[|triggers| - 1];
      Without(triggers[..|triggers| - 1], id) + (if last.id == id then [] else [last])
  }

  /** Exactly the rows of other ids are kept. */
  lemma {:induction false} WithoutMembers(triggers: seq<Trigger>, id: int)
    ensures forall t :: t in Without(triggers, id) <==> t in triggers && t.id != id
  {
    if |triggers| > 0 {
      var init := triggers[..|triggers| - 1];
      WithoutMembers(init, id);
      assert triggers == init + [triggers[|triggers| - 1]];
    }
  }

  /** The trigger table. */
  class FormService {
    var triggers: seq<Trigger>
    var nextId: int

    /** A name identifies one trigger, and so does an id; every id is
        below the counter. */
    ghost predicate Valid()
      reads this
    {
      && (forall a, b :: a in triggers && b in triggers && a.name == b.name ==> a == b)
      && (forall a, b :: a in triggers && b in triggers && a.id == b.id ==> a == b)
      && (forall t :: t in triggers ==> t.id < nextId)
    }

    constructor()
      ensures Valid() && triggers == [] && nextId == 1
    {
      triggers := [];
      nextId := 1;
    }

    /** `Add`: a kind other than CREATE or UPDATE is a bad request, an
        existing name a conflict; otherwise exactly one trigger is stored. */
    method Add(name: string, pipelineName: string, data: FormData) returns (err: Option<int>)
      requires Valid()
      modifies this
      ensures Valid()
      ensures data.kind != Create && data.kind != Update ==> err == Some(BadRequest) && triggers == old(triggers)
      ensures (data.kind == Create || data.kind == Update) && FindByName(old(triggers), name).Some? ==>
        err == Some(Conflict) && triggers == old(triggers)
      ensures (data.kind == Create || data.kind == Update) && FindByName(old(triggers), name).None? ==>
        && err.None?
        && triggers == old(triggers) + [Trigger(old(nextId), name, pipelineName, data.appID, data.tableID, data.kind, data.filters)]
    {
      if data.kind != Create && data.kind != Update {
        return Some(BadRequest);
      }
      if FindByName(triggers, name).Some? {
        return Some(Conflict);
      }
      triggers := triggers + [Trigger(nextId, name, pipelineName, data.appID, data.tableID, data.kind, data.filters)];
      nextId := nextId + 1;
      err := None;
    }

    /** `Remove`: an unknown name is not an error and changes nothing; a
        known one is deleted, and no trigger of that name is left. */
    method Remove(name: string)
      requires Valid()
      modifies this
      ensures Valid()
      ensures FindByName(old(triggers), name).None? ==> triggers == old(triggers)
      ensures FindByName(old(triggers), name).Some? ==>
        triggers == Without(old(triggers), old(triggers)[FindByName(old(triggers), name).value].id)
      ensures forall k :: 0 <= k < |triggers| ==> triggers[k].name != name
      ensures forall t :: t in old(triggers) && t.name != name ==> t in triggers
      ensures forall t :: t in triggers ==> t in old(triggers)
    {
      var found := FindByName(triggers, name);
      if found.None? {
        return;
      }
      var id := triggers[found.value].id;
      var kept: seq<Trigger> := [];
      for k := 0 to |triggers|
        invariant kept == Without(triggers[..k], id)
      {
        assert triggers[..k + 1][..k] == triggers[..k];
        if triggers[k].id != id {
          kept := kept + [triggers[k]];
        }
      }
      assert triggers[..|triggers|] == triggers;
      WithoutMembers(triggers, id);
      triggers := kept;
    }

    /** `Exec`: the error and the pipeline executions it sends. */
    method Exec(input: Data, compliant: bool) returns (err: Option<string>, sent: seq<Execution>)
      ensures (err, sent) == ExecSpec(triggers, input, compliant)
    {
      if input.entity.None? {
        return Some(Unparsable), [];
      }
      var entity := input.entity.value;
      var kind: string;
      if input.verb == "post" {
        kind := Create;
        if "creator_id" !in entity || entity["creator_id"] == Str("") {
          return None, [];
        }
      } else if input.verb == "put" {
        kind := Update;
        if "modifier_id" !in entity || entity["modifier_id"] == Str("") {
          return None, [];
        }
      } else {
        return None, [];
      }
      if !compliant {
        return None, [];
      }
      var fts := ByTable(triggers, input.tableID, kind);
      var e;
      e, sent := ProcessQuanxiangForm(fts, entity);
      err := if e.Some? then Some(ProcessFailed + ": " + e.value) else None;
    }
  }

  /** `processQuanxiangFrom`: the loop over the triggers. */
  method ProcessQuanxiangForm(fts: seq<Trigger>, entity: map<string, Value>) returns (err: Option<string>, sent: seq<Execution>)
    ensures (err, sent) == ProcessSpec(fts, entity)
  {
    if |fts| == 0 {
      return None, [];
    }
    if "_id" !in entity {
      return Some(NoDataId), [];
    }
    if entity["_id"].NonString? {
      return Some(DataIdNotString), [];
    }
    var dataID := entity["_id"].s;
    sent := [];
    for k := 0 to |fts|
      invariant sent + Dispatches(fts[k..], entity, dataID) == Dispatches(fts, entity, dataID)
    {
      var ft := fts[k];
      if ft.kind == Update {
        var f := 0;
        while f < |ft.filters| && ft.filters[f] !in entity
          invariant f <= |ft.filters|
          invariant forall j :: 0 <= j < f ==> ft.filters[j] !in entity
        {
          f := f + 1;
        }
        if f == |ft.filters| {
          assert Blocks(ft, entity);
          assert fts[k..][0] == ft;
          assert Dispatches(fts[k..], entity, dataID) == [];
          assert sent + [] == sent;
          return None, sent;
        }
        assert !Blocks(ft, entity);
      }
      assert fts[k..][1..] == fts[k + 1..];
      sent := sent + [ExecFor(ft, dataID)];
    }
    assert fts[|fts|..] == [];
    assert sent + [] == sent;
    err := None;
  }
}
