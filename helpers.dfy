/**
 * The read helpers of src/helpers.js: the cached entities in `result` order,
 * one entity by id, and the pending-request flags.
 */
module Helpers {
  import opened Wrappers
  import opened Values
  import opened Actions
  import opened Reducers
  import opened Normalization

  /** `{...getEntitiesOptionsDefault, ...options}`: a given key wins, even when it holds undefined. */
  function MergeOptions(options: map<string, Value>): (r: map<string, Value>)
    ensures r.Keys == options.Keys + {"reverse", "immutable"}
    ensures r["reverse"] == (if "reverse" in options then options["reverse"] else Bool(false))
    ensures r["immutable"] == (if "immutable" in options then options["immutable"] else Bool(true))
    ensures forall k :: k in options ==> r[k] == options[k]
  {
    map["reverse" := Bool(false), "immutable" := Bool(true)] + options
  }

  function Reversed(xs: seq<Value>): (r: seq<Value>)
    ensures |r| == |xs|
    ensures forall i :: 0 <= i < |xs| ==> r[i] == xs[|xs| - 1 - i]
  {
    seq(|xs|, i requires 0 <= i < |xs| => xs[|xs| - 1 - i])
  }

  /** `entities.get(id)`: undefined for an id with no entity. */
  function Lookup(entities: map<Value, Value>, id: Value): Value {
    if id in entities then entities[id] else Undefined
  }

  /** The ids `getEntities` walks: `result`, reversed when the merged `reverse` option is truthy. */
  function Walk(result: seq<Value>, options: map<string, Value>): seq<Value> {
    if Truthy(MergeOptions(options)["reverse"]) then Reversed(result) else result
  }

  /**
   * `getEntities`: the entity of each id of `result`, in that order (or reversed);
   * nothing when the state, its entities or its result is missing.
   */
  function GetEntities(state: Option<State>, options: map<string, Value>): (r: seq<Value>)
    ensures state.None? || state.value.entities.None? || state.value.result.None? ==> r == []
    ensures state.Some? && state.value.entities.Some? && state.value.result.Some? ==>
              var ids := Walk(state.value.result.value, options);
              && |r| == |ids|
              && forall i :: 0 <= i < |ids| ==> r[i] == Lookup(state.value.entities.value, ids[i])
  {
    if state.None? || state.value.entities.None? || state.value.result.None? then []
    else
      var entities := state.value.entities.value;
      var ids := Walk(state.value.result.value, options);
      seq(|ids|, i requires 0 <= i < |ids| => Lookup(entities, ids[i]))
  }

  /** The `reverse` option yields exactly the reverse of the default order. */
  lemma ReverseOption(state: Option<State>, options: map<string, Value>)
    requires Truthy(MergeOptions(options)["reverse"])
    ensures GetEntities(state, options) == Reversed(GetEntities(state, map[]))
  {
    assert !Truthy(MergeOptions(map[])["reverse"]);
    if state.Some? && state.value.entities.Some? && state.value.result.Some? {
      var result := state.value.result.value;
      assert Walk(result, options) == Reversed(result);
      assert Walk(result, map[]) == result;
      var forward, backward := GetEntities(state, map[]), GetEntities(state, options);
      assert |backward| == |Reversed(forward)|;
      forall i | 0 <= i < |backward| ensures backward[i] == Reversed(forward)[i] {
      }
    }
  }

  /** Without a `reverse` key, or with a falsy one, the entities come in `result` order. */
  lemma DefaultOrder(state: Option<State>, options: map<string, Value>)
    requires !Truthy(MergeOptions(options)["reverse"])
    ensures GetEntities(state, options) == GetEntities(state, map[])
  {
  }

  /**
   * `getEntity`: the entity stored under `id` when it is truthy, else undefined
   * (also for a missing state or missing entities).
   */
  function GetEntity(state: Option<State>, id: Value): (r: Value)
    ensures r != Undefined <==>
              state.Some? && state.value.entities.Some? && id in state.value.entities.value
              && Truthy(state.value.entities.value[id])
    ensures r != Undefined ==> r == state.value.entities.value[id]
  {
    if state.None? || state.value.entities.None? then Undefined
    else
      var entity := Lookup(state.value.entities.value, id);
      if Truthy(entity) then entity else Undefined
  }

  /** What `getStatus` reads: nothing, a flag, or the set of pending ids of a per-id map. */
  datatype Status = NoValue | Flag(on: bool) | Pending(ids: set<Value>)

  /** The keys of the initial `ui`, the only statuses `getStatus` accepts. */
  const Statuses: seq<string> := ["finding", "findingOne", "creating", "updating", "deleting"]

  /** `reducerSubState.getIn(['ui', status])` for an accepted status. */
  function UiEntry(ui: Ui, status: string): Status {
    if status == "finding" then Flag(ui.finding)
    else if status == "creating" then Flag(ui.creating)
    else if status == "findingOne" then Pending(ui.findingOne)
    else if status == "updating" then Pending(ui.updating)
    else Pending(ui.deleting)
  }

  /**
   * `getStatus`: undefined for a missing state; otherwise the status must be a
   * `ui` key. With a truthy id it reads `ui[status][id]`: `true` for a pending
   * id, and nothing for a flag or an id that is not pending.
   */
  function GetStatus(state: Option<State>, status: string, id: Value): (r: Result<Status, Error>)
    ensures state.None? ==> r == Success(NoValue)
    ensures state.Some? ==> (r.Failure? <==> status !in Statuses)
    ensures r.Failure? ==> r.error == UnknownStatus(status)
    ensures state.Some? && status in Statuses && !Truthy(id) ==> r == Success(UiEntry(state.value.ui, status))
    ensures state.Some? && status in Statuses && Truthy(id) ==>
              r == Success(if UiEntry(state.value.ui, status).Pending? && id in UiEntry(state.value.ui, status).ids
                           then Flag(true) else NoValue)
  {
    if state.None? then Success(NoValue)
    else if status !in Statuses then Failure(UnknownStatus(status))
    else
      var entry := UiEntry(state.value.ui, status);
      if !Truthy(id) then Success(entry)
      else if entry.Pending? && id in entry.ids then Success(Flag(true))
      else Success(NoValue)
  }

  /** The pending flag of an id is raised by its request and lowered by the matching success. */
  lemma StatusFollowsFindOne(s: State, request: Action, success: Action, idAttribute: string)
    requires FindOneRequest(s, request, idAttribute).Success?
    requires FindOneSuccess(FindOneRequest(s, request, idAttribute).value, success).Success?
    requires GetIdFromNormalizedPayload(success).value == GetIdFromPayloadKey(request, idAttribute).value
    ensures
      var id := GetIdFromPayloadKey(request, idAttribute).value;
      var mid := FindOneRequest(s, request, idAttribute).value;
      var r := FindOneSuccess(mid, success).value;
      && GetStatus(Some(mid), "findingOne", id) == Success(Flag(true))
      && GetStatus(Some(r), "findingOne", id) == Success(NoValue)
      && GetEntity(Some(r), id) == GetEntityFromAction(success).value
  {
  }

  /**
   * Round trip: storing a normalized list of entities with distinct ids by a
   * find success and reading it back with `getEntities` gives the list.
   */
  lemma GetEntitiesAfterFind(s: State, t: string, meta: Value, items: seq<Value>, attr: IdAttribute)
    requires forall i, j :: 0 <= i < j < |items| ==> IdOf(items[i], attr) != IdOf(items[j], attr)
    ensures
      var r := FindSuccess(s, Action(t, NormalizeItems(items, attr).ToValue(), meta));
      r.Success? && GetEntities(Some(r.value), map[]) == items
  {
    var n := NormalizeItems(items, attr);
    var r := FindSuccess(s, Action(t, n.ToValue(), meta));
    var out := GetEntities(Some(r.value), map[]);
    forall i | 0 <= i < |items| ensures out[i] == items[i] {
      LastItemWins(items, attr, i);
    }
  }
}
