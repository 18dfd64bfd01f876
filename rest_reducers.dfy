/**
 * The earlier reducer of src/rest-reducers.js. Its payload readers and most
 * transitions are those of src/reducers.js; it differs in findOne.success
 * (appends the id even when listed), in delete.success (reads the id from
 * the payload key), in where it installs the clear and clearErrors handlers,
 * and in its entity readers (which convert with `toJS`).
 */
module RestReducers {
  import opened Wrappers
  import opened Values
  import opened Actions
  import opened Reducers
  import Helpers

  /** findOne.success of this variant: store the entity and push the id unconditionally. */
  function FindOneSuccessAppend(s: State, a: Action): (r: Result<State, Error>)
    ensures GetEntityFromAction(a).Failure? ==> r == Failure(GetEntityFromAction(a).error)
    ensures GetEntityFromAction(a).Success? && s.entities.Some? && s.result.Some? ==> r.Success?
    ensures r.Success? ==>
              var id := GetIdFromNormalizedPayload(a).value;
              && s.entities.Some? && s.result.Some?
              && r.value.entities == Some(s.entities.value[id := GetEntityFromAction(a).value])
              && r.value.result == Some(s.result.value + [id])
              && r.value.ui == s.ui.(findingOne := s.ui.findingOne - {id})
              && r.value.errors == s.errors
  {
    var entity :- GetEntityFromAction(a);
    var id := GetIdFromNormalizedPayload(a).value;
    if s.entities.None? then Failure(InvalidKeyPath)
    else if s.result.None? then Failure(NotAList)
    else
      Success(s.(entities := Some(s.entities.value[id := entity]),
                 result := Some(s.result.value + [id]),
                 ui := s.ui.(findingOne := s.ui.findingOne - {id})))
  }

  /** delete.success of this variant: the id is `payload[idAttribute]`. */
  function DeleteSuccessByKey(s: State, a: Action, idAttribute: string): (r: Result<State, Error>)
    ensures GetIdFromPayloadKey(a, idAttribute).Failure? ==>
              r == Failure(GetIdFromPayloadKey(a, idAttribute).error)
    ensures GetIdFromPayloadKey(a, idAttribute).Success? ==>
              r == RemoveEntity(s, GetIdFromPayloadKey(a, idAttribute).value)
  {
    var id :- GetIdFromPayloadKey(a, idAttribute);
    RemoveEntity(s, id)
  }

  /** Runs one handler of src/rest-reducers.js. */
  function ApplyVariant(h: Handler, s: State, a: Action, idAttribute: string): (r: Result<State, Error>)
    ensures h != Transition(FindOne, Succeeded) && h != Transition(Delete, Succeeded) ==>
              r == Apply(h, s, a, idAttribute)
  {
    match h
    case Transition(FindOne, Succeeded) => FindOneSuccessAppend(s, a)
    case Transition(Delete, Succeeded) => DeleteSuccessByKey(s, a, idAttribute)
    case _ => Apply(h, s, a, idAttribute)
  }

  /**
   * The key `const { type } = actions.clear` yields: a creator (a function),
   * like a group of creators, has no `type` property, so the handler goes in
   * under the key "undefined".
   */
  const UndefinedKey: string := "undefined"

  /**
   * The handler table of this variant: the verb handlers, then the clear and
   * clearErrors handlers, both under `UndefinedKey` (clearErrors, installed
   * last, wins).
   */
  function VariantHandlerTable(actions: Option<ActionTable>): (r: Result<HandlerTable, Error>)
    ensures actions.None? ==> r == Failure(ActionsRequired)
    ensures actions.Some? ==> (r.Success? <==> VerbTable(actions.value, RestVerbs).Success?)
    ensures actions.Some? && "clear" !in actions.value && "clearErrors" !in actions.value ==>
              r == HandlerTableOf(actions)
    ensures r.Success? ==>
              var verbTable := VerbTable(actions.value, RestVerbs).value;
              && r.value.Keys == verbTable.Keys +
                   (if "clear" in actions.value || "clearErrors" in actions.value then {UndefinedKey} else {})
              && (forall k :: k in r.value && k != UndefinedKey ==> r.value[k] == verbTable[k])
              && ("clearErrors" in actions.value ==> r.value[UndefinedKey] == DropErrors)
              && ("clear" in actions.value && "clearErrors" !in actions.value ==>
                    r.value[UndefinedKey] == Reset)
  {
    if actions.None? then Failure(ActionsRequired)
    else
      var table :- VerbTable(actions.value, RestVerbs);
      var table := if "clear" in actions.value then table[UndefinedKey := Reset] else table;
      Success(if "clearErrors" in actions.value then table[UndefinedKey := DropErrors] else table)
  }

  function ReduceVariant(handlers: HandlerTable, idAttribute: string, state: Option<State>, a: Action)
    : (r: Result<State, Error>)
    ensures a.actionType !in handlers ==> r == Success(state.GetOr(InitialState))
    ensures a.actionType in handlers ==>
              r == ApplyVariant(handlers[a.actionType], state.GetOr(InitialState), a, idAttribute)
  {
    var s := state.GetOr(InitialState);
    if a.actionType in handlers then ApplyVariant(handlers[a.actionType], s, a, idAttribute) else Success(s)
  }

  /** While the id is not listed yet, the two findOne successes agree. */
  lemma FindOneVariantsAgreeOnNewIds(s: State, a: Action)
    requires s.result.Some? && GetIdFromNormalizedPayload(a).Success?
    requires GetIdFromNormalizedPayload(a).value !in s.result.value
    ensures FindOneSuccessAppend(s, a) == FindOneSuccess(s, a)
  {
  }

  /** Two findOne successes for the same entity list its id twice in this variant. */
  lemma RepeatedFindOneDuplicates(s: State, a: Action)
    requires FindOneSuccessAppend(s, a).Success?
    ensures
      var once := FindOneSuccessAppend(s, a).value;
      var twice := FindOneSuccessAppend(once, a);
      var id := GetIdFromNormalizedPayload(a).value;
      && twice.Success?
      && twice.value.result.value == s.result.value + [id, id]
      && multiset(twice.value.result.value)[id] == multiset(s.result.value)[id] + 2
  {
    var id := GetIdFromNormalizedPayload(a).value;
    var once := FindOneSuccessAppend(s, a).value;
    assert once.result.value + [id] == s.result.value + [id, id];
  }

  /** When the payload key and the normalized result name the same id, both deletes agree. */
  lemma DeleteVariantsAgree(s: State, a: Action, idAttribute: string)
    requires GetIdFromPayloadKey(a, idAttribute).Success? && GetIdFromNormalizedPayload(a).Success?
    requires GetIdFromPayloadKey(a, idAttribute).value == GetIdFromNormalizedPayload(a).value
    ensures DeleteSuccessByKey(s, a, idAttribute) == DeleteSuccess(s, a)
  {
  }

  // ---------------------------------------------------------------- readers

  /** `x.toJS()`: collections convert, undefined and primitives throw. */
  function ToJs(v: Value): (r: Result<Value, Error>)
    ensures r.Success? <==> v.Arr? || v.Obj?
    ensures r.Success? ==> r.value == v
    ensures r.Failure? ==> r.error == NotConvertible
  {
    if v.Arr? || v.Obj? then Success(v) else Failure(NotConvertible)
  }

  /** Converts each entity of `ids`, stopping at the first that fails. */
  function ConvertAll(entities: map<Value, Value>, ids: seq<Value>): (r: Result<seq<Value>, Error>)
    ensures r.Success? <==> forall i :: 0 <= i < |ids| ==> ToJs(Helpers.Lookup(entities, ids[i])).Success?
    ensures r.Success? ==>
              && |r.value| == |ids|
              && forall i :: 0 <= i < |ids| ==> r.value[i] == Helpers.Lookup(entities, ids[i])
    ensures r.Failure? ==> r.error == NotConvertible
    decreases |ids|
  {
    if |ids| == 0 then Success([])
    else
      var init := ConvertAll(entities, ids[..|ids| - 1]);
      if init.Failure? then init
      else
        var last := ToJs(Helpers.Lookup(entities, ids[|ids| - 1]));
        if last.Failure? then Failure(last.error) else Success(init.value + [last.value])
  }

  /**
   * `getEntities` of this variant: the `toJS` of each entity of `result`, in
   * that order or reversed; it throws when an id has no entity or a
   * non-collection entity.
   */
  function GetEntities(state: Option<State>, reverse: bool): (r: Result<seq<Value>, Error>)
    ensures state.None? || state.value.entities.None? || state.value.result.None? ==> r == Success([])
    ensures state.Some? && state.value.entities.Some? && state.value.result.Some? ==>
              r == ConvertAll(state.value.entities.value,
                              if reverse then Helpers.Reversed(state.value.result.value)
                              else state.value.result.value)
  {
    if state.None? || state.value.entities.None? || state.value.result.None? then Success([])
    else
      var result := state.value.result.value;
      ConvertAll(state.value.entities.value, if reverse then Helpers.Reversed(result) else result)
  }

  /** Wherever this `getEntities` succeeds it returns what the one of src/helpers.js returns. */
  lemma GetEntitiesAgree(state: Option<State>, reverse: bool)
    requires GetEntities(state, reverse).Success?
    ensures GetEntities(state, reverse).value
         == Helpers.GetEntities(state, map["reverse" := Bool(reverse)])
  {
  }

  /** On a consistent state holding collections only, this `getEntities` does not throw. */
  lemma GetEntitiesSucceeds(s: State, reverse: bool)
    requires s.entities.Some? && s.result.Some?
    requires forall id :: id in s.result.value ==> id in s.entities.value
    requires forall id :: id in s.entities.value ==> s.entities.value[id].Arr? || s.entities.value[id].Obj?
    ensures GetEntities(Some(s), reverse).Success?
  {
    var ids := if reverse then Helpers.Reversed(s.result.value) else s.result.value;
    forall i | 0 <= i < |ids| ensures ToJs(Helpers.Lookup(s.entities.value, ids[i])).Success? {
      assert ids[i] in s.result.value;
    }
  }

  /** `getEntity` of this variant: `entity.toJS()` for a truthy entity, else undefined. */
  function GetEntity(state: Option<State>, id: Value): (r: Result<Value, Error>)
    ensures r.Failure? <==> Truthy(Helpers.GetEntity(state, id)) && !ToJs(Helpers.GetEntity(state, id)).Success?
    ensures r.Success? ==> r.value == Helpers.GetEntity(state, id)
  {
    var entity := Helpers.GetEntity(state, id);
    if Truthy(entity) then ToJs(entity) else Success(Undefined)
  }
}
