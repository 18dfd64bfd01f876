/**
 * The entity-cache reducer of src/reducers.js: a state of cached entities,
 * their ordered ids and pending-request flags, and one transition per REST
 * verb and phase, dispatched on the action type.
 */
module Reducers {
  import opened Wrappers
  import opened Values
  import opened Actions

  datatype Verb = Find | FindOne | Create | Update | Delete

  function VerbName(v: Verb): string {
    match v
    case Find => "find"
    case FindOne => "findOne"
    case Create => "create"
    case Update => "update"
    case Delete => "delete"
  }

  /** The REST verbs, in the order their handlers are installed. */
  const RestVerbs: seq<Verb> := [Find, FindOne, Create, Update, Delete]

  /** `verbHandlers[name]`: the verb a name selects, if any. */
  function ParseVerb(name: string): (r: Option<Verb>)
    ensures r.Some? ==> VerbName(r.value) == name
    ensures r.None? ==> forall v :: VerbName(v) != name
  {
    if name == "find" then Some(Find)
    else if name == "findOne" then Some(FindOne)
    else if name == "create" then Some(Create)
    else if name == "update" then Some(Update)
    else if name == "delete" then Some(Delete)
    else None
  }

  datatype Phase = Requested | Succeeded | Failed

  function SuffixName(p: Phase): string {
    match p
    case Requested => "request"
    case Succeeded => "success"
    case Failed => "fail"
  }

  /**
   * Pending-request flags. The per-id maps only ever hold `true`, so each is
   * the set of ids with a request in flight.
   */
  datatype Ui = Ui(finding: bool, findingOne: set<Value>, creating: bool,
                   updating: set<Value>, deleting: set<Value>)

  /**
   * The reducer state. `entities` and `result` are `None` when a find success
   * stored an undefined value there; `errors` is `None` when the key is absent.
   */
  datatype State = State(entities: Option<map<Value, Value>>, result: Option<seq<Value>>,
                         ui: Ui, errors: Option<map<Verb, Value>>)

  const InitialState: State :=
    State(Some(map[]), Some([]), Ui(false, {}, false, {}, {}), None)

  // ---------------------------------------------------------------- payload readers

  /** `getIdFromPayloadKey`: `payload[idAttribute]`, which must be truthy. */
  function GetIdFromPayloadKey(a: Action, idAttribute: string): (r: Result<Value, Error>)
    ensures !Truthy(a.payload) ==> r == Failure(MissingPayload(a.actionType))
    ensures (Truthy(a.payload) && !Truthy(Prop(a.payload, idAttribute))) ==>
              r == Failure(MissingIdAttribute(a.actionType))
    ensures r.Success? <==> Truthy(a.payload) && Truthy(Prop(a.payload, idAttribute))
    ensures r.Success? ==> r.value == Prop(a.payload, idAttribute)
  {
    if !Truthy(a.payload) then Failure(MissingPayload(a.actionType))
    else
      var id := Prop(a.payload, idAttribute);
      if !Truthy(id) then Failure(MissingIdAttribute(a.actionType)) else Success(id)
  }

  /** `getIdFromNormalizedPayload`: `payload.result[0]`, which must be truthy. */
  function GetIdFromNormalizedPayload(a: Action): (r: Result<Value, Error>)
    ensures !Truthy(a.payload) ==> r == Failure(MissingPayload(a.actionType))
    ensures r.Success? <==>
              && Truthy(a.payload)
              && Prop(a.payload, "result").Arr?
              && |Prop(a.payload, "result").items| > 0
              && Truthy(Prop(a.payload, "result").items[0])
    ensures r.Success? ==> r.value == Prop(a.payload, "result").items[0]
    ensures Truthy(a.payload) && r.Failure? ==> r.error == MissingResult(a.actionType)
  {
    if !Truthy(a.payload) then Failure(MissingPayload(a.actionType))
    else
      var result := Prop(a.payload, "result");
      var id := if Truthy(result) then Index(result, 0) else result;
      if !Truthy(id) then Failure(MissingResult(a.actionType)) else Success(id)
  }

  /** `getEntityFromAction`: `payload.entities[id]` for the id above, which must be truthy. */
  function GetEntityFromAction(a: Action): (r: Result<Value, Error>)
    ensures GetIdFromNormalizedPayload(a).Failure? ==>
              r == Failure(GetIdFromNormalizedPayload(a).error)
    ensures r.Success? <==>
              && GetIdFromNormalizedPayload(a).Success?
              && Truthy(Get(Prop(a.payload, "entities"), GetIdFromNormalizedPayload(a).value))
    ensures r.Success? ==>
              && Prop(a.payload, "entities").Obj?
              && GetIdFromNormalizedPayload(a).value in Prop(a.payload, "entities").fields
              && r.value == Prop(a.payload, "entities").fields[GetIdFromNormalizedPayload(a).value]
    ensures GetIdFromNormalizedPayload(a).Success? && r.Failure? ==>
              r.error == MissingEntity(a.actionType, GetIdFromNormalizedPayload(a).value)
  {
    var id :- GetIdFromNormalizedPayload(a);
    var entities := Prop(a.payload, "entities");
    var entity := if Truthy(entities) then Get(entities, id) else entities;
    if !Truthy(entity) then Failure(MissingEntity(a.actionType, id)) else Success(entity)
  }

  // ---------------------------------------------------------------- list helpers

  /** `list.includes(id) ? list : list.push(id)`. */
  function AppendIfAbsent(xs: seq<Value>, id: Value): (r: seq<Value>)
    ensures id in r
    ensures id in xs ==> r == xs
    ensures id !in xs ==> r == xs + [id]
  {
    if id in xs then xs else xs + [id]
  }

  /** `list.filter(x => x !== id)`: every occurrence of `id` removed, the rest kept in order. */
  function Without(xs: seq<Value>, id: Value): (r: seq<Value>)
    ensures forall x :: x in r <==> x in xs && x != id
    ensures multiset(r) == multiset(xs)[id := 0]
    decreases |xs|
  {
    if |xs| == 0 then []
    else
      var rest := Without(xs[..|xs| - 1], id);
      assert xs == xs[..|xs| - 1] + [xs[|xs| - 1]];
      if xs[|xs| - 1] == id then rest else rest + [xs[|xs| - 1]]
  }

  function ErrorsWith(s: State, verb: Verb, error: Value): map<Verb, Value> {
    s.errors.GetOr(map[])[verb := error]
  }

  // ---------------------------------------------------------------- find

  /** find.request raises `ui.finding` and touches nothing else. */
  function FindRequest(s: State): (r: State)
    ensures r.ui.finding
    ensures r == s.(ui := s.ui.(finding := true))
  {
    s.(ui := s.ui.(finding := true))
  }

  function EntitiesField(v: Value): Result<Option<map<Value, Value>>, Error> {
    match v
    case Undefined => Success(None)
    case Obj(m) => Success(Some(m))
    case _ => Failure(UnsupportedValue)
  }

  function ResultField(v: Value): Result<Option<seq<Value>>, Error> {
    match v
    case Undefined => Success(None)
    case Arr(xs) => Success(Some(xs))
    case _ => Failure(UnsupportedValue)
  }

  /**
   * find.success replaces `entities` and `result` wholesale with the payload's
   * and lowers `ui.finding`; the other flags and the errors stay.
   */
  function FindSuccess(s: State, a: Action): (r: Result<State, Error>)
    ensures a.payload.Undefined? || a.payload.Null? ==> r == Failure(NotDestructurable)
    ensures Prop(a.payload, "entities").Obj? && Prop(a.payload, "result").Arr? ==> r.Success?
    ensures r.Success? ==>
              && r.value.entities == (if Prop(a.payload, "entities").Obj?
                                      then Some(Prop(a.payload, "entities").fields) else None)
              && r.value.result == (if Prop(a.payload, "result").Arr?
                                    then Some(Prop(a.payload, "result").items) else None)
              && !r.value.ui.finding
              && r.value.ui == s.ui.(finding := false)
              && r.value.errors == s.errors
  {
    if a.payload.Undefined? || a.payload.Null? then Failure(NotDestructurable)
    else
      var entities :- EntitiesField(Prop(a.payload, "entities"));
      var result :- ResultField(Prop(a.payload, "result"));
      Success(s.(entities := entities, result := result, ui := s.ui.(finding := false)))
  }

  /** find.fail records the error under "find" and lowers `ui.finding`. */
  function FindFail(s: State, a: Action): (r: State)
    ensures r.errors.Some? && Verb.Find in r.errors.value && r.errors.value[Verb.Find] == a.payload
    ensures forall v :: v != Verb.Find && s.errors.Some? && v in s.errors.value ==>
              v in r.errors.value && r.errors.value[v] == s.errors.value[v]
    ensures !r.ui.finding && r.ui == s.ui.(finding := false)
    ensures r.entities == s.entities && r.result == s.result
  {
    s.(errors := Some(ErrorsWith(s, Verb.Find, a.payload)), ui := s.ui.(finding := false))
  }

  // ---------------------------------------------------------------- findOne

  /** findOne.request marks `payload[idAttribute]` as being fetched. */
  function FindOneRequest(s: State, a: Action, idAttribute: string): (r: Result<State, Error>)
    ensures r.Success? <==> GetIdFromPayloadKey(a, idAttribute).Success?
    ensures r.Failure? ==> r.error == GetIdFromPayloadKey(a, idAttribute).error
    ensures r.Success? ==>
              && r.value.ui.findingOne == s.ui.findingOne + {GetIdFromPayloadKey(a, idAttribute).value}
              && r.value == s.(ui := s.ui.(findingOne := r.value.ui.findingOne))
  {
    var id :- GetIdFromPayloadKey(a, idAttribute);
    Success(s.(ui := s.ui.(findingOne := s.ui.findingOne + {id})))
  }

  /**
   * findOne.success stores the fetched entity under its id, appends the id to
   * `result` only when it is not there yet, and clears the id's pending flag.
   */
  function FindOneSuccess(s: State, a: Action): (r: Result<State, Error>)
    ensures GetEntityFromAction(a).Failure? ==> r == Failure(GetEntityFromAction(a).error)
    ensures GetEntityFromAction(a).Success? && s.entities.Some? && s.result.Some? ==> r.Success?
    ensures r.Success? ==>
              var id := GetIdFromNormalizedPayload(a).value;
              var entity := GetEntityFromAction(a).value;
              && s.entities.Some? && s.result.Some?
              && r.value.entities == Some(s.entities.value[id := entity])
              && r.value.result == Some(AppendIfAbsent(s.result.value, id))
              && r.value.ui == s.ui.(findingOne := s.ui.findingOne - {id})
              && r.value.errors == s.errors
  {
    var entity :- GetEntityFromAction(a);
    var id := GetIdFromNormalizedPayload(a).value;
    if s.entities.None? then Failure(InvalidKeyPath)
    else if s.result.None? then Failure(NotAList)
    else
      Success(s.(entities := Some(s.entities.value[id := entity]),
                 result := Some(AppendIfAbsent(s.result.value, id)),
                 ui := s.ui.(findingOne := s.ui.findingOne - {id})))
  }

  /** findOne.fail records the error under "findOne" and forgets every pending fetch. */
  function FindOneFail(s: State, a: Action): (r: State)
    ensures r.errors.Some? && Verb.FindOne in r.errors.value && r.errors.value[Verb.FindOne] == a.payload
    ensures r.ui.findingOne == {}
    ensures r == s.(errors := r.errors, ui := s.ui.(findingOne := {}))
  {
    s.(errors := Some(ErrorsWith(s, Verb.FindOne, a.payload)), ui := s.ui.(findingOne := {}))
  }

  // ---------------------------------------------------------------- create

  function CreateRequest(s: State): (r: State)
    ensures r.ui.creating
    ensures r == s.(ui := s.ui.(creating := true))
  {
    s.(ui := s.ui.(creating := true))
  }

  /** create.success stores the created entity and appends its id unconditionally. */
  function CreateSuccess(s: State, a: Action): (r: Result<State, Error>)
    ensures GetEntityFromAction(a).Failure? ==> r == Failure(GetEntityFromAction(a).error)
    ensures GetEntityFromAction(a).Success? && s.entities.Some? && s.result.Some? ==> r.Success?
    ensures r.Success? ==>
              var id := GetIdFromNormalizedPayload(a).value;
              && s.entities.Some? && s.result.Some?
              && r.value.entities == Some(s.entities.value[id := GetEntityFromAction(a).value])
              && r.value.result == Some(s.result.value + [id])
              && r.value.ui == s.ui.(creating := false)
              && r.value.errors == s.errors
  {
    var entity :- GetEntityFromAction(a);
    var id := GetIdFromNormalizedPayload(a).value;
    if s.entities.None? then Failure(InvalidKeyPath)
    else if s.result.None? then Failure(NotAList)
    else
      Success(s.(entities := Some(s.entities.value[id := entity]),
                 result := Some(s.result.value + [id]),
                 ui := s.ui.(creating := false)))
  }

  function CreateFail(s: State, a: Action): (r: State)
    ensures r.errors.Some? && Verb.Create in r.errors.value && r.errors.value[Verb.Create] == a.payload
    ensures !r.ui.creating
    ensures r == s.(errors := r.errors, ui := s.ui.(creating := false))
  {
    s.(errors := Some(ErrorsWith(s, Verb.Create, a.payload)), ui := s.ui.(creating := false))
  }

  // ---------------------------------------------------------------- update

  function UpdateRequest(s: State, a: Action, idAttribute: string): (r: Result<State, Error>)
    ensures r.Success? <==> GetIdFromPayloadKey(a, idAttribute).Success?
    ensures r.Success? ==>
              && r.value.ui.updating == s.ui.updating + {GetIdFromPayloadKey(a, idAttribute).value}
              && r.value == s.(ui := s.ui.(updating := r.value.ui.updating))
  {
    var id :- GetIdFromPayloadKey(a, idAttribute);
    Success(s.(ui := s.ui.(updating := s.ui.updating + {id})))
  }

  /** update.success overwrites the entity, leaves `result` alone and clears the id's flag. */
  function UpdateSuccess(s: State, a: Action): (r: Result<State, Error>)
    ensures GetEntityFromAction(a).Failure? ==> r == Failure(GetEntityFromAction(a).error)
    ensures GetEntityFromAction(a).Success? && s.entities.Some? ==> r.Success?
    ensures r.Success? ==>
              var id := GetIdFromNormalizedPayload(a).value;
              && s.entities.Some?
              && r.value.entities == Some(s.entities.value[id := GetEntityFromAction(a).value])
              && r.value.result == s.result
              && r.value.ui == s.ui.(updating := s.ui.updating - {id})
              && r.value.errors == s.errors
  {
    var entity :- GetEntityFromAction(a);
    var id := GetIdFromNormalizedPayload(a).value;
    if s.entities.None? then Failure(InvalidKeyPath)
    else
      Success(s.(entities := Some(s.entities.value[id := entity]),
                 ui := s.ui.(updating := s.ui.updating - {id})))
  }

  function UpdateFail(s: State, a: Action): (r: State)
    ensures r.errors.Some? && Verb.Update in r.errors.value && r.errors.value[Verb.Update] == a.payload
    ensures r.ui.updating == {}
    ensures r == s.(errors := r.errors, ui := s.ui.(updating := {}))
  {
    s.(errors := Some(ErrorsWith(s, Verb.Update, a.payload)), ui := s.ui.(updating := {}))
  }

  // ---------------------------------------------------------------- delete

  function DeleteRequest(s: State, a: Action, idAttribute: string): (r: Result<State, Error>)
    ensures r.Success? <==> GetIdFromPayloadKey(a, idAttribute).Success?
    ensures r.Success? ==>
              && r.value.ui.deleting == s.ui.deleting + {GetIdFromPayloadKey(a, idAttribute).value}
              && r.value == s.(ui := s.ui.(deleting := r.value.ui.deleting))
  {
    var id :- GetIdFromPayloadKey(a, idAttribute);
    Success(s.(ui := s.ui.(deleting := s.ui.deleting + {id})))
  }

  /** The effect of a delete success on a state, once the id is known. */
  function RemoveEntity(s: State, id: Value): (r: Result<State, Error>)
    ensures r.Success? <==> s.entities.Some? && s.result.Some?
    ensures r.Success? ==>
              && r.value.entities == Some(s.entities.value - {id})
              && r.value.result == Some(Without(s.result.value, id))
              && r.value.ui == s.ui.(deleting := s.ui.deleting - {id})
              && r.value.errors == s.errors
  {
    if s.entities.None? then Failure(InvalidKeyPath)
    else if s.result.None? then Failure(NotAList)
    else
      Success(s.(entities := Some(s.entities.value - {id}),
                 result := Some(Without(s.result.value, id)),
                 ui := s.ui.(deleting := s.ui.deleting - {id})))
  }

  /** delete.success takes its id from `payload.result[0]` and removes it everywhere. */
  function DeleteSuccess(s: State, a: Action): (r: Result<State, Error>)
    ensures GetIdFromNormalizedPayload(a).Failure? ==>
              r == Failure(GetIdFromNormalizedPayload(a).error)
    ensures GetIdFromNormalizedPayload(a).Success? ==>
              r == RemoveEntity(s, GetIdFromNormalizedPayload(a).value)
  {
    var id :- GetIdFromNormalizedPayload(a);
    RemoveEntity(s, id)
  }

  function DeleteFail(s: State, a: Action): (r: State)
    ensures r.errors.Some? && Verb.Delete in r.errors.value && r.errors.value[Verb.Delete] == a.payload
    ensures r.ui.deleting == {}
    ensures r == s.(errors := r.errors, ui := s.ui.(deleting := {}))
  {
    s.(errors := Some(ErrorsWith(s, Verb.Delete, a.payload)), ui := s.ui.(deleting := {}))
  }

  // ---------------------------------------------------------------- dispatch

  /** What the handler table holds for an action type. */
  datatype Handler = Transition(verb: Verb, phase: Phase) | Reset | DropErrors

  type HandlerTable = map<string, Handler>

  /** Runs one handler of src/reducers.js. */
  function Apply(h: Handler, s: State, a: Action, idAttribute: string): Result<State, Error> {
    match h
    case Transition(Find, Requested) => Success(FindRequest(s))
    case Transition(Find, Succeeded) => FindSuccess(s, a)
    case Transition(Find, Failed) => Success(FindFail(s, a))
    case Transition(FindOne, Requested) => FindOneRequest(s, a, idAttribute)
    case Transition(FindOne, Succeeded) => FindOneSuccess(s, a)
    case Transition(FindOne, Failed) => Success(FindOneFail(s, a))
    case Transition(Create, Requested) => Success(CreateRequest(s))
    case Transition(Create, Succeeded) => CreateSuccess(s, a)
    case Transition(Create, Failed) => Success(CreateFail(s, a))
    case Transition(Update, Requested) => UpdateRequest(s, a, idAttribute)
    case Transition(Update, Succeeded) => UpdateSuccess(s, a)
    case Transition(Update, Failed) => Success(UpdateFail(s, a))
    case Transition(Delete, Requested) => DeleteRequest(s, a, idAttribute)
    case Transition(Delete, Succeeded) => DeleteSuccess(s, a)
    case Transition(Delete, Failed) => Success(DeleteFail(s, a))
    case Reset => Success(InitialState)
    case DropErrors => Success(s.(errors := None))
  }

  /**
   * The reducer `restReducer` returns: an undefined state starts as the initial
   * state, and an action whose type has no handler leaves the state as it is.
   */
  function Reduce(handlers: HandlerTable, idAttribute: string, state: Option<State>, a: Action)
    : (r: Result<State, Error>)
    ensures a.actionType !in handlers ==> r == Success(state.GetOr(InitialState))
    ensures state.None? && a.actionType in handlers ==>
              r == Apply(handlers[a.actionType], InitialState, a, idAttribute)
    ensures state.Some? && a.actionType in handlers ==>
              r == Apply(handlers[a.actionType], state.value, a, idAttribute)
  {
    var s := state.GetOr(InitialState);
    if a.actionType in handlers then Apply(handlers[a.actionType], s, a, idAttribute) else Success(s)
  }

  // ---------------------------------------------------------------- the handler table

  /** `requestActions[suffix]`: a verb's creator for a suffix, if it has one. */
  function Member(e: Entry, suffix: string): (r: Option<Creator>)
    ensures r.Some? <==> e.Group? && suffix in e.creators
    ensures r.Some? ==> r.value == e.creators[suffix]
  {
    if e.Group? && suffix in e.creators then Some(e.creators[suffix]) else None
  }

  /** A verb entry that has a creator for each of the request suffixes. */
  predicate Complete(e: Entry) {
    forall i :: 0 <= i < |RequestSuffixes| ==> Member(e, RequestSuffixes[i]).Some?
  }

  lemma CompleteIff(e: Entry)
    ensures Complete(e) <==>
              Member(e, "request").Some? && Member(e, "success").Some? && Member(e, "fail").Some?
    ensures Member(e, RequestSuffixes[0]) == Member(e, "request")
    ensures Member(e, RequestSuffixes[1]) == Member(e, "success")
    ensures Member(e, RequestSuffixes[2]) == Member(e, "fail")
  {
    assert RequestSuffixes[0] == "request" && RequestSuffixes[1] == "success" && RequestSuffixes[2] == "fail";
    if Member(e, "request").Some? && Member(e, "success").Some? && Member(e, "fail").Some? {
      forall i | 0 <= i < |RequestSuffixes| ensures Member(e, RequestSuffixes[i]).Some? {
        assert i == 0 || i == 1 || i == 2;
      }
    }
  }

  lemma PhaseKeys(m: map<string, Creator>)
    requires "request" in m && "success" in m && "fail" in m
    ensures (forall p: Phase :: SuffixName(p) in m)
    ensures (set p: Phase :: m[SuffixName(p)].actionType)
              == {m["request"].actionType, m["success"].actionType, m["fail"].actionType}
  {
    var keys := set p: Phase :: m[SuffixName(p)].actionType;
    assert m[SuffixName(Requested)].actionType in keys;
    assert m[SuffixName(Succeeded)].actionType in keys;
    assert m[SuffixName(Failed)].actionType in keys;
  }

  /**
   * The value of `handlerCreator(verb, requestActions)`: the verb's three
   * handlers keyed by the types of its request, success and fail creators.
   */
  function VerbHandlers(verbName: string, requestActions: Entry): (r: Result<HandlerTable, Error>)
    ensures ParseVerb(verbName).None? ==> r == Failure(HandlerNotFound(verbName))
    ensures r.Success? <==> ParseVerb(verbName).Some? && Complete(requestActions)
    ensures ParseVerb(verbName).Some? && !Complete(requestActions) ==>
              exists i :: 0 <= i < |RequestSuffixes| && Member(requestActions, RequestSuffixes[i]).None? &&
                r == Failure(ActionRequired(RequestSuffixes[i], verbName))
    ensures r.Success? ==>
              && requestActions.Group?
              && (forall p: Phase :: SuffixName(p) in requestActions.creators)
              && (forall p: Phase :: requestActions.creators[SuffixName(p)].actionType in r.value)
              && r.value.Keys == (set p: Phase :: requestActions.creators[SuffixName(p)].actionType)
              && r.value.Values <= (set p: Phase :: Transition(ParseVerb(verbName).value, p))
  {
    match ParseVerb(verbName)
    case None => Failure(HandlerNotFound(verbName))
    case Some(v) =>
      CompleteIff(requestActions);
      if Member(requestActions, "request").None? then Failure(ActionRequired("request", verbName))
      else if Member(requestActions, "success").None? then Failure(ActionRequired("success", verbName))
      else if Member(requestActions, "fail").None? then Failure(ActionRequired("fail", verbName))
      else
        var m := requestActions.creators;
        PhaseKeys(m);
        Success(map[m["request"].actionType := Transition(v, Requested)]
                   [m["success"].actionType := Transition(v, Succeeded)]
                   [m["fail"].actionType := Transition(v, Failed)])
  }

  method HandlerCreator(verbName: string, requestActions: Entry) returns (r: Result<HandlerTable, Error>)
    ensures r == VerbHandlers(verbName, requestActions)
  {
    var verb := ParseVerb(verbName);
    if verb.None? {
      return Failure(HandlerNotFound(verbName));
    }
    for i := 0 to |RequestSuffixes|
      invariant forall j :: 0 <= j < i ==> Member(requestActions, RequestSuffixes[j]).Some?
    {
      var suffix := RequestSuffixes[i];
      if Member(requestActions, suffix).None? {
        CompleteIff(requestActions);
        return Failure(ActionRequired(suffix, verbName));
      }
    }
    CompleteIff(requestActions);
    var m := requestActions.creators;
    var request, success, fail := m["request"].actionType, m["success"].actionType, m["fail"].actionType;
    r := Success(map[request := Transition(verb.value, Requested)]
                    [success := Transition(verb.value, Succeeded)]
                    [fail := Transition(verb.value, Failed)]);
  }

  /** The handlers the verb fold has installed after `verbs` (Object.assign: later wins). */
  function VerbTable(actions: ActionTable, verbs: seq<Verb>): Result<HandlerTable, Error>
    decreases |verbs|
  {
    if |verbs| == 0 then Success(map[])
    else
      var table :- VerbTable(actions, verbs[..|verbs| - 1]);
      var name := VerbName(verbs[|verbs| - 1]);
      if name in actions then
        var handlers :- VerbHandlers(name, actions[name]);
        Success(table + handlers)
      else Success(table)
  }

  /** `actions.clear()` / `actions.clearErrors()` installed on top of the verb handlers. */
  function WithReducerHandler(table: HandlerTable, actions: ActionTable, key: string, h: Handler)
    : Result<HandlerTable, Error>
  {
    if key !in actions then Success(table)
    else match actions[key]
      case Single(c) => Success(table[c.actionType := h])
      case Group(_) => Failure(NotAFunction)
  }

  /** The handler table `restReducer({actions})` builds. */
  function HandlerTableOf(actions: Option<ActionTable>): (r: Result<HandlerTable, Error>)
    ensures actions.None? ==> r == Failure(ActionsRequired)
  {
    if actions.None? then Failure(ActionsRequired)
    else
      var table :- VerbTable(actions.value, RestVerbs);
      var table :- WithReducerHandler(table, actions.value, "clear", Reset);
      WithReducerHandler(table, actions.value, "clearErrors", DropErrors)
  }

  method RestReducer(actions: Option<ActionTable>) returns (r: Result<HandlerTable, Error>)
    ensures r == HandlerTableOf(actions)
  {
    if actions.None? {
      return Failure(ActionsRequired);
    }
    var table: HandlerTable := map[];
    for i := 0 to |RestVerbs|
      invariant VerbTable(actions.value, RestVerbs[..i]) == Success(table)
    {
      assert RestVerbs[..i + 1][..i] == RestVerbs[..i];
      var name := VerbName(RestVerbs[i]);
      if name in actions.value {
        var handlers := HandlerCreator(name, actions.value[name]);
        if handlers.Failure? {
          assert VerbTable(actions.value, RestVerbs[..i + 1]).Failure?;
          r := Failure(handlers.error);
          assert RestVerbs[..|RestVerbs|] == RestVerbs;
          FailureSticks(actions.value, RestVerbs, i + 1);
          return;
        }
        table := table + handlers.value;
      }
    }
    assert RestVerbs[..|RestVerbs|] == RestVerbs;
    if "clear" in actions.value {
      match actions.value["clear"]
      case Single(c) => table := table[c.actionType := Reset];
      case Group(_) => return Failure(NotAFunction);
    }
    if "clearErrors" in actions.value {
      match actions.value["clearErrors"]
      case Single(c) => table := table[c.actionType := DropErrors];
      case Group(_) => return Failure(NotAFunction);
    }
    r := Success(table);
  }

  /** Once the verb fold has thrown, it throws the same error at every later verb. */
  lemma {:induction false} FailureSticks(actions: ActionTable, verbs: seq<Verb>, k: nat)
    requires k <= |verbs|
    requires VerbTable(actions, verbs[..k]).Failure?
    ensures VerbTable(actions, verbs) == VerbTable(actions, verbs[..k])
    decreases |verbs| - k
  {
    if k < |verbs| {
      var longer := verbs[..k + 1];
      assert longer[..k] == verbs[..k];
      FailureSticks(actions, verbs, k + 1);
    } else {
      assert verbs[..k] == verbs;
    }
  }
}
