/**
 * Properties of the entity-cache reducer of src/reducers.js: the invariants
 * its transitions keep, how requests and successes settle the pending flags,
 * and how the handler table built from `createRestActions` routes each type.
 */
module ReducerLaws {
  import opened Wrappers
  import opened Values
  import opened Text
  import opened Actions
  import opened Normalization
  import opened Reducers

  /** Every id listed in `result` has a cached entity. */
  predicate Consistent(s: State) {
    && s.entities.Some? && s.result.Some?
    && forall id :: id in s.result.value ==> id in s.entities.value
  }

  predicate NoDuplicates(xs: seq<Value>) {
    forall i, j :: 0 <= i < j < |xs| ==> xs[i] != xs[j]
  }

  lemma InitialStateIsConsistent()
    ensures Consistent(InitialState) && NoDuplicates(InitialState.result.value)
  {
  }

  // ---------------------------------------------------------------- filtering

  lemma WithoutSnoc(xs: seq<Value>, x: Value, id: Value)
    ensures Without(xs + [x], id) == Without(xs, id) + (if x == id then [] else [x])
  {
    assert (xs + [x])[..|xs|] == xs;
  }

  /** Filtering distributes over concatenation: the kept elements keep their order. */
  lemma {:induction false} WithoutConcat(xs: seq<Value>, ys: seq<Value>, id: Value)
    ensures Without(xs + ys, id) == Without(xs, id) + Without(ys, id)
    decreases |ys|
  {
    if |ys| == 0 {
      assert xs + ys == xs;
      assert Without(ys, id) == [];
    } else {
      var init, last := ys[..|ys| - 1], ys[|ys| - 1];
      var tail := if last == id then [] else [last];
      assert ys == init + [last];
      assert xs + ys == (xs + init) + [last];
      calc {
        Without(xs + ys, id);
        { WithoutSnoc(xs + init, last, id); }
        Without(xs + init, id) + tail;
        { WithoutConcat(xs, init, id); }
        (Without(xs, id) + Without(init, id)) + tail;
        Without(xs, id) + (Without(init, id) + tail);
        { WithoutSnoc(init, last, id); }
        Without(xs, id) + Without(ys, id);
      }
    }
  }

  lemma {:induction false} WithoutKeepsNoDuplicates(xs: seq<Value>, id: Value)
    requires NoDuplicates(xs)
    ensures NoDuplicates(Without(xs, id))
    decreases |xs|
  {
    if |xs| > 0 {
      var init := xs[..|xs| - 1];
      var last := xs[|xs| - 1];
      assert NoDuplicates(init);
      WithoutKeepsNoDuplicates(init, id);
      assert last !in init by {
        forall i | 0 <= i < |init| ensures init[i] != last {
          assert xs[i] == init[i];
        }
      }
    }
  }

  // ---------------------------------------------------------------- invariants

  /** findOne.success never lists an id twice. */
  lemma FindOneSuccessKeepsNoDuplicates(s: State, a: Action)
    requires s.result.Some? && NoDuplicates(s.result.value)
    requires FindOneSuccess(s, a).Success?
    ensures NoDuplicates(FindOneSuccess(s, a).value.result.value)
  {
  }

  /**
   * create.success, unlike findOne.success, appends the id even when it is
   * already listed.
   */
  lemma CreateSuccessCanDuplicate()
    ensures
      var id := Str("1");
      var s := InitialState.(entities := Some(map[id := Str("old")]), result := Some([id]));
      var payload := Normalized(map[id := Str("new")], [id]).ToValue();
      var r := CreateSuccess(s, Action("CATS_CREATE_SUCCESS", payload, Undefined));
      r.Success? && r.value.result == Some([id, id]) && !NoDuplicates(r.value.result.value)
  {
    var id := Str("1");
    var s := InitialState.(entities := Some(map[id := Str("old")]), result := Some([id]));
    var payload := Normalized(map[id := Str("new")], [id]).ToValue();
    var a := Action("CATS_CREATE_SUCCESS", payload, Undefined);
    assert Prop(payload, "result") == Arr([id]);
    assert Prop(payload, "entities") == Obj(map[id := Str("new")]);
    assert GetIdFromNormalizedPayload(a) == Success(id);
    assert GetEntityFromAction(a) == Success(Str("new"));
    var r := CreateSuccess(s, a);
    assert r.Success?;
    assert [id] + [id] == [id, id];
    assert r.value.result == Some([id, id]);
    assert r.value.result.value[0] == r.value.result.value[1];
  }

  /** Every transition except find.success keeps the listed ids backed by entities. */
  lemma TransitionKeepsConsistent(h: Handler, s: State, a: Action, idAttribute: string)
    requires Consistent(s)
    requires h != Transition(Find, Succeeded)
    requires Apply(h, s, a, idAttribute).Success?
    ensures Consistent(Apply(h, s, a, idAttribute).value)
  {
  }

  /** find.success on a normalized payload leaves a consistent state. */
  lemma FindSuccessOfNormalized(s: State, t: string, meta: Value, data: Value, attr: IdAttribute)
    ensures
      var n := Normalize(data, attr);
      var r := FindSuccess(s, Action(t, n.ToValue(), meta));
      && r.Success?
      && r.value.entities == Some(n.entities)
      && r.value.result == Some(n.result)
      && Consistent(r.value)
  {
  }

  /** Every transition except find.success and create.success keeps `result` free of duplicates. */
  lemma TransitionKeepsNoDuplicates(h: Handler, s: State, a: Action, idAttribute: string)
    requires s.result.Some? && NoDuplicates(s.result.value)
    requires h != Transition(Find, Succeeded) && h != Transition(Create, Succeeded)
    requires Apply(h, s, a, idAttribute).Success?
    ensures NoDuplicates(Apply(h, s, a, idAttribute).value.result.value)
  {
    match h
    case Transition(FindOne, Succeeded) =>
      FindOneSuccessKeepsNoDuplicates(s, a);
    case Transition(Delete, Succeeded) =>
      WithoutKeepsNoDuplicates(s.result.value, GetIdFromNormalizedPayload(a).value);
    case Transition(_, Requested) =>
    case Transition(_, Failed) =>
    case Reset =>
    case DropErrors =>
    case _ =>
  }

  /** A delete success removes the id and every trace of it, and nothing else. */
  lemma DeleteSuccessForgets(s: State, a: Action, other: Value)
    requires DeleteSuccess(s, a).Success?
    ensures
      var id := GetIdFromNormalizedPayload(a).value;
      var r := DeleteSuccess(s, a).value;
      && id !in r.entities.value && id !in r.result.value && id !in r.ui.deleting
      && (other != id ==>
            && (other in r.entities.value <==> other in s.entities.value)
            && (other in r.entities.value ==> r.entities.value[other] == s.entities.value[other])
            && multiset(r.result.value)[other] == multiset(s.result.value)[other])
  {
  }

  // ---------------------------------------------------------------- request, then settle

  /** A request followed by the success for the same id leaves that id no longer pending. */
  lemma FindOneSettles(s: State, request: Action, success: Action, idAttribute: string)
    requires FindOneRequest(s, request, idAttribute).Success?
    requires FindOneSuccess(FindOneRequest(s, request, idAttribute).value, success).Success?
    requires GetIdFromNormalizedPayload(success).value == GetIdFromPayloadKey(request, idAttribute).value
    ensures
      var id := GetIdFromPayloadKey(request, idAttribute).value;
      var mid := FindOneRequest(s, request, idAttribute).value;
      var r := FindOneSuccess(mid, success).value;
      && id in mid.ui.findingOne
      && r.ui.findingOne == s.ui.findingOne - {id}
      && id in r.result.value
      && r.entities.value[id] == GetEntityFromAction(success).value
  {
  }

  lemma UpdateSettles(s: State, request: Action, success: Action, idAttribute: string)
    requires UpdateRequest(s, request, idAttribute).Success?
    requires UpdateSuccess(UpdateRequest(s, request, idAttribute).value, success).Success?
    requires GetIdFromNormalizedPayload(success).value == GetIdFromPayloadKey(request, idAttribute).value
    ensures
      var id := GetIdFromPayloadKey(request, idAttribute).value;
      var mid := UpdateRequest(s, request, idAttribute).value;
      var r := UpdateSuccess(mid, success).value;
      && id in mid.ui.updating
      && r.ui.updating == s.ui.updating - {id}
      && r.result == s.result
  {
  }

  lemma DeleteSettles(s: State, request: Action, success: Action, idAttribute: string)
    requires DeleteRequest(s, request, idAttribute).Success?
    requires DeleteSuccess(DeleteRequest(s, request, idAttribute).value, success).Success?
    requires GetIdFromNormalizedPayload(success).value == GetIdFromPayloadKey(request, idAttribute).value
    ensures
      var id := GetIdFromPayloadKey(request, idAttribute).value;
      var mid := DeleteRequest(s, request, idAttribute).value;
      var r := DeleteSuccess(mid, success).value;
      && id in mid.ui.deleting
      && r.ui.deleting == s.ui.deleting - {id}
      && id !in r.entities.value
  {
  }

  /** findOne: a failure after a request drops every pending fetch and records the error. */
  lemma FindOneFailClearsPending(s: State, request: Action, fail: Action, idAttribute: string)
    requires FindOneRequest(s, request, idAttribute).Success?
    ensures
      var mid := FindOneRequest(s, request, idAttribute).value;
      var r := FindOneFail(mid, fail);
      && GetIdFromPayloadKey(request, idAttribute).value in mid.ui.findingOne
      && r.ui.findingOne == {}
      && r.errors.value[Verb.FindOne] == fail.payload
      && r.entities == s.entities && r.result == s.result
  {
  }

  /** update: a failure after a request drops every pending update and records the error. */
  lemma UpdateFailClearsPending(s: State, request: Action, fail: Action, idAttribute: string)
    requires UpdateRequest(s, request, idAttribute).Success?
    ensures
      var mid := UpdateRequest(s, request, idAttribute).value;
      var r := UpdateFail(mid, fail);
      && GetIdFromPayloadKey(request, idAttribute).value in mid.ui.updating
      && r.ui.updating == {}
      && r.errors.value[Verb.Update] == fail.payload
      && r.entities == s.entities && r.result == s.result
  {
  }

  /** delete: a failure after a request drops every pending deletion and keeps the entity. */
  lemma DeleteFailClearsPending(s: State, request: Action, fail: Action, idAttribute: string)
    requires DeleteRequest(s, request, idAttribute).Success?
    ensures
      var mid := DeleteRequest(s, request, idAttribute).value;
      var r := DeleteFail(mid, fail);
      && GetIdFromPayloadKey(request, idAttribute).value in mid.ui.deleting
      && r.ui.deleting == {}
      && r.errors.value[Verb.Delete] == fail.payload
      && r.entities == s.entities && r.result == s.result
  {
  }

  /** clear then anything: the state is back where an undefined state starts. */
  lemma ClearIsInitial(handlers: HandlerTable, idAttribute: string, s: Option<State>, a: Action)
    requires a.actionType in handlers && handlers[a.actionType] == Reset
    ensures Reduce(handlers, idAttribute, s, a) == Success(InitialState)
  {
  }

  /** clearErrors removes the errors and leaves everything else. */
  lemma ClearErrorsKeepsData(handlers: HandlerTable, idAttribute: string, s: State, a: Action)
    requires a.actionType in handlers && handlers[a.actionType] == DropErrors
    ensures Reduce(handlers, idAttribute, Some(s), a) == Success(s.(errors := None))
  {
  }
}
