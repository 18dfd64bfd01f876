/**
 * How the handler table `restReducer` builds from the actions of
 * `createRestActions` routes types: each `COLLECTION_VERB_SUFFIX` type to its
 * own verb and phase, and the two reducer types to clear and clearErrors.
 */
module Routing {
  import opened Wrappers
  import opened Values
  import opened Text
  import opened Actions
  import opened Reducers

  /** The type of the creator for a verb and phase of a collection. */
  function RouteType(collection: string, v: Verb, p: Phase): string {
    CreateRequestType(collection, VerbName(v), SuffixName(p))
  }

  /** `RouteType` of one collection, as a function of verb and phase. */
  function RouteKey(collection: string): (Verb, Phase) -> string {
    (v, p) => RouteType(collection, v, p)
  }

  lemma ParseVerbName(v: Verb)
    ensures ParseVerb(VerbName(v)) == Some(v)
  {
  }

  lemma UpperVerbNameInjective(v1: Verb, v2: Verb)
    requires Upper(VerbName(v1)) == Upper(VerbName(v2))
    ensures v1 == v2
  {
    var u1, u2 := Upper(VerbName(v1)), Upper(VerbName(v2));
    assert |VerbName(v1)| == |VerbName(v2)|;
    assert u1[0] == UpperChar(VerbName(v1)[0]) && u2[0] == UpperChar(VerbName(v2)[0]);
  }

  lemma UpperSuffixNameInjective(p1: Phase, p2: Phase)
    requires Upper(SuffixName(p1)) == Upper(SuffixName(p2))
    ensures p1 == p2
  {
    var u1, u2 := Upper(SuffixName(p1)), Upper(SuffixName(p2));
    assert |SuffixName(p1)| == |SuffixName(p2)|;
    assert u1[0] == UpperChar(SuffixName(p1)[0]) && u2[0] == UpperChar(SuffixName(p2)[0]);
  }

  /** Distinct verb/phase pairs of one collection get distinct types. */
  lemma RouteTypeInjective(collection: string, v1: Verb, p1: Phase, v2: Verb, p2: Phase)
    requires RouteType(collection, v1, p1) == RouteType(collection, v2, p2)
    ensures v1 == v2 && p1 == p2
  {
    RequestTypesDistinct(collection, VerbName(v1), SuffixName(p1), VerbName(v2), SuffixName(p2));
    UpperVerbNameInjective(v1, v2);
    UpperSuffixNameInjective(p1, p2);
  }

  /** The handlers `handlerCreator` installs for one verb of `createRestActions`. */
  lemma VerbHandlersOfRestActions(collection: string, v: Verb)
    ensures
      var r := VerbHandlers(VerbName(v), Group(RequestActions(collection, VerbName(v))));
      && r.Success?
      && (forall p: Phase :: RouteType(collection, v, p) in r.value
                             && r.value[RouteType(collection, v, p)] == Transition(v, p))
      && (forall k :: k in r.value ==> exists p: Phase :: k == RouteType(collection, v, p))
  {
    ParseVerbName(v);
    var r := VerbHandlers(VerbName(v), Group(RequestActions(collection, VerbName(v))));
    forall p: Phase, q: Phase | RouteType(collection, v, p) == RouteType(collection, v, q)
      ensures p == q
    {
      RouteTypeInjective(collection, v, p, v, q);
    }
    assert r.value == map[RouteType(collection, v, Requested) := Transition(v, Requested)]
                         [RouteType(collection, v, Succeeded) := Transition(v, Succeeded)]
                         [RouteType(collection, v, Failed) := Transition(v, Failed)];
  }

  predicate Distinct(verbs: seq<Verb>) {
    forall i, j :: 0 <= i < j < |verbs| ==> verbs[i] != verbs[j]
  }

  /** A key function that gives distinct verb/phase pairs distinct types. */
  predicate Injective(key: (Verb, Phase) -> string) {
    forall v, p, w, q :: key(v, p) == key(w, q) ==> v == w && p == q
  }

  /**
   * `t` sends the type of each phase of each configured verb among `verbs` to
   * that verb and phase, and holds no other type.
   */
  predicate Routes(t: HandlerTable, key: (Verb, Phase) -> string, verbs: seq<Verb>, names: seq<string>) {
    && (forall v, p :: v in verbs && VerbName(v) in names ==> key(v, p) in t && t[key(v, p)] == Transition(v, p))
    && (forall k :: k in t ==> exists v, p :: v in verbs && VerbName(v) in names && k == key(v, p))
  }

  lemma RoutesAddVerb(t: HandlerTable, h: HandlerTable, key: (Verb, Phase) -> string,
                      init: seq<Verb>, last: Verb, names: seq<string>)
    requires Injective(key) && Routes(t, key, init, names) && VerbName(last) in names
    requires forall p :: key(last, p) in h && h[key(last, p)] == Transition(last, p)
    requires forall k :: k in h ==> exists p :: k == key(last, p)
    ensures Routes(t + h, key, init + [last], names)
  {
    var verbs := init + [last];
    forall v, p | v in verbs && VerbName(v) in names
      ensures key(v, p) in t + h && (t + h)[key(v, p)] == Transition(v, p)
    {
      if v != last {
        assert v in init;
        forall q ensures key(v, p) != key(last, q) {
        }
        assert key(v, p) !in h;
      }
    }
    forall k | k in t + h
      ensures exists v, p :: v in verbs && VerbName(v) in names && k == key(v, p)
    {
      if k in h {
        var q :| k == key(last, q);
        assert last in verbs;
      } else {
        var v, p :| v in init && VerbName(v) in names && k == key(v, p);
        assert v in verbs;
      }
    }
  }

  lemma RoutesSkipVerb(t: HandlerTable, key: (Verb, Phase) -> string,
                       init: seq<Verb>, last: Verb, names: seq<string>)
    requires Routes(t, key, init, names) && VerbName(last) !in names
    ensures Routes(t, key, init + [last], names)
  {
    var verbs := init + [last];
    forall k | k in t
      ensures exists v, p :: v in verbs && VerbName(v) in names && k == key(v, p)
    {
      var v, p :| v in init && VerbName(v) in names && k == key(v, p);
      assert v in verbs;
    }
  }

  lemma RouteTypeIsInjective(collection: string)
    ensures Injective(RouteKey(collection))
  {
    forall v, p, w, q | RouteType(collection, v, p) == RouteType(collection, w, q)
      ensures v == w && p == q
    {
      RouteTypeInjective(collection, v, p, w, q);
    }
  }

  /** One more verb in the fold over the actions of `createRestActions`. */
  lemma VerbTableStep(collection: string, names: seq<string>, init: seq<Verb>, last: Verb)
    requires VerbTable(RestActions(collection, names), init).Success?
    ensures
      var actions := RestActions(collection, names);
      var t0 := VerbTable(actions, init).value;
      var h := VerbHandlers(VerbName(last), Group(RequestActions(collection, VerbName(last))));
      && h.Success?
      && VerbTable(actions, init + [last]) == Success(if VerbName(last) in names then t0 + h.value else t0)
  {
    var verbs := init + [last];
    assert verbs[..|verbs| - 1] == init && verbs[|verbs| - 1] == last;
    VerbHandlersOfRestActions(collection, last);
    assert VerbName(last) != "clear" && VerbName(last) != "clearErrors";
  }

  /** The verb fold routes the types of every configured verb, and nothing else. */
  lemma {:induction false} VerbTableRoutes(collection: string, names: seq<string>, verbs: seq<Verb>)
    requires Distinct(verbs)
    ensures
      var t := VerbTable(RestActions(collection, names), verbs);
      t.Success? && Routes(t.value, RouteKey(collection), verbs, names)
    decreases |verbs|
  {
    var actions := RestActions(collection, names);
    var key := RouteKey(collection);
    if |verbs| > 0 {
      var init, last := verbs[..|verbs| - 1], verbs[|verbs| - 1];
      assert verbs == init + [last];
      assert Distinct(init);
      VerbTableRoutes(collection, names, init);
      var t0 := VerbTable(actions, init).value;
      VerbTableStep(collection, names, init, last);
      if VerbName(last) in names {
        VerbHandlersOfRestActions(collection, last);
        var h := VerbHandlers(VerbName(last), Group(RequestActions(collection, VerbName(last)))).value;
        RouteTypeIsInjective(collection);
        RoutesAddVerb(t0, h, key, init, last, names);
      } else {
        RoutesSkipVerb(t0, key, init, last, names);
      }
    }
  }

  lemma RestVerbsDistinct()
    ensures Distinct(RestVerbs)
  {
  }

  lemma ReducerTypesDiffer(collection: string)
    ensures CreateReducerType(collection, "clear") != CreateReducerType(collection, "clearErrors")
  {
    ReducerTypeLayout(collection, "clear");
    ReducerTypeLayout(collection, "clearErrors");
  }

  /** The table `restReducer` builds: the verb fold, then clear and clearErrors on top. */
  lemma HandlerTableOfRestActions(collection: string, names: seq<string>)
    requires VerbTable(RestActions(collection, names), RestVerbs).Success?
    ensures HandlerTableOf(Some(RestActions(collection, names)))
         == Success(VerbTable(RestActions(collection, names), RestVerbs).value
                      [CreateReducerType(collection, "clear") := Reset]
                      [CreateReducerType(collection, "clearErrors") := DropErrors])
  {
    var actions := RestActions(collection, names);
    assert actions["clear"] == Single(Creator(CreateReducerType(collection, "clear")));
    assert actions["clearErrors"] == Single(Creator(CreateReducerType(collection, "clearErrors")));
  }

  lemma RouteTypeIsNotReducerType(collection: string)
    ensures forall v, p :: RouteType(collection, v, p) != CreateReducerType(collection, "clear")
                        && RouteType(collection, v, p) != CreateReducerType(collection, "clearErrors")
  {
    forall v: Verb, p: Phase
      ensures RouteType(collection, v, p) != CreateReducerType(collection, "clear")
      ensures RouteType(collection, v, p) != CreateReducerType(collection, "clearErrors")
    {
      RequestTypeIsNotReducerType(collection, VerbName(v), SuffixName(p), "clear");
      RequestTypeIsNotReducerType(collection, VerbName(v), SuffixName(p), "clearErrors");
    }
  }

  /**
   * `restReducer({actions: createRestActions(collection, verbs)})` routes every
   * configured verb's three types to that verb's handlers, the clear type to
   * the reset and the clearErrors type to dropping the errors, and holds no
   * other type.
   */
  lemma {:induction false} RestReducerRoutes(collection: string, names: seq<string>)
    ensures
      var r := HandlerTableOf(Some(RestActions(collection, names)));
      var clear, clearErrors := CreateReducerType(collection, "clear"), CreateReducerType(collection, "clearErrors");
      && r.Success?
      && (forall v, p :: VerbName(v) in names ==>
            RouteType(collection, v, p) in r.value && r.value[RouteType(collection, v, p)] == Transition(v, p))
      && clear in r.value && r.value[clear] == Reset
      && clearErrors in r.value && r.value[clearErrors] == DropErrors
      && (forall k :: k in r.value ==>
            || k == clear || k == clearErrors
            || exists v, p :: VerbName(v) in names && k == RouteType(collection, v, p))
  {
    var key := RouteKey(collection);
    var clear, clearErrors := CreateReducerType(collection, "clear"), CreateReducerType(collection, "clearErrors");
    RestVerbsDistinct();
    VerbTableRoutes(collection, names, RestVerbs);
    var t := VerbTable(RestActions(collection, names), RestVerbs).value;
    var r := t[clear := Reset][clearErrors := DropErrors];
    HandlerTableOfRestActions(collection, names);
    assert HandlerTableOf(Some(RestActions(collection, names))) == Success(r);
    ReducerTypesDiffer(collection);
    RouteTypeIsNotReducerType(collection);
    ReducerHandlersOnTop(t, key, names, clear, clearErrors);
    forall v, p | VerbName(v) in names
      ensures RouteType(collection, v, p) in r && r[RouteType(collection, v, p)] == Transition(v, p)
    {
      assert key(v, p) == RouteType(collection, v, p);
    }
    forall k | k in r
      ensures k == clear || k == clearErrors || exists v, p :: VerbName(v) in names && k == RouteType(collection, v, p)
    {
      if k != clear && k != clearErrors {
        var v, p :| VerbName(v) in names && k == key(v, p);
        assert k == RouteType(collection, v, p);
      }
    }
  }

  lemma ReducerHandlersOnTop(t: HandlerTable, key: (Verb, Phase) -> string, names: seq<string>,
                             clear: string, clearErrors: string)
    requires Routes(t, key, RestVerbs, names)
    requires clear != clearErrors
    requires forall v, p :: key(v, p) != clear && key(v, p) != clearErrors
    ensures
      var r := t[clear := Reset][clearErrors := DropErrors];
      && (forall v, p :: VerbName(v) in names ==> key(v, p) in r && r[key(v, p)] == Transition(v, p))
      && r[clear] == Reset && r[clearErrors] == DropErrors
      && (forall k :: k in r ==>
            k == clear || k == clearErrors || exists v, p :: VerbName(v) in names && k == key(v, p))
  {
    forall v | VerbName(v) in names ensures v in RestVerbs {
    }
  }

  /**
   * End to end: with that table, a dispatched `COLLECTION_VERB_SUFFIX` action
   * runs exactly the verb's handler for that phase, on the initial state when
   * the state is undefined.
   */
  lemma ReduceRunsTheVerbHandler(collection: string, names: seq<string>, idAttribute: string,
                                 state: Option<State>, v: Verb, p: Phase, payload: Value, meta: Value)
    requires VerbName(v) in names
    ensures
      var handlers := HandlerTableOf(Some(RestActions(collection, names)));
      var a := Action(RouteType(collection, v, p), payload, meta);
      && handlers.Success?
      && Reduce(handlers.value, idAttribute, state, a)
         == Apply(Transition(v, p), state.GetOr(InitialState), a, idAttribute)
  {
    RestReducerRoutes(collection, names);
  }
}
