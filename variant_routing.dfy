/**
 * How the handler table of src/rest-reducers.js routes the actions of
 * `createRestActions`: the verb types as in src/reducers.js, but the
 * collection's clear and clearErrors types reach no handler, while an action
 * whose type is the text "undefined" does.
 */
module VariantRouting {
  import opened Wrappers
  import opened Values
  import opened Text
  import opened Actions
  import opened Reducers
  import opened Routing
  import opened RestReducers

  /** A type built by `createType` is never the text "undefined", which starts lower-case. */
  lemma CreateTypeIsNotUndefinedKey(parts: seq<string>)
    ensures CreateType(parts) != UndefinedKey
  {
    CreateTypeIsUpperCase(parts);
    if CreateType(parts) == UndefinedKey {
      assert IsLower(UndefinedKey[0]);
    }
  }

  /** A handler put on top of a routing table under a key no verb type uses. */
  lemma HandlerOnTop(t: HandlerTable, key: (Verb, Phase) -> string, names: seq<string>, u: string, h: Handler)
    requires Routes(t, key, RestVerbs, names)
    requires forall v, p :: key(v, p) != u
    ensures
      var r := t[u := h];
      && (forall v, p :: VerbName(v) in names ==> key(v, p) in r && r[key(v, p)] == Transition(v, p))
      && r[u] == h
      && (forall k :: k in r ==> k == u || exists v, p :: VerbName(v) in names && k == key(v, p))
  {
    forall v | VerbName(v) in names ensures v in RestVerbs {
    }
  }

  lemma RouteTypeIsNotUndefinedKey(collection: string)
    ensures forall v, p :: RouteKey(collection)(v, p) != UndefinedKey
  {
    forall v: Verb, p: Phase ensures RouteKey(collection)(v, p) != UndefinedKey {
      CreateTypeIsNotUndefinedKey([collection, VerbName(v), SuffixName(p)]);
    }
  }

  /** Both reducer handlers of this variant land on the one key, clearErrors last. */
  lemma VariantTableOnTop(collection: string, names: seq<string>)
    requires VerbTable(RestActions(collection, names), RestVerbs).Success?
    ensures VariantHandlerTable(Some(RestActions(collection, names)))
         == Success(VerbTable(RestActions(collection, names), RestVerbs).value[UndefinedKey := DropErrors])
  {
    var actions := RestActions(collection, names);
    var t := VerbTable(actions, RestVerbs).value;
    assert "clear" in actions && "clearErrors" in actions;
    assert t[UndefinedKey := Reset][UndefinedKey := DropErrors] == t[UndefinedKey := DropErrors];
  }

  /**
   * The table of this variant for the actions of `createRestActions`: every
   * configured verb's types go to its handlers, and apart from them it holds
   * only `UndefinedKey`, which drops the errors.
   */
  lemma VariantTableOfRestActions(collection: string, names: seq<string>)
    ensures
      var r := VariantHandlerTable(Some(RestActions(collection, names)));
      && r.Success?
      && (forall v, p :: VerbName(v) in names ==>
            RouteType(collection, v, p) in r.value && r.value[RouteType(collection, v, p)] == Transition(v, p))
      && UndefinedKey in r.value && r.value[UndefinedKey] == DropErrors
      && (forall k :: k in r.value ==>
            k == UndefinedKey || exists v, p :: VerbName(v) in names && k == RouteType(collection, v, p))
  {
    var actions := RestActions(collection, names);
    RestVerbsDistinct();
    VerbTableRoutes(collection, names, RestVerbs);
    var t := VerbTable(actions, RestVerbs).value;
    var key := RouteKey(collection);
    var r := t[UndefinedKey := DropErrors];
    VariantTableOnTop(collection, names);
    RouteTypeIsNotUndefinedKey(collection);
    HandlerOnTop(t, key, names, UndefinedKey, DropErrors);
    forall v, p | VerbName(v) in names
      ensures RouteType(collection, v, p) in r && r[RouteType(collection, v, p)] == Transition(v, p)
    {
      assert key(v, p) == RouteType(collection, v, p);
    }
    forall k | k in r
      ensures k == UndefinedKey || exists v, p :: VerbName(v) in names && k == RouteType(collection, v, p)
    {
      if k != UndefinedKey {
        var v, p :| VerbName(v) in names && k == key(v, p);
        assert k == RouteType(collection, v, p);
      }
    }
  }

  /**
   * Dispatching the collection's clear or clearErrors action leaves the state
   * as it is: neither type has a handler in this variant.
   */
  lemma ReducerActionsAreIgnored(collection: string, names: seq<string>, idAttribute: string,
                                 s: State, suffix: string, payload: Value, meta: Value)
    requires suffix == "clear" || suffix == "clearErrors"
    ensures
      var r := VariantHandlerTable(Some(RestActions(collection, names)));
      var a := Action(CreateReducerType(collection, suffix), payload, meta);
      && r.Success?
      && a.actionType !in r.value
      && ReduceVariant(r.value, idAttribute, Some(s), a) == Success(s)
  {
    VariantTableOfRestActions(collection, names);
    var r := VariantHandlerTable(Some(RestActions(collection, names))).value;
    var t := CreateReducerType(collection, suffix);
    CreateTypeIsNotUndefinedKey([collection, suffix]);
    RouteTypeIsNotReducerType(collection);
  }

  /** An action of type "undefined" drops the errors, whatever it carries. */
  lemma UndefinedTypeDropsErrors(collection: string, names: seq<string>, idAttribute: string,
                                 s: State, payload: Value, meta: Value)
    ensures
      var r := VariantHandlerTable(Some(RestActions(collection, names)));
      && r.Success?
      && ReduceVariant(r.value, idAttribute, Some(s), Action(UndefinedKey, payload, meta))
         == Success(s.(errors := None))
  {
    VariantTableOfRestActions(collection, names);
  }
}
