/**
 * Action types and action creators (src/actions.js; src/rest-actions.js is the
 * same code and is covered by this module too).
 */
module Actions {
  import opened Wrappers
  import opened Values
  import opened Text

  const RequestSuffixes: seq<string> := ["request", "success", "fail"]
  const ReducerSuffixes: seq<string> := ["clear", "clearErrors"]

  function UpperAll(parts: seq<string>): (r: seq<string>)
    ensures |r| == |parts|
    ensures forall i :: 0 <= i < |parts| ==> r[i] == Upper(parts[i])
  {
    seq(|parts|, i requires 0 <= i < |parts| => Upper(parts[i]))
  }

  /** `createType(...parts)`: every part upper-cased, joined with "_". */
  function CreateType(parts: seq<string>): string {
    Join(UpperAll(parts), '_')
  }

  lemma UpperKeepsNoUnderscore(s: string)
    requires '_' !in s
    ensures '_' !in Upper(s)
  {
    forall i | 0 <= i < |s| ensures Upper(s)[i] != '_' {
      assert s[i] != '_';
    }
  }

  /** Splitting a type on "_" gives back the upper-cased parts, when no part contains "_". */
  lemma CreateTypeSplits(parts: seq<string>)
    requires |parts| >= 1
    requires forall i :: 0 <= i < |parts| ==> '_' !in parts[i]
    ensures Split(CreateType(parts), '_') == UpperAll(parts)
  {
    forall i | 0 <= i < |parts| ensures '_' !in UpperAll(parts)[i] {
      UpperKeepsNoUnderscore(parts[i]);
    }
    SplitJoin(UpperAll(parts), '_');
  }

  /** A type never contains a lower-case letter. */
  lemma CreateTypeIsUpperCase(parts: seq<string>)
    ensures forall j :: 0 <= j < |CreateType(parts)| ==> !IsLower(CreateType(parts)[j])
  {
    JoinKeepsNoLower(UpperAll(parts), '_');
  }

  /** `createRequestType(collection, verb, suffix)`, e.g. CATS_FIND_REQUEST. */
  function CreateRequestType(collection: string, verb: string, suffix: string): string {
    CreateType([collection, verb, suffix])
  }

  /** `createReducerType(collection, suffix)`, e.g. CATS_CLEARERRORS. */
  function CreateReducerType(collection: string, suffix: string): string {
    CreateType([collection, suffix])
  }

  /** A request type is the collection prefix followed by the verb-and-suffix type. */
  lemma RequestTypeLayout(collection: string, verb: string, suffix: string)
    ensures CreateRequestType(collection, verb, suffix)
         == Upper(collection) + "_" + CreateType([verb, suffix])
    ensures CreateType([verb, suffix]) == Upper(verb) + "_" + Upper(suffix)
  {
    var u := UpperAll([collection, verb, suffix]);
    assert u == [Upper(collection), Upper(verb), Upper(suffix)];
    assert u[1..] == UpperAll([verb, suffix]);
    var w := UpperAll([verb, suffix]);
    assert w == [Upper(verb), Upper(suffix)];
    assert w[1..] == [Upper(suffix)];
    assert Join(w[1..], '_') == Upper(suffix);
    assert CreateType([verb, suffix]) == Upper(verb) + ['_'] + Upper(suffix);
  }

  lemma ReducerTypeLayout(collection: string, suffix: string)
    ensures CreateReducerType(collection, suffix) == Upper(collection) + "_" + Upper(suffix)
  {
    var u := UpperAll([collection, suffix]);
    assert u == [Upper(collection), Upper(suffix)];
    assert u[1..] == [Upper(suffix)];
    assert Join(u[1..], '_') == Upper(suffix);
    assert CreateReducerType(collection, suffix) == Upper(collection) + ['_'] + Upper(suffix);
  }

  /**
   * Within one collection, two request types are equal only when their verbs
   * and suffixes are equal up to case (verbs and suffixes have no "_").
   */
  lemma RequestTypesDistinct(collection: string, v1: string, s1: string, v2: string, s2: string)
    requires '_' !in v1 && '_' !in s1 && '_' !in v2 && '_' !in s2
    requires CreateRequestType(collection, v1, s1) == CreateRequestType(collection, v2, s2)
    ensures Upper(v1) == Upper(v2) && Upper(s1) == Upper(s2)
  {
    RequestTypeLayout(collection, v1, s1);
    RequestTypeLayout(collection, v2, s2);
    var prefix := Upper(collection) + "_";
    var t1, t2 := CreateType([v1, s1]), CreateType([v2, s2]);
    assert prefix + t1 == prefix + t2;
    assert t1 == (prefix + t1)[|prefix|..];
    assert t1 == t2;
    CreateTypeSplits([v1, s1]);
    CreateTypeSplits([v2, s2]);
    assert UpperAll([v1, s1]) == UpperAll([v2, s2]);
    assert UpperAll([v1, s1])[0] == Upper(v1);
    assert UpperAll([v2, s2])[1] == Upper(s2);
  }

  /** A reducer type (suffix without "_") never equals a request type of the same collection. */
  lemma RequestTypeIsNotReducerType(collection: string, verb: string, suffix: string, t: string)
    requires '_' !in t
    ensures CreateRequestType(collection, verb, suffix) != CreateReducerType(collection, t)
  {
    RequestTypeLayout(collection, verb, suffix);
    ReducerTypeLayout(collection, t);
    UpperKeepsNoUnderscore(t);
    var prefix := Upper(collection) + "_";
    var t1, t2 := CreateType([verb, suffix]), Upper(t);
    var k := |prefix| + |Upper(verb)|;
    assert (prefix + t1)[k] == '_';
    if k < |prefix + t2| {
      assert (prefix + t2)[k] == t2[k - |prefix|];
    }
  }

  /** An action creator; calling it with a payload and a meta yields an action. */
  datatype Creator = Creator(actionType: string)

  /** A flux-standard action; `Undefined` stands for an absent key. */
  datatype Action = Action(actionType: string, payload: Value, meta: Value)

  /** `createAction(type)(payload, meta)`: meta is attached only when truthy. */
  function CreateAction(actionType: string, payload: Value, meta: Value): (a: Action)
    ensures a.actionType == actionType && a.payload == payload
    ensures a.meta != Undefined <==> Truthy(meta)
    ensures Truthy(meta) ==> a.meta == meta
  {
    Action(actionType, payload, if Truthy(meta) then meta else Undefined)
  }

  function Invoke(c: Creator, payload: Value, meta: Value): Action {
    CreateAction(c.actionType, payload, meta)
  }

  /** What an action table holds under one key: a verb's creators, or one creator. */
  datatype Entry = Group(creators: map<string, Creator>) | Single(creator: Creator)

  type ActionTable = map<string, Entry>

  /** The value `createRequestActions(collection, verb)` returns. */
  function RequestActions(collection: string, verb: string): (r: map<string, Creator>)
    ensures r.Keys == {"request", "success", "fail"}
    ensures forall s :: s in r ==> r[s] == Creator(CreateRequestType(collection, verb, s))
  {
    map["request" := Creator(CreateRequestType(collection, verb, "request")),
        "success" := Creator(CreateRequestType(collection, verb, "success")),
        "fail" := Creator(CreateRequestType(collection, verb, "fail"))]
  }

  /** The value `createReducerActions(collection)` returns. */
  function ReducerActions(collection: string): (r: map<string, Creator>)
    ensures r.Keys == {"clear", "clearErrors"}
    ensures forall s :: s in r ==> r[s] == Creator(CreateReducerType(collection, s))
  {
    map["clear" := Creator(CreateReducerType(collection, "clear")),
        "clearErrors" := Creator(CreateReducerType(collection, "clearErrors"))]
  }

  method CreateRequestActions(collection: string, verb: string) returns (r: map<string, Creator>)
    ensures r == RequestActions(collection, verb)
  {
    r := map[];
    for i := 0 to |RequestSuffixes|
      invariant forall s :: s in r <==> s in RequestSuffixes[..i]
      invariant forall s :: s in r ==> r[s] == Creator(CreateRequestType(collection, verb, s))
    {
      var suffix := RequestSuffixes[i];
      r := r[suffix := Creator(CreateRequestType(collection, verb, suffix))];
    }
    assert RequestSuffixes[..|RequestSuffixes|] == RequestSuffixes;
    assert r.Keys == RequestActions(collection, verb).Keys;
  }

  method CreateReducerActions(collection: string) returns (r: map<string, Creator>)
    ensures r == ReducerActions(collection)
  {
    r := map[];
    for i := 0 to |ReducerSuffixes|
      invariant forall s :: s in r <==> s in ReducerSuffixes[..i]
      invariant forall s :: s in r ==> r[s] == Creator(CreateReducerType(collection, s))
    {
      var suffix := ReducerSuffixes[i];
      r := r[suffix := Creator(CreateReducerType(collection, suffix))];
    }
    assert ReducerSuffixes[..|ReducerSuffixes|] == ReducerSuffixes;
    assert r.Keys == ReducerActions(collection).Keys;
  }

  /** The table the verb loop of `createRestActions` has built after `verbs`. */
  function VerbEntries(collection: string, verbs: seq<string>): (r: ActionTable)
    ensures forall v :: v in r <==> v in verbs
    ensures forall v :: v in r ==> r[v] == Group(RequestActions(collection, v))
    decreases |verbs|
  {
    if |verbs| == 0 then map[]
    else
      var init, last := verbs[..|verbs| - 1], verbs[|verbs| - 1];
      assert forall v :: v in verbs <==> v in init || v == last by {
        assert verbs == init + [last];
      }
      VerbEntries(collection, init)[last := Group(RequestActions(collection, last))]
  }

  /** The reducer creators put over a table: they win a clash of keys, and other keys are kept. */
  function WithReducerEntries(t: ActionTable, collection: string): (r: ActionTable)
    ensures "clear" in r && "clearErrors" in r
    ensures r["clear"] == Single(Creator(CreateReducerType(collection, "clear")))
    ensures r["clearErrors"] == Single(Creator(CreateReducerType(collection, "clearErrors")))
    ensures forall k :: k != "clear" && k != "clearErrors" ==> (k in r <==> k in t)
    ensures forall k :: k in t && k != "clear" && k != "clearErrors" ==> r[k] == t[k]
  {
    t["clear" := Single(Creator(CreateReducerType(collection, "clear")))]
     ["clearErrors" := Single(Creator(CreateReducerType(collection, "clearErrors")))]
  }

  /**
   * The value `createRestActions({collection, verbs})` returns: one group per
   * configured verb, then the reducer actions, which win a clash of keys.
   */
  function RestActions(collection: string, verbs: seq<string>): (r: ActionTable)
    ensures "clear" in r && "clearErrors" in r
    ensures forall v :: v in r <==> v in verbs || v == "clear" || v == "clearErrors"
    ensures forall v :: v in verbs && v != "clear" && v != "clearErrors" ==>
              r[v] == Group(RequestActions(collection, v))
    ensures r["clear"] == Single(Creator(CreateReducerType(collection, "clear")))
    ensures r["clearErrors"] == Single(Creator(CreateReducerType(collection, "clearErrors")))
  {
    WithReducerEntries(VerbEntries(collection, verbs), collection)
  }

  lemma VerbEntriesStep(collection: string, verbs: seq<string>, i: nat)
    requires i < |verbs|
    ensures VerbEntries(collection, verbs[..i + 1])
         == VerbEntries(collection, verbs[..i])[verbs[i] := Group(RequestActions(collection, verbs[i]))]
  {
    assert verbs[..i + 1][..i] == verbs[..i];
  }

  method CreateRestActions(collection: string, verbs: seq<string>) returns (actions: ActionTable)
    ensures actions == RestActions(collection, verbs)
  {
    actions := map[];
    for i := 0 to |verbs|
      invariant actions == VerbEntries(collection, verbs[..i])
    {
      var group := CreateRequestActions(collection, verbs[i]);
      VerbEntriesStep(collection, verbs, i);
      actions := actions[verbs[i] := Group(group)];
    }
    assert verbs[..|verbs|] == verbs;
    var reducerActions := CreateReducerActions(collection);
    actions := actions["clear" := Single(reducerActions["clear"])];
    actions := actions["clearErrors" := Single(reducerActions["clearErrors"])];
  }
}
