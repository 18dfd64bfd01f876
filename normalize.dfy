/** `normalize` (src/normalize.js): entities keyed by id, plus the ids in input order. */
module Normalization {
  import opened Values

  /** The id of an entity: a property name, or a function of the entity. */
  datatype IdAttribute = AttrName(name: string) | AttrFunction(f: Value -> Value)

  function IdOf(d: Value, idAttribute: IdAttribute): Value {
    match idAttribute
    case AttrName(name) => Prop(d, name)
    case AttrFunction(f) => f(d)
  }

  datatype Normalized = Normalized(entities: map<Value, Value>, result: seq<Value>) {
    /** The payload object `{entities, result}` a success action carries. */
    function ToValue(): (v: Value)
      ensures Prop(v, "entities") == Obj(entities)
      ensures Prop(v, "result") == Arr(result)
    {
      Obj(map[Str("entities") := Obj(entities), Str("result") := Arr(result)])
    }
  }

  /** An array is taken as it is; any other input as a one-element array. */
  function Items(data: Value): (items: seq<Value>)
    ensures data.Arr? ==> items == data.items
    ensures !data.Arr? ==> items == [data]
  {
    if data.Arr? then data.items else [data]
  }

  /** One step of the fold: store the entity under its id, push the id. */
  function Step(acc: Normalized, d: Value, idAttribute: IdAttribute): Normalized {
    var id := IdOf(d, idAttribute);
    Normalized(acc.entities[id := d], acc.result + [id])
  }

  /**
   * The fold over `items`. The ids come out in input order, one per item, and
   * the entity keys are exactly those ids.
   */
  function NormalizeItems(items: seq<Value>, idAttribute: IdAttribute): (n: Normalized)
    ensures |n.result| == |items|
    ensures forall i :: 0 <= i < |items| ==> n.result[i] == IdOf(items[i], idAttribute)
    ensures forall id :: id in n.entities <==> id in n.result
    decreases |items|
  {
    if |items| == 0 then Normalized(map[], [])
    else Step(NormalizeItems(items[..|items| - 1], idAttribute), items[|items| - 1], idAttribute)
  }

  function Normalize(data: Value, idAttribute: IdAttribute): Normalized {
    NormalizeItems(Items(data), idAttribute)
  }

  /** The entity stored under an id is the LAST item carrying that id. */
  lemma {:induction false} LastItemWins(items: seq<Value>, idAttribute: IdAttribute, i: nat)
    requires i < |items|
    requires forall j :: i < j < |items| ==> IdOf(items[j], idAttribute) != IdOf(items[i], idAttribute)
    ensures NormalizeItems(items, idAttribute).entities[IdOf(items[i], idAttribute)] == items[i]
    decreases |items|
  {
    if i < |items| - 1 {
      var prefix := items[..|items| - 1];
      LastItemWins(prefix, idAttribute, i);
    }
  }

  /** Every stored entity is one of the items, under that item's id. */
  lemma {:induction false} EntitiesComeFromItems(items: seq<Value>, idAttribute: IdAttribute, id: Value)
    requires id in NormalizeItems(items, idAttribute).entities
    ensures exists i :: 0 <= i < |items| && IdOf(items[i], idAttribute) == id
                        && NormalizeItems(items, idAttribute).entities[id] == items[i]
    decreases |items|
  {
    var last := |items| - 1;
    if IdOf(items[last], idAttribute) != id {
      var prefix := items[..last];
      EntitiesComeFromItems(prefix, idAttribute, id);
      var i :| 0 <= i < |prefix| && IdOf(prefix[i], idAttribute) == id
               && NormalizeItems(prefix, idAttribute).entities[id] == prefix[i];
      assert items[i] == prefix[i];
    }
  }

  /** A single entity normalizes like the one-element array holding it. */
  lemma SingleIsOneElementArray(d: Value, idAttribute: IdAttribute)
    requires !d.Arr?
    ensures Normalize(d, idAttribute) == Normalize(Arr([d]), idAttribute)
  {
  }
}
