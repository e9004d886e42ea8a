/**
 * The representer (moon/core/representer.py): a Python dict to syntax-tree nodes, one
 * tag node per item, built by the hook registered for the exact type of the value. A
 * non-dict is InvalidObjectError, a non-str key is InvalidObjectError, and a value type
 * with no hook gives None, whose missing `represent` is AttributeError. It is a
 * generator: the nodes built before an error are yielded.
 */
module Representer {
  import opened Wrappers
  import opened Errors
  import opened Schemas
  import opened Cursor
  import opened TagHooks
  import opened TypeHooks
  import opened ObjectHook

  /** The nodes of the remaining items, or the exception that stops them. */
  function RepresentItems(reps: map<PyType, Hook>, hooks: seq<TypeHook>, items: seq<(PyValue, PyValue)>): (r: Stream<Node>)
    ensures |r.items| <= |items|
    ensures forall i :: 0 <= i < |r.items| ==>
      items[i].0.PyStr? && TypeOf(items[i].1) in reps
      && Represent(reps[TypeOf(items[i].1)], hooks, items[i].0.s, items[i].1) == Ok(r.items[i])
    ensures r.failure.None? ==> |r.items| == |items|
    ensures r.failure.Some? ==> |r.items| < |items|
    ensures r.failure.Some? ==>
      var (k, v) := items[|r.items|];
      if !k.PyStr? then r.failure == Some(InvalidObjectError)
      else if TypeOf(v) !in reps then r.failure == Some(PyAttributeError)
      else Represent(reps[TypeOf(v)], hooks, k.s, v).Err? && r.failure == Some(Represent(reps[TypeOf(v)], hooks, k.s, v).error)
  {
    if items == [] then Stream([], None)
    else
      var (k, v) := items[0];
      if !k.PyStr? then Stream([], Some(InvalidObjectError))
      else match ResolveRepresenter(reps, TypeOf(v))
        case None => Stream([], Some(PyAttributeError))
        case Some(hook) =>
          match Represent(hook, hooks, k.s, v)
          case Err(e) => Stream([], Some(e))
          case Ok(n) =>
            var rest := RepresentItems(reps, hooks, items[1..]);
            assert forall i :: 1 <= i < |items| ==> items[i] == items[1..][i - 1];
            Stream([n] + rest.items, rest.failure)
  }

  /** `represent`. */
  function Nodes(reps: map<PyType, Hook>, hooks: seq<TypeHook>, obj: PyValue): (r: Stream<Node>)
    ensures !obj.PyDict? ==> r == Stream([], Some(InvalidObjectError))
  {
    if !obj.PyDict? then Stream([], Some(InvalidObjectError)) else RepresentItems(reps, hooks, obj.items)
  }

  /** Every field of an object has a text under the type hooks. */
  predicate FieldsRepresentable(hooks: seq<TypeHook>, fs: Fields) {
    forall j :: 0 <= j < |fs| ==> RepresentType(hooks, fs[j].1).Ok?
  }

  predicate Representable(hooks: seq<TypeHook>, d: Doc) {
    forall i :: 0 <= i < |d| ==> FieldsRepresentable(hooks, d[i].1)
  }

  /**
   * A document whose dict type has a hook is represented in full exactly when all of
   * its values have a text: one node per object, under the dict hook's tag.
   */
  lemma RepresentDocument(reps: map<PyType, Hook>, hooks: seq<TypeHook>, d: Doc)
    requires DictType in reps
    ensures Nodes(reps, hooks, DocToPy(d)).failure.None? <==> Representable(hooks, d)
    ensures Representable(hooks, d) ==>
      var r := Nodes(reps, hooks, DocToPy(d));
      |r.items| == |d| && forall i :: 0 <= i < |d| ==>
        r.items[i] == Represent(reps[DictType], hooks, d[i].0, FieldsToPy(d[i].1)).value
  {
    RepresentObjects(reps, hooks, DocToPy(d).items, d);
  }

  /** An object is represented exactly when all of its values have a text. */
  lemma RepresentFields(hooks: seq<TypeHook>, fs: Fields)
    ensures RepresentPairs(hooks, FieldsToPy(fs).items).Ok? <==> FieldsRepresentable(hooks, fs)
  {
    assert forall j :: 0 <= j < |fs| ==> FieldsToPy(fs).items[j] == (PyStr(fs[j].0), fs[j].1);
  }

  lemma {:induction false} RepresentObjects(reps: map<PyType, Hook>, hooks: seq<TypeHook>, items: seq<(PyValue, PyValue)>, d: Doc)
    requires DictType in reps
    requires |items| == |d| && forall i :: 0 <= i < |d| ==> items[i] == (PyStr(d[i].0), FieldsToPy(d[i].1))
    ensures RepresentItems(reps, hooks, items).failure.None? <==> Representable(hooks, d)
    decreases |d|
  {
    if d != [] {
      assert forall i :: 0 <= i < |d| - 1 ==> items[1..][i] == (PyStr(d[1..][i].0), FieldsToPy(d[1..][i].1));
      RepresentObjects(reps, hooks, items[1..], d[1..]);
      RepresentHead(reps, hooks, items, d[0]);
      RepresentableSplit(hooks, d);
    }
  }

  /** The first item is represented exactly when its fields are; then the rest decides. */
  lemma RepresentHead(reps: map<PyType, Hook>, hooks: seq<TypeHook>, items: seq<(PyValue, PyValue)>, obj: (string, Fields))
    requires DictType in reps
    requires items != [] && items[0] == (PyStr(obj.0), FieldsToPy(obj.1))
    ensures RepresentItems(reps, hooks, items).failure.None? <==>
      FieldsRepresentable(hooks, obj.1) && RepresentItems(reps, hooks, items[1..]).failure.None?
  {
    RepresentFields(hooks, obj.1);
    RepresentItemsHead(reps, hooks, items);
  }

  /** A first item with a str key and a hooked type: the items are represented when it is and the rest are. */
  lemma RepresentItemsHead(reps: map<PyType, Hook>, hooks: seq<TypeHook>, items: seq<(PyValue, PyValue)>)
    requires items != [] && items[0].0.PyStr? && TypeOf(items[0].1) in reps
    ensures RepresentItems(reps, hooks, items).failure.None? <==>
      Represent(reps[TypeOf(items[0].1)], hooks, items[0].0.s, items[0].1).Ok? && RepresentItems(reps, hooks, items[1..]).failure.None?
  {
  }

  lemma RepresentableSplit(hooks: seq<TypeHook>, d: Doc)
    requires d != []
    ensures Representable(hooks, d) <==> FieldsRepresentable(hooks, d[0].1) && Representable(hooks, d[1..])
  {
    assert forall i :: 1 <= i < |d| ==> d[i] == d[1..][i - 1];
  }
}
