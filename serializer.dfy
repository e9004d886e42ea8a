/**
 * The serializer (moon/core/serializer.py): syntax-tree nodes to events. Each node must
 * be a tag node whose tag is registered; its hook turns it into events, and a final
 * document_end follows the last one. The nodes come from the representer, a
 * generator, whose exception, if it raises, passes through after the events so far.
 */
module Serializer {
  import opened Wrappers
  import opened Errors
  import opened Schemas
  import opened Cursor
  import opened TagHooks
  import opened ObjectHook

  /** The events of the remaining nodes, then document_end, or the exception that stops them. */
  function SerializeNodes(tags: map<string, Hook>, ns: seq<Node>, failure: Option<ErrorKind>): (r: Stream<Event>)
    decreases |ns|
  {
    if ns == [] then
      if failure.Some? then Stream([], failure) else Stream([DocumentEnd], None)
    else
      var n := ns[0];
      if !n.TagNode? || ResolveTag(tags, n.tag).None? then Stream([], Some(SerializationError))
      else
        var e := Serialize(tags[n.tag], n);
        if e.failure.Some? then e
        else
          var rest := SerializeNodes(tags, ns[1..], failure);
          Stream(e.items + rest.items, rest.failure)
  }

  /** `serialize` over the representer's stream. */
  function Events(tags: map<string, Hook>, s: Stream<Node>): Stream<Event> {
    SerializeNodes(tags, s.items, s.failure)
  }

  /** Plain object nodes whose tags are registered: the nodes the loader builds and the dumper represents. */
  predicate Serializable(tags: map<string, Hook>, ns: seq<Node>) {
    forall i :: 0 <= i < |ns| ==> PlainObject(ns[i]) && ns[i].tag in tags
  }

  /** The nodes `serialize` gets through: tag nodes under registered tags whose children it can serialize. */
  predicate Accepted(tags: map<string, Hook>, ns: seq<Node>) {
    forall i :: 0 <= i < |ns| ==> ns[i].TagNode? && ns[i].tag in tags && SerializablePairs(ns[i].children)
  }

  /** The events of a document of serializable nodes: each object's events in turn, then document_end. */
  function DocumentEvents(ns: seq<Node>): (es: seq<Event>)
    requires forall i :: 0 <= i < |ns| ==> PlainObject(ns[i])
    ensures |es| > 0 && es[|es| - 1] == DocumentEnd
  {
    if ns == [] then [DocumentEnd]
    else
      assert PlainObject(ns[0]);
      assert forall i :: 1 <= i < |ns| ==> ns[i] == ns[1..][i - 1];
      ObjectEvents(ns[0].tag, ns[0]) + DocumentEvents(ns[1..])
  }

  /**
   * Serialization runs to its end exactly on accepted nodes from a representer that
   * finished. On plain objects it yields the document's events; a pair whose value is a
   * pair gets through too, its value event carrying a node for the emitter to refuse.
   */
  lemma {:induction false} SerializeSucceeds(tags: map<string, Hook>, ns: seq<Node>, failure: Option<ErrorKind>)
    requires FiledByTag(tags)
    ensures SerializeNodes(tags, ns, failure).failure.None? <==> failure.None? && Accepted(tags, ns)
    ensures failure.None? && Serializable(tags, ns) ==> SerializeNodes(tags, ns, failure).items == DocumentEvents(ns)
    decreases |ns|
  {
    if ns != [] {
      var n := ns[0];
      SplitFirst(tags, ns);
      if n.TagNode? && n.tag in tags {
        assert tags[n.tag].tag == n.tag;
        if SerializablePairs(n.children) {
          SerializeSucceeds(tags, ns[1..], failure);
          SerializeFirst(tags, ns, failure);
        }
      }
    }
  }

  /** Acceptance and serializability of a non-empty sequence: its first node's, and the rest's. */
  lemma SplitFirst(tags: map<string, Hook>, ns: seq<Node>)
    requires ns != []
    ensures Accepted(tags, ns) <==>
              ns[0].TagNode? && ns[0].tag in tags && SerializablePairs(ns[0].children) && Accepted(tags, ns[1..])
    ensures Serializable(tags, ns) <==> PlainObject(ns[0]) && ns[0].tag in tags && Serializable(tags, ns[1..])
  {
    assert forall i :: 1 <= i < |ns| ==> ns[i] == ns[1..][i - 1];
  }

  /** A first node that its hook serializes: its events, then the rest's. */
  lemma SerializeFirst(tags: map<string, Hook>, ns: seq<Node>, failure: Option<ErrorKind>)
    requires FiledByTag(tags) && ns != [] && ns[0].TagNode? && ns[0].tag in tags && SerializablePairs(ns[0].children)
    ensures SerializeNodes(tags, ns, failure)
              == Stream(Serialize(tags[ns[0].tag], ns[0]).items + SerializeNodes(tags, ns[1..], failure).items,
                        SerializeNodes(tags, ns[1..], failure).failure)
  {
    assert tags[ns[0].tag].tag == ns[0].tag;
  }

  /** Plain objects under registered tags are accepted. */
  lemma SerializableAccepted(tags: map<string, Hook>, ns: seq<Node>)
    requires Serializable(tags, ns)
    ensures Accepted(tags, ns)
  {
  }

  /**
   * The events from c on are a non-empty document: they open with the first object,
   * which ends at the returned index, and the remaining objects' document follows.
   */
  lemma DocumentHead(tags: map<string, Hook>, es: seq<Event>, c: nat, ns: seq<Node>) returns (j: nat)
    requires DocumentAt(tags, es, c, ns) == true && ns != []
    ensures PlainObject(ns[0]) && ns[0].tag in tags && ObjectAt(es, c, ns[0].tag, ns[0])
    ensures j == c + 2 * |ns[0].children| + 2
    ensures DocumentAt(tags, es, j + 1, ns[1..]) == true
  {
    var n := ns[0];
    assert PlainObject(n);
    assert forall i :: 1 <= i < |ns| ==> ns[i] == ns[1..][i - 1];
    var oe := ObjectEvents(n.tag, n);
    var tail := DocumentEvents(ns[1..]);
    assert DocumentEvents(ns) == oe + tail;
    assert |oe| == 2 * |n.children| + 3;
    assert es[c..c + |oe|] == oe by {
      assert es[c..c + |oe|] == es[c..][..|oe|];
    }
    ObjectAtSlice(es, c, n.tag, n);
    j := c + 2 * |n.children| + 2;
    assert es[j + 1..] == es[c..][|oe|..];
  }

  /** The events from c on are the document of the serializable nodes ns. */
  predicate DocumentAt(tags: map<string, Hook>, es: seq<Event>, c: nat, ns: seq<Node>) {
    Serializable(tags, ns) && c <= |es| && es[c..] == DocumentEvents(ns)
  }

  /** An empty document is its document_end alone. */
  lemma DocumentEnds(tags: map<string, Hook>, es: seq<Event>, c: nat, ns: seq<Node>)
    requires DocumentAt(tags, es, c, ns) == true
    ensures c < |es| && (es[c] == DocumentEnd <==> ns == [])
    ensures ns != [] ==> es[c] == TagStart(ns[0].tag)
  {
    if ns != [] {
      var j := DocumentHead(tags, es, c, ns);
    }
  }

  /** The events of serializable nodes without the closing document_end: what `serialize` yields before a representer error. */
  function ObjectsEvents(ns: seq<Node>): seq<Event>
    requires forall i :: 0 <= i < |ns| ==> PlainObject(ns[i])
    decreases |ns|
  {
    if ns == [] then []
    else
      assert PlainObject(ns[0]);
      assert forall i :: 1 <= i < |ns| ==> ns[i] == ns[1..][i - 1];
      ObjectEvents(ns[0].tag, ns[0]) + ObjectsEvents(ns[1..])
  }

  /**
   * A representer that stops with an exception after serializable nodes: their events
   * pass through, without document_end, and the exception follows them.
   */
  lemma {:induction false} SerializeInterrupted(tags: map<string, Hook>, ns: seq<Node>, f: ErrorKind)
    requires FiledByTag(tags) && Serializable(tags, ns)
    ensures SerializeNodes(tags, ns, Some(f)) == Stream(ObjectsEvents(ns), Some(f))
    decreases |ns|
  {
    if ns != [] {
      SplitFirst(tags, ns);
      SerializeInterrupted(tags, ns[1..], f);
      SerializeFirst(tags, ns, Some(f));
    }
  }

  /** The events from c on are those of the serializable nodes ns, with no document_end. */
  predicate ObjectsAt(tags: map<string, Hook>, es: seq<Event>, c: nat, ns: seq<Node>) {
    Serializable(tags, ns) && c <= |es| && es[c..] == ObjectsEvents(ns)
  }

  /** The first of the objects from c: it ends at the returned index, and the other objects follow it. */
  lemma ObjectsHead(tags: map<string, Hook>, es: seq<Event>, c: nat, ns: seq<Node>) returns (j: nat)
    requires ObjectsAt(tags, es, c, ns) == true && ns != []
    ensures PlainObject(ns[0]) && ns[0].tag in tags && ObjectAt(es, c, ns[0].tag, ns[0])
    ensures j == c + 2 * |ns[0].children| + 2
    ensures ObjectsAt(tags, es, j + 1, ns[1..]) == true
  {
    var n := ns[0];
    SplitFirst(tags, ns);
    var oe := ObjectEvents(n.tag, n);
    assert ObjectsEvents(ns) == oe + ObjectsEvents(ns[1..]);
    assert |oe| == 2 * |n.children| + 3;
    assert es[c..c + |oe|] == oe by {
      assert es[c..c + |oe|] == es[c..][..|oe|];
    }
    ObjectAtSlice(es, c, n.tag, n);
    j := c + 2 * |n.children| + 2;
    assert es[j + 1..] == es[c..][|oe|..];
  }

  /** Events per document: tag_start, ident and tag_end per object, two per pair, and document_end. */
  function EventCount(ns: seq<Node>): nat
    decreases |ns|
  {
    if ns == [] then 1
    else 3 + (if ns[0].TagNode? then 2 * |ns[0].children| else 0) + EventCount(ns[1..])
  }

  /** One object's events open a construct under its tag and close it again. */
  lemma ObjectEventsNest(tag: string, n: Node)
    requires PlainObject(n)
    ensures |ObjectEvents(tag, n)| == 3 + 2 * |n.children|
    ensures Track(ObjectEvents(tag, n), None) == Some(None)
  {
    var pe := PairEvents(n.children);
    forall i | 0 <= i < |pe| ensures HookEvent(pe[i]) {
      assert pe[i] == (if i % 2 == 0 then Key(n.children[i / 2].key) else Value(n.children[i / 2].val.text));
    }
    var head := [TagStart(tag), Ident(n.name)];
    assert head[1..] == [Ident(n.name)] && [Ident(n.name)][1..] == [];
    assert Track([Ident(n.name)], Some(tag)) == Some(Some(tag));
    assert Track(head, None) == Some(Some(tag));
    TrackHookEvents(pe, tag);
    TrackAppend(head, pe, None);
    TrackAppend(head + pe, [TagEnd(tag)], None);
  }

  /**
   * A document's events: EventCount of them, document_end exactly once and last, and
   * before it each object's construct opened and closed under its own tag.
   */
  lemma {:induction false} DocumentEventsShape(ns: seq<Node>)
    requires forall i :: 0 <= i < |ns| ==> PlainObject(ns[i])
    ensures var es := DocumentEvents(ns);
      && |es| == EventCount(ns)
      && Track(es[..|es| - 1], None) == Some(None)
      && forall i :: 0 <= i < |es| ==> (es[i] == DocumentEnd <==> i == |es| - 1)
    decreases |ns|
  {
    var es := DocumentEvents(ns);
    if ns != [] {
      assert PlainObject(ns[0]);
      forall i | 0 <= i < |ns| - 1
        ensures PlainObject(ns[1..][i])
      {
        assert ns[1..][i] == ns[i + 1];
      }
      var oe := ObjectEvents(ns[0].tag, ns[0]);
      var rest := DocumentEvents(ns[1..]);
      DocumentEventsShape(ns[1..]);
      ObjectEventsNest(ns[0].tag, ns[0]);
      assert es == oe + rest;
      BodyCons(oe, rest);
    } else {
      assert es[..|es| - 1] == [];
    }
    EndOnlyLast(es);
  }

  /** Closed events followed by a closed body and its last event: the whole body is closed. */
  lemma BodyCons(a: seq<Event>, b: seq<Event>)
    requires b != [] && Track(a, None) == Some(None) && Track(b[..|b| - 1], None) == Some(None)
    ensures Track((a + b)[..|a + b| - 1], None) == Some(None)
  {
    assert (a + b)[..|a + b| - 1] == a + b[..|b| - 1];
    TrackAppend(a, b[..|b| - 1], None);
  }

  /** Events ending with document_end, whose events before it track: document_end occurs only last. */
  lemma EndOnlyLast(es: seq<Event>)
    requires es != [] && es[|es| - 1] == DocumentEnd && Track(es[..|es| - 1], None).Some?
    ensures forall i :: 0 <= i < |es| ==> (es[i] == DocumentEnd <==> i == |es| - 1)
  {
    var body := es[..|es| - 1];
    TrackNoEnd(body, None);
    forall i | 0 <= i < |es| - 1 ensures es[i] != DocumentEnd {
      assert es[i] == body[i];
    }
  }
}
