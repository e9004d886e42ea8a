/**
 * EventEmitter (moon/core/emitter.py): events to text chunks. At each tag_start the
 * hook registered for the tag writes one construct; a blank line separates it from a
 * following construct, and document_end ends the text. StopIteration, from running
 * out of events, becomes EmitterError; any other exception of the producer passes
 * through.
 */
module Emitter {
  import opened Wrappers
  import opened Errors
  import opened Schemas
  import opened Cursor
  import opened TagHooks
  import opened ObjectHook
  import opened Serializer

  /** The loop of `EventEmitter.__iter__` with the cursor on event c and `chunks` yielded so far. */
  function EmitFrom(es: seq<Event>, failure: Option<ErrorKind>, tags: map<string, Hook>, c: nat, chunks: seq<string>)
    : (r: Stream<string>)
    requires c < |es|
    ensures |chunks| <= |r.items| && r.items[..|chunks|] == chunks
    decreases |es| - c
  {
    var e := es[c];
    if e.DocumentEnd? then Stream(chunks, None)
    else if !e.TagStart? then Stream(chunks, Some(EmitterError))
    else if ResolveTag(tags, e.tag).None? then Stream(chunks, Some(PyAttributeError))
    else
      var k := Emit(es, failure, tags[e.tag], c);
      if k.Err? then Stream(chunks, Some(k.error))
      else
        var out := chunks + [k.value.0];
        var j := k.value.1;
        if j + 1 == |es| then Stream(out, Some(Exhausted(failure, EmitterError)))
        else if es[j + 1].TagStart? then
          var r := EmitFrom(es, failure, tags, j + 1, out + ["\n"]);
          assert r.items[..|chunks|] == r.items[..|out + ["\n"]|][..|chunks|];
          r
        else if es[j + 1].DocumentEnd? then Stream(out, None)
        else Stream(out, Some(EmitterError))
  }

  /** The chunks the emitter yields over a producer's events, and how it stops. */
  function Chunks(tags: map<string, Hook>, s: Stream<Event>): Stream<string> {
    if s.items == [] then Stream([], Some(Exhausted(s.failure, EmitterError)))
    else EmitFrom(s.items, s.failure, tags, 0, [])
  }

  /** `EventEmitter.__iter__` run to its end on a fresh cursor over the events. */
  method EmitStream(c: Streamer<Event>, failure: Option<ErrorKind>, tags: map<string, Hook>) returns (r: Stream<string>)
    requires c.Valid() && c.Fresh()
    modifies c
    ensures r == Chunks(tags, Stream(c.src, failure))
  {
    var first := c.Read();
    if first.None? {
      return Stream([], Some(Exhausted(failure, EmitterError)));
    }
    var cur := 0;
    var out := [];
    while true
      invariant c.Valid() && c.At(cur)
      invariant Resumes(c.src, failure, tags, cur, out) == true
      decreases |c.src| - cur
    {
      var done;
      done, r, cur, out := ChunkRound(c, failure, tags, cur, out);
      if done {
        return;
      }
    }
  }

  /** One pass of the loop: emit the construct at event `cur`, then look at the event after it. */
  method ChunkRound(c: Streamer<Event>, failure: Option<ErrorKind>, tags: map<string, Hook>, cur: nat, out: seq<string>)
    returns (done: bool, r: Stream<string>, cur': nat, out': seq<string>)
    requires c.Valid() && c.At(cur) && Resumes(c.src, failure, tags, cur, out) == true
    modifies c
    ensures done ==> r == Chunks(tags, Stream(c.src, failure))
    ensures !done ==> cur < cur' && c.Valid() && c.At(cur') && Resumes(c.src, failure, tags, cur', out') == true
  {
    cur', out' := cur, out;
    var event := c.Read();
    assert event.value == c.src[cur];
    ChunkStops(c.src, failure, tags, cur, out);
    if event.value.DocumentEnd? {
      return true, Stream(out, None), cur', out';
    }
    if !event.value.TagStart? {
      return true, Stream(out, Some(EmitterError)), cur', out';
    }
    var hook := ResolveTag(tags, event.value.tag);
    if hook.None? {
      return true, Stream(out, Some(PyAttributeError)), cur', out';
    }
    var k := EmitAt(c, failure, hook.value, cur);
    if k.Err? {
      return true, Stream(out, Some(k.error)), cur', out';
    }
    done, r, cur', out' := ChunkAfter(c, failure, tags, cur, out, k.value.0, k.value.1);
  }

  /** The rest of a pass, once the construct at `cur` is written as `text` up to event j: look at the event after it. */
  method ChunkAfter(c: Streamer<Event>, failure: Option<ErrorKind>, tags: map<string, Hook>, ghost cur: nat, out: seq<string>,
                    text: string, j: nat)
    returns (done: bool, r: Stream<string>, cur': nat, out': seq<string>)
    requires c.Valid() && c.At(j) && Resumes(c.src, failure, tags, cur, out) == true
    requires c.src[cur].TagStart? && c.src[cur].tag in tags && Emit(c.src, failure, tags[c.src[cur].tag], cur) == Ok((text, j))
    modifies c
    ensures done ==> r == Chunks(tags, Stream(c.src, failure))
    ensures !done ==> cur' == j + 1 && c.Valid() && c.At(cur') && Resumes(c.src, failure, tags, cur', out') == true
  {
    ChunkEmitted(c.src, failure, tags, cur, out, text, j);
    cur', out' := j, out + [text];
    var peeked := c.Peek();
    if peeked.None? {
      return true, Stream(out', Some(Exhausted(failure, EmitterError))), cur', out';
    }
    if peeked.value.TagStart? {
      out' := out' + ["\n"];
    } else if peeked.value.DocumentEnd? {
      return true, Stream(out', None), cur', out';
    } else {
      return true, Stream(out', Some(EmitterError)), cur', out';
    }
    ChunkMoves(c.src, failure, tags, cur, out, text, j);
    var _ := c.Next();
    cur' := j + 1;
    done, r := false, Stream(out', None);
  }

  /** The emitter has reached event c with `chunks` yielded: the rest is the loop from c. */
  predicate Resumes(es: seq<Event>, failure: Option<ErrorKind>, tags: map<string, Hook>, c: nat, chunks: seq<string>) {
    c < |es| && Chunks(tags, Stream(es, failure)) == EmitFrom(es, failure, tags, c, chunks)
  }

  /** The three ways the loop stops at event c before a construct is written. */
  lemma ChunkStops(es: seq<Event>, failure: Option<ErrorKind>, tags: map<string, Hook>, c: nat, chunks: seq<string>)
    requires Resumes(es, failure, tags, c, chunks) == true
    ensures es[c].DocumentEnd? ==> Chunks(tags, Stream(es, failure)) == Stream(chunks, None)
    ensures !es[c].DocumentEnd? && !es[c].TagStart? ==> Chunks(tags, Stream(es, failure)) == Stream(chunks, Some(EmitterError))
    ensures es[c].TagStart? && ResolveTag(tags, es[c].tag).None? ==>
      Chunks(tags, Stream(es, failure)) == Stream(chunks, Some(PyAttributeError))
    ensures es[c].TagStart? && es[c].tag in tags && Emit(es, failure, tags[es[c].tag], c).Err? ==>
      Chunks(tags, Stream(es, failure)) == Stream(chunks, Some(Emit(es, failure, tags[es[c].tag], c).error))
  {
  }

  /** After a construct is written: how the loop stops on the event that follows it. */
  lemma ChunkEmitted(es: seq<Event>, failure: Option<ErrorKind>, tags: map<string, Hook>, c: nat, chunks: seq<string>,
                     text: string, j: nat)
    requires Resumes(es, failure, tags, c, chunks) == true
    requires es[c].TagStart? && es[c].tag in tags && Emit(es, failure, tags[es[c].tag], c) == Ok((text, j))
    ensures j < |es|
    ensures j + 1 == |es| ==> Chunks(tags, Stream(es, failure)) == Stream(chunks + [text], Some(Exhausted(failure, EmitterError)))
    ensures j + 1 < |es| && es[j + 1].DocumentEnd? ==> Chunks(tags, Stream(es, failure)) == Stream(chunks + [text], None)
    ensures j + 1 < |es| && !es[j + 1].DocumentEnd? && !es[j + 1].TagStart? ==>
      Chunks(tags, Stream(es, failure)) == Stream(chunks + [text], Some(EmitterError))
  {
  }

  /** A tag_start after the construct: the loop goes on there, with the separating blank line yielded. */
  lemma ChunkMoves(es: seq<Event>, failure: Option<ErrorKind>, tags: map<string, Hook>, c: nat, chunks: seq<string>,
                   text: string, j: nat)
    requires Resumes(es, failure, tags, c, chunks) == true
    requires es[c].TagStart? && es[c].tag in tags && Emit(es, failure, tags[es[c].tag], c) == Ok((text, j))
    requires j + 1 < |es| && es[j + 1].TagStart?
    ensures Resumes(es, failure, tags, j + 1, chunks + [text] + ["\n"]) == true
  {
  }

  /** The chunks of a document: each object's text, with a blank-line chunk between two objects. */
  function DocumentChunks(ns: seq<Node>): (cs: seq<string>)
    requires forall i :: 0 <= i < |ns| ==> PlainObject(ns[i])
    decreases |ns|
  {
    if ns == [] then []
    else
      assert PlainObject(ns[0]);
      assert forall i :: 1 <= i < |ns| ==> ns[i] == ns[1..][i - 1];
      if |ns| == 1 then [ObjectText(ns[0].tag, ns[0])]
      else [ObjectText(ns[0].tag, ns[0]), "\n"] + DocumentChunks(ns[1..])
  }

  /**
   * Serialize then emit: the events of a document of serializable nodes are written as
   * the objects' texts separated by one blank line; document_end alone writes nothing.
   */
  lemma EmitDocument(tags: map<string, Hook>, ns: seq<Node>, failure: Option<ErrorKind>)
    requires FiledByTag(tags) && Serializable(tags, ns)
    ensures Chunks(tags, Stream(DocumentEvents(ns), failure)) == Stream(DocumentChunks(ns), None)
  {
    var es := DocumentEvents(ns);
    assert es[0..] == es;
    EmitDocumentFrom(es, failure, tags, 0, [], ns);
    assert [] + DocumentChunks(ns) == DocumentChunks(ns);
  }

  lemma {:induction false} EmitDocumentFrom(es: seq<Event>, failure: Option<ErrorKind>, tags: map<string, Hook>, c: nat,
                                            chunks: seq<string>, ns: seq<Node>)
    requires FiledByTag(tags) && DocumentAt(tags, es, c, ns) == true
    ensures EmitsDocument(es, failure, tags, c, chunks, ns) == true
    decreases |ns|
  {
    if |ns| <= 1 {
      EmitShortDocument(es, failure, tags, c, chunks, ns);
    } else {
      var j, head := EmitFirstOfMore(es, failure, tags, c, chunks, ns);
      EmitDocumentFrom(es, failure, tags, j + 1, chunks + head, ns[1..]);
      EmitChain(es, failure, tags, c, chunks, j + 1, chunks + head, ns, ns[1..]);
    }
  }

  /** A document of at most one object, from event c: nothing or that object's text, and the emitter stops. */
  lemma EmitShortDocument(es: seq<Event>, failure: Option<ErrorKind>, tags: map<string, Hook>, c: nat,
                          chunks: seq<string>, ns: seq<Node>)
    requires FiledByTag(tags) && DocumentAt(tags, es, c, ns) == true && |ns| <= 1
    ensures EmitsDocument(es, failure, tags, c, chunks, ns) == true
  {
    DocumentEnds(tags, es, c, ns);
    if ns == [] {
      assert chunks + DocumentChunks([]) == chunks;
    } else {
      var j := DocumentHead(tags, es, c, ns);
      DocumentEnds(tags, es, j + 1, ns[1..]);
      EmitLastObject(es, failure, tags, c, chunks, ns, j);
    }
  }

  /** The first object of a longer document, from event c: its text and a blank line, then the rest from event j + 1. */
  lemma EmitFirstOfMore(es: seq<Event>, failure: Option<ErrorKind>, tags: map<string, Hook>, c: nat,
                        chunks: seq<string>, ns: seq<Node>) returns (j: nat, head: seq<string>)
    requires FiledByTag(tags) && DocumentAt(tags, es, c, ns) == true && |ns| > 1
    ensures DocumentAt(tags, es, j + 1, ns[1..]) == true
    ensures EmitsThrough(es, failure, tags, c, chunks, j + 1, chunks + head) == true
    ensures chunks + head + DocumentChunks(ns[1..]) == chunks + DocumentChunks(ns)
  {
    j := DocumentHead(tags, es, c, ns);
    DocumentEnds(tags, es, j + 1, ns[1..]);
    head := MoreChunks(tags, chunks, ns);
    EmitObjectThenMore(es, failure, tags, c, chunks, ns[0], j);
  }

  /** From event c on, the emitter writes the document of ns after `chunks` and stops normally. */
  predicate EmitsDocument(es: seq<Event>, failure: Option<ErrorKind>, tags: map<string, Hook>, c: nat,
                          chunks: seq<string>, ns: seq<Node>)
    requires forall i :: 0 <= i < |ns| ==> PlainObject(ns[i])
  {
    c < |es| && EmitFrom(es, failure, tags, c, chunks) == Stream(chunks + DocumentChunks(ns), None)
  }

  /** The last object of a document, at c and ending at j, is written as its text, and the emitter stops. */
  lemma EmitLastObject(es: seq<Event>, failure: Option<ErrorKind>, tags: map<string, Hook>, c: nat,
                       chunks: seq<string>, ns: seq<Node>, j: nat)
    requires FiledByTag(tags) && Serializable(tags, ns) && |ns| == 1
    requires ObjectAt(es, c, ns[0].tag, ns[0]) && j == c + 2 * |ns[0].children| + 2 && j + 1 < |es|
    requires es[j + 1] == DocumentEnd
    ensures EmitsDocument(es, failure, tags, c, chunks, ns) == true
  {
    EmitSerialized(es, failure, tags[ns[0].tag], c, ns[0]);
  }

  /** An object followed by more: its text and a blank line are yielded, and the emitter goes on at the next object. */
  lemma EmitObjectThenMore(es: seq<Event>, failure: Option<ErrorKind>, tags: map<string, Hook>, c: nat,
                           chunks: seq<string>, n: Node, j: nat)
    requires FiledByTag(tags) && PlainObject(n) && n.tag in tags && ObjectAt(es, c, n.tag, n)
    requires j == c + 2 * |n.children| + 2 && j + 1 < |es| && es[j + 1].TagStart?
    ensures EmitsThrough(es, failure, tags, c, chunks, j + 1, chunks + [ObjectText(n.tag, n), "\n"]) == true
  {
    EmitSerialized(es, failure, tags[n.tag], c, n);
    EmitFromStep(es, failure, tags, c, chunks, ObjectText(n.tag, n), j);
  }

  /** The loop after a construct written at c and followed by a tag_start: its text and a blank line are yielded. */
  lemma EmitFromStep(es: seq<Event>, failure: Option<ErrorKind>, tags: map<string, Hook>, c: nat, chunks: seq<string>,
                     text: string, j: nat)
    requires c < |es| && es[c].TagStart? && es[c].tag in tags && Emit(es, failure, tags[es[c].tag], c) == Ok((text, j))
    requires j + 1 < |es| && es[j + 1].TagStart?
    ensures EmitsThrough(es, failure, tags, c, chunks, j + 1, chunks + [text, "\n"]) == true
  {
    assert chunks + [text] + ["\n"] == chunks + [text, "\n"];
  }

  /** The chunks of a document of more than one object: the first object's text, a blank line, then the rest. */
  lemma MoreChunks(tags: map<string, Hook>, chunks: seq<string>, ns: seq<Node>) returns (head: seq<string>)
    requires Serializable(tags, ns) && |ns| > 1
    ensures Serializable(tags, ns[1..]) && PlainObject(ns[0])
    ensures head == [ObjectText(ns[0].tag, ns[0]), "\n"]
    ensures chunks + head + DocumentChunks(ns[1..]) == chunks + DocumentChunks(ns)
  {
    assert forall i :: 1 <= i < |ns| ==> ns[i] == ns[1..][i - 1];
    head := [ObjectText(ns[0].tag, ns[0]), "\n"];
    var rest := DocumentChunks(ns[1..]);
    assert DocumentChunks(ns) == head + rest;
    Regroup(chunks, head, rest);
  }

  /**
   * Emit over the events of a producer that stopped with an exception after serializable
   * nodes: each object's text is yielded, with a blank line between two, and the peek
   * after the last object raises the producer's exception.
   */
  lemma EmitInterrupted(tags: map<string, Hook>, ns: seq<Node>, f: ErrorKind)
    requires FiledByTag(tags) && Serializable(tags, ns)
    ensures Chunks(tags, Stream(ObjectsEvents(ns), Some(f))) == Stream(DocumentChunks(ns), Some(f))
  {
    var es := ObjectsEvents(ns);
    if ns != [] {
      assert es[0..] == es;
      EmitInterruptedFrom(es, f, tags, 0, [], ns);
      assert [] + DocumentChunks(ns) == DocumentChunks(ns);
    }
  }

  lemma {:induction false} EmitInterruptedFrom(es: seq<Event>, f: ErrorKind, tags: map<string, Hook>, c: nat,
                                               chunks: seq<string>, ns: seq<Node>)
    requires FiledByTag(tags) && ObjectsAt(tags, es, c, ns) == true && ns != []
    ensures c < |es| && EmitFrom(es, Some(f), tags, c, chunks) == Stream(chunks + DocumentChunks(ns), Some(f))
    decreases |ns|
  {
    var j := ObjectsHead(tags, es, c, ns);
    if |ns| == 1 {
      EmitLastInterrupted(tags, es, f, c, chunks, ns, j);
    } else {
      var k := ObjectsHead(tags, es, j + 1, ns[1..]);
      var head := MoreChunks(tags, chunks, ns);
      EmitObjectThenMore(es, Some(f), tags, c, chunks, ns[0], j);
      EmitInterruptedFrom(es, f, tags, j + 1, chunks + head, ns[1..]);
    }
  }

  /** The last object before the producer's exception: its text, and then the exception. */
  lemma EmitLastInterrupted(tags: map<string, Hook>, es: seq<Event>, f: ErrorKind, c: nat, chunks: seq<string>,
                            ns: seq<Node>, j: nat)
    requires FiledByTag(tags) && Serializable(tags, ns) && |ns| == 1
    requires ObjectAt(es, c, ns[0].tag, ns[0]) && j == c + 2 * |ns[0].children| + 2
    requires ObjectsAt(tags, es, j + 1, ns[1..]) == true
    ensures EmitFrom(es, Some(f), tags, c, chunks) == Stream(chunks + DocumentChunks(ns), Some(f))
  {
    assert ns[1..] == [];
    assert j + 1 == |es|;
    EmitSerialized(es, Some(f), tags[ns[0].tag], c, ns[0]);
  }

  lemma Regroup<T>(a: seq<T>, b: seq<T>, c: seq<T>)
    ensures a + b + c == a + (b + c)
  {
  }

  /** The emitter goes from event c with `chunks` to event d with `chunks'` yielded. */
  predicate EmitsThrough(es: seq<Event>, failure: Option<ErrorKind>, tags: map<string, Hook>, c: nat, chunks: seq<string>,
                         d: nat, chunks': seq<string>) {
    c < |es| && d < |es| && EmitFrom(es, failure, tags, c, chunks) == EmitFrom(es, failure, tags, d, chunks')
  }

  lemma EmitChain(es: seq<Event>, failure: Option<ErrorKind>, tags: map<string, Hook>, c: nat, chunks: seq<string>,
                  d: nat, chunks': seq<string>, ns: seq<Node>, ns': seq<Node>)
    requires forall i :: 0 <= i < |ns| ==> PlainObject(ns[i])
    requires forall i :: 0 <= i < |ns'| ==> PlainObject(ns'[i])
    requires EmitsThrough(es, failure, tags, c, chunks, d, chunks') == true
    requires EmitsDocument(es, failure, tags, d, chunks', ns') == true
    requires chunks' + DocumentChunks(ns') == chunks + DocumentChunks(ns)
    ensures EmitsDocument(es, failure, tags, c, chunks, ns) == true
  {
  }

  // ---------------------------------------------------------------- a pair whose value is a pair

  /**
   * A pair whose value is itself a pair gets through `serialize`: the value event carries
   * the inner pair's value node, and the rest of the object follows. The emitter then
   * fails on that event with TypeError, before it yields anything.
   */
  lemma PairValuedPair()
    ensures var n := TagNode("@object", "me", [KeyValueNode("a", KeyValueNode("b", ScalarNode("c")))]);
      var es := Events(DefaultTags, Stream([n], None));
      && es == Stream([TagStart("@object"), Ident("me"), Key("a"), NodeValue(ScalarNode("c")), TagEnd("@object"), DocumentEnd], None)
      && Chunks(DefaultTags, es) == Stream([], Some(PyTypeError))
  {
    PairValuedEvents();
    PairValuedChunks();
  }

  lemma PairValuedEvents()
    ensures Events(DefaultTags, Stream([TagNode("@object", "me", [KeyValueNode("a", KeyValueNode("b", ScalarNode("c")))])], None))
         == Stream([TagStart("@object"), Ident("me"), Key("a"), NodeValue(ScalarNode("c")), TagEnd("@object"), DocumentEnd], None)
  {
    var n := TagNode("@object", "me", [KeyValueNode("a", KeyValueNode("b", ScalarNode("c")))]);
    DefaultResolution("@object", DictType);
    var ps := SerializePairs(n.children);
    assert n.children[1..] == [];
    assert ps == Stream([Key("a"), NodeValue(ScalarNode("c"))], None);
    var e := Serialize(DefaultTags["@object"], n);
    assert e.items == [TagStart("@object"), Ident("me"), Key("a"), NodeValue(ScalarNode("c")), TagEnd("@object")];
    assert [n][1..] == [];
  }

  lemma PairValuedChunks()
    ensures Chunks(DefaultTags, Stream([TagStart("@object"), Ident("me"), Key("a"), NodeValue(ScalarNode("c")), TagEnd("@object"), DocumentEnd], None))
         == Stream([], Some(PyTypeError))
  {
    var es := [TagStart("@object"), Ident("me"), Key("a"), NodeValue(ScalarNode("c")), TagEnd("@object"), DocumentEnd];
    DefaultResolution("@object", DictType);
    assert EmitLoop(es, None, 3, true, "@object me\n    a: ") == Err(PyTypeError);
    assert EmitLoop(es, None, 1, false, "@object") == Err(PyTypeError);
    assert Emit(es, None, DefaultTags["@object"], 0) == Err(PyTypeError);
  }
}
