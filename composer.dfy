/**
 * ASTComposer (moon/core/composer.py): events to syntax-tree nodes. At each tag_start
 * the hook registered for the tag composes one node, which is yielded; document_end
 * ends the stream. StopIteration, from running out of events, becomes ASTError; any
 * other exception of the producer passes through.
 */
module Composer {
  import opened Wrappers
  import opened Errors
  import opened Schemas
  import opened Cursor
  import opened TagHooks
  import opened ObjectHook
  import opened Serializer

  /** The loop of `ASTComposer.__iter__` with the cursor on event c and `nodes` yielded so far. */
  function ComposeFrom(es: seq<Event>, failure: Option<ErrorKind>, tags: map<string, Hook>, c: nat, nodes: seq<Node>)
    : (r: Stream<Node>)
    requires c < |es|
    ensures |nodes| <= |r.items| && r.items[..|nodes|] == nodes
    ensures forall i :: |nodes| <= i < |r.items| ==> PlainObject(r.items[i])
    decreases |es| - c
  {
    match es[c]
    case TagStart(t) =>
      if ResolveTag(tags, t).None? then Stream(nodes, Some(UnknownEvent))
      else
        var k := Compose(es, failure, tags[t], c);
        if k.Err? then Stream(nodes, Some(k.error))
        else
          var out := nodes + [k.value.0];
          var j := k.value.1;
          if j + 1 == |es| then Stream(out, Some(Exhausted(failure, ASTError)))
          else
            var r := ComposeFrom(es, failure, tags, j + 1, out);
            assert r.items[..|nodes|] == r.items[..|out|][..|nodes|];
            r
    case DocumentEnd => Stream(nodes, None)
    case _ => Stream(nodes, Some(UnexpectedEvent))
  }

  /** The nodes the composer yields over a producer's events, and how it stops. */
  function Nodes(s: Stream<Event>, tags: map<string, Hook>): (r: Stream<Node>)
    ensures forall i :: 0 <= i < |r.items| ==> PlainObject(r.items[i])
  {
    if s.items == [] then Stream([], Some(Exhausted(s.failure, ASTError)))
    else ComposeFrom(s.items, s.failure, tags, 0, [])
  }

  /** `ASTComposer.__iter__` run to its end on a fresh cursor over the events. */
  method ComposeStream(c: Streamer<Event>, failure: Option<ErrorKind>, tags: map<string, Hook>) returns (r: Stream<Node>)
    requires c.Valid() && c.Fresh()
    modifies c
    ensures r == Nodes(Stream(c.src, failure), tags)
  {
    var first := c.Read();
    if first.None? {
      return Stream([], Some(Exhausted(failure, ASTError)));
    }
    var cur := 0;
    var out := [];
    while true
      invariant c.Valid() && c.At(cur)
      invariant Resumes(c.src, failure, tags, cur, out) == true
      decreases |c.src| - cur
    {
      var event := c.Read();
      assert event.value == c.src[cur];
      match event.value
      case TagStart(t) => {
        var hook := ResolveTag(tags, t);
        if hook.None? {
          return Stream(out, Some(UnknownEvent));
        }
        var k := ComposeAt(c, failure, hook.value, cur);
        if k.Err? {
          return Stream(out, Some(k.error));
        }
        out := out + [k.value.0];
        var n := c.Next();
        if n.None? {
          return Stream(out, Some(Exhausted(failure, ASTError)));
        }
        cur := k.value.1 + 1;
      }
      case DocumentEnd =>
        return Stream(out, None);
      case _ =>
        return Stream(out, Some(UnexpectedEvent));
    }
  }

  /** The composer has reached event c with `nodes` yielded: the rest is the loop from c. */
  predicate Resumes(es: seq<Event>, failure: Option<ErrorKind>, tags: map<string, Hook>, c: nat, nodes: seq<Node>) {
    c < |es| && Nodes(Stream(es, failure), tags) == ComposeFrom(es, failure, tags, c, nodes)
  }

  /**
   * How the composer stops at event c with `nodes` yielded: document_end ends the stream,
   * another event that is not a tag_start is UnexpectedEvent, an unregistered tag is
   * UnknownEvent, the hook's error passes through, and running out after a node is ASTError.
   */
  lemma ComposeStops(es: seq<Event>, failure: Option<ErrorKind>, tags: map<string, Hook>, c: nat, nodes: seq<Node>)
    requires Resumes(es, failure, tags, c, nodes) == true
    ensures es[c].DocumentEnd? ==> Nodes(Stream(es, failure), tags) == Stream(nodes, None)
    ensures !es[c].DocumentEnd? && !es[c].TagStart? ==> Nodes(Stream(es, failure), tags) == Stream(nodes, Some(UnexpectedEvent))
    ensures es[c].TagStart? && ResolveTag(tags, es[c].tag).None? ==>
      Nodes(Stream(es, failure), tags) == Stream(nodes, Some(UnknownEvent))
    ensures es[c].TagStart? && es[c].tag in tags && Compose(es, failure, tags[es[c].tag], c).Err? ==>
      Nodes(Stream(es, failure), tags) == Stream(nodes, Some(Compose(es, failure, tags[es[c].tag], c).error))
    ensures es[c].TagStart? && es[c].tag in tags && Compose(es, failure, tags[es[c].tag], c).Ok?
            && Compose(es, failure, tags[es[c].tag], c).value.1 + 1 == |es| ==>
      Nodes(Stream(es, failure), tags) ==
        Stream(nodes + [Compose(es, failure, tags[es[c].tag], c).value.0], Some(Exhausted(failure, ASTError)))
  {
  }

  /** An empty event stream: the composer's first read runs out. */
  lemma ComposeNothing(tags: map<string, Hook>, failure: Option<ErrorKind>)
    ensures Nodes(Stream([], failure), tags) == Stream([], Some(Exhausted(failure, ASTError)))
  {
  }

  /**
   * Serialize then compose: the events of a document of serializable nodes compose back
   * into exactly those nodes, and the composer stops normally at document_end.
   */
  lemma ComposeDocument(tags: map<string, Hook>, ns: seq<Node>, failure: Option<ErrorKind>)
    requires FiledByTag(tags) && Serializable(tags, ns)
    ensures Nodes(Stream(DocumentEvents(ns), failure), tags) == Stream(ns, None)
  {
    var es := DocumentEvents(ns);
    assert es[0..] == es;
    ComposeDocumentFrom(es, failure, tags, 0, [], ns);
    assert [] + ns == ns;
  }

  lemma {:induction false} ComposeDocumentFrom(es: seq<Event>, failure: Option<ErrorKind>, tags: map<string, Hook>, c: nat,
                                               nodes: seq<Node>, ns: seq<Node>)
    requires FiledByTag(tags) && DocumentAt(tags, es, c, ns) == true
    ensures c < |es| && ComposeFrom(es, failure, tags, c, nodes) == Stream(nodes + ns, None)
    decreases |ns|
  {
    DocumentEnds(tags, es, c, ns);
    if ns == [] {
      assert nodes + ns == nodes;
    } else {
      var j := ComposeDocumentHead(es, failure, tags, c, nodes, ns);
      ComposeDocumentFrom(es, failure, tags, j + 1, nodes + [ns[0]], ns[1..]);
      Regroup(nodes, ns);
    }
  }

  /** The first object of a document composes into the first node, and the loop goes on after it. */
  lemma ComposeDocumentHead(es: seq<Event>, failure: Option<ErrorKind>, tags: map<string, Hook>, c: nat,
                            nodes: seq<Node>, ns: seq<Node>) returns (j: nat)
    requires FiledByTag(tags) && DocumentAt(tags, es, c, ns) == true && ns != []
    ensures DocumentAt(tags, es, j + 1, ns[1..]) == true && j + 1 < |es|
    ensures ComposeFrom(es, failure, tags, c, nodes) == ComposeFrom(es, failure, tags, j + 1, nodes + [ns[0]])
  {
    j := DocumentHead(tags, es, c, ns);
    DocumentEnds(tags, es, j + 1, ns[1..]);
    ComposeFromObject(es, failure, tags, c, nodes, ns[0], j);
  }

  lemma Regroup<T>(a: seq<T>, b: seq<T>)
    requires b != []
    ensures a + [b[0]] + b[1..] == a + b
  {
  }

  /** The events of a serializable object at c, ending with its tag_end at j, compose into it, and the loop goes on after j. */
  lemma ComposeFromObject(es: seq<Event>, failure: Option<ErrorKind>, tags: map<string, Hook>, c: nat,
                          nodes: seq<Node>, n: Node, j: nat)
    requires FiledByTag(tags) && PlainObject(n) && n.tag in tags && ObjectAt(es, c, n.tag, n)
    requires j == c + 2 * |n.children| + 2 && j + 1 < |es|
    ensures ComposeFrom(es, failure, tags, c, nodes) == ComposeFrom(es, failure, tags, j + 1, nodes + [n])
  {
    ComposeSerialized(es, failure, tags[n.tag], c, n);
  }

  /** Serialize, then compose: a finished stream of serializable nodes comes back unchanged. */
  lemma ComposeAfterSerialize(tags: map<string, Hook>, ns: seq<Node>)
    requires FiledByTag(tags) && Serializable(tags, ns)
    ensures Nodes(Events(tags, Stream(ns, None)), tags) == Stream(ns, None)
  {
    SerializeSucceeds(tags, ns, None);
    ComposeDocument(tags, ns, None);
  }

  /** Compose, then serialize: the events of a document come back unchanged, whatever their producer does after document_end. */
  lemma SerializeAfterCompose(tags: map<string, Hook>, ns: seq<Node>, failure: Option<ErrorKind>)
    requires FiledByTag(tags) && Serializable(tags, ns)
    ensures Events(tags, Nodes(Stream(DocumentEvents(ns), failure), tags)) == Stream(DocumentEvents(ns), None)
  {
    ComposeDocument(tags, ns, failure);
    SerializeSucceeds(tags, ns, None);
  }
}
