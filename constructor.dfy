/**
 * The constructor (moon/core/constructor.py): syntax-tree nodes to the loaded dict. Each
 * node must be a tag node whose tag is registered and whose name is new; its hook
 * constructs the value stored under the name. The nodes come from the composer, a
 * generator: the constructor sees its nodes one at a time, and its exception, if it
 * raises, only after them.
 */
module Constructor {
  import opened Wrappers
  import opened Errors
  import opened Schemas
  import opened Cursor
  import opened TagHooks
  import opened TypeHooks
  import opened ObjectHook

  /** The loop of `construct` over the remaining nodes, with the document `res` built so far. */
  function ConstructNodes(tags: map<string, Hook>, hooks: seq<TypeHook>, ns: seq<Node>, failure: Option<ErrorKind>, res: Doc)
    : (r: Result<Doc, ErrorKind>)
    ensures r.Ok? ==> failure.None? && |r.value| == |res| + |ns| && r.value[..|res|] == res
    ensures r.Ok? ==> forall i :: 0 <= i < |ns| ==>
      && ns[i].TagNode? && ns[i].tag in tags && Construct(hooks, ns[i].children).Ok?
      && r.value[|res| + i] == (ns[i].name, Construct(hooks, ns[i].children).value)
    decreases |ns|
  {
    if ns == [] then
      if failure.Some? then Err(failure.value) else Ok(res)
    else
      var n := ns[0];
      if !n.TagNode? then Err(UnexpectedNode)
      else if ResolveTag(tags, n.tag).None? then Err(UnknownNode)
      else if n.name in Keys(res) then Err(DuplicateIdentifierNode)
      else match Construct(hooks, n.children)
        case Err(e) => Err(e)
        case Ok(fs) =>
          var r := ConstructNodes(tags, hooks, ns[1..], failure, res + [(n.name, fs)]);
          if r.Ok? then ConstructedHead(tags, hooks, ns, res, fs, r.value); r else r
  }

  /** The document after the first node's object, read from the document before it. */
  lemma ConstructedHead(tags: map<string, Hook>, hooks: seq<TypeHook>, ns: seq<Node>, res: Doc, fs: Fields, v: Doc)
    requires ns != [] && ns[0].TagNode? && ns[0].tag in tags && Construct(hooks, ns[0].children) == Ok(fs)
    requires |v| == |res| + |ns| && v[..|res| + 1] == res + [(ns[0].name, fs)]
    requires forall i :: 0 <= i < |ns| - 1 ==>
      && ns[1..][i].TagNode? && ns[1..][i].tag in tags && Construct(hooks, ns[1..][i].children).Ok?
      && v[|res| + 1 + i] == (ns[1..][i].name, Construct(hooks, ns[1..][i].children).value)
    ensures v[..|res|] == res
    ensures forall i :: 0 <= i < |ns| ==>
      && ns[i].TagNode? && ns[i].tag in tags && Construct(hooks, ns[i].children).Ok?
      && v[|res| + i] == (ns[i].name, Construct(hooks, ns[i].children).value)
  {
    assert v[..|res|] == v[..|res| + 1][..|res|];
    assert v[|res|] == v[..|res| + 1][|res|];
    forall i | 1 <= i < |ns|
      ensures ns[i].TagNode? && ns[i].tag in tags && Construct(hooks, ns[i].children).Ok?
      ensures v[|res| + i] == (ns[i].name, Construct(hooks, ns[i].children).value)
    {
      assert ns[i] == ns[1..][i - 1];
    }
  }

  /** `construct` over the composer's stream. */
  function Document(tags: map<string, Hook>, hooks: seq<TypeHook>, s: Stream<Node>): Result<Doc, ErrorKind> {
    ConstructNodes(tags, hooks, s.items, s.failure, [])
  }

  /**
   * The checks on one node, in the order `construct` makes them: a node that is not a tag
   * node is UnexpectedNode, an unregistered tag UnknownNode, a name already stored
   * DuplicateIdentifierNode; and no nodes at all give the empty dict.
   */
  lemma NodeChecks(tags: map<string, Hook>, hooks: seq<TypeHook>, ns: seq<Node>, failure: Option<ErrorKind>, res: Doc)
    ensures ns == [] ==> ConstructNodes(tags, hooks, ns, failure, res) == if failure.Some? then Err(failure.value) else Ok(res)
    ensures ns != [] && !ns[0].TagNode? ==> ConstructNodes(tags, hooks, ns, failure, res) == Err(UnexpectedNode)
    ensures ns != [] && ns[0].TagNode? && ns[0].tag !in tags ==> ConstructNodes(tags, hooks, ns, failure, res) == Err(UnknownNode)
    ensures ns != [] && ns[0].TagNode? && ns[0].tag in tags && ns[0].name in Keys(res) ==>
      ConstructNodes(tags, hooks, ns, failure, res) == Err(DuplicateIdentifierNode)
  {
  }

  /** An empty, finished node stream constructs the empty dict. */
  lemma EmptyDocument(tags: map<string, Hook>, hooks: seq<TypeHook>)
    ensures Document(tags, hooks, Stream([], None)) == Ok([])
  {
  }

  /** `construct`, with the tag table and the type-hook registry as they stand. */
  method ConstructStream(tags: map<string, Hook>, types: TypeRegistry, s: Stream<Node>) returns (r: Result<Doc, ErrorKind>)
    ensures r == Document(tags, types.hooks, s)
  {
    var res: Doc := [];
    for k := 0 to |s.items|
      invariant Document(tags, types.hooks, s) == ConstructNodes(tags, types.hooks, s.items[k..], s.failure, res)
    {
      var node := s.items[k];
      assert s.items[k..][0] == node && s.items[k..][1..] == s.items[k + 1..];
      if node.TagNode? {
        var hook := ResolveTag(tags, node.tag);
        if hook.None? {
          return Err(UnknownNode);
        }
        if node.name in Keys(res) {
          return Err(DuplicateIdentifierNode);
        }
        var fs := ConstructNode(types, node);
        if fs.Err? {
          return Err(fs.error);
        }
        res := res + [(node.name, fs.value)];
      } else {
        return Err(UnexpectedNode);
      }
    }
    assert s.items[|s.items|..] == [];
    if s.failure.Some? {
      return Err(s.failure.value);
    }
    r := Ok(res);
  }

  /** The names of the document's objects are distinct: a repeated name is DuplicateIdentifierNode. */
  lemma {:induction false} NamesDistinct(tags: map<string, Hook>, hooks: seq<TypeHook>, ns: seq<Node>, failure: Option<ErrorKind>, res: Doc)
    requires Distinct(Keys(res))
    ensures ConstructNodes(tags, hooks, ns, failure, res).Ok? ==> Distinct(Keys(ConstructNodes(tags, hooks, ns, failure, res).value))
    decreases |ns|
  {
    if ns != [] && ns[0].TagNode? && ns[0].tag in tags && ns[0].name !in Keys(res) && Construct(hooks, ns[0].children).Ok? {
      var res' := res + [(ns[0].name, Construct(hooks, ns[0].children).value)];
      assert Keys(res') == Keys(res) + [ns[0].name];
      NamesDistinct(tags, hooks, ns[1..], failure, res');
    }
  }

  /** Two nodes of one name: `construct` cannot finish, whatever else the nodes hold. */
  lemma DuplicateNames(tags: map<string, Hook>, hooks: seq<TypeHook>, s: Stream<Node>, i: nat, j: nat)
    requires i < j < |s.items| && s.items[i].TagNode? && s.items[j].TagNode? && s.items[i].name == s.items[j].name
    ensures Document(tags, hooks, s).Err?
  {
    NamesDistinct(tags, hooks, s.items, s.failure, []);
  }
}
