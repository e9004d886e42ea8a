/**
 * The two entry points of moon/_api.py with the file I/O taken away: `load` on text that
 * was already read, and `dump` up to the text it hands to `write`. Each chains the stages
 * as the source does, every generator feeding the next; a stage sees the items its
 * producer yielded before it raised, then the exception.
 *
 * The theorem of the module is LoadAfterDump: a non-empty document of single-word names
 * and keys, whose values have texts that read back as themselves, comes back unchanged.
 */
module Pipeline {
  import opened Wrappers
  import opened Errors
  import opened Schemas
  import opened Strings
  import opened Cursor
  import opened TagHooks
  import opened TypeHooks
  import opened Tokenizer
  import opened TokenFacts
  import opened ObjectHook
  import opened TextLexing
  import Parser
  import Composer
  import Constructor
  import Representer
  import Serializer
  import Emitter
  import ParseFacts

  /** `load` on text: tokenize, parse, compose, construct. */
  function Load(tags: map<string, Hook>, hooks: seq<TypeHook>, text: string): Result<Doc, ErrorKind> {
    match Tokens(text)
    case Err(e) => Err(e)
    case Ok(ts) =>
      var events := Yielded(Parser.Parse(Shapes(ts), tags));
      Constructor.Document(tags, hooks, Composer.Nodes(events, tags))
  }

  /**
   * What `dump` leaves behind: the text `write` has written, chunk after chunk, and the
   * exception that stopped it, if any. The chunks yielded before an exception are written.
   */
  datatype Written = Written(text: string, failure: Option<ErrorKind>)

  /** `dump` up to the file: represent, serialize, emit, and the chunks written one after the other. */
  function Dump(tags: map<string, Hook>, reps: map<PyType, Hook>, hooks: seq<TypeHook>, obj: PyValue): Written {
    var chunks := Emitter.Chunks(tags, Serializer.Events(tags, Representer.Nodes(reps, hooks, obj)));
    Written(Concat(chunks.items), chunks.failure)
  }

  /** The load stages run on their cursors, as `load` wires them. */
  method LoadText(tags: map<string, Hook>, types: TypeRegistry, text: string) returns (r: Result<Doc, ErrorKind>)
    ensures r == Load(tags, types.hooks, text)
  {
    var tokens := Tokenize(text);
    if tokens.Err? {
      return Err(tokens.error);
    }
    var tokenCursor := new Streamer(tokens.value);
    var run := Parser.Events(tokenCursor, tags);
    var events := Yielded(run);
    var eventCursor := new Streamer(events.items);
    var nodes := Composer.ComposeStream(eventCursor, events.failure, tags);
    r := Constructor.ConstructStream(tags, types, nodes);
  }

  /** The dump stages, the emitter run on its cursor, as `dump` wires them. */
  method DumpText(tags: map<string, Hook>, reps: map<PyType, Hook>, types: TypeRegistry, obj: PyValue) returns (r: Written)
    ensures r == Dump(tags, reps, types.hooks, obj)
  {
    var events := Serializer.Events(tags, Representer.Nodes(reps, types.hooks, obj));
    var eventCursor := new Streamer(events.items);
    var chunks := Emitter.EmitStream(eventCursor, events.failure, tags);
    var text := "";
    for k := 0 to |chunks.items|
      invariant text == Concat(chunks.items[..k])
    {
      ConcatStep(chunks.items, k);
      text := text + chunks.items[k];
    }
    assert chunks.items[..|chunks.items|] == chunks.items;
    r := Written(text, chunks.failure);
  }

  /** Writing one more chunk appends it to the text written so far. */
  lemma ConcatStep(cs: seq<string>, k: nat)
    requires k < |cs|
    ensures Concat(cs[..k + 1]) == Concat(cs[..k]) + cs[k]
  {
    ConcatSnoc(cs[..k], cs[k]);
    assert cs[..k + 1] == cs[..k] + [cs[k]];
  }

  lemma {:induction false} ConcatSnoc(a: seq<string>, x: string)
    ensures Concat(a + [x]) == Concat(a) + x
    decreases |a|
  {
    if a == [] {
      assert a + [x] == [x] && [x][1..] == [];
    } else {
      assert (a + [x])[1..] == a[1..] + [x];
      ConcatSnoc(a[1..], x);
    }
  }

  // ---------------------------------------------------------------- what a document must be to come back

  /** A field that comes back: its key is a word that is not a tag, and its value has a text that reads back as the value. */
  predicate DumpableField(tags: map<string, Hook>, hooks: seq<TypeHook>, f: (string, PyValue)) {
    && IsWord(f.0) && f.0 !in tags
    && RepresentType(hooks, f.1).Ok?
    && IsValueText(RepresentType(hooks, f.1).value)
    && ResolveType(hooks, RepresentType(hooks, f.1).value) == f.1
  }

  predicate DumpableObject(tags: map<string, Hook>, hooks: seq<TypeHook>, obj: (string, Fields)) {
    && IsWord(obj.0) && obj.0 !in tags && Distinct(Keys(obj.1))
    && forall j :: 0 <= j < |obj.1| ==> DumpableField(tags, hooks, obj.1[j])
  }

  /** A document that comes back: at least one object, distinct names, each object dumpable. */
  predicate Dumpable(tags: map<string, Hook>, hooks: seq<TypeHook>, d: Doc) {
    && d != [] && Distinct(Keys(d))
    && forall i :: 0 <= i < |d| ==> DumpableObject(tags, hooks, d[i])
  }

  /** The tables the round trip needs: the dict hook's tag is a registered word. */
  predicate Tables(tags: map<string, Hook>, reps: map<PyType, Hook>) {
    FiledByTag(tags) && DictType in reps && reps[DictType].tag in tags && IsWord(reps[DictType].tag)
  }

  // ---------------------------------------------------------------- dump

  /** The node the representer builds for an object. */
  function ObjectNode(tag: string, hooks: seq<TypeHook>, obj: (string, Fields)): Node
    requires forall j :: 0 <= j < |obj.1| ==> RepresentType(hooks, obj.1[j].1).Ok?
  {
    RepresentedFields(hooks, obj.1);
    TagNode(tag, obj.0, RepresentPairs(hooks, FieldsToPy(obj.1).items).value)
  }

  /**
   * Dump of a document whose values all have texts: the representer's nodes, one per
   * object, serialize and emit without error, into the text of their document.
   */
  lemma DumpNodes(tags: map<string, Hook>, reps: map<PyType, Hook>, hooks: seq<TypeHook>, d: Doc) returns (ns: seq<Node>)
    requires FiledByTag(tags) && DictType in reps && reps[DictType].tag in tags && Representer.Representable(hooks, d)
    ensures |ns| == |d| && forall i :: 0 <= i < |d| ==> ns[i] == ObjectNode(reps[DictType].tag, hooks, d[i])
    ensures Serializer.Serializable(tags, ns)
    ensures Dump(tags, reps, hooks, DocToPy(d)) == Written(Concat(Emitter.DocumentChunks(ns)), None)
  {
    Representer.RepresentDocument(reps, hooks, d);
    var s := Representer.Nodes(reps, hooks, DocToPy(d));
    ns := s.items;
    assert s == Stream(ns, None);
    forall i | 0 <= i < |d|
      ensures ns[i] == ObjectNode(reps[DictType].tag, hooks, d[i])
    {
      assert Representer.FieldsRepresentable(hooks, d[i].1);
    }
    DumpSerialized(tags, ns);
  }

  /** Serializable nodes from a finished representer are written out as their document. */
  lemma DumpSerialized(tags: map<string, Hook>, ns: seq<Node>)
    requires FiledByTag(tags) && Serializer.Serializable(tags, ns)
    ensures var chunks := Emitter.Chunks(tags, Serializer.Events(tags, Stream(ns, None)));
      chunks == Stream(Emitter.DocumentChunks(ns), None)
  {
    Serializer.SerializableAccepted(tags, ns);
    Serializer.SerializeSucceeds(tags, ns, None);
    Emitter.EmitDocument(tags, ns, None);
  }

  /** An empty document dumps to the empty text, which does not load: the tokenizer rejects empty content. */
  lemma DumpEmpty(tags: map<string, Hook>, reps: map<PyType, Hook>, hooks: seq<TypeHook>)
    requires FiledByTag(tags)
    ensures Dump(tags, reps, hooks, DocToPy([])) == Written("", None)
    ensures Load(tags, hooks, "") == Err(TokenizerError)
  {
    var d: Doc := [];
    assert DocToPy(d).items == [];
    assert Representer.Nodes(reps, hooks, DocToPy(d)) == Stream([], None);
    Serializer.SerializeSucceeds(tags, [], None);
    Emitter.EmitDocument(tags, [], None);
  }

  // ---------------------------------------------------------------- load

  lemma {:induction false} ReadableAll(tags: map<string, Hook>, ns: seq<Node>)
    requires forall i :: 0 <= i < |ns| ==> ParseFacts.ReadableObject(tags, ns[i])
    ensures ParseFacts.ReadableObjects(tags, ns)
    decreases |ns|
  {
    if ns != [] {
      assert forall i :: 1 <= i < |ns| ==> ns[i] == ns[1..][i - 1];
      ReadableAll(tags, ns[1..]);
    }
  }

  lemma {:induction false} ReadableEach(tags: map<string, Hook>, ns: seq<Node>)
    requires ParseFacts.ReadableObjects(tags, ns)
    ensures forall i :: 0 <= i < |ns| ==> ParseFacts.ReadableObject(tags, ns[i])
    decreases |ns|
  {
    if ns != [] {
      ReadableEach(tags, ns[1..]);
      assert forall i :: 1 <= i < |ns| ==> ns[i] == ns[1..][i - 1];
    }
  }

  /**
   * Emit, then tokenize and parse: the text emitted for a readable document of at least one
   * object is read back as exactly the events it was emitted from, with nothing raised.
   */
  lemma ParseEmitted(tags: map<string, Hook>, ns: seq<Node>)
    requires FiledByTag(tags) && ParseFacts.Readable(tags, ns) && ns != []
    ensures var text := Concat(Emitter.DocumentChunks(ns));
      && Tokens(text).Ok?
      && Yielded(Parser.Parse(Shapes(Tokens(text).value), tags)) == Stream(Serializer.DocumentEvents(ns), None)
  {
    var text := Concat(Emitter.DocumentChunks(ns));
    ReadableEach(tags, ns);
    DocumentTextLexemes(ns);
    assert text[0] == '@';
    NormalizeNormal(text);
    LexShapes(text);
    var ls := Shapes(Lex(text));
    assert ls == DocumentLexemes(ns) + [EofLexeme];
    ParseFacts.AtSuffix(ls, 0);
    assert ls[0..] == ls;
    ParseFacts.DocumentParse(ls, tags, 0, [], ns);
    assert [] + Serializer.DocumentEvents(ns) == Serializer.DocumentEvents(ns);
  }

  /** Construct over objects that each construct to the next fields of `d`, under fresh distinct names. */
  lemma {:induction false} ConstructObjects(tags: map<string, Hook>, hooks: seq<TypeHook>, ns: seq<Node>, d: Doc, res: Doc)
    requires |ns| == |d| && Distinct(Keys(res + d))
    requires forall i :: 0 <= i < |ns| ==>
      ns[i].TagNode? && ns[i].tag in tags && ns[i].name == d[i].0 && Construct(hooks, ns[i].children) == Ok(d[i].1)
    ensures Constructor.ConstructNodes(tags, hooks, ns, None, res) == Ok(res + d)
    decreases |ns|
  {
    if ns == [] {
      assert res + d == res;
    } else {
      FreshHead(res, d);
      ConstructHead(tags, hooks, ns, res, d[0].1);
      var res' := res + [d[0]];
      forall i | 0 <= i < |ns| - 1
        ensures ns[1..][i].TagNode? && ns[1..][i].tag in tags && ns[1..][i].name == d[1..][i].0
        ensures Construct(hooks, ns[1..][i].children) == Ok(d[1..][i].1)
      {
        assert ns[1..][i] == ns[i + 1] && d[1..][i] == d[i + 1];
      }
      ConstructObjects(tags, hooks, ns[1..], d[1..], res');
    }
  }

  /** The first object of `d` has a name not in `res`, and moving it onto `res` keeps the whole. */
  lemma FreshHead(res: Doc, d: Doc)
    requires d != [] && Distinct(Keys(res + d))
    ensures d[0].0 !in Keys(res)
    ensures Distinct(Keys((res + [d[0]]) + d[1..])) && (res + [d[0]]) + d[1..] == res + d
  {
    assert (res + [d[0]]) + d[1..] == res + d;
    forall k | 0 <= k < |res|
      ensures Keys(res)[k] != d[0].0
    {
      assert Keys(res + d)[k] == Keys(res)[k] && Keys(res + d)[|res|] == d[0].0;
    }
  }

  /** One round of `construct` on a node with a fresh name that constructs to fs. */
  lemma ConstructHead(tags: map<string, Hook>, hooks: seq<TypeHook>, ns: seq<Node>, res: Doc, fs: Fields)
    requires ns != [] && ns[0].TagNode? && ns[0].tag in tags && ns[0].name !in Keys(res)
    requires Construct(hooks, ns[0].children) == Ok(fs)
    ensures Constructor.ConstructNodes(tags, hooks, ns, None, res) ==
      Constructor.ConstructNodes(tags, hooks, ns[1..], None, res + [(ns[0].name, fs)])
  {
  }

  // ---------------------------------------------------------------- the round trip

  /** The represented node of a dumpable object is readable, and constructs back to the object's fields. */
  lemma DumpedObject(tags: map<string, Hook>, reps: map<PyType, Hook>, hooks: seq<TypeHook>, obj: (string, Fields))
    requires Tables(tags, reps) && DumpableObject(tags, hooks, obj)
    requires forall j :: 0 <= j < |obj.1| ==> RepresentType(hooks, obj.1[j].1).Ok?
    ensures ParseFacts.ReadableObject(tags, ObjectNode(reps[DictType].tag, hooks, obj))
    ensures Construct(hooks, ObjectNode(reps[DictType].tag, hooks, obj).children) == Ok(obj.1)
  {
    var fs := obj.1;
    RepresentedFields(hooks, fs);
    var ps := RepresentPairs(hooks, FieldsToPy(fs).items).value;
    DumpedPairs(tags, hooks, fs, ps);
    ConstructReadsBack(hooks, fs, ps);
  }

  /** The pair nodes of dumpable fields are writable, their keys untagged, and carry texts that read back. */
  lemma DumpedPairs(tags: map<string, Hook>, hooks: seq<TypeHook>, fs: Fields, ps: seq<Node>)
    requires forall j :: 0 <= j < |fs| ==> DumpableField(tags, hooks, fs[j])
    requires |ps| == |fs| && forall i :: 0 <= i < |fs| ==> RepresentType(hooks, fs[i].1).Ok? && ps[i] == KeyValueNode(fs[i].0, ScalarNode(RepresentType(hooks, fs[i].1).value))
    ensures WritablePairs(ps) && ParseFacts.KeysUntagged(tags, ps)
    ensures forall i :: 0 <= i < |fs| ==> ResolveType(hooks, ps[i].val.text) == fs[i].1
  {
    forall i | 0 <= i < |ps|
      ensures ps[i].KeyValueNode? && ps[i].val.ScalarNode? && IsWord(ps[i].key) && IsValueText(ps[i].val.text) && ps[i].key !in tags
    {
      assert DumpableField(tags, hooks, fs[i]);
    }
  }

  /** The represented nodes of a dumpable document are readable, and each constructs back to its object's fields. */
  lemma DumpedNodes(tags: map<string, Hook>, reps: map<PyType, Hook>, hooks: seq<TypeHook>, d: Doc, ns: seq<Node>)
    requires Tables(tags, reps) && Dumpable(tags, hooks, d)
    requires |ns| == |d| && forall i :: 0 <= i < |d| ==>
      (forall j :: 0 <= j < |d[i].1| ==> RepresentType(hooks, d[i].1[j].1).Ok?) && ns[i] == ObjectNode(reps[DictType].tag, hooks, d[i])
    ensures ParseFacts.Readable(tags, ns)
    ensures forall i :: 0 <= i < |ns| ==> Construct(hooks, ns[i].children) == Ok(d[i].1)
  {
    forall i | 0 <= i < |d|
      ensures ParseFacts.ReadableObject(tags, ns[i]) && Construct(hooks, ns[i].children) == Ok(d[i].1)
    {
      assert DumpableObject(tags, hooks, d[i]);
      DumpedObject(tags, reps, hooks, d[i]);
    }
    ReadableAll(tags, ns);
  }

  /** Every value of a dumpable document has a text. */
  lemma DumpableRepresentable(tags: map<string, Hook>, hooks: seq<TypeHook>, d: Doc)
    requires Dumpable(tags, hooks, d)
    ensures Representer.Representable(hooks, d)
  {
    forall i, j | 0 <= i < |d| && 0 <= j < |d[i].1|
      ensures RepresentType(hooks, d[i].1[j].1).Ok?
    {
      assert DumpableObject(tags, hooks, d[i]);
      assert DumpableField(tags, hooks, d[i].1[j]);
    }
  }

  /** The text of readable, serializable nodes tokenizes, parses and composes back to the nodes. */
  lemma ComposeEmitted(tags: map<string, Hook>, ns: seq<Node>)
    requires FiledByTag(tags) && ParseFacts.Readable(tags, ns) && Serializer.Serializable(tags, ns) && ns != []
    ensures var text := Concat(Emitter.DocumentChunks(ns));
      && Tokens(text).Ok?
      && Composer.Nodes(Yielded(Parser.Parse(Shapes(Tokens(text).value), tags)), tags) == Stream(ns, None)
  {
    ParseEmitted(tags, ns);
    Composer.ComposeDocument(tags, ns, None);
  }

  /** Loading the text of readable nodes that construct to the objects of d, under d's names. */
  lemma LoadNodes(tags: map<string, Hook>, hooks: seq<TypeHook>, ns: seq<Node>, d: Doc)
    requires FiledByTag(tags) && ParseFacts.Readable(tags, ns) && Serializer.Serializable(tags, ns) && ns != []
    requires |ns| == |d| && Distinct(Keys(d))
    requires forall i :: 0 <= i < |ns| ==> ns[i].name == d[i].0 && Construct(hooks, ns[i].children) == Ok(d[i].1)
    ensures Load(tags, hooks, Concat(Emitter.DocumentChunks(ns))) == Ok(d)
  {
    ComposeEmitted(tags, ns);
    LoadComposed(tags, hooks, Concat(Emitter.DocumentChunks(ns)), ns);
    ConstructDocument(tags, hooks, ns, d);
  }

  /** Construct from no objects yet, over serializable nodes that each construct to the next object of d. */
  lemma ConstructDocument(tags: map<string, Hook>, hooks: seq<TypeHook>, ns: seq<Node>, d: Doc)
    requires Serializer.Serializable(tags, ns) && |ns| == |d| && Distinct(Keys(d))
    requires forall i :: 0 <= i < |ns| ==> ns[i].name == d[i].0 && Construct(hooks, ns[i].children) == Ok(d[i].1)
    ensures Constructor.ConstructNodes(tags, hooks, ns, None, []) == Ok(d)
  {
    assert [] + d == d;
    ConstructObjects(tags, hooks, ns, d, []);
  }

  /** A value that is not a dict: nothing is written, and dump raises InvalidObjectError. */
  lemma DumpNotDict(tags: map<string, Hook>, reps: map<PyType, Hook>, hooks: seq<TypeHook>, obj: PyValue)
    requires !obj.PyDict?
    ensures Dump(tags, reps, hooks, obj) == Written("", Some(InvalidObjectError))
  {
    assert Serializer.Events(tags, Representer.Nodes(reps, hooks, obj)) == Stream([], Some(InvalidObjectError));
  }

  /**
   * A representer that stops with an exception after some nodes: the text of every object
   * represented before it is written, separated by blank lines, and then the exception
   * propagates out of `dump`.
   */
  lemma DumpInterrupted(tags: map<string, Hook>, reps: map<PyType, Hook>, hooks: seq<TypeHook>, obj: PyValue,
                        ns: seq<Node>, f: ErrorKind)
    requires FiledByTag(tags) && Representer.Nodes(reps, hooks, obj) == Stream(ns, Some(f))
    requires Serializer.Serializable(tags, ns)
    ensures Dump(tags, reps, hooks, obj) == Written(Concat(Emitter.DocumentChunks(ns)), Some(f))
  {
    Serializer.SerializeInterrupted(tags, ns, f);
    Emitter.EmitInterrupted(tags, ns, f);
  }

  /** Load of a text whose tokens parse and compose to ns is the construction of ns. */
  lemma LoadComposed(tags: map<string, Hook>, hooks: seq<TypeHook>, text: string, ns: seq<Node>)
    requires Tokens(text).Ok?
    requires Composer.Nodes(Yielded(Parser.Parse(Shapes(Tokens(text).value), tags)), tags) == Stream(ns, None)
    ensures Load(tags, hooks, text) == Constructor.ConstructNodes(tags, hooks, ns, None, [])
  {
  }

  /**
   * load(dump(d)) == d: a non-empty document with distinct names, whose names and keys are
   * single words that are not tags and whose values have texts on one line that read back as
   * the values, dumps without error to a text that loads back as the same document.
   */
  lemma LoadAfterDump(tags: map<string, Hook>, reps: map<PyType, Hook>, hooks: seq<TypeHook>, d: Doc)
    requires Tables(tags, reps) && Dumpable(tags, hooks, d)
    ensures Dump(tags, reps, hooks, DocToPy(d)).failure.None?
    ensures Load(tags, hooks, Dump(tags, reps, hooks, DocToPy(d)).text) == Ok(d)
  {
    DumpableRepresentable(tags, hooks, d);
    var ns := DumpNodes(tags, reps, hooks, d);
    DumpedNodes(tags, reps, hooks, d, ns);
    LoadNodes(tags, hooks, ns, d);
  }

  /** A scalar that comes back under the built-in codec: its text reads back as itself and sits on one line. */
  predicate PlainScalar(v: PyValue) {
    RoundTrips(v) && IsValueText(BuiltinText(v).value)
  }

  /** A document that comes back under the tables `import moon` sets up and no type hooks. */
  predicate PlainDocument(d: Doc) {
    && d != [] && Distinct(Keys(d))
    && forall i :: 0 <= i < |d| ==>
      && IsWord(d[i].0) && d[i].0 != "@object" && Distinct(Keys(d[i].1))
      && forall j :: 0 <= j < |d[i].1| ==>
        IsWord(d[i].1[j].0) && d[i].1[j].0 != "@object" && PlainScalar(d[i].1[j].1)
  }

  lemma ObjectTagIsWord()
    ensures IsWord("@object")
  {
    assert forall m :: 0 <= m < 7 ==> "@object"[m] in "@object";
  }

  /**
   * load(dump(d)) == d with ObjectHook alone and the built-in scalar codec: non-negative
   * ints, floats, bools, None, and strs that read as no other type all come back.
   */
  lemma LoadAfterDumpDefault(d: Doc)
    requires PlainDocument(d)
    ensures Dump(DefaultTags, DefaultRepresenters, [], DocToPy(d)).failure.None?
    ensures Load(DefaultTags, [], Dump(DefaultTags, DefaultRepresenters, [], DocToPy(d)).text) == Ok(d)
  {
    ObjectTagIsWord();
    DefaultResolution("@object", DictType);
    forall i, j | 0 <= i < |d| && 0 <= j < |d[i].1|
      ensures DumpableField(DefaultTags, [], d[i].1[j])
    {
      var v := d[i].1[j].1;
      ValueRoundTrip(v);
    }
    assert Dumpable(DefaultTags, [], d) by {
      forall i | 0 <= i < |d|
        ensures DumpableObject(DefaultTags, [], d[i])
      {
      }
    }
    LoadAfterDump(DefaultTags, DefaultRepresenters, [], d);
  }

  // ---------------------------------------------------------------- an unknown tag

  /**
   * A text that opens with a word that is no registered tag: the parser on its own yields
   * tag_start and then raises ParserError, but `load` never gets that far. The composer,
   * pulling events one at a time, receives the tag_start first and raises UnknownEvent.
   */
  lemma LoadUnknownTag(tags: map<string, Hook>, hooks: seq<TypeHook>, w: string, rest: string)
    requires IsWord(w) && w !in tags && Normal(w + rest) && (rest == [] || IsSpecial(rest[0]))
    ensures Tokens(w + rest).Ok?
    ensures Yielded(Parser.Parse(Shapes(Tokens(w + rest).value), tags)) == Stream([TagStart(w)], Some(ParserError))
    ensures Load(tags, hooks, w + rest) == Err(UnknownEvent)
  {
    WordLeads(w, rest);
    ParseUnknownTag(Shapes(Tokens(w + rest).value), tags, w);
  }

  /** A text that opens with a word, cut off by a special character or the end, tokenizes to that word and more. */
  lemma WordLeads(w: string, rest: string)
    requires IsWord(w) && Normal(w + rest) && (rest == [] || IsSpecial(rest[0]))
    ensures Tokens(w + rest).Ok?
    ensures 1 < |Shapes(Tokens(w + rest).value)| && Shapes(Tokens(w + rest).value)[0] == Lexeme(Word, w)
  {
    var text := w + rest;
    NormalizeNormal(text);
    WordLexemes(w);
    LexemesAppend(w, rest);
    LexShapes(text);
    assert Shapes(Lex(text)) == [Lexeme(Word, w)] + Lexemes(rest) + [EofLexeme];
  }

  /** A document whose first word is not a registered tag parses to that tag's start and a parser error. */
  lemma ParseUnknownTag(ls: seq<Lexeme>, tags: map<string, Hook>, w: string)
    requires 1 < |ls| && ls[0] == Lexeme(Word, w) && w !in tags
    ensures Parser.Parse(ls, tags) == Run([TagStart(w)], Err(ParserError))
  {
  }

  /** The unknown tag of "@unknowntag x", key: 1 on the next line, under the tables `import moon` sets up. */
  lemma UnknownTagExample()
    ensures Load(DefaultTags, [], "@unknowntag x\nkey: 1") == Err(UnknownEvent)
  {
    var w := "@unknowntag";
    var rest := " x\nkey: 1";
    assert w + rest == "@unknowntag x\nkey: 1";
    UnknownTagWord();
    UnknownTagNormal();
    LoadUnknownTag(DefaultTags, [], w, rest);
  }

  /** "@unknowntag" is one word token, and no hook is filed under it. */
  lemma UnknownTagWord()
    ensures IsWord("@unknowntag") && "@unknowntag" !in DefaultTags
  {
    var w := "@unknowntag";
    assert forall m :: 0 <= m < |w| ==> w[m] in "@unknowntag";
  }

  /** The example text has no carriage return or byte order mark, and its tag is followed by a space. */
  lemma UnknownTagNormal()
    ensures Normal("@unknowntag x\nkey: 1") && IsSpecial(' ')
  {
    var t := "@unknowntag x\nkey: 1";
    assert forall m :: 0 <= m < |t| ==> t[m] in "@unknowntag x\nkey: 1";
  }
}
