/**
 * The plain data of the pipeline: tokens (moon/schemas/tokens.py), events
 * (moon/schemas/events.py), syntax tree nodes (moon/schemas/nodes.py and the
 * KeyValueNode/ObjectNode of moon/hooks/tags/object.py), and the Python values
 * a loaded document is made of.
 */
module Schemas {
  import opened Wrappers

  datatype TokenKind =
    | Eof | Tab | Space | Newline | Word | Comment | Comma | Colon | Quote | DQuote

  /** A token; pos, line and column are 1-based and point at the token's first character. */
  datatype Token = Token(pos: int, line: int, column: int, kind: TokenKind, value: string)

  /** What the parser sees of a token: the parser never reads a position. */
  datatype Lexeme = Lexeme(kind: TokenKind, value: string)

  function Shape(t: Token): Lexeme {
    Lexeme(t.kind, t.value)
  }

  function Shapes(ts: seq<Token>): (ls: seq<Lexeme>)
    ensures |ls| == |ts|
    ensures forall i :: 0 <= i < |ts| ==> ls[i] == Shape(ts[i])
  {
    seq(|ts|, i requires 0 <= i < |ts| => Shape(ts[i]))
  }

  /**
   * Events; every kind except document_end carries its text. Event does not check what
   * it is given: NodeValue is a value event whose value is a syntax tree node, which is
   * what `serialize` yields for a pair whose value is itself a pair.
   */
  datatype Event =
    | DocumentEnd
    | TagStart(tag: string)
    | TagEnd(endTag: string)
    | Key(key: string)
    | Value(text: string)
    | NodeValue(node: Node)
    | Ident(name: string)

  /** `event.value` when it is a string: None for document_end and for a value that is a node. */
  function EventValue(e: Event): Option<string> {
    match e
    case DocumentEnd => None
    case TagStart(t) => Some(t)
    case TagEnd(t) => Some(t)
    case Key(k) => Some(k)
    case Value(v) => Some(v)
    case NodeValue(_) => None
    case Ident(n) => Some(n)
  }

  /**
   * Syntax tree nodes. A TagNode is any construct node (ObjectNode is the one the
   * object hook builds); a KeyValueNode holds the text of its scalar key and a value node.
   */
  datatype Node =
    | ScalarNode(text: string)
    | KeyValueNode(key: string, val: Node)
    | TagNode(tag: string, name: string, children: seq<Node>)

  /** The run-time types that the representer and the scalar codec dispatch on. */
  datatype PyType = IntType | FloatType | BoolType | NoneType | StrType | DictType | ListType

  /**
   * Python values handed to dump or produced by load. A float is opaque and
   * carries its text; a dict is its item list in iteration order.
   */
  datatype PyValue =
    | PyInt(i: int)
    | PyFloat(literal: string)
    | PyBool(b: bool)
    | PyNone
    | PyStr(s: string)
    | PyDict(items: seq<(PyValue, PyValue)>)
    | PyList(elems: seq<PyValue>)

  /** `type(v)`: the exact run-time type (True is a bool, not an int). */
  function TypeOf(v: PyValue): PyType {
    match v
    case PyInt(_) => IntType
    case PyFloat(_) => FloatType
    case PyBool(_) => BoolType
    case PyNone => NoneType
    case PyStr(_) => StrType
    case PyDict(_) => DictType
    case PyList(_) => ListType
  }

  /** The fields of one loaded object and a loaded document, as association lists in dict order. */
  type Fields = seq<(string, PyValue)>
  type Doc = seq<(string, Fields)>

  function Keys<V>(items: seq<(string, V)>): (ks: seq<string>)
    ensures |ks| == |items|
    ensures forall i :: 0 <= i < |items| ==> ks[i] == items[i].0
  {
    seq(|items|, i requires 0 <= i < |items| => items[i].0)
  }

  predicate Distinct<T(==)>(s: seq<T>) {
    forall i, j :: 0 <= i < j < |s| ==> s[i] != s[j]
  }

  /** A loaded object as the Python dict it is. */
  function FieldsToPy(fs: Fields): PyValue {
    PyDict(seq(|fs|, i requires 0 <= i < |fs| => (PyStr(fs[i].0), fs[i].1)))
  }

  /** A loaded document as the Python dict it is. */
  function DocToPy(d: Doc): PyValue {
    PyDict(seq(|d|, i requires 0 <= i < |d| => (PyStr(d[i].0), FieldsToPy(d[i].1))))
  }

  // ---------------------------------------------------------------- nesting of events

  /** The events the object hook yields between a tag_start and its tag_end. */
  predicate HookEvent(e: Event) {
    e.Ident? || e.Key? || e.Value?
  }

  /**
   * How a stream of events leaves the tag nesting, from `open` (the tag of the construct
   * being read, if any): None once an event is out of place. Hook events belong inside a
   * construct, a construct closes with its own tag, and document_end is never in place.
   */
  function Track(es: seq<Event>, open: Option<string>): Option<Option<string>>
    decreases |es|
  {
    if es == [] then Some(open)
    else
      var next :=
        match es[0]
        case TagStart(w) => if open.None? then Some(Some(w)) else None
        case TagEnd(w) => if open == Some(w) then Some(None) else None
        case DocumentEnd => None
        case _ => if open.Some? then Some(open) else None;
      if next.None? then None else Track(es[1..], next.value)
  }

  lemma {:induction false} TrackAppend(a: seq<Event>, b: seq<Event>, open: Option<string>)
    ensures Track(a + b, open) == if Track(a, open).None? then None else Track(b, Track(a, open).value)
    decreases |a|
  {
    if a != [] {
      assert (a + b)[0] == a[0] && (a + b)[1..] == a[1..] + b;
      match a[0]
      case TagStart(w) => if open.None? { TrackAppend(a[1..], b, Some(w)); }
      case TagEnd(w) => if open == Some(w) { TrackAppend(a[1..], b, None); }
      case DocumentEnd =>
      case _ => if open.Some? { TrackAppend(a[1..], b, open); }
    } else {
      assert a + b == b;
    }
  }

  lemma {:induction false} TrackHookEvents(hs: seq<Event>, w: string)
    requires forall i :: 0 <= i < |hs| ==> HookEvent(hs[i])
    ensures Track(hs, Some(w)) == Some(Some(w))
    decreases |hs|
  {
    if hs != [] {
      TrackHookEvents(hs[1..], w);
    }
  }

  /** An event stream that is in place from `open` holds no document_end. */
  lemma {:induction false} TrackNoEnd(es: seq<Event>, open: Option<string>)
    requires Track(es, open).Some?
    ensures forall i :: 0 <= i < |es| ==> es[i] != DocumentEnd
    decreases |es|
  {
    if es != [] {
      assert es[0] != DocumentEnd;
      var next := if es[0].TagStart? then Some(es[0].tag) else if es[0].TagEnd? then None else open;
      TrackNoEnd(es[1..], next);
      forall i | 1 <= i < |es| ensures es[i] != DocumentEnd {
        assert es[i] == es[1..][i - 1];
      }
    }
  }
}
