/**
 * EventParser (moon/core/parser.py): tokens to events. At the top level blanks, newlines
 * and comments are skipped, eof yields document_end, and a word is a tag, handed to the
 * hook registered for it between a tag_start and a tag_end event.
 *
 * The parser is a generator: what it has yielded before it raises is seen by the next
 * stage, so a run keeps its events even when it ends in an error.
 */
module Parser {
  import opened Wrappers
  import opened Errors
  import opened Schemas
  import opened Cursor
  import opened TagHooks
  import opened ObjectHook
  import opened Strings

  /**
   * `_parse_tag` with the cursor on the tag word at c: step past it (StopIteration here
   * surfaces as RuntimeError), yield tag_start, then the hook's events, then tag_end. An
   * unregistered tag raises ParserError after tag_start was yielded.
   */
  function ParseTag(ls: seq<Lexeme>, tags: map<string, Hook>, c: nat, ev: seq<Event>): (r: Run<Event>)
    requires c < |ls|
    ensures r.end.Ok? ==> c < r.end.value < |ls|
  {
    var tag := ls[c].value;
    if c + 1 == |ls| then Run(ev, Err(PyRuntimeError))
    else
      var out := ev + [TagStart(tag)];
      if ResolveTag(tags, tag).None? then Run(out, Err(ParserError))
      else
        var h := HookLoop(ls, tags, c + 1, false, out);
        if h.end.Err? then h else Run(h.items + [TagEnd(tag)], h.end)
  }

  /** The top-level loop of `EventParser.__iter__` with the cursor on token c. */
  function ParseFrom(ls: seq<Lexeme>, tags: map<string, Hook>, c: nat, ev: seq<Event>): (r: Run<Event>)
    requires c < |ls|
    decreases |ls| - c
  {
    var k := ls[c].kind;
    if IsBlank(k) || k == Newline || k == Comment then
      if c + 1 == |ls| then Run(ev, Err(UnexpectedEOF)) else ParseFrom(ls, tags, c + 1, ev)
    else if k == Eof then Run(ev + [DocumentEnd], Ok(c))
    else if k == Word then
      var t := ParseTag(ls, tags, c, ev);
      if t.end.Err? then t else ParseFrom(ls, tags, t.end.value, t.items)
    else Run(ev, Err(UnexpectedToken))
  }

  /** The events of a token stream; an empty stream is UnexpectedEOF. */
  function Parse(ls: seq<Lexeme>, tags: map<string, Hook>): Run<Event> {
    if ls == [] then Run([], Err(UnexpectedEOF)) else ParseFrom(ls, tags, 0, [])
  }

  /** `_parse_tag`. */
  method ParseTagAt(c: Streamer<Token>, at: nat, tags: map<string, Hook>, ev: seq<Event>) returns (r: Run<Event>)
    requires c.Valid() && c.At(at)
    modifies c
    ensures r == ParseTag(Shapes(c.src), tags, at, ev)
    ensures r.end.Ok? ==> c.Valid() && c.At(r.end.value)
  {
    ghost var ls := Shapes(c.src);
    var tag := c.Read();
    assert ls[at] == Shape(tag.value);
    var n := c.Next();
    if n.None? {
      return Run(ev, Err(PyRuntimeError));
    }
    var out := ev + [TagStart(tag.value.value)];
    var hook := ResolveTag(tags, tag.value.value);
    if hook.None? {
      return Run(out, Err(ParserError));
    }
    var h := ObjectHook.Parse(c, at + 1, tags, out);
    if h.end.Err? {
      return h;
    }
    r := Run(h.items + [TagEnd(tag.value.value)], h.end);
  }

  /** `EventParser.__iter__` run to its end on a fresh cursor over the tokens. */
  method Events(c: Streamer<Token>, tags: map<string, Hook>) returns (r: Run<Event>)
    requires c.Valid() && c.Fresh()
    modifies c
    ensures r == Parse(Shapes(c.src), tags)
  {
    ghost var ls := Shapes(c.src);
    var first := c.Read();
    if first.None? {
      return Run([], Err(UnexpectedEOF));
    }
    var cur := 0;
    var out := [];
    while true
      invariant c.Valid() && c.At(cur) && ls == Shapes(c.src)
      invariant Resumes(ls, tags, cur, out) == true
      decreases |c.src| - cur
    {
      var token := c.Read();
      var t := token.value;
      assert ls[cur] == Shape(t);
      if IsBlank(t.kind) || t.kind == Newline || t.kind == Comment {
        var n := c.Next();
        if n.None? {
          SkipRunsOut(ls, tags, cur, out);
          return Run(out, Err(UnexpectedEOF));
        }
        Skip(ls, tags, cur, out);
        cur := cur + 1;
      } else if t.kind == Eof {
        AtEof(ls, tags, cur, out);
        return Run(out + [DocumentEnd], Ok(cur));
      } else if t.kind == Word {
        var p := ParseTagAt(c, cur, tags, out);
        if p.end.Err? {
          TagFails(ls, tags, cur, out, p);
          return p;
        }
        TagDone(ls, tags, cur, out, p);
        cur, out := p.end.value, p.items;
      } else {
        Unexpected(ls, tags, cur, out);
        return Run(out, Err(UnexpectedToken));
      }
    }
  }

  /** The top-level loop has reached token c with `out` yielded: the rest of the run is ParseFrom from c. */
  predicate Resumes(ls: seq<Lexeme>, tags: map<string, Hook>, c: nat, out: seq<Event>) {
    0 < |ls| && c < |ls| && Parse(ls, tags) == ParseFrom(ls, tags, c, out)
  }

  lemma SkipRunsOut(ls: seq<Lexeme>, tags: map<string, Hook>, c: nat, out: seq<Event>)
    requires Resumes(ls, tags, c, out) == true && c + 1 == |ls|
    requires IsBlank(ls[c].kind) || ls[c].kind == Newline || ls[c].kind == Comment
    ensures Parse(ls, tags) == Run(out, Err(UnexpectedEOF))
  {
  }

  lemma Skip(ls: seq<Lexeme>, tags: map<string, Hook>, c: nat, out: seq<Event>)
    requires Resumes(ls, tags, c, out) == true && c + 1 < |ls|
    requires IsBlank(ls[c].kind) || ls[c].kind == Newline || ls[c].kind == Comment
    ensures Resumes(ls, tags, c + 1, out) == true
  {
  }

  lemma AtEof(ls: seq<Lexeme>, tags: map<string, Hook>, c: nat, out: seq<Event>)
    requires Resumes(ls, tags, c, out) == true && ls[c].kind == Eof
    ensures Parse(ls, tags) == Run(out + [DocumentEnd], Ok(c))
  {
  }

  lemma TagFails(ls: seq<Lexeme>, tags: map<string, Hook>, c: nat, out: seq<Event>, p: Run<Event>)
    requires Resumes(ls, tags, c, out) == true && ls[c].kind == Word
    requires p == ParseTag(ls, tags, c, out) && p.end.Err?
    ensures Parse(ls, tags) == p
  {
  }

  lemma TagDone(ls: seq<Lexeme>, tags: map<string, Hook>, c: nat, out: seq<Event>, p: Run<Event>)
    requires Resumes(ls, tags, c, out) == true && ls[c].kind == Word
    requires p == ParseTag(ls, tags, c, out) && p.end.Ok?
    ensures Resumes(ls, tags, p.end.value, p.items) == true
  {
  }

  lemma Unexpected(ls: seq<Lexeme>, tags: map<string, Hook>, c: nat, out: seq<Event>)
    requires Resumes(ls, tags, c, out) == true
    requires !(IsBlank(ls[c].kind) || ls[c].kind == Newline || ls[c].kind == Comment || ls[c].kind == Eof || ls[c].kind == Word)
    ensures Parse(ls, tags) == Run(out, Err(UnexpectedToken))
  {
  }

  // ---------------------------------------------------------------- the shape of the events

  /** `out` is `ev` followed by hook events only. */
  predicate Extends(ev: seq<Event>, out: seq<Event>) {
    |ev| <= |out| && out[..|ev|] == ev && forall i :: |ev| <= i < |out| ==> HookEvent(out[i])
  }

  lemma ExtendsChain(a: seq<Event>, b: seq<Event>, c: seq<Event>)
    requires Extends(a, b) && Extends(b, c)
    ensures Extends(a, c)
  {
    assert c[..|a|] == c[..|b|][..|a|];
  }

  lemma ExtendsOne(ev: seq<Event>, e: Event)
    requires HookEvent(e)
    ensures Extends(ev, ev + [e])
  {
    assert (ev + [e])[..|ev|] == ev;
  }

  lemma ExtendsSelf(ev: seq<Event>)
    ensures Extends(ev, ev)
  {
    assert ev[..|ev|] == ev;
  }

  /** `_parse_pair_hook` yields a key and a value and nothing else. */
  lemma {:induction false} PairLoopYields(ls: seq<Lexeme>, j: nat, started: bool, value: string, ev: seq<Event>)
    requires j < |ls|
    ensures Extends(ev, PairLoop(ls, j, started, value, ev).items)
    decreases |ls| - j
  {
    var k := ls[j].kind;
    if started && EndsValue(k) {
      ExtendsOne(ev, Value(Strip(value)));
    } else if !started && k != Colon && !IsBlank(k) {
      ExtendsSelf(ev);
    } else if j + 1 == |ls| {
      ExtendsSelf(ev);
    } else {
      PairLoopYields(ls, j + 1, started || k == Colon, if started then value + ls[j].value else value, ev);
    }
  }

  lemma PairYields(ls: seq<Lexeme>, c: nat, ev: seq<Event>)
    requires c < |ls|
    ensures Extends(ev, Pair(ls, c, ev).items)
  {
    var out := ev + [Key(ls[c].value)];
    ExtendsOne(ev, Key(ls[c].value));
    if c + 1 < |ls| {
      PairLoopYields(ls, c + 1, false, "", out);
      ExtendsChain(ev, out, PairLoop(ls, c + 1, false, "", out).items);
    }
  }

  lemma HookStepYields(ls: seq<Lexeme>, c: nat, identified: bool, ev: seq<Event>)
    requires c < |ls|
    ensures Extends(ev, HookStep(ls, c, identified, ev).items)
  {
    var k := ls[c].kind;
    if !identified && k == Word {
      ExtendsOne(ev, Ident(ls[c].value));
    } else if identified && k == Word {
      PairYields(ls, c, ev);
    } else {
      ExtendsSelf(ev);
    }
  }

  /** ObjectHook.parse yields identifiers, keys and values, and nothing else. */
  lemma {:induction false} HookLoopYields(ls: seq<Lexeme>, tags: map<string, Hook>, c: nat, identified: bool, ev: seq<Event>)
    requires c < |ls|
    ensures Extends(ev, HookLoop(ls, tags, c, identified, ev).items)
    decreases |ls| - c, 1
  {
    var s := HookStep(ls, c, identified, ev);
    HookStepYields(ls, c, identified, ev);
    if s.end.Ok? {
      HookCheckYields(ls, tags, s.end.value, identified || ls[c].kind == Word, s.items);
      ExtendsChain(ev, s.items, HookCheck(ls, tags, s.end.value, identified || ls[c].kind == Word, s.items).items);
    }
  }

  lemma {:induction false} HookCheckYields(ls: seq<Lexeme>, tags: map<string, Hook>, c: nat, identified: bool, ev: seq<Event>)
    requires c < |ls|
    ensures Extends(ev, HookCheck(ls, tags, c, identified, ev).items)
    decreases |ls| - c, 0
  {
    if ls[c].kind == Eof || c + 1 == |ls| || (ls[c + 1].kind == Word && ResolveTag(tags, ls[c + 1].value).Some?) {
      ExtendsSelf(ev);
    } else {
      HookLoopYields(ls, tags, c + 1, identified, ev);
    }
  }

  /**
   * A top-level word W: a run that ends normally adds tag_start(W), the hook's events and
   * tag_end(W), and needs W to be a registered tag; an unregistered W adds tag_start(W) and
   * ends in ParserError; any failing run has added tag_start(W) and hook events at most.
   */
  lemma ParseTagBrackets(ls: seq<Lexeme>, tags: map<string, Hook>, c: nat, ev: seq<Event>)
    requires c < |ls|
    ensures var r := ParseTag(ls, tags, c, ev); var w := ls[c].value;
      && (r.end.Ok? ==>
            && w in tags && 2 <= |r.items| - |ev| && r.items[..|ev| + 1] == ev + [TagStart(w)]
            && r.items[|r.items| - 1] == TagEnd(w)
            && forall i :: |ev| < i < |r.items| - 1 ==> HookEvent(r.items[i]))
      && (c + 1 < |ls| && w !in tags ==> r == Run(ev + [TagStart(w)], Err(ParserError)))
      && (r.end.Err? ==> r.items == ev || Extends(ev + [TagStart(w)], r.items))
  {
    var w := ls[c].value;
    if c + 1 < |ls| {
      var out := ev + [TagStart(w)];
      if w in tags {
        HookLoopYields(ls, tags, c + 1, false, out);
        var h := HookLoop(ls, tags, c + 1, false, out);
        if h.end.Ok? {
          var items := h.items + [TagEnd(w)];
          assert items[..|ev| + 1] == h.items[..|out|];
          forall i | |ev| < i < |items| - 1
            ensures HookEvent(items[i])
          {
            assert items[i] == h.items[i];
          }
        }
      }
    }
  }

  /** The events of a finished `_parse_tag` close the construct they open. */
  lemma TagTracks(ls: seq<Lexeme>, tags: map<string, Hook>, c: nat, ev: seq<Event>)
    requires c < |ls| && Track(ev, None) == Some(None)
    ensures var r := ParseTag(ls, tags, c, ev);
      && (r.end.Ok? ==> Track(r.items, None) == Some(None))
      && (r.end.Err? ==> Track(r.items, None).Some?)
  {
    var r := ParseTag(ls, tags, c, ev);
    var w := ls[c].value;
    ParseTagBrackets(ls, tags, c, ev);
    if r.items != ev {
      var out := ev + [TagStart(w)];
      TrackAppend(ev, [TagStart(w)], None);
      assert Track([TagStart(w)], None) == Some(Some(w));
      assert |out| <= |r.items| && r.items[..|out|] == out;
      var n := if r.end.Ok? then |r.items| - 1 else |r.items|;
      var hs := r.items[|out|..n];
      forall i | 0 <= i < |hs| ensures HookEvent(hs[i]) {
        assert hs[i] == r.items[|out| + i];
      }
      TrackHookEvents(hs, w);
      TrackAppend(out, hs, None);
      if r.end.Ok? {
        assert r.items == out + hs + [TagEnd(w)];
        TrackAppend(out + hs, [TagEnd(w)], None);
      } else {
        assert r.items == out + hs;
      }
    }
  }

  /**
   * What a top-level run promises: one that ends normally stops at eof, after document_end
   * and events that close every construct they open; one that fails has closed every
   * construct but possibly the last one it opened.
   */
  ghost predicate Closed(ls: seq<Lexeme>, r: Run<Event>) {
    && (r.end.Ok? ==> r.end.value < |ls| && ls[r.end.value].kind == Eof && r.items != [] && r.items[|r.items| - 1] == DocumentEnd
                      && Track(r.items[..|r.items| - 1], None) == Some(None))
    && (r.end.Err? ==> Track(r.items, None).Some?)
  }

  /** The top-level loop from token c, after events that close every construct they open. */
  lemma {:induction false} ParseFromTracks(ls: seq<Lexeme>, tags: map<string, Hook>, c: nat, ev: seq<Event>)
    requires c < |ls| && Track(ev, None) == Some(None)
    ensures Closed(ls, ParseFrom(ls, tags, c, ev))
    decreases |ls| - c
  {
    var k := ls[c].kind;
    if IsBlank(k) || k == Newline || k == Comment {
      if c + 1 < |ls| {
        ParseFromTracks(ls, tags, c + 1, ev);
        assert ParseFrom(ls, tags, c, ev) == ParseFrom(ls, tags, c + 1, ev);
      } else {
        assert ParseFrom(ls, tags, c, ev) == Run(ev, Err(UnexpectedEOF));
      }
    } else if k == Eof {
      assert ParseFrom(ls, tags, c, ev) == Run(ev + [DocumentEnd], Ok(c));
      assert (ev + [DocumentEnd])[..|ev|] == ev;
    } else if k == Word {
      var t := ParseTag(ls, tags, c, ev);
      TagTracks(ls, tags, c, ev);
      if t.end.Ok? {
        ParseFromTracks(ls, tags, t.end.value, t.items);
        assert ParseFrom(ls, tags, c, ev) == ParseFrom(ls, tags, t.end.value, t.items);
      } else {
        assert ParseFrom(ls, tags, c, ev) == t;
      }
    } else {
      assert ParseFrom(ls, tags, c, ev) == Run(ev, Err(UnexpectedToken));
    }
  }

  /**
   * The events of any token stream: document_end is yielded exactly once, last, at eof,
   * and only by a run that ends normally. Before it every tag_start is closed by the
   * tag_end of the same tag with only ident, key and value events between; a run that
   * fails has yielded a prefix of such a stream.
   */
  lemma ParsedEvents(ls: seq<Lexeme>, tags: map<string, Hook>)
    ensures var r := Parse(ls, tags);
      && (forall i :: 0 <= i < |r.items| ==> (r.items[i] == DocumentEnd <==> r.end.Ok? && i == |r.items| - 1))
      && (r.end.Ok? ==> r.items != [] && r.end.value < |ls| && ls[r.end.value].kind == Eof && Track(r.items[..|r.items| - 1], None) == Some(None))
      && (r.end.Err? ==> Track(r.items, None).Some?)
  {
    var r := Parse(ls, tags);
    if ls != [] {
      ParseFromTracks(ls, tags, 0, []);
      assert Closed(ls, r);
      if r.end.Ok? {
        var body := r.items[..|r.items| - 1];
        TrackNoEnd(body, None);
        forall i | 0 <= i < |r.items| - 1 ensures r.items[i] != DocumentEnd {
          assert r.items[i] == body[i];
        }
      } else {
        TrackNoEnd(r.items, None);
      }
    }
  }
}
