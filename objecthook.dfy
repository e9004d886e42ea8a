/**
 * ObjectHook (moon/hooks/tags/object.py), the `@object` construct:
 *
 *   @object me
 *       name: Alex
 *
 * One class method per stage: parse (tokens to events, with the pair parser beside
 * it), compose (events to an ObjectNode), construct (node to dict), represent (dict to
 * node), serialize (node to events) and emit (events to text). Every registered hook is
 * given this behaviour, under its own tag.
 *
 * Generator stages are modelled by a Run: what they have yielded when they stop and how
 * they stop.
 */
module ObjectHook {
  import opened Wrappers
  import opened Errors
  import opened Schemas
  import opened Strings
  import opened Cursor
  import opened TagHooks
  import opened TypeHooks

  /** The token kinds that end a pair's value. */
  predicate EndsValue(k: TokenKind) {
    k == Newline || k == Comment || k == Eof
  }

  predicate IsBlank(k: TokenKind) {
    k == Space || k == Tab
  }

  // ---------------------------------------------------------------- parse: pairs

  /**
   * `_parse_pair_hook` with the cursor on the key word at c: yield the key, then skip
   * blanks up to the colon, gather the token texts after it up to the end of the value,
   * and yield the stripped value, leaving the cursor on the token that ended it.
   * StopIteration inside the generator surfaces as RuntimeError.
   */
  function Pair(ls: seq<Lexeme>, c: nat, ev: seq<Event>): (r: Run<Event>)
    requires c < |ls|
    ensures r.end.Ok? ==> c < r.end.value < |ls| && EndsValue(ls[r.end.value].kind)
  {
    var out := ev + [Key(ls[c].value)];
    if c + 1 == |ls| then Run(out, Err(PyRuntimeError)) else PairLoop(ls, c + 1, false, "", out)
  }

  /** The loop of `_parse_pair_hook` at token j; `started` once the colon was seen, `value` the text gathered. */
  function PairLoop(ls: seq<Lexeme>, j: nat, started: bool, value: string, ev: seq<Event>): (r: Run<Event>)
    requires j < |ls|
    ensures r.end.Ok? ==> j <= r.end.value < |ls| && EndsValue(ls[r.end.value].kind)
    decreases |ls| - j
  {
    var k := ls[j].kind;
    if started && EndsValue(k) then Run(ev + [Value(Strip(value))], Ok(j))
    else if !started && k != Colon && !IsBlank(k) then Run(ev, Err(UnexpectedToken))
    else if j + 1 == |ls| then Run(ev, Err(PyRuntimeError))
    else PairLoop(ls, j + 1, started || k == Colon, if started then value + ls[j].value else value, ev)
  }

  method ParsePair(c: Streamer<Token>, at: nat, ev: seq<Event>) returns (r: Run<Event>)
    requires c.Valid() && c.At(at)
    modifies c
    ensures r == Pair(Shapes(c.src), at, ev)
    ensures r.end.Ok? ==> c.Valid() && c.At(r.end.value)
  {
    ghost var ls := Shapes(c.src);
    var token := c.Read();
    var out := ev + [Key(token.value.value)];
    var n := c.Next();
    if n.None? {
      return Run(out, Err(PyRuntimeError));
    }
    r := PairLoopFrom(c, at + 1, out);
  }

  /** The `while True` loop of `_parse_pair_hook`, entered with the cursor on token j0. */
  method PairLoopFrom(c: Streamer<Token>, j0: nat, out: seq<Event>) returns (r: Run<Event>)
    requires c.Valid() && c.At(j0)
    modifies c
    ensures r == PairLoop(Shapes(c.src), j0, false, "", out)
    ensures r.end.Ok? ==> c.Valid() && c.At(r.end.value)
  {
    ghost var ls := Shapes(c.src);
    var j := j0;
    var started := false;
    var value := "";
    while true
      invariant c.Valid() && c.At(j) && ls == Shapes(c.src)
      invariant PairResumes(ls, j0, out, j, started, value) == true
      decreases |c.src| - j
    {
      var done, stop, started', value' := PairToken(c, j, started, value, out);
      if done {
        PairExit(ls, j0, out, j, started, value);
        return stop;
      }
      var n := c.Next();
      if n.None? {
        PairRunsOut(ls, j0, out, j, started, value);
        return Run(out, Err(PyRuntimeError));
      }
      PairAdvance(ls, j0, out, j, started, value, started', value');
      j, started, value := j + 1, started', value';
    }
  }

  /** The pair loop from j0 has reached token j with the given state: the rest of the run is the loop from j. */
  predicate PairResumes(ls: seq<Lexeme>, j0: nat, out: seq<Event>, j: nat, started: bool, value: string) {
    j0 <= j < |ls| && PairLoop(ls, j0, false, "", out) == PairLoop(ls, j, started, value, out)
  }

  /** The body of the pair loop up to its `streamer.next()`: either the pair ends here, or the new state. */
  method PairToken(c: Streamer<Token>, j: nat, started: bool, value: string, out: seq<Event>)
    returns (done: bool, stop: Run<Event>, started': bool, value': string)
    requires c.Valid() && c.At(j)
    modifies c
    ensures c.Valid() && c.At(j)
    ensures var k := c.src[j].kind;
      && done == ((started && EndsValue(k)) || (!started && k != Colon && !IsBlank(k)))
      && (done ==> stop == if started then Run(out + [Value(Strip(value))], Ok(j)) else Run(out, Err(UnexpectedToken)))
      && (!done ==> started' == (started || k == Colon))
      && (!done ==> value' == if started then value + c.src[j].value else value)
  {
    var token := c.Read();
    var t := token.value;
    started', value' := started, value;
    done, stop := false, Run(out, Err(UnexpectedToken));
    if !started {
      if t.kind == Colon {
        started' := true;
      } else if !IsBlank(t.kind) {
        done := true;
      }
    } else {
      if !EndsValue(t.kind) {
        value' := value + t.value;
      } else {
        done, stop := true, Run(out + [Value(Strip(value))], Ok(j));
      }
    }
  }

  /** The pair loop stops on the end of a value once the colon was seen, and on anything but a colon or a blank before. */
  lemma PairExit(ls: seq<Lexeme>, j0: nat, out: seq<Event>, j: nat, started: bool, value: string)
    requires PairResumes(ls, j0, out, j, started, value) == true
    ensures started && EndsValue(ls[j].kind) ==>
      PairLoop(ls, j0, false, "", out) == Run(out + [Value(Strip(value))], Ok(j))
    ensures !started && ls[j].kind != Colon && !IsBlank(ls[j].kind) ==>
      PairLoop(ls, j0, false, "", out) == Run(out, Err(UnexpectedToken))
  {
  }

  /** Running out of tokens inside the pair loop raises RuntimeError. */
  lemma PairRunsOut(ls: seq<Lexeme>, j0: nat, out: seq<Event>, j: nat, started: bool, value: string)
    requires PairResumes(ls, j0, out, j, started, value) == true && j + 1 == |ls|
    requires !(started && EndsValue(ls[j].kind)) && !(!started && ls[j].kind != Colon && !IsBlank(ls[j].kind))
    ensures PairLoop(ls, j0, false, "", out) == Run(out, Err(PyRuntimeError))
  {
  }

  /** A round of the pair loop that neither yields nor raises moves on to the next token. */
  lemma PairAdvance(ls: seq<Lexeme>, j0: nat, out: seq<Event>, j: nat, started: bool, value: string, started': bool, value': string)
    requires PairResumes(ls, j0, out, j, started, value) == true && j + 1 < |ls|
    requires !(started && EndsValue(ls[j].kind)) && !(!started && ls[j].kind != Colon && !IsBlank(ls[j].kind))
    requires started' == (started || ls[j].kind == Colon)
    requires value' == if started then value + ls[j].value else value
    ensures PairResumes(ls, j0, out, j + 1, started', value') == true
  {
  }

  // ---------------------------------------------------------------- parse: the object

  /**
   * One round of ObjectHook.parse with the cursor on token c: before the identifier, a
   * word is the identifier and blanks are skipped; after it, a word starts a pair and
   * blanks, newlines and eof are skipped; anything else is UnexpectedToken. Ends with the
   * cursor on the last token the round used.
   */
  function HookStep(ls: seq<Lexeme>, c: nat, identified: bool, ev: seq<Event>): (r: Run<Event>)
    requires c < |ls|
    ensures r.end.Ok? ==> c <= r.end.value < |ls|
    ensures r.end.Ok? && !(identified && ls[c].kind == Word) ==> r.end.value == c
  {
    var k := ls[c].kind;
    if !identified then
      if k == Word then Run(ev + [Ident(ls[c].value)], Ok(c))
      else if IsBlank(k) then Run(ev, Ok(c))
      else Run(ev, Err(UnexpectedToken))
    else if k == Word then Pair(ls, c, ev)
    else if IsBlank(k) || k == Newline || k == Eof then Run(ev, Ok(c))
    else Run(ev, Err(UnexpectedToken))
  }

  /** ObjectHook.parse from token c: rounds until one stops it. */
  function HookLoop(ls: seq<Lexeme>, tags: map<string, Hook>, c: nat, identified: bool, ev: seq<Event>): (r: Run<Event>)
    requires c < |ls|
    ensures r.end.Ok? ==> c <= r.end.value < |ls|
    decreases |ls| - c, 1
  {
    var s := HookStep(ls, c, identified, ev);
    if s.end.Err? then s else HookCheck(ls, tags, s.end.value, identified || ls[c].kind == Word, s.items)
  }

  /**
   * The end of each round: stop on eof, or when the next token is a registered tag
   * (leaving the cursor where it is); otherwise move on. Peeking past the end gives
   * None, whose `.type` raises AttributeError.
   */
  function HookCheck(ls: seq<Lexeme>, tags: map<string, Hook>, c: nat, identified: bool, ev: seq<Event>): (r: Run<Event>)
    requires c < |ls|
    ensures r.end.Ok? ==> c <= r.end.value < |ls|
    decreases |ls| - c, 0
  {
    if ls[c].kind == Eof then Run(ev, Ok(c))
    else if c + 1 == |ls| then Run(ev, Err(PyAttributeError))
    else if ls[c + 1].kind == Word && ResolveTag(tags, ls[c + 1].value).Some? then Run(ev, Ok(c))
    else HookLoop(ls, tags, c + 1, identified, ev)
  }

  /** The dispatch on the current token in one round of ObjectHook.parse. */
  method ParseToken(c: Streamer<Token>, at: nat, identified: bool, ev: seq<Event>) returns (r: Run<Event>, nowIdentified: bool)
    requires c.Valid() && c.At(at)
    modifies c
    ensures r == HookStep(Shapes(c.src), at, identified, ev)
    ensures nowIdentified == (identified || Shapes(c.src)[at].kind == Word)
    ensures r.end.Ok? ==> c.Valid() && c.At(r.end.value)
  {
    var token := c.Read();
    var t := token.value;
    assert Shapes(c.src)[at] == Shape(t);
    nowIdentified := identified || t.kind == Word;
    if !identified {
      if t.kind == Word {
        r := Run(ev + [Ident(t.value)], Ok(at));
      } else if !IsBlank(t.kind) {
        r := Run(ev, Err(UnexpectedToken));
      } else {
        r := Run(ev, Ok(at));
      }
    } else {
      if t.kind == Word {
        r := ParsePair(c, at, ev);
      } else if !(IsBlank(t.kind) || t.kind == Newline || t.kind == Eof) {
        r := Run(ev, Err(UnexpectedToken));
      } else {
        r := Run(ev, Ok(at));
      }
    }
  }

  /** ObjectHook.parse with the cursor on token `at`: ends on eof or before a registered tag. */
  method Parse(c: Streamer<Token>, at: nat, tags: map<string, Hook>, ev: seq<Event>) returns (r: Run<Event>)
    requires c.Valid() && c.At(at)
    modifies c
    ensures r == HookLoop(Shapes(c.src), tags, at, false, ev)
    ensures r.end.Ok? ==> c.Valid() && c.At(r.end.value)
  {
    var cur := at;
    var identified := false;
    var out := ev;
    while true
      invariant c.Valid() && c.At(cur)
      invariant HookResumes(Shapes(c.src), tags, at, ev, cur, identified, out) == true
      decreases |c.src| - cur
    {
      var done;
      done, r, cur, identified, out := HookRound(c, tags, at, ev, cur, identified, out);
      if done {
        return;
      }
    }
  }

  /** One round of the loop in ObjectHook.parse: a token, then the look at what follows it. */
  method HookRound(c: Streamer<Token>, tags: map<string, Hook>, ghost at: nat, ghost ev: seq<Event>,
                   cur: nat, identified: bool, out: seq<Event>)
    returns (done: bool, r: Run<Event>, cur': nat, identified': bool, out': seq<Event>)
    requires c.Valid() && c.At(cur) && HookResumes(Shapes(c.src), tags, at, ev, cur, identified, out) == true
    modifies c
    ensures done ==> r == HookLoop(Shapes(c.src), tags, at, false, ev) && (r.end.Ok? ==> c.Valid() && c.At(r.end.value))
    ensures !done ==> cur < cur' && c.Valid() && c.At(cur')
    ensures !done ==> HookResumes(Shapes(c.src), tags, at, ev, cur', identified', out') == true
  {
    ghost var ls := Shapes(c.src);
    var s, id := ParseToken(c, cur, identified, out);
    if s.end.Err? {
      StepFails(ls, tags, at, ev, cur, identified, out, s);
      return true, s, cur, identified, out;
    }
    StepThenCheck(ls, tags, at, ev, cur, identified, out, s, id);
    identified', out', cur' := id, s.items, s.end.value;
    var stop, failed := RoundEnd(c, cur', tags);
    if stop {
      CheckStops(ls, tags, at, ev, cur', identified', out');
      return true, Run(out', Ok(cur')), cur', identified', out';
    }
    if failed {
      CheckFails(ls, tags, at, ev, cur', identified', out');
      return true, Run(out', Err(PyAttributeError)), cur', identified', out';
    }
    CheckMoves(ls, tags, at, ev, cur', identified', out');
    cur' := cur' + 1;
    done, r := false, Run(out', Ok(cur'));
  }

  /** ObjectHook.parse from token `at` has reached the start of a round at token c. */
  predicate HookResumes(ls: seq<Lexeme>, tags: map<string, Hook>, at: nat, ev: seq<Event>, c: nat, identified: bool, out: seq<Event>) {
    at <= c < |ls| && HookLoop(ls, tags, at, false, ev) == HookLoop(ls, tags, c, identified, out)
  }

  /** ObjectHook.parse from token `at` has reached the end of a round at token c. */
  predicate CheckResumes(ls: seq<Lexeme>, tags: map<string, Hook>, at: nat, ev: seq<Event>, c: nat, identified: bool, out: seq<Event>) {
    at <= c < |ls| && HookLoop(ls, tags, at, false, ev) == HookCheck(ls, tags, c, identified, out)
  }

  lemma StepFails(ls: seq<Lexeme>, tags: map<string, Hook>, at: nat, ev: seq<Event>, c: nat, identified: bool, out: seq<Event>,
                  s: Run<Event>)
    requires HookResumes(ls, tags, at, ev, c, identified, out) == true
    requires s == HookStep(ls, c, identified, out) && s.end.Err?
    ensures HookLoop(ls, tags, at, false, ev) == s
  {
  }

  lemma StepThenCheck(ls: seq<Lexeme>, tags: map<string, Hook>, at: nat, ev: seq<Event>, c: nat, identified: bool, out: seq<Event>,
                      s: Run<Event>, identified': bool)
    requires HookResumes(ls, tags, at, ev, c, identified, out) == true
    requires s == HookStep(ls, c, identified, out) && s.end.Ok?
    requires identified' == (identified || ls[c].kind == Word)
    ensures CheckResumes(ls, tags, at, ev, s.end.value, identified', s.items) == true
  {
  }

  lemma CheckStops(ls: seq<Lexeme>, tags: map<string, Hook>, at: nat, ev: seq<Event>, c: nat, identified: bool, out: seq<Event>)
    requires CheckResumes(ls, tags, at, ev, c, identified, out) == true
    requires ls[c].kind == Eof || (c + 1 < |ls| && ls[c + 1].kind == Word && ls[c + 1].value in tags)
    ensures HookLoop(ls, tags, at, false, ev) == Run(out, Ok(c))
  {
  }

  lemma CheckFails(ls: seq<Lexeme>, tags: map<string, Hook>, at: nat, ev: seq<Event>, c: nat, identified: bool, out: seq<Event>)
    requires CheckResumes(ls, tags, at, ev, c, identified, out) == true
    requires ls[c].kind != Eof && c + 1 == |ls|
    ensures HookLoop(ls, tags, at, false, ev) == Run(out, Err(PyAttributeError))
  {
  }

  lemma CheckMoves(ls: seq<Lexeme>, tags: map<string, Hook>, at: nat, ev: seq<Event>, c: nat, identified: bool, out: seq<Event>)
    requires CheckResumes(ls, tags, at, ev, c, identified, out) == true
    requires c + 1 < |ls| && ls[c].kind != Eof && !(ls[c + 1].kind == Word && ls[c + 1].value in tags)
    ensures HookResumes(ls, tags, at, ev, c + 1, identified, out) == true
  {
  }

  /**
   * The end of a round of ObjectHook.parse: peek, stop on eof or before a registered tag,
   * raise AttributeError when the peek found nothing, and otherwise move to the next token.
   */
  method RoundEnd(c: Streamer<Token>, cur: nat, tags: map<string, Hook>) returns (stop: bool, failed: bool)
    requires c.Valid() && c.At(cur)
    modifies c
    ensures c.Valid()
    ensures stop == (c.src[cur].kind == Eof ||
                     (cur + 1 < |c.src| && c.src[cur + 1].kind == Word && c.src[cur + 1].value in tags))
    ensures failed == (!stop && cur + 1 == |c.src|)
    ensures stop ==> c.At(cur)
    ensures !stop && !failed ==> c.At(cur + 1)
  {
    var peeked := c.Peek();
    var now := c.Read();
    if now.value.kind == Eof {
      return true, false;
    }
    if peeked.None? {
      return false, true;
    }
    if peeked.value.kind == Word && ResolveTag(tags, peeked.value.value).Some? {
      return true, false;
    }
    var _ := c.Next();
    return false, false;
  }

  // ---------------------------------------------------------------- compose

  /**
   * `compose` with the cursor on the tag_start at c, over the events `es` of a producer
   * that raises `failure` (None: StopIteration) after them. The next event must be the
   * identifier; then each key event and the value event after it make a pair node, any
   * other event is stepped over, and the tag_end closes the node, the cursor left on it.
   * StopIteration is reported by the composer as ASTError.
   */
  function Compose(es: seq<Event>, failure: Option<ErrorKind>, hook: Hook, c: nat): (r: Result<(Node, nat), ErrorKind>)
    requires c < |es|
    ensures r.Ok? ==> c + 1 < r.value.1 < |es| && es[r.value.1].TagEnd?
    ensures r.Ok? ==> es[c + 1].Ident? && PlainObject(r.value.0) && r.value.0.tag == hook.tag && r.value.0.name == es[c + 1].name
  {
    if c + 1 == |es| then Err(Exhausted(failure, ASTError))
    else if !es[c + 1].Ident? then Err(UnexpectedEvent)
    else ComposeLoop(es, failure, hook, es[c + 1].name, c + 1, [])
  }

  /** The loop of `compose` at event j with the pair nodes built so far. */
  function ComposeLoop(es: seq<Event>, failure: Option<ErrorKind>, hook: Hook, name: string, j: nat, children: seq<Node>)
    : (r: Result<(Node, nat), ErrorKind>)
    requires j < |es|
    ensures r.Ok? ==> j <= r.value.1 < |es| && es[r.value.1].TagEnd?
    ensures r.Ok? ==> var n := r.value.0;
      n.TagNode? && n.tag == hook.tag && n.name == name && (PlainPairs(children) ==> PlainPairs(n.children))
    decreases |es| - j
  {
    var e := es[j];
    if e.Key? then
      if j + 1 == |es| then Err(Exhausted(failure, ASTError))
      else if !es[j + 1].Value? then Err(UnexpectedEvent)
      else if j + 2 == |es| then Err(Exhausted(failure, ASTError))
      else ComposeLoop(es, failure, hook, name, j + 2, children + [KeyValueNode(e.key, ScalarNode(es[j + 1].text))])
    else if e.TagEnd? then Ok((TagNode(hook.tag, name, children), j))
    else if j + 1 == |es| then Err(Exhausted(failure, ASTError))
    else ComposeLoop(es, failure, hook, name, j + 1, children)
  }

  /** ObjectHook.compose on a cursor over the events, standing on the tag_start at `at`. */
  method ComposeAt(c: Streamer<Event>, failure: Option<ErrorKind>, hook: Hook, at: nat) returns (r: Result<(Node, nat), ErrorKind>)
    requires c.Valid() && c.At(at)
    modifies c
    ensures r == Compose(c.src, failure, hook, at)
    ensures r.Ok? ==> c.Valid() && c.At(r.value.1)
  {
    var ident := c.Next();
    if ident.None? {
      return Err(Exhausted(failure, ASTError));
    }
    if !ident.value.Ident? {
      return Err(UnexpectedEvent);
    }
    var name := ident.value.name;
    ComposeStarts(c.src, failure, hook, at);
    var j, children := at + 1, [];
    while true
      invariant c.Valid() && c.At(j)
      invariant ComposeResumes(c.src, failure, hook, at, name, j, children) == true
      decreases |c.src| - j
    {
      var done, res, j', children' := ComposeRound(c, failure, hook, at, name, j, children);
      if done {
        return res;
      }
      j, children := j', children';
    }
  }

  /** One round of the loop of `compose`: the event at j either ends the call or is taken and stepped past. */
  method ComposeRound(c: Streamer<Event>, failure: Option<ErrorKind>, hook: Hook, at: nat, name: string, j: nat, children: seq<Node>)
    returns (done: bool, r: Result<(Node, nat), ErrorKind>, j': nat, children': seq<Node>)
    requires c.Valid() && c.At(j)
    requires ComposeResumes(c.src, failure, hook, at, name, j, children) == true
    modifies c
    ensures done ==> r == Compose(c.src, failure, hook, at) && (r.Ok? ==> c.Valid() && c.At(r.value.1))
    ensures !done ==> j < j' && c.Valid() && c.At(j') && ComposeResumes(c.src, failure, hook, at, name, j', children') == true
  {
    j', children' := j, children;
    var e := c.Read();
    if e.value.Key? {
      var v := c.Next();
      if v.None? {
        ComposeRunsOut(c.src, failure, hook, at, name, j, children);
        return true, Err(Exhausted(failure, ASTError)), j', children';
      }
      if !v.value.Value? {
        ComposeNoValue(c.src, failure, hook, at, name, j, children);
        return true, Err(UnexpectedEvent), j', children';
      }
      children' := children + [KeyValueNode(e.value.key, ScalarNode(v.value.text))];
      j' := j + 1;
    }
    if e.value.TagEnd? {
      ComposeCloses(c.src, failure, hook, at, name, j, children);
      return true, Ok((TagNode(hook.tag, name, children), j)), j', children';
    }
    var n := c.Next();
    if n.None? {
      ComposeRunsOut(c.src, failure, hook, at, name, j, children);
      return true, Err(Exhausted(failure, ASTError)), j', children';
    }
    ComposeMoves(c.src, failure, hook, at, name, j, children);
    done, r, j' := false, Err(ASTError), j' + 1;
  }

  /** `compose` from the tag_start at `at` has reached event j: the rest is the loop from j. */
  predicate ComposeResumes(es: seq<Event>, failure: Option<ErrorKind>, hook: Hook, at: nat, name: string, j: nat, children: seq<Node>) {
    at < j < |es| && Compose(es, failure, hook, at) == ComposeLoop(es, failure, hook, name, j, children)
  }

  lemma ComposeStarts(es: seq<Event>, failure: Option<ErrorKind>, hook: Hook, at: nat)
    requires at + 1 < |es| && es[at + 1].Ident?
    ensures ComposeResumes(es, failure, hook, at, es[at + 1].name, at + 1, []) == true
  {
  }

  lemma ComposeRunsOut(es: seq<Event>, failure: Option<ErrorKind>, hook: Hook, at: nat, name: string, j: nat, children: seq<Node>)
    requires ComposeResumes(es, failure, hook, at, name, j, children) == true
    requires if es[j].Key? then j + 1 == |es| || (es[j + 1].Value? && j + 2 == |es|) else !es[j].TagEnd? && j + 1 == |es|
    ensures Compose(es, failure, hook, at) == Err(Exhausted(failure, ASTError))
  {
  }

  lemma ComposeNoValue(es: seq<Event>, failure: Option<ErrorKind>, hook: Hook, at: nat, name: string, j: nat, children: seq<Node>)
    requires ComposeResumes(es, failure, hook, at, name, j, children) == true
    requires es[j].Key? && j + 1 < |es| && !es[j + 1].Value?
    ensures Compose(es, failure, hook, at) == Err(UnexpectedEvent)
  {
  }

  lemma ComposeCloses(es: seq<Event>, failure: Option<ErrorKind>, hook: Hook, at: nat, name: string, j: nat, children: seq<Node>)
    requires ComposeResumes(es, failure, hook, at, name, j, children) == true
    requires es[j].TagEnd?
    ensures Compose(es, failure, hook, at) == Ok((TagNode(hook.tag, name, children), j))
  {
  }

  lemma ComposeMoves(es: seq<Event>, failure: Option<ErrorKind>, hook: Hook, at: nat, name: string, j: nat, children: seq<Node>)
    requires ComposeResumes(es, failure, hook, at, name, j, children) == true
    requires if es[j].Key? then j + 2 < |es| && es[j + 1].Value? else !es[j].TagEnd? && j + 1 < |es|
    ensures es[j].Key? ==>
      ComposeResumes(es, failure, hook, at, name, j + 2, children + [KeyValueNode(es[j].key, ScalarNode(es[j + 1].text))]) == true
    ensures !es[j].Key? ==> ComposeResumes(es, failure, hook, at, name, j + 1, children) == true
  {
  }

  // ---------------------------------------------------------------- construct

  /** Every child is a pair node with a scalar value: the only children compose and represent build. */
  predicate PlainPairs(children: seq<Node>) {
    forall i :: 0 <= i < |children| ==> children[i].KeyValueNode? && children[i].val.ScalarNode?
  }

  predicate PlainObject(n: Node) {
    n.TagNode? && PlainPairs(n.children)
  }

  /** The keys of a node's pair children, in order. */
  function PairKeys(children: seq<Node>): (ks: seq<string>)
    requires PlainPairs(children)
    ensures |ks| == |children| && forall i :: 0 <= i < |ks| ==> ks[i] == children[i].key
  {
    seq(|children|, i requires 0 <= i < |children| => children[i].key)
  }

  /**
   * `construct`: the dict of a node's pairs, in order, each scalar value read by
   * `resolve_type`. A child that is not a pair is UnexpectedNode, a key met twice is
   * DuplicateIdentifierNode and a value that is not a scalar is NotImplementedError.
   */
  function Construct(hooks: seq<TypeHook>, children: seq<Node>): Result<Fields, ErrorKind> {
    ConstructFrom(hooks, children, [])
  }

  /** The loop of `construct` over the remaining children, with `res` filled so far. */
  function ConstructFrom(hooks: seq<TypeHook>, children: seq<Node>, res: Fields): (r: Result<Fields, ErrorKind>)
    ensures r.Ok? ==> PlainPairs(children) && |r.value| == |res| + |children| && r.value[..|res|] == res
    ensures r.Ok? ==> forall i :: 0 <= i < |children| ==>
      r.value[|res| + i] == (children[i].key, ResolveType(hooks, children[i].val.text))
    decreases |children|
  {
    if children == [] then Ok(res)
    else
      var ch := children[0];
      if !ch.KeyValueNode? then Err(UnexpectedNode)
      else if !ch.val.ScalarNode? then Err(PyNotImplementedError)
      else if ch.key in Keys(res) then Err(DuplicateIdentifierNode)
      else
        var r := ConstructFrom(hooks, children[1..], res + [(ch.key, ResolveType(hooks, ch.val.text))]);
        assert r.Ok? ==> forall i :: 1 <= i < |children| ==> children[i] == children[1..][i - 1];
        r
  }

  /** ObjectHook.construct, reading each scalar through the type-hook registry. */
  method ConstructNode(types: TypeRegistry, n: Node) returns (r: Result<Fields, ErrorKind>)
    requires n.TagNode?
    ensures r == Construct(types.hooks, n.children)
  {
    var res: Fields := [];
    for k := 0 to |n.children|
      invariant Construct(types.hooks, n.children) == ConstructFrom(types.hooks, n.children[k..], res)
    {
      var child := n.children[k];
      assert n.children[k..][0] == child && n.children[k..][1..] == n.children[k + 1..];
      if child.KeyValueNode? {
        if child.val.ScalarNode? {
          if child.key !in Keys(res) {
            var v := types.Resolve(child.val.text);
            res := res + [(child.key, v)];
          } else {
            return Err(DuplicateIdentifierNode);
          }
        } else {
          return Err(PyNotImplementedError);
        }
      } else {
        return Err(UnexpectedNode);
      }
    }
    assert n.children[|n.children|..] == [];
    r := Ok(res);
  }

  /** `construct` succeeds exactly on plain pairs with distinct keys. */
  lemma {:induction false} ConstructSucceeds(hooks: seq<TypeHook>, children: seq<Node>, res: Fields)
    requires Distinct(Keys(res))
    ensures ConstructFrom(hooks, children, res).Ok? <==>
      PlainPairs(children) && Distinct(Keys(res) + PairKeys(children))
    decreases |children|
  {
    if children == [] {
      assert Keys(res) + PairKeys(children) == Keys(res);
    } else {
      var ch := children[0];
      if ch.KeyValueNode? && ch.val.ScalarNode? {
        var res' := res + [(ch.key, ResolveType(hooks, ch.val.text))];
        assert forall i :: 1 <= i < |children| ==> children[i] == children[1..][i - 1];
        assert PlainPairs(children) <==> PlainPairs(children[1..]);
        assert Keys(res') == Keys(res) + [ch.key];
        if ch.key in Keys(res) {
          var i :| 0 <= i < |res| && Keys(res)[i] == ch.key;
          if PlainPairs(children) {
            var all := Keys(res) + PairKeys(children);
            assert all[i] == all[|res|];
          }
        } else {
          ConstructSucceeds(hooks, children[1..], res');
          if PlainPairs(children) {
            assert Keys(res) + PairKeys(children) == Keys(res') + PairKeys(children[1..]);
          }
        }
      } else {
        assert !PlainPairs(children);
      }
    }
  }

  // ---------------------------------------------------------------- represent

  /**
   * The loop of `represent` over a dict's items: each str key and the text of its value
   * (`represent_type`) make a pair node. A key that is not a str is InvalidObjectError;
   * an error of `represent_type` propagates.
   */
  function RepresentPairs(hooks: seq<TypeHook>, items: seq<(PyValue, PyValue)>): (r: Result<seq<Node>, ErrorKind>)
    ensures r.Ok? <==> forall i :: 0 <= i < |items| ==> items[i].0.PyStr? && RepresentType(hooks, items[i].1).Ok?
    ensures r.Ok? ==> |r.value| == |items| && forall i :: 0 <= i < |items| ==>
      r.value[i] == KeyValueNode(items[i].0.s, ScalarNode(RepresentType(hooks, items[i].1).value))
  {
    if items == [] then Ok([])
    else
      var (k, v) := items[0];
      assert forall i :: 1 <= i < |items| ==> items[i] == items[1..][i - 1];
      if !k.PyStr? then Err(InvalidObjectError)
      else match RepresentType(hooks, v)
        case Err(e) => Err(e)
        case Ok(text) =>
          match RepresentPairs(hooks, items[1..])
          case Err(e) => Err(e)
          case Ok(rest) => Ok([KeyValueNode(k.s, ScalarNode(text))] + rest)
  }

  /** `represent`: a dict becomes an ObjectNode under the hook's tag; anything else is InvalidObjectError. */
  function Represent(hook: Hook, hooks: seq<TypeHook>, name: string, v: PyValue): (r: Result<Node, ErrorKind>)
    ensures !v.PyDict? ==> r == Err(InvalidObjectError)
    ensures v.PyDict? ==> r.Ok? == RepresentPairs(hooks, v.items).Ok?
    ensures r.Ok? ==>
      && PlainObject(r.value) && r.value.tag == hook.tag && r.value.name == name
      && r.value.children == RepresentPairs(hooks, v.items).value
  {
    if !v.PyDict? then Err(InvalidObjectError)
    else match RepresentPairs(hooks, v.items)
      case Err(e) => Err(e)
      case Ok(children) => Ok(TagNode(hook.tag, name, children))
  }

  /**
   * Represent then construct: the fields of an object come back when their keys are
   * distinct and every value's text reads back as the value.
   */
  lemma ConstructRepresented(hook: Hook, hooks: seq<TypeHook>, name: string, fs: Fields)
    requires Distinct(Keys(fs))
    requires forall i :: 0 <= i < |fs| ==>
      RepresentType(hooks, fs[i].1).Ok? && ResolveType(hooks, RepresentType(hooks, fs[i].1).value) == fs[i].1
    ensures Represent(hook, hooks, name, FieldsToPy(fs)).Ok?
    ensures Construct(hooks, Represent(hook, hooks, name, FieldsToPy(fs)).value.children) == Ok(fs)
  {
    RepresentedFields(hooks, fs);
    var children := RepresentPairs(hooks, FieldsToPy(fs).items).value;
    assert Represent(hook, hooks, name, FieldsToPy(fs)).value.children == children;
    ConstructReadsBack(hooks, fs, children);
  }

  /** The pair nodes of an object whose values all have a text. */
  lemma RepresentedFields(hooks: seq<TypeHook>, fs: Fields)
    requires forall i :: 0 <= i < |fs| ==> RepresentType(hooks, fs[i].1).Ok?
    ensures var rp := RepresentPairs(hooks, FieldsToPy(fs).items);
      && rp.Ok? && |rp.value| == |fs|
      && forall i :: 0 <= i < |fs| ==> rp.value[i] == KeyValueNode(fs[i].0, ScalarNode(RepresentType(hooks, fs[i].1).value))
  {
    var items := FieldsToPy(fs).items;
    assert |items| == |fs| && forall i :: 0 <= i < |fs| ==> items[i] == (PyStr(fs[i].0), fs[i].1);
  }

  /** Pair nodes carrying an object's keys, in order, with texts that read back as its values construct to it. */
  lemma ConstructReadsBack(hooks: seq<TypeHook>, fs: Fields, children: seq<Node>)
    requires Distinct(Keys(fs)) && |children| == |fs|
    requires forall i :: 0 <= i < |fs| ==>
      && children[i].KeyValueNode? && children[i].key == fs[i].0 && children[i].val.ScalarNode?
      && ResolveType(hooks, children[i].val.text) == fs[i].1
    ensures Construct(hooks, children) == Ok(fs)
  {
    assert PlainPairs(children);
    assert Keys<PyValue>([]) + PairKeys(children) == Keys(fs);
    ConstructSucceeds(hooks, children, []);
    var r := ConstructFrom(hooks, children, []).value;
    assert |r| == |fs|;
    assert forall i :: 0 <= i < |fs| ==> r[i] == fs[i];
    assert r == fs;
  }

  // ---------------------------------------------------------------- serialize

  /** The events of plain pair nodes: key, value, for each in turn. */
  function PairEvents(children: seq<Node>): (es: seq<Event>)
    requires PlainPairs(children)
    ensures |es| == 2 * |children|
    ensures forall i :: 0 <= i < |children| ==>
      es[2 * i] == Key(children[i].key) && es[2 * i + 1] == Value(children[i].val.text)
  {
    if children == [] then []
    else
      assert forall i :: 1 <= i < |children| ==> children[i] == children[1..][i - 1];
      [Key(children[0].key), Value(children[0].val.text)] + PairEvents(children[1..])
  }

  /** The events of a plain object under a tag. */
  function ObjectEvents(tag: string, n: Node): seq<Event>
    requires PlainObject(n)
  {
    [TagStart(tag), Ident(n.name)] + PairEvents(n.children) + [TagEnd(tag)]
  }

  /** The children `serialize` gets through: pair nodes whose values are not construct nodes. */
  predicate SerializablePairs(children: seq<Node>) {
    forall i :: 0 <= i < |children| ==> children[i].KeyValueNode? && !children[i].val.TagNode?
  }

  /** The value event of a pair: the text of a scalar value, or the pair value's own value node as it is. */
  function PairValueEvent(p: Node): Event
    requires p.KeyValueNode? && !p.val.TagNode?
  {
    if p.val.ScalarNode? then Value(p.val.text) else NodeValue(p.val.val)
  }

  /**
   * The loop of `serialize` over the children: a key and a value event per pair, the
   * value event carrying `child.value.value`. A child that is not a pair is
   * SerializationError; a value that is a tag node has no `value`, which is AttributeError.
   */
  function SerializePairs(children: seq<Node>): (r: Stream<Event>)
    ensures r.failure.None? <==> SerializablePairs(children)
    ensures r.failure.Some? ==> r.failure.value == SerializationError || r.failure.value == PyAttributeError
    ensures r.failure.None? ==> |r.items| == 2 * |children|
    ensures r.failure.None? ==> forall i :: 0 <= i < |children| ==>
      r.items[2 * i] == Key(children[i].key) && r.items[2 * i + 1] == PairValueEvent(children[i])
  {
    if children == [] then Stream([], None)
    else
      var ch := children[0];
      assert forall i :: 1 <= i < |children| ==> children[i] == children[1..][i - 1];
      if !ch.KeyValueNode? then Stream([], Some(SerializationError))
      else if ch.val.TagNode? then Stream([Key(ch.key)], Some(PyAttributeError))
      else
        var rest := SerializePairs(children[1..]);
        Stream([Key(ch.key), PairValueEvent(ch)] + rest.items, rest.failure)
  }

  /** Plain pairs serialize to their key and value texts. */
  lemma SerializePlainPairs(children: seq<Node>)
    ensures PlainPairs(children) ==> SerializePairs(children) == Stream(PairEvents(children), None)
  {
    if PlainPairs(children) {
      var r := SerializePairs(children);
      assert SerializablePairs(children);
      assert |r.items| == |PairEvents(children)|;
      forall k | 0 <= k < |r.items| ensures r.items[k] == PairEvents(children)[k] {
        var i := k / 2;
        assert k == 2 * i || k == 2 * i + 1;
      }
    }
  }

  /** `serialize`: tag_start and the identifier, the pairs, then tag_end, under the hook's tag. */
  function Serialize(hook: Hook, n: Node): (r: Stream<Event>)
    requires n.TagNode?
    ensures r.failure.None? <==> SerializablePairs(n.children)
    ensures PlainObject(n) ==> r == Stream(ObjectEvents(hook.tag, n), None)
    ensures |r.items| >= 2 && r.items[..2] == [TagStart(hook.tag), Ident(n.name)]
  {
    var body := SerializePairs(n.children);
    SerializePlainPairs(n.children);
    Stream([TagStart(hook.tag), Ident(n.name)] + body.items + (if body.failure.None? then [TagEnd(hook.tag)] else []),
           body.failure)
  }

  /** The events from c on are those of the plain object n under the tag. */
  predicate ObjectAt(es: seq<Event>, c: nat, tag: string, n: Node)
    requires PlainObject(n)
  {
    && c + 2 * |n.children| + 3 <= |es|
    && es[c] == TagStart(tag) && es[c + 1] == Ident(n.name)
    && PairsAt(es, c + 2, n.children) && es[c + 2 + 2 * |n.children|] == TagEnd(tag)
  }

  lemma ObjectAtSlice(es: seq<Event>, c: nat, tag: string, n: Node)
    requires PlainObject(n)
    requires c + |ObjectEvents(tag, n)| <= |es| && es[c..c + |ObjectEvents(tag, n)|] == ObjectEvents(tag, n)
    ensures ObjectAt(es, c, tag, n)
  {
    var evs := ObjectEvents(tag, n);
    var m := |n.children|;
    assert |evs| == 2 * m + 3;
    assert forall k :: 0 <= k < |evs| ==> es[c + k] == evs[k];
    assert es[c + 1] == evs[1] == Ident(n.name);
    assert es[c + 2 + 2 * m] == evs[2 + 2 * m] == TagEnd(tag);
    assert PairsAt(es, c + 2, n.children) by {
      forall i | 0 <= i < m
        ensures es[c + 2 + 2 * i] == Key(n.children[i].key) && es[c + 2 + 2 * i + 1] == Value(n.children[i].val.text)
      {
        assert evs[2 + 2 * i] == PairEvents(n.children)[2 * i];
        assert evs[2 + 2 * i + 1] == PairEvents(n.children)[2 * i + 1];
      }
    }
  }

  /** Serialize then compose: the events of a plain object compose back into the object. */
  lemma ComposeSerialized(es: seq<Event>, failure: Option<ErrorKind>, hook: Hook, c: nat, n: Node)
    requires PlainObject(n) && ObjectAt(es, c, hook.tag, n)
    ensures Compose(es, failure, hook, c) == Ok((TagNode(hook.tag, n.name, n.children), c + 2 * |n.children| + 2))
  {
    ComposePairs(es, failure, hook, n.name, c + 2, [], n.children);
    assert [] + n.children == n.children;
    ComposeOpens(es, failure, hook, c);
  }

  /** Past the tag_start and the identifier, compose is its loop with no pairs yet. */
  lemma ComposeOpens(es: seq<Event>, failure: Option<ErrorKind>, hook: Hook, c: nat)
    requires c + 2 < |es| && es[c + 1].Ident?
    ensures Compose(es, failure, hook, c) == ComposeLoop(es, failure, hook, es[c + 1].name, c + 2, [])
  {
  }

  /** The events from j on start with a key and a value event for each of the plain pairs. */
  predicate PairsAt(es: seq<Event>, j: nat, ps: seq<Node>)
    requires PlainPairs(ps)
  {
    j + 2 * |ps| <= |es| &&
    forall i :: 0 <= i < |ps| ==> es[j + 2 * i] == Key(ps[i].key) && es[j + 2 * i + 1] == Value(ps[i].val.text)
  }

  /** The compose loop over the events of plain pairs, up to a tag_end, adds those pairs. */
  lemma {:induction false} ComposePairs(es: seq<Event>, failure: Option<ErrorKind>, hook: Hook, name: string, j: nat,
                                        done: seq<Node>, rest: seq<Node>)
    requires PlainPairs(rest) && PairsAt(es, j, rest)
    requires j + 2 * |rest| < |es| && es[j + 2 * |rest|].TagEnd?
    ensures ComposeLoop(es, failure, hook, name, j, done) == Ok((TagNode(hook.tag, name, done + rest), j + 2 * |rest|))
    decreases |rest|
  {
    if rest == [] {
      assert done + rest == done;
    } else {
      var p := rest[0];
      PairsAtRest(es, j, rest);
      ComposePairs(es, failure, hook, name, j + 2, done + [KeyValueNode(p.key, ScalarNode(p.val.text))], rest[1..]);
      assert done + [KeyValueNode(p.key, ScalarNode(p.val.text))] + rest[1..] == done + rest;
    }
  }

  // ---------------------------------------------------------------- emit

  /** The text `emit` adds for an event of the construct's body. */
  function EmitPiece(e: Event): string {
    match e
    case Ident(name) => " " + name + "\n"
    case Key(key) => "    " + key + ": "
    case Value(text) => text + "\n"
    case _ => ""
  }

  /**
   * `emit` with the cursor on event c: the text of one construct, starting with the
   * hook's tag and leaving the cursor on the tag_end. The identifier must come first;
   * after it keys and values are written until the tag_end, and any other event is
   * EmitterError. A value that is a node cannot be added to the text: TypeError.
   * StopIteration is reported by the emitter as EmitterError.
   */
  function Emit(es: seq<Event>, failure: Option<ErrorKind>, hook: Hook, c: nat): (r: Result<(string, nat), ErrorKind>)
    requires c < |es|
    ensures r.Ok? ==> c < r.value.1 < |es| && es[r.value.1].TagEnd?
  {
    if !es[c].TagStart? && EventValue(es[c]) != Some(hook.tag) then Err(EmitterError)
    else if c + 1 == |es| then Err(Exhausted(failure, EmitterError))
    else EmitLoop(es, failure, c + 1, false, hook.tag)
  }

  /** The loop of `emit` at event j with the text written so far. */
  function EmitLoop(es: seq<Event>, failure: Option<ErrorKind>, j: nat, identified: bool, content: string)
    : (r: Result<(string, nat), ErrorKind>)
    requires j < |es|
    ensures r.Ok? ==> j <= r.value.1 < |es| && es[r.value.1].TagEnd?
    decreases |es| - j
  {
    var e := es[j];
    if !identified && !e.Ident? then Err(EmitterError)
    else if identified && e.TagEnd? then Ok((content, j))
    else if identified && e.NodeValue? then Err(PyTypeError)
    else if identified && !e.Key? && !e.Value? then Err(EmitterError)
    else if j + 1 == |es| then Err(Exhausted(failure, EmitterError))
    else EmitLoop(es, failure, j + 1, true, content + EmitPiece(e))
  }

  /** ObjectHook.emit on a cursor over the events, standing on event `at`. */
  method EmitAt(c: Streamer<Event>, failure: Option<ErrorKind>, hook: Hook, at: nat) returns (r: Result<(string, nat), ErrorKind>)
    requires c.Valid() && c.At(at)
    modifies c
    ensures r == Emit(c.src, failure, hook, at)
    ensures r.Ok? ==> c.Valid() && c.At(r.value.1)
  {
    var nextEvent := c.Read();
    if !nextEvent.value.TagStart? && EventValue(nextEvent.value) != Some(hook.tag) {
      return Err(EmitterError);
    }
    var n := c.Next();
    if n.None? {
      return Err(Exhausted(failure, EmitterError));
    }
    EmitStarts(c.src, failure, hook, at);
    r := EmitRounds(c, failure, hook, at);
  }

  /** The `while True` loop of `emit`, entered with the cursor on the event after `at`. */
  method EmitRounds(c: Streamer<Event>, failure: Option<ErrorKind>, hook: Hook, at: nat) returns (r: Result<(string, nat), ErrorKind>)
    requires c.Valid() && c.At(at + 1)
    requires EmitResumes(c.src, failure, hook, at, at + 1, false, hook.tag) == true
    modifies c
    ensures r == Emit(c.src, failure, hook, at)
    ensures r.Ok? ==> c.Valid() && c.At(r.value.1)
  {
    var j, identified, content := at + 1, false, hook.tag;
    while true
      invariant c.Valid() && c.At(j)
      invariant EmitResumes(c.src, failure, hook, at, j, identified, content) == true
      decreases |c.src| - j
    {
      var done, res, content' := EmitRound(c, failure, hook, at, j, identified, content);
      if done {
        return res;
      }
      j, identified, content := j + 1, true, content';
    }
  }

  /** One round of the loop of `emit`: the event at j either ends the call or is written and stepped past. */
  method EmitRound(c: Streamer<Event>, failure: Option<ErrorKind>, hook: Hook, at: nat, j: nat, identified: bool, content: string)
    returns (done: bool, r: Result<(string, nat), ErrorKind>, content': string)
    requires c.Valid() && c.At(j)
    requires EmitResumes(c.src, failure, hook, at, j, identified, content) == true
    modifies c
    ensures done ==> r == Emit(c.src, failure, hook, at) && (r.Ok? ==> c.Valid() && c.At(r.value.1))
    ensures !done ==> c.Valid() && c.At(j + 1) && EmitResumes(c.src, failure, hook, at, j + 1, true, content') == true
  {
    var reject, mistyped, close;
    reject, mistyped, close, content' := EmitToken(c, j, identified, content);
    if mistyped {
      EmitMistyped(c.src, failure, hook, at, j, content);
      return true, Err(PyTypeError), content';
    }
    if reject {
      EmitFails(c.src, failure, hook, at, j, identified, content);
      return true, Err(EmitterError), content';
    }
    if close {
      EmitCloses(c.src, failure, hook, at, j, identified, content);
      return true, Ok((content, j)), content';
    }
    var next := c.Next();
    if next.None? {
      EmitRunsOut(c.src, failure, hook, at, j, identified, content);
      return true, Err(Exhausted(failure, EmitterError)), content';
    }
    EmitMoves(c.src, failure, hook, at, j, identified, content);
    done, r := false, Err(EmitterError);
  }

  /** The dispatch on the current event in one round of `emit`. */
  method EmitToken(c: Streamer<Event>, j: nat, identified: bool, content: string)
    returns (reject: bool, mistyped: bool, close: bool, content': string)
    requires c.Valid() && c.At(j)
    modifies c
    ensures unchanged(c)
    ensures reject == EmitRejects(c.src[j], identified)
    ensures mistyped == (identified && c.src[j].NodeValue?)
    ensures close == (identified && c.src[j].TagEnd?)
    ensures !reject && !close ==> content' == content + EmitPiece(c.src[j])
  {
    var e := c.Read();
    assert e.value == c.src[j];
    reject, mistyped, close, content' := false, false, false, content;
    if !identified {
      if e.value.Ident? {
        content' := content + " " + e.value.name + "\n";
      } else {
        reject := true;
      }
    } else {
      if e.value.Key? {
        content' := content + "    " + e.value.key + ": ";
      } else if e.value.Value? {
        content' := content + e.value.text + "\n";
      } else if e.value.NodeValue? {
        mistyped := true;
      } else if e.value.TagEnd? {
        close := true;
      } else {
        reject := true;
      }
    }
  }

  lemma EmitStarts(es: seq<Event>, failure: Option<ErrorKind>, hook: Hook, at: nat)
    requires at + 1 < |es| && !(!es[at].TagStart? && EventValue(es[at]) != Some(hook.tag))
    ensures EmitResumes(es, failure, hook, at, at + 1, false, hook.tag) == true
  {
  }

  /** `emit` from event `at` has reached event j with the given state: the rest is the loop from j. */
  predicate EmitResumes(es: seq<Event>, failure: Option<ErrorKind>, hook: Hook, at: nat, j: nat, identified: bool, content: string) {
    at < j < |es| && Emit(es, failure, hook, at) == EmitLoop(es, failure, j, identified, content)
  }

  /** An event the loop cannot take: anything before the identifier, or a stray event after it. */
  predicate EmitRejects(e: Event, identified: bool) {
    if identified then !e.Key? && !e.Value? && !e.NodeValue? && !e.TagEnd? else !e.Ident?
  }

  /** After the identifier, a value event that carries a node fails the concatenation with TypeError. */
  lemma EmitMistyped(es: seq<Event>, failure: Option<ErrorKind>, hook: Hook, at: nat, j: nat, content: string)
    requires EmitResumes(es, failure, hook, at, j, true, content) == true
    requires es[j].NodeValue?
    ensures Emit(es, failure, hook, at) == Err(PyTypeError)
  {
  }

  lemma EmitFails(es: seq<Event>, failure: Option<ErrorKind>, hook: Hook, at: nat, j: nat, identified: bool, content: string)
    requires EmitResumes(es, failure, hook, at, j, identified, content) == true
    requires EmitRejects(es[j], identified)
    ensures Emit(es, failure, hook, at) == Err(EmitterError)
  {
  }

  lemma EmitCloses(es: seq<Event>, failure: Option<ErrorKind>, hook: Hook, at: nat, j: nat, identified: bool, content: string)
    requires EmitResumes(es, failure, hook, at, j, identified, content) == true
    requires identified && es[j].TagEnd?
    ensures Emit(es, failure, hook, at) == Ok((content, j))
  {
  }

  lemma EmitRunsOut(es: seq<Event>, failure: Option<ErrorKind>, hook: Hook, at: nat, j: nat, identified: bool, content: string)
    requires EmitResumes(es, failure, hook, at, j, identified, content) == true
    requires !EmitRejects(es[j], identified) && !(identified && (es[j].TagEnd? || es[j].NodeValue?)) && j + 1 == |es|
    ensures Emit(es, failure, hook, at) == Err(Exhausted(failure, EmitterError))
  {
  }

  lemma EmitMoves(es: seq<Event>, failure: Option<ErrorKind>, hook: Hook, at: nat, j: nat, identified: bool, content: string)
    requires EmitResumes(es, failure, hook, at, j, identified, content) == true
    requires !EmitRejects(es[j], identified) && !(identified && (es[j].TagEnd? || es[j].NodeValue?)) && j + 1 < |es|
    ensures EmitResumes(es, failure, hook, at, j + 1, true, content + EmitPiece(es[j])) == true
  {
  }

  /** The text of plain pairs: an indented `key: value` line for each. */
  function PairsText(children: seq<Node>): string
    requires PlainPairs(children)
  {
    if children == [] then ""
    else
      assert forall i :: 1 <= i < |children| ==> children[i] == children[1..][i - 1];
      "    " + children[0].key + ": " + children[0].val.text + "\n" + PairsText(children[1..])
  }

  /** The text of a plain object under a tag: the tag and the name on one line, then its pairs. */
  function ObjectText(tag: string, n: Node): string
    requires PlainObject(n)
  {
    tag + " " + n.name + "\n" + PairsText(n.children)
  }

  /** Serialize then emit: the events of a plain object are written as its text. */
  lemma EmitSerialized(es: seq<Event>, failure: Option<ErrorKind>, hook: Hook, c: nat, n: Node)
    requires PlainObject(n) && ObjectAt(es, c, hook.tag, n)
    ensures Emit(es, failure, hook, c) == Ok((ObjectText(hook.tag, n), c + 2 * |n.children| + 2))
  {
    var head := hook.tag + " " + n.name + "\n";
    EmitPairs(es, failure, c + 2, head, n.children);
    assert es[c] == TagStart(hook.tag) && es[c + 1] == Ident(n.name);
    assert Emit(es, failure, hook, c) == EmitLoop(es, failure, c + 1, false, hook.tag);
    assert EmitLoop(es, failure, c + 1, false, hook.tag) == EmitLoop(es, failure, c + 2, true, hook.tag + EmitPiece(es[c + 1]));
    assert hook.tag + EmitPiece(es[c + 1]) == head;
  }

  /** The emit loop over the events of plain pairs, up to a tag_end, writes their text. */
  lemma {:induction false} EmitPairs(es: seq<Event>, failure: Option<ErrorKind>, j: nat, content: string, rest: seq<Node>)
    requires PlainPairs(rest) && PairsAt(es, j, rest)
    requires j + 2 * |rest| < |es| && es[j + 2 * |rest|].TagEnd?
    ensures EmitLoop(es, failure, j, true, content) == Ok((content + PairsText(rest), j + 2 * |rest|))
    decreases |rest|
  {
    if rest == [] {
      assert content + PairsText(rest) == content;
    } else {
      var p := rest[0];
      var line := "    " + p.key + ": " + p.val.text + "\n";
      PairsAtRest(es, j, rest);
      EmitPair(es, failure, j, content, p.key, p.val.text);
      EmitPairs(es, failure, j + 2, content + line, rest[1..]);
      assert content + line + PairsText(rest[1..]) == content + PairsText(rest);
    }
  }

  /** Past the first pair, the remaining pairs follow. */
  lemma PairsAtRest(es: seq<Event>, j: nat, rest: seq<Node>)
    requires PlainPairs(rest) && PairsAt(es, j, rest) && rest != []
    ensures PlainPairs(rest[1..]) && PairsAt(es, j + 2, rest[1..])
    ensures es[j] == Key(rest[0].key) && es[j + 1] == Value(rest[0].val.text)
  {
    assert forall i :: 1 <= i < |rest| ==> rest[i] == rest[1..][i - 1];
    forall i | 0 <= i < |rest[1..]|
      ensures es[j + 2 + 2 * i] == Key(rest[1..][i].key)
    {
      assert rest[1..][i] == rest[i + 1];
      assert j + 2 * (i + 1) == j + 2 + 2 * i;
    }
  }

  /** The emit loop writes a key event and its value event as one indented line. */
  lemma EmitPair(es: seq<Event>, failure: Option<ErrorKind>, j: nat, content: string, key: string, text: string)
    requires j + 2 < |es| && es[j] == Key(key) && es[j + 1] == Value(text)
    ensures EmitLoop(es, failure, j, true, content) ==
      EmitLoop(es, failure, j + 2, true, content + ("    " + key + ": " + text + "\n"))
  {
    var afterKey := content + EmitPiece(es[j]);
    assert EmitLoop(es, failure, j, true, content) == EmitLoop(es, failure, j + 1, true, afterKey);
    assert EmitLoop(es, failure, j + 1, true, afterKey) == EmitLoop(es, failure, j + 2, true, afterKey + EmitPiece(es[j + 1]));
    assert afterKey + EmitPiece(es[j + 1]) == content + ("    " + key + ": " + text + "\n");
  }
}
