/**
 * What the parser (moon/core/parser.py with ObjectHook.parse, moon/hooks/tags/object.py)
 * makes of the lexemes of an emitted document: exactly the events the document was
 * serialized to. The lexemes are located by index in the token stream, and each lemma
 * follows the parser's rounds over one line.
 */
module ParseFacts {
  import opened Wrappers
  import opened Errors
  import opened Schemas
  import opened Strings
  import opened Cursor
  import opened TagHooks
  import opened Tokenizer
  import opened TokenFacts
  import opened ObjectHook
  import opened Parser
  import opened Serializer
  import opened Emitter
  import opened TextLexing

  /** `s` holds `x` from index j on. */
  ghost predicate At<T>(s: seq<T>, j: nat, x: seq<T>)
    decreases |x|
  {
    if x == [] then j <= |s| else j < |s| && s[j] == x[0] && At(s, j + 1, x[1..])
  }

  lemma {:induction false} AtBound<T>(s: seq<T>, j: nat, x: seq<T>)
    requires At(s, j, x)
    ensures j + |x| <= |s|
    decreases |x|
  {
    if x != [] {
      AtBound(s, j + 1, x[1..]);
    }
  }

  lemma {:induction false} AtSplit<T>(s: seq<T>, j: nat, x: seq<T>, y: seq<T>)
    requires At(s, j, x + y)
    ensures At(s, j, x) && At(s, j + |x|, y)
    decreases |x|
  {
    if x == [] {
      assert x + y == y;
      AtBound(s, j, y);
    } else {
      assert (x + y)[0] == x[0] && (x + y)[1..] == x[1..] + y;
      AtSplit(s, j + 1, x[1..], y);
    }
  }

  lemma {:induction false} AtIndex<T>(s: seq<T>, j: nat, x: seq<T>, k: nat)
    requires At(s, j, x) && k < |x|
    ensures j + k < |s| && s[j + k] == x[k]
    decreases k
  {
    if k > 0 {
      AtIndex(s, j + 1, x[1..], k - 1);
    }
  }

  /** A sequence holds its own suffixes. */
  lemma {:induction false} AtSuffix<T>(s: seq<T>, j: nat)
    requires j <= |s|
    ensures At(s, j, s[j..])
    decreases |s| - j
  {
    if j < |s| {
      assert s[j..][1..] == s[j + 1..];
      AtSuffix(s, j + 1);
    }
  }

  /** None of the pairs' keys is a registered tag. */
  predicate KeysUntagged(tags: map<string, Hook>, ps: seq<Node>)
    requires PlainPairs(ps)
  {
    forall i :: 0 <= i < |ps| ==> ps[i].key !in tags
  }

  /** A writable object under a registered tag, whose name and keys are not registered tags (the hook would stop before such a word). */
  predicate ReadableObject(tags: map<string, Hook>, n: Node) {
    WritableObject(n) && n.tag in tags && n.name !in tags && KeysUntagged(tags, n.children)
  }

  predicate ReadableObjects(tags: map<string, Hook>, ns: seq<Node>)
    decreases |ns|
  {
    ns == [] || (ReadableObject(tags, ns[0]) && ReadableObjects(tags, ns[1..]))
  }

  /** A document the parser reads back: readable objects, one after the other. */
  predicate Readable(tags: map<string, Hook>, ns: seq<Node>) {
    (forall i :: 0 <= i < |ns| ==> PlainObject(ns[i])) && ReadableObjects(tags, ns)
  }

  /** What follows an object's last newline at f: eof, or a newline and then a registered tag. */
  predicate TailAt(ls: seq<Lexeme>, tags: map<string, Hook>, f: nat) {
    && f + 1 < |ls|
    && (|| ls[f + 1].kind == Eof
        || (f + 2 < |ls| && ls[f + 1].kind == Newline && ls[f + 2].kind == Word && ls[f + 2].value in tags))
  }

  // ---------------------------------------------------------------- one pair's value

  /** After the colon, a lexeme that does not end the value is added to it. */
  lemma ValueStep(ls: seq<Lexeme>, j: nat, v: string, ev: seq<Event>)
    requires j + 1 < |ls| && !EndsValue(ls[j].kind)
    ensures PairLoop(ls, j, true, v, ev) == PairLoop(ls, j + 1, true, v + ls[j].value, ev)
  {
  }

  /** The pair loop gathers the texts of in-line lexemes up to the one that ends the value. */
  lemma {:induction false} ValueLoop(ls: seq<Lexeme>, j: nat, v: string, ev: seq<Event>, vs: seq<Lexeme>)
    requires At(ls, j, vs) && InLine(vs) && j + |vs| < |ls|
    ensures PairLoop(ls, j, true, v, ev) == PairLoop(ls, j + |vs|, true, v + ValuesText(vs), ev)
    decreases |vs|
  {
    if vs == [] {
      assert v + ValuesText(vs) == v;
    } else {
      var rest := vs[1..];
      AtIndex(ls, j, vs, 0);
      assert vs == [vs[0]] + rest;
      AtSplit(ls, j, [vs[0]], rest);
      assert InLine(rest) by {
        assert forall k :: 0 <= k < |rest| ==> rest[k] == vs[k + 1];
      }
      var w := v + vs[0].value;
      ValueStep(ls, j, v, ev);
      ValueLoop(ls, j + 1, w, ev, rest);
      TextGlue(vs, rest, vs[0]);
      assert w + ValuesText(rest) == v + ValuesText(vs);
    }
  }

  /** The lexemes of a pair line, one by one. */
  lemma PairLineAt(ls: seq<Lexeme>, j: nat, key: string, text: string)
    requires At(ls, j, PairLexemes(key, text))
    ensures var n := |Lexemes(text)|;
      && j + 8 + n <= |ls|
      && ls[j] == SpaceLexeme && ls[j + 1] == SpaceLexeme && ls[j + 2] == SpaceLexeme && ls[j + 3] == SpaceLexeme
      && ls[j + 4] == Lexeme(Word, key) && ls[j + 5] == ColonLexeme && ls[j + 6] == SpaceLexeme
      && At(ls, j + 7, Lexemes(text)) && ls[j + 7 + n] == NewlineLexeme
      && |PairLexemes(key, text)| == 8 + n
  {
    var s := SpaceLexeme;
    var lead := [s, s, s, s, Lexeme(Word, key), ColonLexeme, s];
    AtSplit(ls, j, lead + Lexemes(text), [NewlineLexeme]);
    AtSplit(ls, j, lead, Lexemes(text));
    AtIndex(ls, j + 7 + |Lexemes(text)|, [NewlineLexeme], 0);
    AtIndex(ls, j, lead, 0);
    AtIndex(ls, j, lead, 1);
    AtIndex(ls, j, lead, 2);
    AtIndex(ls, j, lead, 3);
    AtIndex(ls, j, lead, 4);
    AtIndex(ls, j, lead, 5);
    AtIndex(ls, j, lead, 6);
  }

  /** The colon starts the value. */
  lemma ColonStep(ls: seq<Lexeme>, j: nat, ev: seq<Event>)
    requires j + 1 < |ls| && ls[j].kind == Colon
    ensures PairLoop(ls, j, false, "", ev) == PairLoop(ls, j + 1, true, "", ev)
  {
  }

  /** The lexeme that ends the value yields it, stripped. */
  lemma ValueEnd(ls: seq<Lexeme>, j: nat, v: string, ev: seq<Event>)
    requires j < |ls| && EndsValue(ls[j].kind)
    ensures PairLoop(ls, j, true, v, ev) == Run(ev + [Value(Strip(v))], Ok(j))
  {
  }

  /** `_parse_pair_hook` on the key, the colon, a space and the value's lexemes: the key and the value text. */
  lemma PairParses(ls: seq<Lexeme>, c: nat, ev: seq<Event>, key: string, text: string)
    requires IsValueText(text)
    requires c + 3 + |Lexemes(text)| < |ls|
    requires ls[c] == Lexeme(Word, key) && ls[c + 1] == ColonLexeme && ls[c + 2] == SpaceLexeme
    requires At(ls, c + 3, Lexemes(text)) && ls[c + 3 + |Lexemes(text)|] == NewlineLexeme
    ensures Pair(ls, c, ev) == Run(ev + [Key(key), Value(text)], Ok(c + 3 + |Lexemes(text)|))
  {
    var out := ev + [Key(key)];
    PairPrefix(ls, c, ev, key);
    PairValue(ls, c + 3, out, text);
    calc {
      Pair(ls, c, ev);
      PairLoop(ls, c + 3, true, " ", out);
      Run(out + [Value(text)], Ok(c + 3 + |Lexemes(text)|));
      { TwoEvents(ev, Key(key), Value(text)); }
      Run(ev + [Key(key), Value(text)], Ok(c + 3 + |Lexemes(text)|));
    }
  }

  lemma TwoEvents(ev: seq<Event>, a: Event, b: Event)
    ensures ev + [a] + [b] == ev + [a, b]
  {
  }

  /** The key, the colon and the space: the key event, and the value begun with the space. */
  lemma PairPrefix(ls: seq<Lexeme>, c: nat, ev: seq<Event>, key: string)
    requires c + 3 < |ls| && ls[c] == Lexeme(Word, key) && ls[c + 1] == ColonLexeme && ls[c + 2] == SpaceLexeme
    ensures Pair(ls, c, ev) == PairLoop(ls, c + 3, true, " ", ev + [Key(key)])
  {
    var out := ev + [Key(key)];
    assert Pair(ls, c, ev) == PairLoop(ls, c + 1, false, "", out);
    ColonStep(ls, c + 1, out);
    ValueStep(ls, c + 2, "", out);
    assert "" + ls[c + 2].value == " ";
  }

  /** A value text's lexemes after the space, up to the newline: the value event with the text. */
  lemma PairValue(ls: seq<Lexeme>, j: nat, out: seq<Event>, text: string)
    requires IsValueText(text) && j + |Lexemes(text)| < |ls|
    requires At(ls, j, Lexemes(text)) && ls[j + |Lexemes(text)|] == NewlineLexeme
    ensures PairLoop(ls, j, true, " ", out) == Run(out + [Value(text)], Ok(j + |Lexemes(text)|))
  {
    ValueLexemes(text);
    ValueLoop(ls, j, " ", out, Lexemes(text));
    ValueEnd(ls, j + |Lexemes(text)|, " " + text, out);
    StripOfTrimmedAfterSpace(text);
  }

  // ---------------------------------------------------------------- the hook's rounds

  /** The end of a round that is not on eof and not before a registered tag goes on with the next round. */
  lemma CheckMovesOn(ls: seq<Lexeme>, tags: map<string, Hook>, c: nat, identified: bool, ev: seq<Event>)
    requires c + 1 < |ls| && ls[c].kind != Eof && !(ls[c + 1].kind == Word && ls[c + 1].value in tags)
    ensures HookCheck(ls, tags, c, identified, ev) == HookLoop(ls, tags, c + 1, identified, ev)
  {
  }

  /** A round on a token the hook skips yields nothing and ends where it started. */
  lemma LoopSkips(ls: seq<Lexeme>, tags: map<string, Hook>, c: nat, identified: bool, ev: seq<Event>)
    requires c < |ls| && (IsBlank(ls[c].kind) || (identified && (ls[c].kind == Newline || ls[c].kind == Eof)))
    ensures HookLoop(ls, tags, c, identified, ev) == HookCheck(ls, tags, c, identified, ev)
  {
    assert HookStep(ls, c, identified, ev) == Run(ev, Ok(c));
  }

  /** A round on a blank or a newline after the identifier moves on to the next token. */
  lemma SkipStep(ls: seq<Lexeme>, tags: map<string, Hook>, c: nat, ev: seq<Event>)
    requires c + 1 < |ls| && ls[c].kind != Eof
    requires IsBlank(ls[c + 1].kind) || ls[c + 1].kind == Newline
    ensures HookCheck(ls, tags, c, true, ev) == HookCheck(ls, tags, c + 1, true, ev)
  {
    CheckMovesOn(ls, tags, c, true, ev);
    LoopSkips(ls, tags, c + 1, true, ev);
  }

  /** A word after the identifier that is not a registered tag starts a pair. */
  lemma PairStart(ls: seq<Lexeme>, tags: map<string, Hook>, c: nat, ev: seq<Event>)
    requires c + 1 < |ls| && ls[c].kind != Eof && ls[c + 1].kind == Word && ls[c + 1].value !in tags
    ensures HookCheck(ls, tags, c, true, ev) ==
      var p := Pair(ls, c + 1, ev);
      if p.end.Err? then p else HookCheck(ls, tags, p.end.value, true, p.items)
  {
    CheckMovesOn(ls, tags, c, true, ev);
    assert HookStep(ls, c + 1, true, ev) == Pair(ls, c + 1, ev);
  }

  /** The hook, after its identifier, gets from the end of the round at e with `ev` to the end of the round at f with `ev'`. */
  predicate Reaches(ls: seq<Lexeme>, tags: map<string, Hook>, e: nat, ev: seq<Event>, f: nat, ev': seq<Event>) {
    e < |ls| && f < |ls| && HookCheck(ls, tags, e, true, ev) == HookCheck(ls, tags, f, true, ev')
  }

  lemma ReachChain(ls: seq<Lexeme>, tags: map<string, Hook>, e: nat, ev: seq<Event>, f: nat, ev': seq<Event>, g: nat, ev'': seq<Event>)
    requires Reaches(ls, tags, e, ev, f, ev') == true && Reaches(ls, tags, f, ev', g, ev'') == true
    ensures Reaches(ls, tags, e, ev, g, ev'') == true
  {
  }

  /** From the newline before a pair line to the newline that ends it: the key and value events. */
  lemma PairStep(ls: seq<Lexeme>, tags: map<string, Hook>, e: nat, ev: seq<Event>, key: string, text: string)
    requires e < |ls| && ls[e].kind == Newline && At(ls, e + 1, PairLexemes(key, text))
    requires IsValueText(text) && key !in tags
    ensures e + |PairLexemes(key, text)| < |ls| && ls[e + |PairLexemes(key, text)|].kind == Newline
    ensures Reaches(ls, tags, e, ev, e + |PairLexemes(key, text)|, ev + [Key(key), Value(text)]) == true
  {
    PairLineAt(ls, e + 1, key, text);
    SkipStep(ls, tags, e, ev);
    SkipStep(ls, tags, e + 1, ev);
    SkipStep(ls, tags, e + 2, ev);
    SkipStep(ls, tags, e + 3, ev);
    PairStart(ls, tags, e + 4, ev);
    PairParses(ls, e + 5, ev, key, text);
  }

  /** The first pair and the rest of them. */
  lemma PairsSplit(ps: seq<Node>)
    requires WritablePairs(ps) && ps != []
    ensures WritablePairs(ps[1..])
    ensures PairsLexemes(ps) == PairLexemes(ps[0].key, ps[0].val.text) + PairsLexemes(ps[1..])
    ensures PairEvents(ps) == [Key(ps[0].key), Value(ps[0].val.text)] + PairEvents(ps[1..])
  {
    assert forall i :: 1 <= i < |ps| ==> ps[i] == ps[1..][i - 1];
  }

  /** The first pair line: from the newline before it to the newline before the rest. */
  lemma PairsHead(ls: seq<Lexeme>, tags: map<string, Hook>, e: nat, ev: seq<Event>, ps: seq<Node>) returns (f: nat, g: seq<Event>)
    requires WritablePairs(ps) && KeysUntagged(tags, ps) && ps != []
    requires e < |ls| && ls[e].kind == Newline && At(ls, e + 1, PairsLexemes(ps))
    ensures WritablePairs(ps[1..]) && KeysUntagged(tags, ps[1..])
    ensures f < |ls| && ls[f].kind == Newline && At(ls, f + 1, PairsLexemes(ps[1..]))
    ensures f + |PairsLexemes(ps[1..])| == e + |PairsLexemes(ps)|
    ensures g + PairEvents(ps[1..]) == ev + PairEvents(ps)
    ensures Reaches(ls, tags, e, ev, f, g) == true
  {
    var key, text, rest := ps[0].key, ps[0].val.text, ps[1..];
    PairsSplit(ps);
    assert KeysUntagged(tags, rest) by {
      assert forall i :: 1 <= i < |ps| ==> ps[i] == rest[i - 1];
    }
    assert IsValueText(text) && key !in tags;
    f, g := PairLineStep(ls, tags, e, ev, key, text, PairsLexemes(rest));
    Regroup(ev, [Key(key), Value(text)], PairEvents(rest));
  }

  /** One pair line in front of the lexemes ls': its two events, and the newline that ends it. */
  lemma PairLineStep(ls: seq<Lexeme>, tags: map<string, Hook>, e: nat, ev: seq<Event>, key: string, text: string,
                     ls': seq<Lexeme>) returns (f: nat, g: seq<Event>)
    requires IsValueText(text) && key !in tags
    requires e < |ls| && ls[e].kind == Newline && At(ls, e + 1, PairLexemes(key, text) + ls')
    ensures f == e + |PairLexemes(key, text)| && g == ev + [Key(key), Value(text)]
    ensures f < |ls| && ls[f].kind == Newline && At(ls, f + 1, ls')
    ensures Reaches(ls, tags, e, ev, f, g) == true
  {
    f := e + |PairLexemes(key, text)|;
    g := ev + [Key(key), Value(text)];
    AtSplit(ls, e + 1, PairLexemes(key, text), ls');
    PairStep(ls, tags, e, ev, key, text);
  }

  /**
   * From the newline before the pair lines to the newline that ends the last: the pairs'
   * events. The end h and the events hv are given, so that each round chains to the same target.
   */
  lemma {:induction false} PairsParse(ls: seq<Lexeme>, tags: map<string, Hook>, e: nat, ev: seq<Event>, ps: seq<Node>, h: nat, hv: seq<Event>)
    requires WritablePairs(ps) && KeysUntagged(tags, ps)
    requires e < |ls| && ls[e].kind == Newline && At(ls, e + 1, PairsLexemes(ps))
    requires h == e + |PairsLexemes(ps)| && hv == ev + PairEvents(ps)
    ensures h < |ls| && ls[h].kind == Newline
    ensures Reaches(ls, tags, e, ev, h, hv) == true
    decreases |ps|
  {
    if ps == [] {
      assert ev + PairEvents(ps) == ev;
    } else {
      var f, g := PairsHead(ls, tags, e, ev, ps);
      PairsParse(ls, tags, f, g, ps[1..], h, hv);
      ReachChain(ls, tags, e, ev, f, g, h, hv);
    }
  }

  /** After an object's last newline the hook stops before eof, or on the newline before the next tag. */
  lemma ParseTail(ls: seq<Lexeme>, tags: map<string, Hook>, f: nat, ev: seq<Event>)
    requires f < |ls| && ls[f].kind == Newline && TailAt(ls, tags, f)
    ensures HookCheck(ls, tags, f, true, ev) == Run(ev, Ok(f + 1))
  {
    CheckMovesOn(ls, tags, f, true, ev);
    LoopSkips(ls, tags, f + 1, true, ev);
  }

  /** The header line after the tag: a blank, the identifier, a newline. */
  lemma HeaderParse(ls: seq<Lexeme>, tags: map<string, Hook>, c: nat, ev: seq<Event>, name: string)
    requires c + 3 < |ls| && ls[c + 1] == SpaceLexeme && ls[c + 2] == Lexeme(Word, name) && ls[c + 3] == NewlineLexeme
    requires name !in tags
    ensures HookLoop(ls, tags, c + 1, false, ev) == HookCheck(ls, tags, c + 3, true, ev + [Ident(name)])
  {
    LoopSkips(ls, tags, c + 1, false, ev);
    CheckMovesOn(ls, tags, c + 1, false, ev);
    assert HookStep(ls, c + 2, false, ev) == Run(ev + [Ident(name)], Ok(c + 2));
    CheckMovesOn(ls, tags, c + 2, true, ev + [Ident(name)]);
    LoopSkips(ls, tags, c + 3, true, ev + [Ident(name)]);
  }

  /** The lexemes of an object's header line, one by one. */
  lemma HeaderAt(ls: seq<Lexeme>, c: nat, n: Node)
    requires PlainObject(n) && At(ls, c, ObjectLexemes(n))
    ensures |ObjectLexemes(n)| == 4 + |PairsLexemes(n.children)| && c + |ObjectLexemes(n)| <= |ls|
    ensures ls[c] == Lexeme(Word, n.tag) && ls[c + 1] == SpaceLexeme && ls[c + 2] == Lexeme(Word, n.name)
    ensures ls[c + 3] == NewlineLexeme && At(ls, c + 4, PairsLexemes(n.children))
  {
    AtBound(ls, c, ObjectLexemes(n));
    var head := [Lexeme(Word, n.tag), SpaceLexeme, Lexeme(Word, n.name), NewlineLexeme];
    AtSplit(ls, c, head, PairsLexemes(n.children));
    AtIndex(ls, c, head, 0);
    AtIndex(ls, c, head, 1);
    AtIndex(ls, c, head, 2);
    AtIndex(ls, c, head, 3);
  }

  /**
   * Object n's lexemes from index c, under a registered tag, with a name and keys that are
   * not tags, followed by eof or by a newline and a registered tag.
   */
  ghost predicate ObjectAt(ls: seq<Lexeme>, tags: map<string, Hook>, c: nat, n: Node) {
    ReadableObject(tags, n) && At(ls, c, ObjectLexemes(n)) && TailAt(ls, tags, c + |ObjectLexemes(n)| - 1)
  }

  /** ObjectHook.parse from the blank after the tag: the identifier and the pairs, ending on the object's last newline's successor. */
  lemma HookRun(ls: seq<Lexeme>, tags: map<string, Hook>, c: nat, out: seq<Event>, n: Node)
    requires ObjectAt(ls, tags, c, n) == true
    ensures c + |ObjectLexemes(n)| < |ls|
    ensures HookLoop(ls, tags, c + 1, false, out) ==
      Run(out + [Ident(n.name)] + PairEvents(n.children), Ok(c + |ObjectLexemes(n)|))
  {
    HeaderAt(ls, c, n);
    HeaderParse(ls, tags, c, out, n.name);
    var g := out + [Ident(n.name)];
    var f := c + 3 + |PairsLexemes(n.children)|;
    var h := g + PairEvents(n.children);
    PairsParse(ls, tags, c + 3, g, n.children, f, h);
    ParseTail(ls, tags, f, h);
    calc {
      HookLoop(ls, tags, c + 1, false, out);
      HookCheck(ls, tags, c + 3, true, g);
      { assert Reaches(ls, tags, c + 3, g, f, h) == true; }
      HookCheck(ls, tags, f, true, h);
      Run(h, Ok(f + 1));
    }
  }

  /** `_parse_tag` on an object's lexemes: exactly the object's events. */
  lemma ObjectParse(ls: seq<Lexeme>, tags: map<string, Hook>, c: nat, ev: seq<Event>, n: Node)
    requires ObjectAt(ls, tags, c, n) == true
    ensures c + |ObjectLexemes(n)| < |ls| && ls[c] == Lexeme(Word, n.tag)
    ensures ParseTag(ls, tags, c, ev) == Run(ev + ObjectEvents(n.tag, n), Ok(c + |ObjectLexemes(n)|))
  {
    HeaderAt(ls, c, n);
    var out := ev + [TagStart(n.tag)];
    HookRun(ls, tags, c, out, n);
    assert out + [Ident(n.name)] + PairEvents(n.children) + [TagEnd(n.tag)] == ev + ObjectEvents(n.tag, n);
  }

  // ---------------------------------------------------------------- the top-level loop over laid-out tags

  /** Token c is a tag word whose `_parse_tag` yields E and ends on token c + L, whatever was yielded before. */
  ghost predicate TagParses(ls: seq<Lexeme>, tags: map<string, Hook>, c: nat, L: nat, E: seq<Event>) {
    && c + L < |ls| && ls[c].kind == Word
    && forall ev: seq<Event> :: ParseTag(ls, tags, c, ev) == Run(ev + E, Ok(c + L))
  }

  /**
   * Tags laid out from token c: the k-th parses into Es[k] over Ls[k] tokens, a newline
   * separates each from the next, and eof follows the last (or stands at c if there are none).
   */
  ghost predicate Layout(ls: seq<Lexeme>, tags: map<string, Hook>, c: nat, Ls: seq<nat>, Es: seq<seq<Event>>)
    decreases |Ls|
  {
    && |Ls| == |Es|
    && if Ls == [] then c < |ls| && ls[c].kind == Eof
       else
         && TagParses(ls, tags, c, Ls[0], Es[0])
         && if |Ls| == 1 then ls[c + Ls[0]].kind == Eof
            else ls[c + Ls[0]].kind == Newline && Layout(ls, tags, c + Ls[0] + 1, Ls[1..], Es[1..])
  }

  /** The tokens a layout covers, separating newlines included. */
  function Span(Ls: seq<nat>): nat {
    if |Ls| == 0 then 0 else if |Ls| == 1 then Ls[0] else Ls[0] + 1 + Span(Ls[1..])
  }

  function Flat(Es: seq<seq<Event>>): seq<Event> {
    if Es == [] then [] else Es[0] + Flat(Es[1..])
  }

  /** The top-level loop on a tag that parses: it goes on after the tag with the tag's events. */
  lemma TagStep(ls: seq<Lexeme>, tags: map<string, Hook>, c: nat, ev: seq<Event>, L: nat, E: seq<Event>)
    requires TagParses(ls, tags, c, L, E) == true
    ensures ParseFrom(ls, tags, c, ev) == ParseFrom(ls, tags, c + L, ev + E)
  {
    assert ParseTag(ls, tags, c, ev) == Run(ev + E, Ok(c + L));
  }

  /** Eof at the top level: document_end. */
  lemma EofStep(ls: seq<Lexeme>, tags: map<string, Hook>, c: nat, ev: seq<Event>)
    requires c < |ls| && ls[c].kind == Eof
    ensures ParseFrom(ls, tags, c, ev) == Run(ev + [DocumentEnd], Ok(c))
  {
  }

  /** A newline at the top level is skipped. */
  lemma NewlineStep(ls: seq<Lexeme>, tags: map<string, Hook>, c: nat, ev: seq<Event>)
    requires c + 1 < |ls| && ls[c].kind == Newline
    ensures ParseFrom(ls, tags, c, ev) == ParseFrom(ls, tags, c + 1, ev)
  {
  }

  /** The top-level loop over laid-out tags: their events in order, then document_end on the final eof. */
  lemma {:induction false} LayoutParse(ls: seq<Lexeme>, tags: map<string, Hook>, c: nat, ev: seq<Event>, Ls: seq<nat>, Es: seq<seq<Event>>)
    requires Layout(ls, tags, c, Ls, Es) == true
    ensures c + Span(Ls) < |ls|
    ensures ParseFrom(ls, tags, c, ev) == Run(ev + (Flat(Es) + [DocumentEnd]), Ok(c + Span(Ls)))
    decreases |Ls|
  {
    if Ls == [] {
      EofStep(ls, tags, c, ev);
      assert Flat(Es) + [DocumentEnd] == [DocumentEnd];
    } else {
      var e := c + Ls[0];
      var ev' := ev + Es[0];
      TagStep(ls, tags, c, ev, Ls[0], Es[0]);
      assert Flat(Es) == Es[0] + Flat(Es[1..]);
      if |Ls| == 1 {
        EofStep(ls, tags, e, ev');
        assert Flat(Es[1..]) == [];
        ConsEvents(ev, Es[0], []);
      } else {
        LayoutParse(ls, tags, e + 1, ev', Ls[1..], Es[1..]);
        NewlineStep(ls, tags, e, ev');
        ConsEvents(ev, Es[0], Flat(Es[1..]));
      }
    }
  }

  lemma ConsEvents(ev: seq<Event>, E: seq<Event>, F: seq<Event>)
    ensures (ev + E) + (F + [DocumentEnd]) == ev + ((E + F) + [DocumentEnd])
  {
  }

  lemma SpanCons(L: nat, Ls: seq<nat>)
    requires Ls != []
    ensures Span([L] + Ls) == L + 1 + Span(Ls)
  {
    assert ([L] + Ls)[1..] == Ls;
  }

  lemma FlatCons(E: seq<Event>, Es: seq<seq<Event>>)
    ensures Flat([E] + Es) == E + Flat(Es)
  {
    assert ([E] + Es)[1..] == Es;
  }

  // ---------------------------------------------------------------- documents laid out as lexemes

  /** A readable document's first object and the rest of it. */
  lemma ReadableSplit(tags: map<string, Hook>, ns: seq<Node>)
    requires Readable(tags, ns) && ns != []
    ensures ReadableObject(tags, ns[0]) && Readable(tags, ns[1..])
  {
    assert forall i :: 1 <= i < |ns| ==> ns[i] == ns[1..][i - 1];
  }

  /** A document's lexemes start with its first tag. */
  lemma DocumentLexemesHead(ns: seq<Node>)
    requires (forall i :: 0 <= i < |ns| ==> PlainObject(ns[i])) && ns != []
    ensures DocumentLexemes(ns) != [] && DocumentLexemes(ns)[0] == Lexeme(Word, ns[0].tag)
  {
  }

  /** A document's lexemes and events: the first object's, then the rest's. */
  lemma DocumentCons(ns: seq<Node>)
    requires (forall i :: 0 <= i < |ns| ==> PlainObject(ns[i])) && ns != []
    ensures |ns| == 1 ==> |DocumentLexemes(ns)| == |ObjectLexemes(ns[0])|
    ensures |ns| > 1 ==> |DocumentLexemes(ns)| == |ObjectLexemes(ns[0])| + 1 + |DocumentLexemes(ns[1..])|
    ensures DocumentEvents(ns) == ObjectEvents(ns[0].tag, ns[0]) + DocumentEvents(ns[1..])
  {
    assert forall i :: 1 <= i < |ns| ==> ns[i] == ns[1..][i - 1];
  }

  /** A piece, a separator, and more up to a final item, located from index c. */
  lemma AtSeparated<T>(s: seq<T>, c: nat, x: seq<T>, sep: T, y: seq<T>, z: T)
    requires At(s, c, x + [sep] + y + [z])
    ensures c + |x| + 1 + |y| < |s|
    ensures At(s, c, x) && s[c + |x|] == sep && At(s, c + |x| + 1, y + [z])
  {
    AtBound(s, c, x + [sep] + y + [z]);
    assert x + [sep] + y + [z] == x + ([sep] + (y + [z]));
    AtSplit(s, c, x, [sep] + (y + [z]));
    AtSplit(s, c + |x|, [sep], y + [z]);
    AtIndex(s, c + |x|, [sep], 0);
  }

  /** A readable document's lexemes from index c, then eof. */
  ghost predicate DocumentAt(ls: seq<Lexeme>, tags: map<string, Hook>, c: nat, ns: seq<Node>) {
    Readable(tags, ns) && At(ls, c, DocumentLexemes(ns) + [EofLexeme])
  }

  /** The first object of a longer document, laid out from index c, and the rest from d, after the separating newline. */
  lemma FirstObjectAt(ls: seq<Lexeme>, tags: map<string, Hook>, c: nat, ns: seq<Node>) returns (d: nat)
    requires DocumentAt(ls, tags, c, ns) == true && |ns| > 1
    ensures ObjectAt(ls, tags, c, ns[0]) == true && d == c + |ObjectLexemes(ns[0])| + 1
    ensures d < |ls| && ls[c + |ObjectLexemes(ns[0])|].kind == Newline && DocumentAt(ls, tags, d, ns[1..]) == true
  {
    var n, rest := ns[0], ns[1..];
    ReadableSplit(tags, ns);
    ReadableSplit(tags, rest);
    var ol, dl := ObjectLexemes(n), DocumentLexemes(rest);
    assert DocumentLexemes(ns) == ol + [NewlineLexeme] + dl;
    AtSeparated(ls, c, ol, NewlineLexeme, dl, EofLexeme);
    var e := c + |ol|;
    d := e + 1;
    DocumentLexemesHead(rest);
    AtIndex(ls, d, dl + [EofLexeme], 0);
    assert TailAt(ls, tags, e - 1) by {
      assert e - 1 + 1 == e && e - 1 + 2 == e + 1;
    }
  }

  /** A document of one object, laid out from index c and followed by eof. */
  lemma LastObjectAt(ls: seq<Lexeme>, tags: map<string, Hook>, c: nat, ns: seq<Node>)
    requires Readable(tags, ns) && |ns| == 1 && At(ls, c, DocumentLexemes(ns) + [EofLexeme])
    ensures ObjectAt(ls, tags, c, ns[0]) == true
    ensures c + |ObjectLexemes(ns[0])| < |ls| && ls[c + |ObjectLexemes(ns[0])|].kind == Eof
  {
    ReadableSplit(tags, ns);
    var ol := ObjectLexemes(ns[0]);
    assert DocumentLexemes(ns) == ol;
    AtSplit(ls, c, ol, [EofLexeme]);
    AtIndex(ls, c + |ol|, [EofLexeme], 0);
  }

  /** `_parse_tag` on an object's lexemes yields the object's events whatever came before. */
  lemma ObjectTagParses(ls: seq<Lexeme>, tags: map<string, Hook>, c: nat, n: Node)
    requires ObjectAt(ls, tags, c, n) == true
    ensures TagParses(ls, tags, c, |ObjectLexemes(n)|, ObjectEvents(n.tag, n)) == true
  {
    forall ev: seq<Event>
      ensures ParseTag(ls, tags, c, ev) == Run(ev + ObjectEvents(n.tag, n), Ok(c + |ObjectLexemes(n)|))
    {
      ObjectParse(ls, tags, c, ev, n);
    }
  }

  lemma LayoutEnd(ls: seq<Lexeme>, tags: map<string, Hook>, c: nat)
    requires c < |ls| && ls[c].kind == Eof
    ensures Layout(ls, tags, c, [], []) == true
  {
  }

  lemma LayoutLast(ls: seq<Lexeme>, tags: map<string, Hook>, c: nat, L: nat, E: seq<Event>)
    requires TagParses(ls, tags, c, L, E) == true && ls[c + L].kind == Eof
    ensures Layout(ls, tags, c, [L], [E]) == true && Span([L]) == L && Flat([E]) + [DocumentEnd] == E + [DocumentEnd]
  {
    FlatCons(E, []);
  }

  /** A tag, the separating newline and a further layout, with the span and events of the whole. */
  lemma LayoutStep(ls: seq<Lexeme>, tags: map<string, Hook>, c: nat, L: nat, E: seq<Event>, d: nat, Ls: seq<nat>, Es: seq<seq<Event>>, span: nat, events: seq<Event>)
    requires TagParses(ls, tags, c, L, E) == true && ls[c + L].kind == Newline && d == c + L + 1
    requires Layout(ls, tags, d, Ls, Es) == true && Ls != []
    requires Span(Ls) == span && Flat(Es) + [DocumentEnd] == events
    ensures Layout(ls, tags, c, [L] + Ls, [E] + Es) == true
    ensures Span([L] + Ls) == L + 1 + span && Flat([E] + Es) + [DocumentEnd] == E + events
  {
    assert ([L] + Ls)[1..] == Ls && ([E] + Es)[1..] == Es;
    SpanCons(L, Ls);
    FlatCons(E, Es);
    Regroup(E, Flat(Es), [DocumentEnd]);
  }

  /** A layout of a document's tags from index c, with its span and its events. */
  ghost predicate LaidOut(ls: seq<Lexeme>, tags: map<string, Hook>, c: nat, ns: seq<Node>, Ls: seq<nat>, Es: seq<seq<Event>>) {
    && (forall i :: 0 <= i < |ns| ==> PlainObject(ns[i]))
    && |Ls| == |ns| && Layout(ls, tags, c, Ls, Es)
    && Span(Ls) == |DocumentLexemes(ns)| && Flat(Es) + [DocumentEnd] == DocumentEvents(ns)
  }

  lemma EmptyLaidOut(ls: seq<Lexeme>, tags: map<string, Hook>, c: nat, ns: seq<Node>)
    requires DocumentAt(ls, tags, c, ns) == true && ns == []
    ensures LaidOut(ls, tags, c, ns, [], []) == true
  {
    AtIndex(ls, c, DocumentLexemes(ns) + [EofLexeme], 0);
    LayoutEnd(ls, tags, c);
  }

  lemma SingleLaidOut(ls: seq<Lexeme>, tags: map<string, Hook>, c: nat, ns: seq<Node>) returns (Ls: seq<nat>, Es: seq<seq<Event>>)
    requires DocumentAt(ls, tags, c, ns) == true && |ns| == 1
    ensures LaidOut(ls, tags, c, ns, Ls, Es) == true
  {
    var n := ns[0];
    LastObjectAt(ls, tags, c, ns);
    ObjectTagParses(ls, tags, c, n);
    LayoutLast(ls, tags, c, |ObjectLexemes(n)|, ObjectEvents(n.tag, n));
    DocumentCons(ns);
    assert DocumentEvents(ns[1..]) == [DocumentEnd] by {
      assert ns[1..] == [];
    }
    Ls, Es := [|ObjectLexemes(n)|], [ObjectEvents(n.tag, n)];
  }

  /** An object laid out from index c and followed by a newline, as a laid-out tag: its span and its events. */
  lemma ObjectStep(ls: seq<Lexeme>, tags: map<string, Hook>, c: nat, n: Node) returns (L: nat, E: seq<Event>)
    requires ObjectAt(ls, tags, c, n) == true && ls[c + |ObjectLexemes(n)|].kind == Newline
    ensures TagParses(ls, tags, c, L, E) == true && ls[c + L].kind == Newline
    ensures L == |ObjectLexemes(n)| && E == ObjectEvents(n.tag, n)
  {
    ObjectTagParses(ls, tags, c, n);
    L, E := |ObjectLexemes(n)|, ObjectEvents(n.tag, n);
  }

  lemma ConsLaidOut(ls: seq<Lexeme>, tags: map<string, Hook>, c: nat, ns: seq<Node>, d: nat, Ls': seq<nat>, Es': seq<seq<Event>>) returns (Ls: seq<nat>, Es: seq<seq<Event>>)
    requires (forall i :: 0 <= i < |ns| ==> PlainObject(ns[i])) && |ns| > 1
    requires ObjectAt(ls, tags, c, ns[0]) == true && d == c + |ObjectLexemes(ns[0])| + 1
    requires d < |ls| && ls[c + |ObjectLexemes(ns[0])|].kind == Newline && LaidOut(ls, tags, d, ns[1..], Ls', Es') == true
    ensures LaidOut(ls, tags, c, ns, Ls, Es) == true
  {
    var L, E := ObjectStep(ls, tags, c, ns[0]);
    DocumentCons(ns);
    LayoutStep(ls, tags, c, L, E, d, Ls', Es', |DocumentLexemes(ns[1..])|, DocumentEvents(ns[1..]));
    Ls, Es := [L] + Ls', [E] + Es';
  }

  /** A readable document's lexemes from index c, then eof: a layout of its objects' tags, spanning its lexemes, with its events. */
  lemma {:induction false} DocumentLayout(ls: seq<Lexeme>, tags: map<string, Hook>, c: nat, ns: seq<Node>) returns (Ls: seq<nat>, Es: seq<seq<Event>>)
    requires DocumentAt(ls, tags, c, ns) == true
    ensures LaidOut(ls, tags, c, ns, Ls, Es) == true
    decreases |ns|
  {
    if ns == [] {
      EmptyLaidOut(ls, tags, c, ns);
      Ls, Es := [], [];
    } else if |ns| == 1 {
      Ls, Es := SingleLaidOut(ls, tags, c, ns);
    } else {
      var d := FirstObjectAt(ls, tags, c, ns);
      var Ls', Es' := DocumentLayout(ls, tags, d, ns[1..]);
      Ls, Es := ConsLaidOut(ls, tags, c, ns, d, Ls', Es');
    }
  }

  /** A document laid out from index c: the run of the top-level loop from there. */
  lemma LayoutDone(ls: seq<Lexeme>, tags: map<string, Hook>, c: nat, ev: seq<Event>, ns: seq<Node>, Ls: seq<nat>, Es: seq<seq<Event>>)
    requires LaidOut(ls, tags, c, ns, Ls, Es) == true
    ensures c < |ls| && ParseFrom(ls, tags, c, ev) == Run(ev + DocumentEvents(ns), Ok(c + |DocumentLexemes(ns)|))
  {
    LayoutParse(ls, tags, c, ev, Ls, Es);
  }

  /** The top-level loop from the first tag of a readable document's lexemes: exactly the document's events. */
  lemma DocumentParse(ls: seq<Lexeme>, tags: map<string, Hook>, c: nat, ev: seq<Event>, ns: seq<Node>)
    requires Readable(tags, ns) && At(ls, c, DocumentLexemes(ns) + [EofLexeme])
    ensures c < |ls| && ParseFrom(ls, tags, c, ev) == Run(ev + DocumentEvents(ns), Ok(c + |DocumentLexemes(ns)|))
  {
    var Ls, Es := DocumentLayout(ls, tags, c, ns);
    LayoutDone(ls, tags, c, ev, ns, Ls, Es);
  }
}
