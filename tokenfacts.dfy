/**
 * What the token stream Lex(s) of a normalised text looks like as a whole: the stream
 * the parser sees (Lexemes, then eof), how the tokens tile the text, and how the line
 * and column counters follow the newline tokens.
 */
module TokenFacts {
  import opened Wrappers
  import opened Schemas
  import opened Strings
  import opened Tokenizer

  /** The lexemes from i: the one Scan finds at i, then those after it; none for a dropped comment. */
  lemma LexemesUnfold(s: string, i: nat)
    requires i < |s|
    ensures var sc := Scan(s, i);
      && (sc.kind.None? ==> LexemesFrom(s, i) == [])
      && (sc.kind.Some? ==> LexemesFrom(s, i) == [Lexeme(sc.kind.value, Segment(s, i, sc.last + 1))] + LexemesFrom(s, sc.last + 1))
  {
  }

  /** Step finds what Scan does: the same end, and a token exactly where Scan finds a kind. */
  lemma StepIsScan(s: string, i: nat, line: int, column: int)
    requires i < |s|
    ensures var r := Step(s, i, line, column);
      && r.last == Scan(s, i).last
      && (r.tok.None? ==> Scan(s, i).kind.None? && r.last == |s| - 1)
      && (r.tok.Some? ==> Scan(s, i).kind.Some? && Shape(r.tok.value) == Lexeme(Scan(s, i).kind.value, Segment(s, i, r.last + 1)))
  {
  }

  /** One Step of LexAcc: the token found (if any) joins the accumulator. */
  lemma LexAccUnfold(s: string, i: nat, line: int, column: int, acc: seq<Token>)
    requires i < |s|
    ensures var r := Step(s, i, line, column);
      var after := if r.tok.Some? then acc + [r.tok.value] else acc;
      && (r.last + 1 < |s| ==> LexAcc(s, i, line, column, acc) == LexAcc(s, r.last + 1, r.line, r.column + 1, after))
      && (r.last + 1 == |s| ==> LexAcc(s, i, line, column, acc) == after + [Token(r.last + 2, r.line, r.column + 1, Eof, "")])
  {
  }

  /**
   * The positions the tokenizer's counters give a stream of lexemes, starting at `pos`
   * on line `line` whose column 1 is at position base + 1: each token's position is the
   * start plus the lengths of the values before it, a newline token moves to the next
   * line whose column 1 follows it, and eof lands at `end`, in the line it ends.
   */
  function Place(ls: seq<Lexeme>, pos: int, line: int, base: int, end: int): (ts: seq<Token>)
    ensures |ts| == |ls| + 1
    decreases |ls|
  {
    if ls == [] then [Token(end, line, end - base, Eof, "")]
    else
      var l := ls[0];
      var nl := l.kind == Newline;
      [Token(pos, line, pos - base, l.kind, l.value)]
      + Place(ls[1..], pos + |l.value|, if nl then line + 1 else line, if nl then pos else base, end)
  }

  /** Where Step puts the token it finds, and how it moves the line and column counters. */
  lemma StepCounters(s: string, i: nat, line: int, column: int)
    requires i < |s|
    ensures var r := Step(s, i, line, column);
      && (r.tok.Some? ==>
            (r.tok.value.pos == i + 1 && r.tok.value.line == line && r.tok.value.column == column
             && |r.tok.value.value| == r.last + 1 - i))
      && (r.tok.None? ==> r.last == |s| - 1)
      && (r.tok.Some? && r.tok.value.kind == Newline ==> (r.last == i && r.line == line + 1 && r.column == 0))
      && (!(r.tok.Some? && r.tok.value.kind == Newline) ==> (r.line == line && r.column == column + (r.last - i)))
  {
  }

  /**
   * Placing a token in front of the rest, as Place does, after the tokens `acc`. The
   * glue lemmas below take the sequences involved as plain values and state the link to
   * Place or LexAcc as an implication, which keeps the inductive proofs cheap.
   */
  lemma GlueToken(acc: seq<Token>, t: Token, x: seq<Token>, ls: seq<Lexeme>, rest: seq<Lexeme>, p: seq<Token>,
                  pos: int, line: int, base: int, end: int, pos': int, line': int, base': int)
    requires ls == [Shape(t)] + rest
    requires t == Token(pos, line, pos - base, t.kind, t.value) && pos' == pos + |t.value|
    requires line' == (if t.kind == Newline then line + 1 else line)
    requires base' == (if t.kind == Newline then pos else base)
    requires x == acc + [t] + p
    ensures p == Place(rest, pos', line', base', end) ==> x == acc + Place(ls, pos, line, base, end)
  {
    assert ls[1..] == rest;
  }

  /** Placing a last token and eof after `acc`. */
  lemma GlueLast(acc: seq<Token>, t: Token, x: seq<Token>, ls: seq<Lexeme>,
                 pos: int, line: int, base: int, end: int, line': int, base': int, column': int)
    requires ls == [Shape(t)]
    requires t == Token(pos, line, pos - base, t.kind, t.value) && end == pos + |t.value|
    requires line' == (if t.kind == Newline then line + 1 else line)
    requires base' == (if t.kind == Newline then pos else base)
    requires column' == end - base'
    requires x == acc + [t] + [Token(end, line', column', Eof, "")]
    ensures x == acc + Place(ls, pos, line, base, end)
  {
    assert ls[1..] == [];
  }

  /** Placing the end of the stream after `acc`: eof alone. */
  lemma GlueEof(acc: seq<Token>, x: seq<Token>, ls: seq<Lexeme>, pos: int, line: int, base: int, end: int,
                column: int)
    requires |ls| == 0 && column == end - base
    requires x == acc + [Token(end, line, column, Eof, "")]
    ensures x == acc + Place(ls, pos, line, base, end)
  {
  }

  /**
   * From index i on, with the counters at (line, column), the stream the loop builds
   * after `acc` is the lexemes still to come, placed from position i + 1.
   */
  predicate PlacedFrom(s: string, i: nat, line: int, column: int, acc: seq<Token>)
    requires i < |s|
  {
    LexAcc(s, i, line, column, acc) == acc + Place(LexemesFrom(s, i), i + 1, line, i + 1 - column, |s| + 1)
  }

  lemma PlacedFromIntro(s: string, i: nat, line: int, column: int, acc: seq<Token>)
    requires i < |s|
    ensures LexAcc(s, i, line, column, acc) == acc + Place(LexemesFrom(s, i), i + 1, line, i + 1 - column, |s| + 1)
            ==> PlacedFrom(s, i, line, column, acc) == true
  {
  }

  lemma PlacedFromElim(s: string, i: nat, line: int, column: int, acc: seq<Token>)
    requires i < |s|
    ensures PlacedFrom(s, i, line, column, acc) == true ==>
      LexAcc(s, i, line, column, acc) == acc + Place(LexemesFrom(s, i), i + 1, line, i + 1 - column, |s| + 1)
  {
  }

  /**
   * One step of the loop, stated without Step: either nothing is left but eof (the text
   * ends inside a comment: `dropped`), or the lexemes start with token t covering indices
   * i to j - 1, after which the counters stand at (line', column').
   */
  predicate Decomposed(s: string, i: nat, line: int, column: int, acc: seq<Token>,
                       dropped: bool, t: Token, j: nat, line': int, column': int)
    requires i < |s|
  {
    if dropped then
      LexemesFrom(s, i) == [] && LexAcc(s, i, line, column, acc) == acc + [Token(|s| + 1, line, column + (|s| - i), Eof, "")]
    else
      && i < j <= |s| && j == i + |t.value|
      && t == Token(i + 1, line, column, t.kind, t.value)
      && (t.kind == Newline ==> |t.value| == 1 && line' == line + 1 && column' == 1)
      && (t.kind != Newline ==> line' == line && column' == column + |t.value|)
      && (j < |s| ==> LexemesFrom(s, i) == [Shape(t)] + LexemesFrom(s, j))
      && (j == |s| ==> LexemesFrom(s, i) == [Shape(t)])
      && (j < |s| ==> LexAcc(s, i, line, column, acc) == LexAcc(s, j, line', column', acc + [t]))
      && (j == |s| ==> LexAcc(s, i, line, column, acc) == acc + [t] + [Token(|s| + 1, line', column', Eof, "")])
  }

  lemma StepDecompose(s: string, i: nat, line: int, column: int, acc: seq<Token>)
      returns (dropped: bool, t: Token, j: nat, line': int, column': int)
    requires i < |s|
    ensures Decomposed(s, i, line, column, acc, dropped, t, j, line', column') == true
  {
    var r := Step(s, i, line, column);
    StepIsScan(s, i, line, column);
    LexemesUnfold(s, i);
    StepCounters(s, i, line, column);
    LexAccUnfold(s, i, line, column, acc);
    dropped, t, j, line', column' := r.tok.None?, Token(0, 0, 0, Eof, ""), 0, 0, 0;
    if r.tok.Some? {
      t := r.tok.value;
      j := r.last + 1;
      line' := r.line;
      column' := r.column + 1;
      if j == |s| {
        assert LexemesFrom(s, j) == [];
      }
    }
  }

  /** A comment that the text ends inside: eof follows the tokens so far. */
  lemma PlaceDropped(s: string, i: nat, line: int, column: int, acc: seq<Token>,
                     dropped: bool, t: Token, j: nat, line': int, column': int)
    requires i < |s| && dropped && Decomposed(s, i, line, column, acc, dropped, t, j, line', column') == true
    ensures PlacedFrom(s, i, line, column, acc) == true
  {
    var x := LexAcc(s, i, line, column, acc);
    var ls := LexemesFrom(s, i);
    GlueEof(acc, x, ls, i + 1, line, i + 1 - column, |s| + 1, column + (|s| - i));
    PlacedFromIntro(s, i, line, column, acc);
  }

  /** A token that ends the text: it and eof follow the tokens so far. */
  lemma PlaceLast(s: string, i: nat, line: int, column: int, acc: seq<Token>,
                  dropped: bool, t: Token, j: nat, line': int, column': int)
    requires i < |s| && !dropped && j == |s| && Decomposed(s, i, line, column, acc, dropped, t, j, line', column') == true
    ensures PlacedFrom(s, i, line, column, acc) == true
  {
    var x := LexAcc(s, i, line, column, acc);
    var ls := LexemesFrom(s, i);
    GlueLast(acc, t, x, ls, i + 1, line, i + 1 - column, |s| + 1, line', j + 1 - column', column');
    PlacedFromIntro(s, i, line, column, acc);
  }

  /** A token with more text after it: the stream from the next index follows it. */
  lemma PlaceNext(s: string, i: nat, line: int, column: int, acc: seq<Token>,
                  dropped: bool, t: Token, j: nat, line': int, column': int)
    requires i < |s| && !dropped && j < |s| && Decomposed(s, i, line, column, acc, dropped, t, j, line', column') == true
    requires PlacedFrom(s, j, line', column', acc + [t]) == true
    ensures PlacedFrom(s, i, line, column, acc) == true
  {
    PlacedFromElim(s, j, line', column', acc + [t]);
    var x := LexAcc(s, i, line, column, acc);
    var ls := LexemesFrom(s, i);
    var rest := LexemesFrom(s, j);
    var p := Place(rest, j + 1, line', j + 1 - column', |s| + 1);
    GlueToken(acc, t, x, ls, rest, p, i + 1, line, i + 1 - column, |s| + 1, j + 1, line', j + 1 - column');
    PlacedFromIntro(s, i, line, column, acc);
  }

  lemma {:induction false} LexAccPlace(s: string, i: nat, line: int, column: int, acc: seq<Token>)
    requires i < |s|
    ensures PlacedFrom(s, i, line, column, acc) == true
    decreases |s| - i
  {
    var dropped, t, j, line', column' := StepDecompose(s, i, line, column, acc);
    if dropped {
      PlaceDropped(s, i, line, column, acc, dropped, t, j, line', column');
    } else if j == |s| {
      PlaceLast(s, i, line, column, acc, dropped, t, j, line', column');
    } else {
      LexAccPlace(s, j, line', column', acc + [t]);
      PlaceNext(s, i, line, column, acc, dropped, t, j, line', column');
    }
  }

  /**
   * The token stream of a normalised text is its lexemes placed from position 1, line 1,
   * with eof one past the last character, or at position 2 for the empty text.
   */
  lemma GlueNil(x: seq<Token>, y: seq<Token>)
    requires x == [] + y
    ensures x == y
  {
  }

  lemma LexIsPlaced(s: string)
    requires s != []
    ensures Lex(s) == Place(Lexemes(s), 1, 1, 0, |s| + 1)
  {
    LexAccPlace(s, 0, 1, 1, []);
    GlueNil(LexAcc(s, 0, 1, 1, []), Place(LexemesFrom(s, 0), 1, 1, 0, |s| + 1));
  }

  /** The number of characters the values of a lexeme sequence cover. */
  function Width(ls: seq<Lexeme>): nat {
    if ls == [] then 0 else |ls[0].value| + Width(ls[1..])
  }

  /** The values of a lexeme sequence, one after the other. */
  function ValuesText(ls: seq<Lexeme>): string {
    if ls == [] then [] else ls[0].value + ValuesText(ls[1..])
  }

  lemma {:induction false} WidthIsTextLength(ls: seq<Lexeme>)
    ensures Width(ls) == |ValuesText(ls)|
  {
    if ls != [] {
      WidthIsTextLength(ls[1..]);
    }
  }

  /** Place keeps every lexeme in order and ends with eof at `end`. */
  lemma {:induction false} PlaceAt(ls: seq<Lexeme>, pos: int, line: int, base: int, end: int)
    ensures var ts := Place(ls, pos, line, base, end);
      && (forall k :: 0 <= k < |ls| ==> Shape(ts[k]) == ls[k])
      && ts[|ls|].kind == Eof && ts[|ls|].pos == end && ts[|ls|].value == ""
    decreases |ls|
  {
    if ls != [] {
      var l := ls[0];
      var nl := l.kind == Newline;
      PlaceAt(ls[1..], pos + |l.value|, if nl then line + 1 else line, if nl then pos else base, end);
    }
  }

  /**
   * The counters from one token to the next: the next position is the current one plus
   * the value's length (or `end` for eof); a newline moves to the next line, where the
   * column counts from the newline's position, and any other token stays on its line,
   * the column growing as the position does. The first token is at `pos`.
   */
  lemma {:induction false} PlaceCounters(ls: seq<Lexeme>, pos: int, line: int, base: int, end: int)
    ensures var ts := Place(ls, pos, line, base, end);
      && ts[0].pos == (if ls == [] then end else pos) && ts[0].line == line && ts[0].column == ts[0].pos - base
      && forall k :: 0 <= k < |ls| ==>
        var nl := ls[k].kind == Newline;
        && ts[k + 1].pos == (if k + 1 < |ls| then ts[k].pos + |ls[k].value| else end)
        && ts[k + 1].line == (if nl then ts[k].line + 1 else ts[k].line)
        && ts[k + 1].column == (if nl then 0 else ts[k].column) + (ts[k + 1].pos - ts[k].pos)
    decreases |ls|
  {
    if ls != [] {
      var l := ls[0];
      var nl := l.kind == Newline;
      var line', base' := if nl then line + 1 else line, if nl then pos else base;
      PlaceCounters(ls[1..], pos + |l.value|, line', base', end);
      var ts := Place(ls, pos, line, base, end);
      var tail := Place(ls[1..], pos + |l.value|, line', base', end);
      assert ts == [Token(pos, line, pos - base, l.kind, l.value)] + tail;
      forall k | 0 <= k < |ls|
        ensures var nl := ls[k].kind == Newline;
          && ts[k + 1].pos == (if k + 1 < |ls| then ts[k].pos + |ls[k].value| else end)
          && ts[k + 1].line == (if nl then ts[k].line + 1 else ts[k].line)
          && ts[k + 1].column == (if nl then 0 else ts[k].column) + (ts[k + 1].pos - ts[k].pos)
      {
        if k > 0 {
          assert ts[k] == tail[k - 1] && ts[k + 1] == tail[k] && ls[k] == ls[1..][k - 1];
        }
      }
    }
  }

  /** Each token's position: the start plus the widths of the lexemes before it. */
  lemma {:induction false} PlacePositions(ls: seq<Lexeme>, pos: int, line: int, base: int, end: int)
    ensures forall k :: 0 <= k < |ls| ==> Place(ls, pos, line, base, end)[k].pos == pos + Width(ls[..k])
    decreases |ls|
  {
    if ls != [] {
      var l := ls[0];
      var nl := l.kind == Newline;
      var line', base' := if nl then line + 1 else line, if nl then pos else base;
      PlacePositions(ls[1..], pos + |l.value|, line', base', end);
      forall k | 0 < k < |ls|
        ensures Place(ls, pos, line, base, end)[k].pos == pos + Width(ls[..k])
      {
        assert ls[..k][1..] == ls[1..][..k - 1];
      }
    }
  }

  /** Where the lexemes from i stop: the end of the text, or a comment the text ends inside. */
  function LexStop(s: string, i: nat): (r: nat)
    requires i <= |s|
    ensures i <= r <= |s|
    ensures r < |s| ==> OpensComment(s, r) && CommentEnd(s, r, s[r + 1] == '*').None?
    decreases |s| - i
  {
    if i == |s| then |s|
    else
      var sc := Scan(s, i);
      if sc.kind.None? then i else LexStop(s, sc.last + 1)
  }

  /** The values of the lexemes from i are the text from i up to where the lexemes stop. */
  predicate TextCovered(s: string, i: nat)
    requires i <= |s|
  {
    ValuesText(LexemesFrom(s, i)) == s[i..LexStop(s, i)]
  }

  lemma TextCoveredStep(s: string, i: nat, j: nat, v: string, k: TokenKind)
    requires i < j <= |s| && v == s[i..j]
    requires LexemesFrom(s, i) == [Lexeme(k, v)] + LexemesFrom(s, j) && LexStop(s, i) == LexStop(s, j)
    ensures TextCovered(s, j) == true ==> TextCovered(s, i) == true
  {
    var ls := LexemesFrom(s, i);
    var rest := LexemesFrom(s, j);
    TextGlue(ls, rest, Lexeme(k, v));
    SliceGlue(s, i, j, LexStop(s, j));
  }

  lemma TextGlue(ls: seq<Lexeme>, rest: seq<Lexeme>, l: Lexeme)
    requires ls == [l] + rest
    ensures ValuesText(ls) == l.value + ValuesText(rest)
  {
    assert ls[1..] == rest;
  }

  lemma SliceGlue(s: string, i: nat, j: nat, e: nat)
    requires i <= j <= e <= |s|
    ensures s[i..e] == s[i..j] + s[j..e]
  {
  }

  lemma {:induction false} LexemesText(s: string, i: nat)
    requires i <= |s|
    ensures TextCovered(s, i) == true
    decreases |s| - i
  {
    if i < |s| {
      var sc := Scan(s, i);
      if sc.kind.Some? {
        var j := sc.last + 1;
        LexemesText(s, j);
        SegmentIsSlice(s, i, j);
        TextCoveredStep(s, i, j, Segment(s, i, j), sc.kind.value);
      }
    }
  }

  /** No lexeme is eof, and every newline lexeme is the one character '\n'. */
  lemma {:induction false} LexemesKinds(s: string, i: nat)
    ensures forall k :: 0 <= k < |LexemesFrom(s, i)| ==>
      LexemesFrom(s, i)[k].kind != Eof && (LexemesFrom(s, i)[k].kind == Newline ==> LexemesFrom(s, i)[k].value == "\n")
    decreases |s| - i
  {
    if i < |s| {
      var sc := Scan(s, i);
      if sc.kind.Some? {
        var j := sc.last + 1;
        LexemesKinds(s, j);
        var ls := LexemesFrom(s, i);
        var l := Lexeme(sc.kind.value, Segment(s, i, j));
        assert ls == [l] + LexemesFrom(s, j);
        if l.kind == Newline {
          assert IsSpecial(s[i]);
          assert Segment(s, i, j) == [s[i]];
        }
      }
    }
  }

  /** The stream the parser reads: the lexemes, then eof. */
  lemma LexShapes(s: string)
    ensures Shapes(Lex(s)) == Lexemes(s) + [EofLexeme]
  {
    if s != [] {
      LexIsPlaced(s);
      PlaceShapes(Lexemes(s), 1, 1, 0, |s| + 1);
    } else {
      assert Shapes(Lex(s)) == [EofLexeme];
    }
  }

  lemma PlaceShapes(ls: seq<Lexeme>, pos: int, line: int, base: int, end: int)
    ensures Shapes(Place(ls, pos, line, base, end)) == ls + [EofLexeme]
  {
    PlaceAt(ls, pos, line, base, end);
  }

  /**
   * Exactly one eof, at the end of the stream, one position past the last character
   * (position 2 for the empty text a lone BOM leaves).
   */
  lemma LexSingleEof(s: string)
    ensures |Lex(s)| == |Lexemes(s)| + 1
    ensures forall k :: 0 <= k < |Lexemes(s)| ==> Lex(s)[k].kind != Eof
    ensures Lex(s)[|Lexemes(s)|].kind == Eof && Lex(s)[|Lexemes(s)|].value == ""
    ensures Lex(s)[|Lexemes(s)|].pos == if s == [] then 2 else |s| + 1
  {
    var ls := Lexemes(s);
    LexemesKinds(s, 0);
    if s != [] {
      LexIsPlaced(s);
      PlaceAt(ls, 1, 1, 0, |s| + 1);
    }
  }

  /** Each token's position is one plus the lengths of the values before it. */
  lemma LexPositions(s: string)
    ensures |Lex(s)| == |Lexemes(s)| + 1
    ensures forall k :: 0 <= k < |Lexemes(s)| ==> Lex(s)[k].pos == 1 + Width(Lexemes(s)[..k])
  {
    if s != [] {
      LexIsPlaced(s);
      PlacePositions(Lexemes(s), 1, 1, 0, |s| + 1);
    }
  }

  /** PlaceCounters between two lexemes, when each newline lexeme is one character long. */
  lemma PlaceCountersBetween(ls: seq<Lexeme>, pos: int, line: int, base: int, end: int)
    requires forall k :: 0 <= k < |ls| && ls[k].kind == Newline ==> |ls[k].value| == 1
    ensures var ts := Place(ls, pos, line, base, end);
      forall k :: 0 <= k < |ls| - 1 ==>
        if ls[k].kind == Newline then ts[k + 1].line == ts[k].line + 1 && ts[k + 1].column == 1
        else ts[k + 1].line == ts[k].line && ts[k + 1].column == ts[k].column + |ls[k].value|
  {
    PlaceCounters(ls, pos, line, base, end);
  }

  /**
   * The line and column counters: the stream starts at line 1 with the column equal to
   * the position (1, unless the text is one unclosed comment); after a newline token the
   * next token is at the next line, column 1; after any other token the next one is on
   * the same line, the token's length further right.
   */
  lemma LexCounters(s: string)
    requires s != []
    ensures |Lex(s)| == |Lexemes(s)| + 1
    ensures Lex(s)[0].line == 1 && Lex(s)[0].column == Lex(s)[0].pos
    ensures Lexemes(s) != [] ==> Lex(s)[0].pos == 1
    ensures forall k :: 0 <= k < |Lexemes(s)| - 1 ==>
      if Lex(s)[k].kind == Newline then Lex(s)[k + 1].line == Lex(s)[k].line + 1 && Lex(s)[k + 1].column == 1
      else Lex(s)[k + 1].line == Lex(s)[k].line && Lex(s)[k + 1].column == Lex(s)[k].column + |Lex(s)[k].value|
  {
    var ls := Lexemes(s);
    LexIsPlaced(s);
    LexemesKinds(s, 0);
    PlaceAt(ls, 1, 1, 0, |s| + 1);
    PlaceCounters(ls, 1, 1, 0, |s| + 1);
    PlaceCountersBetween(ls, 1, 1, 0, |s| + 1);
  }

  /**
   * The values of the tokens before eof spell the text, up to a comment that the text
   * ends inside, if any: such a comment is dropped.
   */
  lemma LexText(s: string)
    ensures ValuesText(Lexemes(s)) == s[..LexStop(s, 0)]
    ensures LexStop(s, 0) < |s| ==> OpensComment(s, LexStop(s, 0)) && CommentEnd(s, LexStop(s, 0), s[LexStop(s, 0) + 1] == '*').None?
  {
    LexemesText(s, 0);
  }

  /** Text that needs no normalisation: it starts with neither whitespace nor a BOM and has no carriage return. */
  predicate Normal(t: string) {
    t != [] && !IsSpace(t[0]) && t[0] != BOM && NoCR(t)
  }

  lemma NormalizeNormal(t: string)
    requires Normal(t)
    ensures Normalize(t) == Ok(t)
  {
    ReplaceCrLfWithoutCR(t);
    assert ReplaceCr(t) == t;
  }

  /**
   * A leading BOM is dropped: with it the text normalises as without it, provided what
   * follows does not start with whitespace (the lstrip happens before the BOM is looked at)
   * or with a second BOM (only one is dropped).
   */
  lemma NormalizeBom(t: string)
    requires t != [] && !IsSpace(t[0]) && t[0] != BOM
    ensures Normalize([BOM] + t) == Normalize(t)
  {
    assert !IsSpace(BOM);
    assert ([BOM] + t)[1..] == t;
  }

  /** A lone BOM normalises to the empty text, whose stream is a single eof at position 2. */
  lemma NormalizeBomOnly()
    ensures Normalize([BOM]) == Ok([])
    ensures Tokens([BOM]) == Ok([Token(2, 1, 2, Eof, "")])
  {
    assert !IsSpace(BOM);
    assert LStrip([BOM]) == [BOM];
    assert [BOM][1..] == [];
    assert ReplaceCrLf([]) == [];
    assert ReplaceCr([]) == [];
  }

  /** CRLF and LF line breaks normalise alike, so they give the same tokens. */
  lemma NormalizeCrLf(a: string, b: string)
    requires Normal(a) && NoCR(b)
    ensures Normalize(a + "\r\n" + b) == Normalize(a + "\n" + b) == Ok(a + "\n" + b)
    ensures Tokens(a + "\r\n" + b) == Tokens(a + "\n" + b)
  {
    var crlf := a + "\r\n" + b;
    var lf := a + "\n" + b;
    assert crlf[0] == a[0] && lf[0] == a[0];
    ReplaceCrLfJoin(a, b);
    assert NoCR(lf) by {
      forall i | 0 <= i < |lf|
        ensures lf[i] != '\r'
      {
        if i > |a| {
          assert lf[i] == b[i - |a| - 1];
        }
      }
    }
    NormalizeNormal(lf);
    ReplaceCrLfWithoutCR(lf);
    assert ReplaceCr(lf) == lf;
  }
}
