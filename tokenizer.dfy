/**
 * The tokenizer (moon/core/tokenizer.py): text normalisation, then a scan of the
 * normalised text into tokens with 1-based positions, lines and columns, ended by eof.
 *
 * The lexical rule is Scan: what token starts at the head of a string and how long
 * it is. Step adds the positions the Python counters compute, LexAcc chains the
 * steps into the token stream Lex; Lexemes is the same stream without positions. The Tokenizer class runs
 * the cursor loops of the source and is proved to produce exactly Lex(text).
 */
module Tokenizer {
  import opened Wrappers
  import opened Errors
  import opened Schemas
  import opened Strings
  import opened Cursor

  const BOM: char := '\U{feff}'

  /** `_normalize`: lstrip, reject empty content, drop one leading BOM, turn CRLF and CR into LF. */
  function Normalize(raw: string): (r: Result<string, ErrorKind>)
    ensures r.Err? <==> LStrip(raw) == []
    ensures r.Err? ==> r.error == TokenizerError
    ensures r.Ok? ==> NoCR(r.value)
  {
    var norm := LStrip(raw);
    if norm == [] then Err(TokenizerError)
    else
      var noBom := if norm[0] == BOM then norm[1..] else norm;
      Ok(ReplaceCr(ReplaceCrLf(noBom)))
  }

  /** The table of single-character tokens. */
  function SpecialKind(c: char): (k: Option<TokenKind>)
    ensures k.Some? ==> k.value !in {Eof, Word, Comment}
  {
    match c
    case '\n' => Some(Newline)
    case '\t' => Some(Tab)
    case ' ' => Some(Space)
    case ',' => Some(Comma)
    case ':' => Some(Colon)
    case '\'' => Some(Quote)
    case '"' => Some(DQuote)
    case _ => None
  }

  predicate IsSpecial(c: char) {
    SpecialKind(c).Some?
  }

  /** A '/' followed by '/' or '*' at index i, a token start, opens a comment. */
  predicate OpensComment(s: string, i: nat) {
    i + 1 < |s| && s[i] == '/' && (s[i + 1] == '/' || s[i + 1] == '*')
  }

  /** Index of the last character of the word starting at k: the next one is special, or s ends. */
  function WordEnd(s: string, k: nat): (j: nat)
    requires k < |s|
    ensures k <= j < |s|
    decreases |s| - k
  {
    if k + 1 == |s| || IsSpecial(s[k + 1]) then k else WordEnd(s, k + 1)
  }

  /** A word is maximal: no special character after its first, and a special one or the end after it. */
  lemma {:induction false} WordEndMaximal(s: string, k: nat)
    requires k < |s|
    ensures forall m :: k < m <= WordEnd(s, k) ==> !IsSpecial(s[m])
    ensures WordEnd(s, k) + 1 < |s| ==> IsSpecial(s[WordEnd(s, k) + 1])
    decreases |s| - k
  {
    if !(k + 1 == |s| || IsSpecial(s[k + 1])) {
      WordEndMaximal(s, k + 1);
    }
  }

  /**
   * The comment scan stops on s[m]: in a block comment when s[m] is '*' and the next
   * character is '/'; in a line comment when the next character is a newline.
   */
  predicate StopsAt(s: string, m: nat, multiline: bool) {
    m + 1 < |s| && (if multiline then s[m] == '*' && s[m + 1] == '/' else s[m + 1] == '\n')
  }

  /** Index of the last character of the comment scanned from k: its first stop; None if s ends first. */
  function CommentEnd(s: string, k: nat, multiline: bool): (j: Option<nat>)
    requires k < |s|
    ensures j.Some? ==> k <= j.value && j.value + 1 < |s|
    decreases |s| - k
  {
    if StopsAt(s, k, multiline) then Some(k)
    else if k + 1 == |s| then None
    else CommentEnd(s, k + 1, multiline)
  }

  /** A comment ends on its first stop; a comment that is never stopped runs to the end of the input. */
  lemma {:induction false} CommentEndFirstStop(s: string, k: nat, multiline: bool)
    requires k < |s|
    ensures var j := CommentEnd(s, k, multiline);
      j.Some? ==> StopsAt(s, j.value, multiline) && forall m :: k <= m < j.value ==> !StopsAt(s, m, multiline)
    ensures CommentEnd(s, k, multiline).None? ==> forall m :: k <= m < |s| ==> !StopsAt(s, m, multiline)
    decreases |s| - k
  {
    if !StopsAt(s, k, multiline) && k + 1 < |s| {
      CommentEndFirstStop(s, k + 1, multiline);
    }
  }

  /** What Scan finds at an index: a token kind, or None for a comment that is dropped, and where it ends. */
  datatype Scanned = Scanned(kind: Option<TokenKind>, last: nat)

  /** The lexical rule at index i: a special character, a comment, or a word. */
  function Scan(s: string, i: nat): (r: Scanned)
    requires i < |s|
    ensures i <= r.last < |s|
    ensures r.kind.None? ==> r.last == |s| - 1 && OpensComment(s, i)
    ensures r.kind != Some(Eof)
  {
    if IsSpecial(s[i]) then Scanned(SpecialKind(s[i]), i)
    else if OpensComment(s, i) then
      match CommentEnd(s, i, s[i + 1] == '*')
      case Some(j) => Scanned(Some(Comment), j)
      case None => Scanned(None, |s| - 1)
    else Scanned(Some(Word), WordEnd(s, i))
  }

  /**
   * What a token of the given kind and text looks like, `next` being the character
   * after it: a one-character token of its mapped kind; a word without special
   * characters that does not open a comment and is followed by a special character
   * or the end; or a comment that stops as StopsAt says, at its first stop.
   */
  predicate WellShaped(kind: TokenKind, v: string, next: Option<char>) {
    match kind
    case Eof => false
    case Word =>
      v != [] && (forall m :: 0 <= m < |v| ==> !IsSpecial(v[m])) && !OpensComment(v, 0)
      && (next.None? || IsSpecial(next.value))
    case Comment =>
      OpensComment(v, 0) && next.Some? &&
      var multiline := v[1] == '*';
      var w := v + [next.value];
      StopsAt(w, |v| - 1, multiline) && forall m :: 0 <= m < |v| - 1 ==> !StopsAt(w, m, multiline)
    case _ => |v| == 1 && SpecialKind(v[0]) == Some(kind)
  }

  function NextChar(s: string, n: nat): Option<char> {
    if n < |s| then Some(s[n]) else None
  }

  /** Every token Scan finds is well shaped; a dropped comment never stops. */
  lemma ScanWellShaped(s: string, i: nat)
    requires i < |s|
    ensures var r := Scan(s, i);
      r.kind.Some? ==> WellShaped(r.kind.value, Segment(s, i, r.last + 1), NextChar(s, r.last + 1))
    ensures var r := Scan(s, i);
      r.kind.None? ==> var ml := s[i + 1] == '*'; forall m :: i <= m < |s| ==> !StopsAt(s, m, ml)
  {
    var r := Scan(s, i);
    SegmentIsSlice(s, i, r.last + 1);
    if OpensComment(s, i) {
      CommentEndFirstStop(s, i, s[i + 1] == '*');
    } else if !IsSpecial(s[i]) {
      WordEndMaximal(s, i);
    }
    if r.kind == Some(Comment) {
      var v := s[i..r.last + 1];
      var w := v + [s[r.last + 1]];
      var ml := s[i + 1] == '*';
      assert w == s[i..r.last + 2];
      assert v[1] == s[i + 1];
      forall m | 0 <= m < |v|
        ensures StopsAt(w, m, ml) == StopsAt(s, i + m, ml)
      {
      }
    } else if r.kind == Some(Word) {
      var v := s[i..r.last + 1];
      assert forall m :: 0 <= m < |v| ==> v[m] == s[i + m];
    }
  }

  /**
   * The characters s[i], ..., s[j - 1], assembled one at a time from the left the way the
   * scanners append them; SegmentIsSlice shows it is the slice s[i..j].
   */
  function Segment(s: string, i: nat, j: nat): (r: string)
    requires i <= j <= |s|
    ensures |r| == j - i
    decreases j - i
  {
    if j == i then [] else Segment(s, i, j - 1) + [s[j - 1]]
  }

  lemma {:induction false} SegmentIsSlice(s: string, i: nat, j: nat)
    requires i <= j <= |s|
    ensures Segment(s, i, j) == s[i..j]
    decreases j - i
  {
    if j > i {
      SegmentIsSlice(s, i, j - 1);
      assert s[i..j] == s[i..j - 1] + [s[j - 1]];
    }
  }

  /** The result of one iteration of the tokenizer loop at index i. */
  datatype Stepped = Stepped(tok: Option<Token>, last: nat, line: int, column: int)

  /**
   * One iteration at index i with the counters at (line, column): the token found there
   * (positioned at its first character), the index of its last character, and the
   * counters standing on that last character. After a newline the line grows and
   * the column restarts at 0, so the next character is in column 1.
   */
  function Step(s: string, i: nat, line: int, column: int): (r: Stepped)
    requires i < |s|
    ensures i <= r.last < |s|
  {
    var sc := Scan(s, i);
    var j := sc.last;
    match sc.kind
    case None => Stepped(None, j, line, column + (j - i))
    case Some(k) =>
      var tok := Token(i + 1, line, column, k, Segment(s, i, j + 1));
      if k == Newline then Stepped(Some(tok), j, line + 1, 0)
      else Stepped(Some(tok), j, line, column + (j - i))
  }

  lemma StepSpecial(s: string, i: nat, line: int, column: int)
    requires i < |s| && IsSpecial(s[i])
    ensures Segment(s, i, i + 1) == [s[i]]
    ensures Step(s, i, line, column) ==
      var k := SpecialKind(s[i]).value;
      Stepped(Some(Token(i + 1, line, column, k, [s[i]])), i,
              if k == Newline then line + 1 else line, if k == Newline then 0 else column)
  {
  }

  lemma StepWord(s: string, i: nat, line: int, column: int)
    requires i < |s| && !IsSpecial(s[i]) && !OpensComment(s, i)
    ensures Step(s, i, line, column) ==
      var j := WordEnd(s, i);
      Stepped(Some(Token(i + 1, line, column, Word, Segment(s, i, j + 1))), j, line, column + (j - i))
  {
    assert Scan(s, i) == Scanned(Some(Word), WordEnd(s, i));
  }

  lemma StepComment(s: string, i: nat, line: int, column: int)
    requires i < |s| && OpensComment(s, i)
    ensures var e := CommentEnd(s, i, s[i + 1] == '*');
      && (e.Some? ==> (Step(s, i, line, column) ==
           Stepped(Some(Token(i + 1, line, column, Comment, Segment(s, i, e.value + 1))), e.value, line, column + (e.value - i))))
      && (e.None? ==> Step(s, i, line, column) == Stepped(None, |s| - 1, line, column + (|s| - 1 - i)))
  {
  }

  /**
   * The tokens from index i on, ended by eof one position past the last character, after
   * the tokens `acc` already produced: Step after Step, the way the tokenizer loop goes.
   */
  function LexAcc(s: string, i: nat, line: int, column: int, acc: seq<Token>): seq<Token>
    requires i < |s|
    decreases |s| - i
  {
    var r := Step(s, i, line, column);
    var after := if r.tok.Some? then acc + [r.tok.value] else acc;
    if r.last + 1 < |s| then LexAcc(s, r.last + 1, r.line, r.column + 1, after)
    else after + [Token(r.last + 2, r.line, r.column + 1, Eof, "")]
  }

  /** The token stream of a normalised text; the empty text (left by a lone BOM) gives only eof. */
  function Lex(s: string): seq<Token> {
    if s == [] then [Token(2, 1, 2, Eof, "")] else LexAcc(s, 0, 1, 1, [])
  }

  /** The full stage: normalise, then scan. */
  function Tokens(raw: string): Result<seq<Token>, ErrorKind> {
    var norm :- Normalize(raw);
    Ok(Lex(norm))
  }

  /** The token stream from index i on, without positions and without eof. */
  function LexemesFrom(s: string, i: nat): seq<Lexeme>
    decreases |s| - i
  {
    if i >= |s| then []
    else
      var sc := Scan(s, i);
      match sc.kind
      case None => []
      case Some(k) => [Lexeme(k, Segment(s, i, sc.last + 1))] + LexemesFrom(s, sc.last + 1)
  }

  function Lexemes(s: string): seq<Lexeme> {
    LexemesFrom(s, 0)
  }

  const EofLexeme := Lexeme(Eof, "")

  class Tokenizer {
    const cursor: Streamer<char>
    var pos: int
    var line: int
    var column: int

    /** `Tokenizer(stream)` after normalisation: counters at 1, nothing read yet. */
    constructor (norm: string)
      ensures fresh(cursor) && cursor.Valid() && cursor.Fresh() && cursor.src == norm
      ensures pos == 1 && line == 1 && column == 1
    {
      cursor := new Streamer(norm);
      pos := 1;
      line := 1;
      column := 1;
    }

    /** `_tok`: a token whose last character is at the current position; eof lands one past it. */
    function Tok(kind: TokenKind, value: string): (t: Token)
      reads this
      ensures t.kind == kind && t.value == value && t.line == line
      ensures t.pos + |value| - 1 == pos && t.column + |value| - 1 == column
    {
      Token(pos - (|value| - 1), line, column - (|value| - 1), kind, value)
    }

    /** `_advance`: next(), then one column and one position on; false where next() raises. */
    method Advance() returns (ok: bool)
      requires cursor.Valid()
      modifies this, cursor
      ensures cursor.Valid() && line == old(line)
      ensures ok <==> old(cursor.Consumed()) < |cursor.src|
      ensures ok ==> cursor.At(old(cursor.Consumed())) && pos == old(pos) + 1 && column == old(column) + 1
      ensures !ok ==> unchanged(cursor) && pos == old(pos) && column == old(column)
    {
      var c := cursor.Next();
      if c.None? {
        return false;
      }
      column := column + 1;
      pos := pos + 1;
      ok := true;
    }

    /**
     * One pass of the `_scan_word` loop on src[k]: `read()` the character and append it,
     * then ask whether the word ends here (the next character is special, or there is none).
     */
    method WordPass(ghost i: nat, ghost k: nat, val: string) returns (grown: string, stop: bool)
      requires cursor.Valid() && cursor.At(k) && i <= k && val == Segment(cursor.src, i, k)
      modifies cursor
      ensures cursor.Valid() && cursor.At(k) && grown == Segment(cursor.src, i, k + 1)
      ensures stop <==> k + 1 == |cursor.src| || IsSpecial(cursor.src[k + 1])
    {
      var c := cursor.Read();
      grown := val + [c.value];
      var p := cursor.Peek();
      stop := p.None? || IsSpecial(p.value);
    }

    /** `_scan_word`: standing on src[i], reads up to the end of the word and stands on its last character. */
    method ScanWord(ghost i: nat) returns (t: Token)
      requires cursor.Valid() && cursor.At(i) && pos == i + 1
      modifies this, cursor
      ensures cursor.Valid()
      ensures var j := WordEnd(cursor.src, i);
        cursor.At(j) && pos == j + 1 && line == old(line) && column == old(column) + (j - i)
        && t == Token(i + 1, line, old(column), Word, Segment(cursor.src, i, j + 1))
    {
      ghost var s := cursor.src;
      var val := "";
      ghost var k := i;
      while true
        invariant cursor.Valid() && cursor.At(k) && pos == k + 1 && i <= k
        invariant WordEnd(s, k) == WordEnd(s, i)
        invariant val == Segment(s, i, k)
        invariant line == old(line) && column == old(column) + (k - i)
        decreases |s| - k
      {
        var stop;
        val, stop := WordPass(i, k, val);
        if stop {
          return Tok(Word, val);
        }
        var _ := Advance();
        k := k + 1;
      }
    }

    /**
     * One pass of the `_scan_comment` loop on src[k]: `read()` the character and append it,
     * then ask whether the comment stops here (peeking only where the test needs it).
     */
    method CommentPass(ghost i: nat, ghost k: nat, multiline: bool, val: string) returns (grown: string, stop: bool)
      requires cursor.Valid() && cursor.At(k) && i <= k && val == Segment(cursor.src, i, k)
      modifies cursor
      ensures cursor.Valid() && cursor.At(k) && grown == Segment(cursor.src, i, k + 1)
      ensures stop == StopsAt(cursor.src, k, multiline)
    {
      var c := cursor.Read();
      grown := val + [c.value];
      if multiline {
        stop := false;
        if c.value == '*' {
          var p := cursor.Peek();
          stop := p == Some('/');
        }
      } else {
        var p := cursor.Peek();
        stop := p == Some('\n');
      }
    }

    /**
     * `_scan_comment`: standing on the '/' at src[i], reads up to the comment's stop and
     * stands on its last character; None where input ends first (next() raises there),
     * the cursor then standing on the last character of the input.
     */
    method ScanComment(ghost i: nat) returns (t: Option<Token>)
      requires cursor.Valid() && cursor.At(i) && pos == i + 1 && OpensComment(cursor.src, i)
      modifies this, cursor
      ensures cursor.Valid() && line == old(line)
      ensures var e := CommentEnd(cursor.src, i, cursor.src[i + 1] == '*');
        && (e.Some? ==> (cursor.At(e.value) && pos == e.value + 1 && column == old(column) + (e.value - i)
             && t == Some(Token(i + 1, line, old(column), Comment, Segment(cursor.src, i, e.value + 1)))))
        && (e.None? ==> t.None? && cursor.At(|cursor.src| - 1) && pos == |cursor.src| && column == old(column) + (|cursor.src| - 1 - i))
    {
      ghost var s := cursor.src;
      var p := cursor.Peek();
      var multiline := p == Some('*');
      assert multiline == (s[i + 1] == '*');
      var val := "";
      ghost var k := i;
      while true
        invariant cursor.Valid() && cursor.At(k) && pos == k + 1 && i <= k
        invariant CommentEnd(s, i, multiline) == CommentEnd(s, k, multiline)
        invariant val == Segment(s, i, k)
        invariant line == old(line) && column == old(column) + (k - i)
        decreases |s| - k
      {
        var stop;
        val, stop := CommentPass(i, k, multiline, val);
        if stop {
          return Some(Tok(Comment, val));
        }
        var ok := Advance();
        if !ok {
          return None;
        }
        k := k + 1;
      }
    }

    /**
     * The `elif`/`else` of the `__iter__` loop body, on a character c = src[i] that is not
     * special: a comment where c is '/' and the next character is '/' or '*', else a word.
     */
    method ScanOther(ghost i: nat, c: char) returns (tok: Option<Token>)
      requires cursor.Valid() && cursor.At(i) && pos == i + 1 && c == cursor.src[i] && !IsSpecial(c)
      modifies this, cursor
      ensures cursor.Valid()
      ensures var r := Step(cursor.src, i, old(line), old(column));
        tok == r.tok && cursor.At(r.last) && pos == r.last + 1 && line == r.line && column == r.column
    {
      var isComment := false;
      if c == '/' {
        var p := cursor.Peek();
        isComment := p.Some? && (p.value == '/' || p.value == '*');
      }
      if isComment {
        tok := StepCommentToken(i);
      } else {
        tok := StepWordToken(i);
      }
    }

    /** ScanComment, seen as one Step. */
    method StepCommentToken(ghost i: nat) returns (tok: Option<Token>)
      requires cursor.Valid() && cursor.At(i) && pos == i + 1 && OpensComment(cursor.src, i)
      modifies this, cursor
      ensures cursor.Valid()
      ensures var r := Step(cursor.src, i, old(line), old(column));
        tok == r.tok && cursor.At(r.last) && pos == r.last + 1 && line == r.line && column == r.column
    {
      StepComment(cursor.src, i, line, column);
      tok := ScanComment(i);
    }

    /** ScanWord, seen as one Step. */
    method StepWordToken(ghost i: nat) returns (tok: Option<Token>)
      requires cursor.Valid() && cursor.At(i) && pos == i + 1
      requires !IsSpecial(cursor.src[i]) && !OpensComment(cursor.src, i)
      modifies this, cursor
      ensures cursor.Valid()
      ensures var r := Step(cursor.src, i, old(line), old(column));
        tok == r.tok && cursor.At(r.last) && pos == r.last + 1 && line == r.line && column == r.column
    {
      StepWord(cursor.src, i, line, column);
      var t := ScanWord(i);
      tok := Some(t);
    }

    /**
     * One pass of the `__iter__` loop body on src[i]: `read()`, the token that starts there
     * (none for a comment that input ends inside), then `_advance`. `more` is false where
     * next() raises, which ends the loop.
     */
    method Iterate(ghost i: nat) returns (tok: Option<Token>, more: bool)
      requires cursor.Valid() && cursor.At(i) && pos == i + 1
      modifies this, cursor
      ensures cursor.Valid()
      ensures var r := Step(cursor.src, i, old(line), old(column));
        && tok == r.tok && line == r.line
        && (more ==> r.last + 1 < |cursor.src| && cursor.At(r.last + 1) && pos == r.last + 2 && column == r.column + 1)
        && (!more ==> r.last + 1 == |cursor.src| && pos == r.last + 1 && column == r.column)
    {
      tok := ScanToken(i);
      more := Advance();
    }

    /** The token, if any, that starts at the current character, leaving the cursor on its last character. */
    method ScanToken(ghost i: nat) returns (tok: Option<Token>)
      requires cursor.Valid() && cursor.At(i) && pos == i + 1
      modifies this, cursor
      ensures cursor.Valid()
      ensures var r := Step(cursor.src, i, old(line), old(column));
        tok == r.tok && cursor.At(r.last) && pos == r.last + 1 && line == r.line && column == r.column
    {
      var c := cursor.Read();
      var tt := SpecialKind(c.value);
      if tt.Some? {
        StepSpecial(cursor.src, i, line, column);
        tok := Some(Tok(tt.value, [c.value]));
        if tt.value == Newline {
          line := line + 1;
          column := 0;
        }
      } else {
        tok := ScanOther(i, c.value);
      }
    }

    /**
     * One pass of the `__iter__` loop seen from the stream: the token it yields, if any, is
     * appended to `toks`, and what LexAcc still has to produce from here is unchanged.
     * The counters before and after are also handed in and out as ghost values.
     */
    method Pass(ghost i: nat, ghost ln: int, ghost col: int, toks: seq<Token>)
      returns (out: seq<Token>, more: bool, ghost i': nat, ghost ln': int, ghost col': int)
      requires cursor.Valid() && cursor.At(i) && pos == i + 1 && line == ln && column == col
      modifies this, cursor
      ensures cursor.Valid() && line == ln' && column == col'
      ensures more ==> (i < i' < |cursor.src| && cursor.At(i') && pos == i' + 1
        && LexAcc(cursor.src, i', ln', col', out) == LexAcc(cursor.src, i, ln, col, toks))
      ensures !more ==> out + [Tok(Eof, "")] == LexAcc(cursor.src, i, ln, col, toks)
    {
      var tok;
      tok, more := Iterate(i);
      out := if tok.Some? then toks + [tok.value] else toks;
      i', ln', col' := pos - 1, line, column;
    }

    /** `__iter__`: the whole token stream of the text, eof included. */
    method Run() returns (toks: seq<Token>)
      requires cursor.Valid() && cursor.Fresh() && pos == 1 && line == 1 && column == 1
      modifies this, cursor
      ensures toks == Lex(cursor.src)
    {
      ghost var s := cursor.src;
      toks := [];
      var c := cursor.Read();
      if c.None? {
        assert s == [];
        toks := [Tok(Eof, "")];
        return;
      }
      ghost var i: nat, ln, col := 0, 1, 1;
      while true
        invariant cursor.Valid() && pos == i + 1 && cursor.At(i) && line == ln && column == col
        invariant LexAcc(s, i, ln, col, toks) == Lex(s)
        decreases |s| - i
      {
        var more;
        toks, more, i, ln, col := Pass(i, ln, col, toks);
        if !more {
          toks := toks + [Tok(Eof, "")];
          return;
        }
      }
    }
  }

  /** `list(Tokenizer(raw))`: TokenizerError on empty content, else the token stream. */
  method Tokenize(raw: string) returns (r: Result<seq<Token>, ErrorKind>)
    ensures r == Tokens(raw)
  {
    var norm := Normalize(raw);
    if norm.Err? {
      return Err(norm.error);
    }
    var t := new Tokenizer(norm.value);
    var toks := t.Run();
    r := Ok(toks);
  }
}
