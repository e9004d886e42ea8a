/**
 * How the tokenizer reads text that is written in pieces (moon/core/tokenizer.py). Two
 * pieces are read as the lexemes of the first followed by those of the second when no
 * word runs across the join and no comment opens where a token starts; from that follow
 * the lexemes of the text the emitter writes for a document of plain objects.
 */
module TextLexing {
  import opened Wrappers
  import opened Schemas
  import opened Strings
  import opened Tokenizer
  import opened TokenFacts
  import opened ObjectHook
  import opened Emitter

  /** No comment opens where a token of `a` can start: at its first character or after a special one. */
  predicate Clean(a: string) {
    forall m :: 0 <= m < |a| && (m == 0 || IsSpecial(a[m - 1])) ==> !OpensComment(a, m)
  }

  /** No word runs from `a` into `b`: `b` is empty or starts with a special character, or `a` ends with one. */
  predicate Joins(a: string, b: string) {
    b == [] || IsSpecial(b[0]) || (a != [] && IsSpecial(a[|a| - 1]))
  }

  /** Index i of `a` is where a token starts when `a` is read alone. */
  predicate Boundary(a: string, i: nat) {
    i <= |a| && (i == 0 || i == |a| || IsSpecial(a[i - 1]) || IsSpecial(a[i]))
  }

  /** The text `chunks` make when written one after the other, as `write` does on the emitter's output. */
  function Concat(chunks: seq<string>): (t: string)
    ensures chunks == [] ==> t == []
  {
    if chunks == [] then [] else chunks[0] + Concat(chunks[1..])
  }

  lemma {:induction false} WordEndShift(p: string, s: string, k: nat)
    requires k < |s|
    ensures WordEnd(p + s, |p| + k) == |p| + WordEnd(s, k)
    decreases |s| - k
  {
    if k + 1 < |s| {
      assert (p + s)[|p| + k + 1] == s[k + 1];
      if !IsSpecial(s[k + 1]) {
        WordEndShift(p, s, k + 1);
      }
    }
  }

  lemma {:induction false} CommentEndShift(p: string, s: string, k: nat, ml: bool)
    requires k < |s|
    ensures CommentEnd(p + s, |p| + k, ml) ==
      if CommentEnd(s, k, ml).Some? then Some(|p| + CommentEnd(s, k, ml).value) else None
    decreases |s| - k
  {
    assert StopsAt(p + s, |p| + k, ml) == StopsAt(s, k, ml) by {
      if k + 1 < |s| {
        assert (p + s)[|p| + k] == s[k] && (p + s)[|p| + k + 1] == s[k + 1];
      }
    }
    if !StopsAt(s, k, ml) && k + 1 < |s| {
      CommentEndShift(p, s, k + 1, ml);
    }
  }

  /** What is scanned at an index does not depend on the text before it. */
  lemma ScanShift(p: string, s: string, i: nat)
    requires i < |s|
    ensures Scan(p + s, |p| + i) == Scanned(Scan(s, i).kind, |p| + Scan(s, i).last)
  {
    var t := p + s;
    assert t[|p| + i] == s[i];
    assert OpensComment(t, |p| + i) == OpensComment(s, i) by {
      if i + 1 < |s| {
        assert t[|p| + i + 1] == s[i + 1];
      }
    }
    if OpensComment(s, i) {
      assert t[|p| + i + 1] == s[i + 1];
      CommentEndShift(p, s, i, s[i + 1] == '*');
    } else if !IsSpecial(s[i]) {
      WordEndShift(p, s, i);
    }
  }

  lemma SegmentShift(p: string, s: string, i: nat, j: nat)
    requires i <= j <= |s|
    ensures Segment(p + s, |p| + i, |p| + j) == Segment(s, i, j)
  {
    SegmentIsSlice(p + s, |p| + i, |p| + j);
    SegmentIsSlice(s, i, j);
    assert (p + s)[|p| + i..|p| + j] == s[i..j];
  }

  /** The lexemes from an index of `s` are those from the same place in `p + s`. */
  lemma {:induction false} LexemesShift(p: string, s: string, i: nat)
    ensures LexemesFrom(p + s, |p| + i) == LexemesFrom(s, i)
    decreases |s| - i
  {
    if i < |s| {
      var sc := Scan(s, i);
      ScanShift(p, s, i);
      LexemesUnfold(s, i);
      LexemesUnfold(p + s, |p| + i);
      if sc.kind.Some? {
        SegmentShift(p, s, i, sc.last + 1);
        LexemesShift(p, s, sc.last + 1);
      }
    }
  }

  lemma {:induction false} WordEndPrefix(a: string, b: string, k: nat)
    requires k < |a| && Joins(a, b) && !IsSpecial(a[k])
    ensures WordEnd(a + b, k) == WordEnd(a, k)
    decreases |a| - k
  {
    if k + 1 < |a| {
      assert (a + b)[k + 1] == a[k + 1];
      if !IsSpecial(a[k + 1]) {
        WordEndPrefix(a, b, k + 1);
      }
    } else if b != [] {
      assert (a + b)[k + 1] == b[0];
    }
  }

  /** A token of `a` that does not open a comment is scanned the same in `a + b`. */
  lemma ScanPrefix(a: string, b: string, i: nat)
    requires i < |a| && Joins(a, b) && !OpensComment(a, i)
    ensures Scan(a + b, i) == Scan(a, i)
  {
    var t := a + b;
    assert t[i] == a[i];
    assert !OpensComment(t, i) by {
      if i + 1 < |a| {
        assert t[i + 1] == a[i + 1];
      } else if b != [] {
        assert t[i + 1] == b[0];
      }
    }
    if !IsSpecial(a[i]) {
      WordEndPrefix(a, b, i);
    }
  }

  lemma SegmentPrefix(a: string, b: string, i: nat, j: nat)
    requires i <= j <= |a|
    ensures Segment(a + b, i, j) == Segment(a, i, j)
  {
    SegmentIsSlice(a + b, i, j);
    SegmentIsSlice(a, i, j);
    assert (a + b)[i..j] == a[i..j];
  }

  /** One token of `a` read from a token start, alone and followed by `b`: the same lexeme, and the next token start. */
  lemma PrefixStep(a: string, b: string, i: nat) returns (l: Lexeme, j: nat)
    requires Clean(a) && Joins(a, b) && Boundary(a, i) && i < |a|
    ensures i < j && Boundary(a, j)
    ensures LexemesFrom(a, i) == [l] + LexemesFrom(a, j)
    ensures LexemesFrom(a + b, i) == [l] + LexemesFrom(a + b, j)
  {
    assert !OpensComment(a, i);
    var sc := Scan(a, i);
    ScanPrefix(a, b, i);
    LexemesUnfold(a, i);
    LexemesUnfold(a + b, i);
    j := sc.last + 1;
    SegmentPrefix(a, b, i, j);
    if !IsSpecial(a[i]) {
      WordEndMaximal(a, i);
    }
    l := Lexeme(sc.kind.value, Segment(a, i, j));
  }

  /** Reading `a + b` from a token start of `a` reads the rest of `a` alone, then goes on from where `b` starts. */
  lemma {:induction false} LexemesPrefix(a: string, b: string, i: nat)
    requires Clean(a) && Joins(a, b) && Boundary(a, i)
    ensures LexemesFrom(a + b, i) == LexemesFrom(a, i) + LexemesFrom(a + b, |a|)
    decreases |a| - i
  {
    if i < |a| {
      var l, j := PrefixStep(a, b, i);
      LexemesPrefix(a, b, j);
      Regroup([l], LexemesFrom(a, j), LexemesFrom(a + b, |a|));
    }
  }

  /** Two pieces joined without a word across the join are read as the first piece's lexemes, then the second's. */
  lemma LexemesAppend(a: string, b: string)
    requires Clean(a) && Joins(a, b)
    ensures Lexemes(a + b) == Lexemes(a) + Lexemes(b)
  {
    LexemesPrefix(a, b, 0);
    LexemesShift(a, b, 0);
  }

  /** Joining two clean pieces without a word across the join is clean. */
  lemma CleanAppend(a: string, b: string)
    requires Clean(a) && Clean(b) && Joins(a, b)
    ensures Clean(a + b)
  {
    var t := a + b;
    forall m | 0 <= m < |t| && (m == 0 || IsSpecial(t[m - 1]))
      ensures !OpensComment(t, m)
    {
      if m < |a| {
        assert t[m] == a[m];
        if m > 0 {
          assert t[m - 1] == a[m - 1];
        }
        assert !OpensComment(a, m);
        if m + 1 < |a| {
          assert t[m + 1] == a[m + 1];
        } else if b != [] {
          assert t[m + 1] == b[0];
        }
      } else {
        var k := m - |a|;
        assert t[m] == b[k];
        if k + 1 < |b| {
          assert t[m + 1] == b[k + 1];
        }
        if k > 0 {
          assert t[m - 1] == b[k - 1];
          assert !OpensComment(b, k);
        } else if a != [] {
          assert t[m - 1] == a[|a| - 1];
          assert !OpensComment(b, 0);
        }
      }
    }
  }

  /** Clean and without a carriage return: what the emitter must write for the text to be read back as written. */
  predicate Tidy(a: string) {
    Clean(a) && NoCR(a)
  }

  lemma TidyAppend(a: string, b: string)
    requires Tidy(a) && Tidy(b) && Joins(a, b)
    ensures Tidy(a + b)
  {
    CleanAppend(a, b);
    assert forall m :: 0 <= m < |a + b| ==> (a + b)[m] == if m < |a| then a[m] else b[m - |a|];
  }

  /** Tidy pieces joined without a word across the join: the lexemes of each, in order, and a tidy text. */
  lemma Glue(a: string, b: string)
    requires Tidy(a) && Tidy(b) && Joins(a, b)
    ensures Lexemes(a + b) == Lexemes(a) + Lexemes(b) && Tidy(a + b)
  {
    LexemesAppend(a, b);
    TidyAppend(a, b);
  }

  /** A text the tokenizer reads back as one word: no special character, no carriage return, no comment opener. */
  predicate IsWord(w: string) {
    && w != []
    && (forall m :: 0 <= m < |w| ==> !IsSpecial(w[m]) && w[m] != '\r')
    && !OpensComment(w, 0)
  }

  /** A scalar's text that reads back as itself on a pair line: tidy, on one line, with nothing to strip. */
  predicate IsValueText(t: string) {
    Tidy(t) && Trimmed(t) && forall m :: 0 <= m < |t| ==> t[m] != '\n'
  }

  lemma WordLexemes(w: string)
    requires IsWord(w)
    ensures Lexemes(w) == [Lexeme(Word, w)] && Tidy(w)
  {
    WordEndMaximal(w, 0);
    LexemesUnfold(w, 0);
    SegmentIsSlice(w, 0, |w|);
    assert w[0..|w|] == w;
  }

  lemma SpecialLexemes(c: char)
    requires IsSpecial(c) && c != '\r'
    ensures Lexemes([c]) == [Lexeme(SpecialKind(c).value, [c])] && Tidy([c])
  {
    LexemesUnfold([c], 0);
    SegmentIsSlice([c], 0, 1);
  }

  const SpaceLexeme := Lexeme(Space, " ")
  const NewlineLexeme := Lexeme(Newline, "\n")
  const ColonLexeme := Lexeme(Colon, ":")

  /** The separators the emitter writes around words and values, each read back as its own lexemes. */
  lemma SpaceText()
    ensures Lexemes(" ") == [SpaceLexeme] && Tidy(" ")
  {
    SpecialLexemes(' ');
    assert SpecialKind(' ') == Some(Space);
  }

  lemma NewlineText()
    ensures Lexemes("\n") == [NewlineLexeme] && Tidy("\n")
  {
    SpecialLexemes('\n');
    assert SpecialKind('\n') == Some(Newline);
  }

  lemma ColonText()
    ensures Lexemes(": ") == [ColonLexeme, SpaceLexeme] && Tidy(": ")
  {
    SpecialLexemes(':');
    assert SpecialKind(':') == Some(Colon);
    SpaceText();
    assert ": " == ":" + " ";
    Glue(":", " ");
  }

  lemma IndentText()
    ensures Lexemes("    ") == [SpaceLexeme, SpaceLexeme, SpaceLexeme, SpaceLexeme] && Tidy("    ")
  {
    SpaceText();
    assert "  " == " " + " ";
    Glue(" ", " ");
    assert "    " == "  " + "  ";
    Glue("  ", "  ");
  }

  /** One token of a text on one line, read from a token start. */
  lemma InLineStep(t: string, i: nat) returns (l: Lexeme, j: nat)
    requires Clean(t) && Boundary(t, i) && i < |t| && forall m :: 0 <= m < |t| ==> t[m] != '\n'
    ensures i < j && Boundary(t, j)
    ensures LexemesFrom(t, i) == [l] + LexemesFrom(t, j)
    ensures t[i..] == l.value + t[j..] && !EndsValue(l.kind)
  {
    assert !OpensComment(t, i);
    var sc := Scan(t, i);
    assert sc.kind.Some?;
    LexemesUnfold(t, i);
    j := sc.last + 1;
    SegmentIsSlice(t, i, j);
    if !IsSpecial(t[i]) {
      WordEndMaximal(t, i);
    }
    l := Lexeme(sc.kind.value, t[i..j]);
    assert LexemesFrom(t, i) == [l] + LexemesFrom(t, j);
    SliceSplit(t, i, j);
  }

  lemma SliceSplit<T>(s: seq<T>, i: nat, j: nat)
    requires i <= j <= |s|
    ensures s[i..] == s[i..j] + s[j..]
  {
  }

  /** Lexemes none of which ends a pair's value. */
  predicate InLine(ls: seq<Lexeme>) {
    forall k :: 0 <= k < |ls| ==> !EndsValue(ls[k].kind)
  }

  lemma InLineGlue(ls: seq<Lexeme>, rest: seq<Lexeme>, l: Lexeme)
    requires ls == [l] + rest && InLine(rest) && !EndsValue(l.kind)
    ensures InLine(ls) && ValuesText(ls) == l.value + ValuesText(rest)
  {
    TextGlue(ls, rest, l);
    assert forall k :: 1 <= k < |ls| ==> ls[k] == rest[k - 1];
  }

  /** A value text on one line is read as lexemes that keep the line going and spell out the text. */
  lemma {:induction false} InLineLexemes(t: string, i: nat)
    requires Clean(t) && Boundary(t, i) && forall m :: 0 <= m < |t| ==> t[m] != '\n'
    ensures ValuesText(LexemesFrom(t, i)) == t[i..] && InLine(LexemesFrom(t, i))
    decreases |t| - i
  {
    if i < |t| {
      var l, j := InLineStep(t, i);
      InLineLexemes(t, j);
      InLineGlue(LexemesFrom(t, i), LexemesFrom(t, j), l);
    } else {
      assert t[i..] == [];
    }
  }

  /** The lexemes of a pair line: four spaces of indentation, the key, the colon and a space, the value, a newline. */
  function PairLexemes(key: string, text: string): seq<Lexeme> {
    [SpaceLexeme, SpaceLexeme, SpaceLexeme, SpaceLexeme, Lexeme(Word, key), ColonLexeme, SpaceLexeme] + Lexemes(text) + [NewlineLexeme]
  }

  lemma PairLine(key: string, text: string)
    requires IsWord(key) && IsValueText(text)
    ensures Lexemes("    " + key + ": " + text + "\n") == PairLexemes(key, text)
    ensures Tidy("    " + key + ": " + text + "\n")
  {
    var indent, sep, nl := "    ", ": ", "\n";
    IndentText();
    ColonText();
    NewlineText();
    WordLexemes(key);
    var x1 := indent + key;
    Glue(indent, key);
    var x2 := x1 + sep;
    Glue(x1, sep);
    var x3 := x2 + text;
    assert x2[|x2| - 1] == ' ';
    Glue(x2, text);
    Glue(x3, nl);
    var s := SpaceLexeme;
    assert [s, s, s, s] + [Lexeme(Word, key)] + [ColonLexeme, s] == [s, s, s, s, Lexeme(Word, key), ColonLexeme, s];
  }

  /** A value text is read back as lexemes that keep the line going and spell out the text. */
  lemma ValueLexemes(t: string)
    requires IsValueText(t)
    ensures ValuesText(Lexemes(t)) == t && InLine(Lexemes(t))
  {
    InLineLexemes(t, 0);
    assert t[0..] == t;
  }

  /** Pairs whose keys are words and whose values are value texts. */
  predicate WritablePairs(ps: seq<Node>) {
    PlainPairs(ps) && forall i :: 0 <= i < |ps| ==> IsWord(ps[i].key) && IsValueText(ps[i].val.text)
  }

  /** A plain object whose tag, name and keys are words and whose values are value texts. */
  predicate WritableObject(n: Node) {
    PlainObject(n) && IsWord(n.tag) && IsWord(n.name) && WritablePairs(n.children)
  }

  predicate WritableObjects(ns: seq<Node>) {
    forall i :: 0 <= i < |ns| ==> WritableObject(ns[i])
  }

  function PairsLexemes(ps: seq<Node>): seq<Lexeme>
    requires PlainPairs(ps)
  {
    if ps == [] then []
    else
      assert forall i :: 1 <= i < |ps| ==> ps[i] == ps[1..][i - 1];
      PairLexemes(ps[0].key, ps[0].val.text) + PairsLexemes(ps[1..])
  }

  /** The lexemes of an object's text: the tag, a space, the name and a newline, then its pair lines. */
  function ObjectLexemes(n: Node): seq<Lexeme>
    requires PlainObject(n)
  {
    [Lexeme(Word, n.tag), SpaceLexeme, Lexeme(Word, n.name), NewlineLexeme] + PairsLexemes(n.children)
  }

  /** The lexemes of a document's text: the objects' lexemes with a newline between each two. */
  function DocumentLexemes(ns: seq<Node>): seq<Lexeme>
    requires forall i :: 0 <= i < |ns| ==> PlainObject(ns[i])
  {
    if ns == [] then []
    else
      assert forall i :: 1 <= i < |ns| ==> ns[i] == ns[1..][i - 1];
      if |ns| == 1 then ObjectLexemes(ns[0]) else ObjectLexemes(ns[0]) + [NewlineLexeme] + DocumentLexemes(ns[1..])
  }

  lemma {:induction false} PairsTextLexemes(ps: seq<Node>)
    requires WritablePairs(ps)
    ensures Lexemes(PairsText(ps)) == PairsLexemes(ps) && Tidy(PairsText(ps))
  {
    if ps != [] {
      var key, text := ps[0].key, ps[0].val.text;
      PairLine(key, text);
      assert WritablePairs(ps[1..]) by {
        assert forall i :: 1 <= i < |ps| ==> ps[i] == ps[1..][i - 1];
      }
      PairsTextLexemes(ps[1..]);
      var line := "    " + key + ": " + text + "\n";
      assert line[|line| - 1] == '\n';
      Glue(line, PairsText(ps[1..]));
    }
  }

  lemma ObjectTextLexemes(n: Node)
    requires WritableObject(n)
    ensures Lexemes(ObjectText(n.tag, n)) == ObjectLexemes(n) && Tidy(ObjectText(n.tag, n))
    ensures ObjectText(n.tag, n)[0] == n.tag[0]
  {
    var sp, nl := " ", "\n";
    SpaceText();
    NewlineText();
    WordLexemes(n.tag);
    WordLexemes(n.name);
    var x1 := n.tag + sp;
    Glue(n.tag, sp);
    var x2 := x1 + n.name;
    assert x1[|x1| - 1] == ' ';
    Glue(x1, n.name);
    var x3 := x2 + nl;
    Glue(x2, nl);
    PairsTextLexemes(n.children);
    assert x3[|x3| - 1] == '\n';
    Glue(x3, PairsText(n.children));
    var head := [Lexeme(Word, n.tag), SpaceLexeme, Lexeme(Word, n.name), NewlineLexeme];
    assert [Lexeme(Word, n.tag)] + [SpaceLexeme] + [Lexeme(Word, n.name)] + [NewlineLexeme] == head;
  }

  lemma ConcatCons(x: string, rest: seq<string>)
    ensures Concat([x] + rest) == x + Concat(rest)
  {
    assert ([x] + rest)[1..] == rest;
  }

  /** The emitter's chunks for a document of writable objects, written out, are read back as the document's lexemes. */
  lemma {:induction false} DocumentTextLexemes(ns: seq<Node>)
    requires WritableObjects(ns)
    ensures Lexemes(Concat(DocumentChunks(ns))) == DocumentLexemes(ns) && Tidy(Concat(DocumentChunks(ns)))
    ensures ns != [] ==> |Concat(DocumentChunks(ns))| > 0 && Concat(DocumentChunks(ns))[0] == ns[0].tag[0]
  {
    if ns != [] {
      var n := ns[0];
      var x := ObjectText(n.tag, n);
      ObjectTextLexemes(n);
      if |ns| == 1 {
        ConcatCons(x, []);
        assert x + [] == x;
      } else {
        assert WritableObjects(ns[1..]) by {
          assert forall i :: 1 <= i < |ns| ==> ns[i] == ns[1..][i - 1];
        }
        DocumentTextLexemes(ns[1..]);
        var cs := DocumentChunks(ns[1..]);
        assert DocumentChunks(ns) == [x, "\n"] + cs;
        ConcatCons(x, ["\n"] + cs);
        ConcatCons("\n", cs);
        assert [x, "\n"] + cs == [x] + (["\n"] + cs);
        NewlineBetween(x, Concat(cs), ObjectLexemes(n), DocumentLexemes(ns[1..]));
      }
    }
  }

  /** Two texts read alone, joined by a newline, are read as their lexemes with a newline lexeme between. */
  lemma NewlineBetween(x: string, r: string, xl: seq<Lexeme>, rl: seq<Lexeme>)
    requires Lexemes(x) == xl && Tidy(x) && Lexemes(r) == rl && Tidy(r)
    ensures Lexemes(x + ("\n" + r)) == xl + [NewlineLexeme] + rl && Tidy(x + ("\n" + r))
  {
    NewlineText();
    Glue("\n", r);
    Glue(x, "\n" + r);
    Regroup(xl, [NewlineLexeme], rl);
  }
}
