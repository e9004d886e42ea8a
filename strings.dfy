/**
 * The Python string operations the core relies on: whitespace stripping, `replace`,
 * `isdigit`, `int()`/`str()` on integers and the float-literal test of `float()`. Whitespace
 * is the fixed set of characters Python's `str.isspace` accepts; digits are ASCII.
 */
module Strings {

  predicate IsSpace(c: char) {
    c == ' ' || ('\t' <= c <= '\r') || ('\U{1c}' <= c <= '\U{1f}') || c == '\U{85}' || c == '\U{a0}'
    || c == '\U{1680}' || ('\U{2000}' <= c <= '\U{200a}') || c == '\U{2028}' || c == '\U{2029}'
    || c == '\U{202f}' || c == '\U{205f}' || c == '\U{3000}'
  }

  /** `s.lstrip()`. */
  function LStrip(s: string): (r: string)
    ensures |r| <= |s| && r == s[|s| - |r|..]
    ensures r == [] || !IsSpace(r[0])
    ensures forall i :: 0 <= i < |s| - |r| ==> IsSpace(s[i])
  {
    if s != [] && IsSpace(s[0]) then LStrip(s[1..]) else s
  }

  /** `s.rstrip()`. */
  function RStrip(s: string): (r: string)
    ensures |r| <= |s| && r == s[..|r|]
    ensures r == [] || !IsSpace(r[|r| - 1])
    ensures forall i :: |r| <= i < |s| ==> IsSpace(s[i])
  {
    if s != [] && IsSpace(s[|s| - 1]) then RStrip(s[..|s| - 1]) else s
  }

  /** `s.strip()`. */
  function Strip(s: string): string {
    RStrip(LStrip(s))
  }

  /** No whitespace at either end: what `strip()` leaves alone. */
  predicate Trimmed(s: string) {
    s == [] || (!IsSpace(s[0]) && !IsSpace(s[|s| - 1]))
  }

  lemma StripOfTrimmedAfterSpace(v: string)
    requires Trimmed(v)
    ensures Strip(" " + v) == v
  {
    assert (" " + v)[1..] == v;
    if v != [] {
      assert v[..|v|] == v;
    }
  }

  /** `s.replace("\r\n", "\n")`, scanning left to right. */
  function ReplaceCrLf(s: string): string {
    if |s| >= 2 && s[0] == '\r' && s[1] == '\n' then "\n" + ReplaceCrLf(s[2..])
    else if s == [] then []
    else [s[0]] + ReplaceCrLf(s[1..])
  }

  /** `s.replace("\r", "\n")`. */
  function ReplaceCr(s: string): (r: string)
    ensures |r| == |s|
    ensures forall i :: 0 <= i < |r| ==> r[i] == (if s[i] == '\r' then '\n' else s[i])
  {
    if s == [] then [] else [if s[0] == '\r' then '\n' else s[0]] + ReplaceCr(s[1..])
  }

  predicate NoCR(s: string) {
    forall i :: 0 <= i < |s| ==> s[i] != '\r'
  }

  lemma {:induction false} ReplaceCrLfWithoutCR(s: string)
    requires NoCR(s)
    ensures ReplaceCrLf(s) == s
  {
    if s != [] {
      ReplaceCrLfWithoutCR(s[1..]);
    }
  }

  /** A CRLF line break between two lines without carriage returns becomes a plain newline. */
  lemma {:induction false} ReplaceCrLfJoin(a: string, b: string)
    requires NoCR(a) && NoCR(b)
    ensures ReplaceCrLf(a + "\r\n" + b) == a + "\n" + b
  {
    if a == [] {
      assert (a + "\r\n" + b)[2..] == b;
      ReplaceCrLfWithoutCR(b);
    } else {
      assert NoCR(a[1..]);
      ReplaceCrLfJoin(a[1..], b);
      ReplaceCrLfFirst(a, b);
    }
  }

  /** A first character that is not a carriage return is kept, and the rest is replaced after it. */
  lemma ReplaceCrLfFirst(a: string, b: string)
    requires a != [] && a[0] != '\r' && ReplaceCrLf(a[1..] + "\r\n" + b) == a[1..] + "\n" + b
    ensures ReplaceCrLf(a + "\r\n" + b) == a + "\n" + b
  {
    var s := a + "\r\n" + b;
    assert s[1..] == a[1..] + "\r\n" + b;
    assert a + "\n" + b == [a[0]] + (a[1..] + "\n" + b);
  }

  predicate IsDigit(c: char) {
    '0' <= c <= '9'
  }

  /** `s.isdigit()` for ASCII digits: non-empty and digits only. */
  predicate AllDigits(s: string) {
    |s| > 0 && forall i :: 0 <= i < |s| ==> IsDigit(s[i])
  }

  function DigitChar(d: nat): char
    requires d < 10
  {
    ['0', '1', '2', '3', '4', '5', '6', '7', '8', '9'][d]
  }

  function DigitValue(c: char): nat
    requires IsDigit(c)
  {
    (c as int - '0' as int) as nat
  }

  /** `int(s)` on a string of digits. */
  function ParseNat(s: string): nat
    requires forall i :: 0 <= i < |s| ==> IsDigit(s[i])
  {
    if s == [] then 0 else ParseNat(s[..|s| - 1]) * 10 + DigitValue(s[|s| - 1])
  }

  /** `str(n)` for a non-negative int: its decimal digits, without leading zeros. */
  function NatToString(n: nat): (s: string)
    ensures AllDigits(s)
    ensures s[0] == '0' ==> n == 0
  {
    if n < 10 then [DigitChar(n)] else NatToString(n / 10) + [DigitChar(n % 10)]
  }

  /** `str(i)` for any int. */
  function IntToString(i: int): string {
    if i < 0 then "-" + NatToString(-i) else NatToString(i)
  }

  lemma {:induction false} ParseNatToString(n: nat)
    ensures ParseNat(NatToString(n)) == n
  {
    var s := NatToString(n);
    if n >= 10 {
      ParseNatToString(n / 10);
      assert s[..|s| - 1] == NatToString(n / 10);
    }
  }

  /**
   * Where a reading of a decimal literal stands after a prefix: before anything, in the
   * integer digits, just after an underscore there, after the point (with or without
   * integer digits before it), in the fraction digits, after an underscore there, after
   * the exponent mark, after its sign, in the exponent digits, after an underscore there,
   * or past any literal.
   */
  datatype DecimalPart =
    | Start | IntDigit | IntUnderscore | PointAfterDigits | PointFirst | FracDigit | FracUnderscore
    | ExponentMark | ExponentSign | ExponentDigit | ExponentUnderscore | Rejected

  /**
   * One character of a decimal literal: digits, with single underscores between two
   * digits, an optional point with at least one digit on either side of it, and an
   * optional exponent `e`/`E` with an optional sign and digits.
   */
  function DecimalStep(p: DecimalPart, c: char): DecimalPart {
    match p
    case Start => if IsDigit(c) then IntDigit else if c == '.' then PointFirst else Rejected
    case IntDigit =>
      if IsDigit(c) then IntDigit else if c == '_' then IntUnderscore else if c == '.' then PointAfterDigits
      else if c == 'e' || c == 'E' then ExponentMark else Rejected
    case IntUnderscore => if IsDigit(c) then IntDigit else Rejected
    case PointAfterDigits => if IsDigit(c) then FracDigit else if c == 'e' || c == 'E' then ExponentMark else Rejected
    case PointFirst => if IsDigit(c) then FracDigit else Rejected
    case FracDigit =>
      if IsDigit(c) then FracDigit else if c == '_' then FracUnderscore
      else if c == 'e' || c == 'E' then ExponentMark else Rejected
    case FracUnderscore => if IsDigit(c) then FracDigit else Rejected
    case ExponentMark => if IsDigit(c) then ExponentDigit else if c == '+' || c == '-' then ExponentSign else Rejected
    case ExponentSign => if IsDigit(c) then ExponentDigit else Rejected
    case ExponentDigit => if IsDigit(c) then ExponentDigit else if c == '_' then ExponentUnderscore else Rejected
    case ExponentUnderscore => if IsDigit(c) then ExponentDigit else Rejected
    case Rejected => Rejected
  }

  /** The places where a decimal literal may end. */
  predicate DecimalEnd(p: DecimalPart) {
    p == IntDigit || p == PointAfterDigits || p == FracDigit || p == ExponentDigit
  }

  /** The rest `s` of a decimal literal, read from `p`, completes it. */
  predicate ReadsAsDecimal(s: string, p: DecimalPart)
    decreases |s|
  {
    if s == [] then DecimalEnd(p)
    else var q := DecimalStep(p, s[0]); q != Rejected && ReadsAsDecimal(s[1..], q)
  }

  /** ASCII upper-case letters to lower case; every other character is left alone. */
  function AsciiLower(c: char): char {
    if 'A' <= c <= 'Z' then (c as int - 'A' as int + 'a' as int) as char else c
  }

  /** `s` with its ASCII letters in lower case. */
  function LowerAscii(s: string): (r: string)
    ensures |r| == |s|
  {
    if s == [] then [] else [AsciiLower(s[0])] + LowerAscii(s[1..])
  }

  /** An optional sign, then a decimal literal or one of "inf", "infinity" and "nan" in any case. */
  predicate IsSignedFloat(t: string) {
    var b := if |t| > 0 && (t[0] == '+' || t[0] == '-') then t[1..] else t;
    ReadsAsDecimal(b, Start) || LowerAscii(b) in ["inf", "infinity", "nan"]
  }

  /** What `float(s)` accepts: a signed float literal with any whitespace around it. */
  predicate IsFloatLiteral(s: string)
    decreases |s|
  {
    if s != [] && IsSpace(s[0]) then IsFloatLiteral(s[1..])
    else if s != [] && IsSpace(s[|s| - 1]) then IsFloatLiteral(s[..|s| - 1])
    else IsSignedFloat(s)
  }

  /** A text with no whitespace at either end is its own strip. */
  lemma StripTrimmed(s: string)
    requires s != [] && !IsSpace(s[0]) && !IsSpace(s[|s| - 1])
    ensures Strip(s) == s
  {
    assert LStrip(s) == s;
    assert s[..|s|] == s;
  }

  /** Skipping whitespace at both ends is `strip`: `float(s)` reads the stripped text. */
  lemma {:induction false} FloatLiteralStrip(s: string)
    ensures IsFloatLiteral(s) == IsSignedFloat(Strip(s))
    decreases |s|
  {
    if s == [] {
      FloatEmpty();
    } else if IsSpace(s[0]) {
      var u := s[1..];
      FloatLiteralStrip(u);
      StripDropFirst(s);
      FloatSkipFirst(s);
      SameStrip(s, u);
    } else if IsSpace(s[|s| - 1]) {
      var u := s[..|s| - 1];
      FloatLiteralStrip(u);
      StripDropLast(s);
      FloatSkipLast(s);
      SameStrip(s, u);
    } else {
      FloatStripTrimmed(s);
    }
  }

  lemma FloatEmpty()
    ensures IsFloatLiteral([]) == IsSignedFloat(Strip([]))
  {
  }

  lemma FloatStripTrimmed(s: string)
    requires s != [] && !IsSpace(s[0]) && !IsSpace(s[|s| - 1])
    ensures IsFloatLiteral(s) == IsSignedFloat(Strip(s))
  {
    StripTrimmed(s);
    FloatTrimmed(s);
  }

  /** Two texts with the same strip and the same reading as floats: one's claim carries over to the other. */
  lemma SameStrip(s: string, u: string)
    requires Strip(s) == Strip(u) && IsFloatLiteral(s) == IsFloatLiteral(u)
    requires IsFloatLiteral(u) == IsSignedFloat(Strip(u))
    ensures IsFloatLiteral(s) == IsSignedFloat(Strip(s))
  {
  }

  lemma FloatSkipFirst(s: string)
    requires s != [] && IsSpace(s[0])
    ensures IsFloatLiteral(s) == IsFloatLiteral(s[1..])
  {
  }

  lemma FloatSkipLast(s: string)
    requires s != [] && !IsSpace(s[0]) && IsSpace(s[|s| - 1])
    ensures IsFloatLiteral(s) == IsFloatLiteral(s[..|s| - 1])
  {
  }

  lemma FloatTrimmed(s: string)
    requires s != [] && !IsSpace(s[0]) && !IsSpace(s[|s| - 1])
    ensures IsFloatLiteral(s) == IsSignedFloat(s)
  {
  }

  lemma StripDropFirst(s: string)
    requires s != [] && IsSpace(s[0])
    ensures Strip(s) == Strip(s[1..])
  {
  }

  lemma StripDropLast(s: string)
    requires s != [] && !IsSpace(s[0]) && IsSpace(s[|s| - 1])
    ensures Strip(s) == Strip(s[..|s| - 1])
  {
    var u := s[..|s| - 1];
    assert LStrip(s) == s && u[0] == s[0];
    assert LStrip(u) == u;
  }

  /** Every digit string is also a float literal, which is why `isdigit` is tested first. */
  lemma DigitsAreFloatLiterals(s: string)
    requires AllDigits(s)
    ensures IsFloatLiteral(s)
  {
    assert s[0] != '+' && s[0] != '-';
    DigitsRead(s[1..]);
  }

  /** Digits after an integer digit complete a decimal literal. */
  lemma {:induction false} DigitsRead(s: string)
    requires forall i :: 0 <= i < |s| ==> IsDigit(s[i])
    ensures ReadsAsDecimal(s, IntDigit)
    decreases |s|
  {
    if s != [] {
      DigitsRead(s[1..]);
    }
  }

  /** "inf", "nan", "-Infinity" and "1_000" are float literals too: `float` reads each of them. */
  lemma SpecialFloatLiterals()
    ensures IsFloatLiteral("inf") && IsFloatLiteral("nan") && IsFloatLiteral("-Infinity") && IsFloatLiteral("1_000")
    ensures !AllDigits("1_000") && !IsFloatLiteral("1__000") && !IsFloatLiteral("1_")
  {
    InfLiteral();
    NanLiteral();
    InfinityLiteral();
    UnderscoreLiteral();
    BadUnderscores();
  }

  lemma InfLiteral()
    ensures IsFloatLiteral("inf")
  {
    assert LowerAscii("inf") == "inf" by {
      assert LowerAscii("f") == "f";
      assert LowerAscii("nf") == "nf" by { assert "nf"[1..] == "f"; }
      assert "inf"[1..] == "nf";
    }
  }

  lemma NanLiteral()
    ensures IsFloatLiteral("nan")
  {
    assert LowerAscii("nan") == "nan" by {
      assert LowerAscii("n") == "n";
      assert LowerAscii("an") == "an" by { assert "an"[1..] == "n"; }
      assert "nan"[1..] == "an";
    }
  }

  lemma InfinityLiteral()
    ensures IsFloatLiteral("-Infinity")
  {
    assert "-Infinity"[1..] == "Infinity";
    LowerInfinity();
  }

  lemma LowerInfinity()
    ensures LowerAscii("Infinity") == "infinity"
  {
    var w := "Infinity";
    var k := |w|;
    while k > 0
      invariant 0 <= k <= |w|
      invariant LowerAscii(w[k..]) == "infinity"[k..]
    {
      k := k - 1;
      assert w[k..][1..] == w[k + 1..];
    }
    assert w[0..] == w;
  }

  lemma UnderscoreLiteral()
    ensures IsFloatLiteral("1_000") && !AllDigits("1_000")
  {
    DigitsRead("00");
    assert "1_000"[1..] == "_000" && "_000"[1..] == "000" && "000"[1..] == "00";
  }

  lemma BadUnderscores()
    ensures !IsFloatLiteral("1__000") && !IsFloatLiteral("1_")
  {
    assert "1__000"[1..] == "__000" && "__000"[1..] == "_000";
    assert "1_"[1..] == "_" && "_"[1..] == [];
  }

  /** "-5" and every other negative integer text is a float literal. */
  lemma NegativeIntIsFloatLiteral(n: nat)
    requires n > 0
    ensures IsFloatLiteral(IntToString(-(n as int)))
    ensures !AllDigits(IntToString(-(n as int)))
  {
    var s := IntToString(-(n as int));
    var digits := NatToString(n);
    assert s == "-" + digits;
    assert s[1..] == digits;
    DigitsRead(digits[1..]);
  }

  /** Non-negative integer texts round-trip through `int(...)`. */
  lemma NonNegativeIntText(n: nat)
    ensures AllDigits(IntToString(n)) && ParseNat(IntToString(n)) == n
  {
    ParseNatToString(n);
  }
}
