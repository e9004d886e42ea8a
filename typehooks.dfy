/**
 * The scalar codec (moon/hooks/types/hook.py): `resolve_type` turns a value's text into a
 * Python scalar and `represent_type` turns a scalar back into text. User type hooks, kept
 * in definition order, are asked first; the first one that answers wins. A hook's two
 * class methods are modelled as finite tables: the texts it resolves and the values it
 * represents.
 */
module TypeHooks {
  import opened Wrappers
  import opened Errors
  import opened Schemas
  import opened Strings

  datatype TypeHook = TypeHook(resolves: map<string, PyValue>, represents: map<PyValue, string>)

  /** The answer of the first hook that resolves `text`, if any does. */
  function HookResolve(hooks: seq<TypeHook>, text: string): (r: Option<PyValue>)
    ensures r.None? <==> forall k :: 0 <= k < |hooks| ==> text !in hooks[k].resolves
  {
    if hooks == [] then None
    else if text in hooks[0].resolves then Some(hooks[0].resolves[text])
    else HookResolve(hooks[1..], text)
  }

  /** The answer of the first hook that represents `v`, if any does. */
  function HookRepresent(hooks: seq<TypeHook>, v: PyValue): (r: Option<string>)
    ensures r.None? <==> forall k :: 0 <= k < |hooks| ==> v !in hooks[k].represents
  {
    if hooks == [] then None
    else if v in hooks[0].represents then Some(hooks[0].represents[v])
    else HookRepresent(hooks[1..], v)
  }

  /** The built-in reading of a text: int, float, bool, None, and str for everything else. */
  function Builtin(text: string): PyValue {
    if AllDigits(text) then PyInt(ParseNat(text))
    else if IsFloatLiteral(text) then PyFloat(text)
    else if text == "true" then PyBool(true)
    else if text == "false" then PyBool(false)
    else if text == "null" then PyNone
    else PyStr(text)
  }

  /** The built-in text of a scalar; containers have none. */
  function BuiltinText(v: PyValue): Result<string, ErrorKind> {
    match v
    case PyBool(b) => Ok(if b then "true" else "false")
    case PyInt(i) => Ok(IntToString(i))
    case PyFloat(lit) => Ok(lit)
    case PyStr(s) => Ok(s)
    case PyNone => Ok("null")
    case _ => Err(PyTypeError)
  }

  /** `resolve_type`. */
  function ResolveType(hooks: seq<TypeHook>, text: string): PyValue {
    match HookResolve(hooks, text)
    case Some(v) => v
    case None => Builtin(text)
  }

  /** `represent_type`. */
  function RepresentType(hooks: seq<TypeHook>, v: PyValue): Result<string, ErrorKind> {
    match HookRepresent(hooks, v)
    case Some(t) => Ok(t)
    case None => BuiltinText(v)
  }

  /** The module-level `_hooks` list, appended to by each TypeHook subclass definition. */
  class TypeRegistry {
    var hooks: seq<TypeHook>

    constructor ()
      ensures hooks == []
    {
      hooks := [];
    }

    /** `__init_subclass__`: the new hook is asked after every earlier one. */
    method Register(h: TypeHook)
      modifies this
      ensures hooks == old(hooks) + [h]
    {
      hooks := hooks + [h];
    }

    /** `resolve_type`: ask each hook in turn, then fall back on the built-in reading. */
    method Resolve(text: string) returns (v: PyValue)
      ensures v == ResolveType(hooks, text)
    {
      for k := 0 to |hooks|
        invariant HookResolve(hooks, text) == HookResolve(hooks[k..], text)
      {
        assert hooks[k..][1..] == hooks[k + 1..];
        if text in hooks[k].resolves {
          return hooks[k].resolves[text];
        }
      }
      assert hooks[|hooks|..] == [];
      v := Builtin(text);
    }

    /** `represent_type`: ask each hook in turn, then fall back on the built-in text. */
    method Represent(v: PyValue) returns (r: Result<string, ErrorKind>)
      ensures r == RepresentType(hooks, v)
    {
      for k := 0 to |hooks|
        invariant HookRepresent(hooks, v) == HookRepresent(hooks[k..], v)
      {
        assert hooks[k..][1..] == hooks[k + 1..];
        if v in hooks[k].represents {
          return Ok(hooks[k].represents[v]);
        }
      }
      assert hooks[|hooks|..] == [];
      r := BuiltinText(v);
    }
  }

  /** A hook defined later is asked only when every earlier hook declines. */
  lemma {:induction false} LaterHookDefers(hooks: seq<TypeHook>, h: TypeHook, text: string, v: PyValue)
    ensures HookResolve(hooks + [h], text) ==
      (if HookResolve(hooks, text).Some? then HookResolve(hooks, text)
       else if text in h.resolves then Some(h.resolves[text]) else None)
    ensures HookRepresent(hooks + [h], v) ==
      (if HookRepresent(hooks, v).Some? then HookRepresent(hooks, v)
       else if v in h.represents then Some(h.represents[v]) else None)
  {
    if hooks != [] {
      assert (hooks + [h])[1..] == hooks[1..] + [h];
      LaterHookDefers(hooks[1..], h, text, v);
    } else {
      assert [h][1..] == [];
    }
  }

  /** The built-in reading tells int, float, bool, None and str apart exactly as `resolve_type` orders its tests. */
  lemma BuiltinCases(text: string)
    ensures Builtin(text).PyInt? <==> AllDigits(text)
    ensures Builtin(text).PyFloat? <==> !AllDigits(text) && IsFloatLiteral(text)
    ensures Builtin(text).PyBool? <==> text == "true" || text == "false"
    ensures Builtin(text).PyNone? <==> text == "null"
    ensures Builtin(text).PyStr? ==> Builtin(text) == PyStr(text)
    ensures !Builtin(text).PyDict? && !Builtin(text).PyList?
  {
  }

  /** The scalars the built-in codec gives back unchanged after one dump and load. */
  predicate RoundTrips(v: PyValue) {
    match v
    case PyInt(i) => i >= 0
    case PyFloat(lit) => IsFloatLiteral(lit) && !AllDigits(lit)
    case PyBool(_) => true
    case PyNone => true
    case PyStr(s) => !AllDigits(s) && !IsFloatLiteral(s) && s != "true" && s != "false" && s != "null"
    case _ => false
  }

  /** Value to text to value: the built-in codec is the identity exactly on the scalars that RoundTrips accepts. */
  lemma ValueRoundTrip(v: PyValue)
    ensures RoundTrips(v) <==> BuiltinText(v).Ok? && Builtin(BuiltinText(v).value) == v
  {
    match v
    case PyInt(i) => IntRoundTrip(i);
    case PyFloat(lit) => FloatRoundTrip(lit);
    case PyBool(b) => KeywordsAreNotNumbers();
    case PyNone => KeywordsAreNotNumbers();
    case PyStr(s) => StrRoundTrip(s);
    case PyDict(_) =>
    case PyList(_) =>
  }

  lemma IntRoundTrip(i: int)
    ensures i >= 0 <==> Builtin(IntToString(i)) == PyInt(i)
  {
    if i >= 0 {
      NonNegativeIntText(i);
    } else {
      NegativeIntIsFloatLiteral(-i);
    }
  }

  lemma FloatRoundTrip(lit: string)
    ensures RoundTrips(PyFloat(lit)) <==> Builtin(lit) == PyFloat(lit)
  {
  }

  /** "true", "false" and "null" are neither digit strings nor float literals. */
  lemma KeywordsAreNotNumbers()
    ensures Builtin("true") == PyBool(true) && Builtin("false") == PyBool(false)
    ensures Builtin("null") == PyNone
  {
    NotFloatLiteral("true");
    NotFloatLiteral("false");
    NotFloatLiteral("null");
  }

  /** A text of four to seven characters that starts and ends with a lower-case letter is neither a digit string nor a float literal. */
  lemma NotFloatLiteral(t: string)
    requires 4 <= |t| <= 7 && 'a' <= t[0] <= 'z' && 'a' <= t[|t| - 1] <= 'z'
    ensures !AllDigits(t) && !IsFloatLiteral(t)
  {
    FloatTrimmed(t);
    assert |LowerAscii(t)| == |t|;
    assert !ReadsAsDecimal(t, Start);
  }

  lemma StrRoundTrip(s: string)
    ensures RoundTrips(PyStr(s)) <==> Builtin(s) == PyStr(s)
  {
  }

  /** A negative int comes back as a float: its text is not `isdigit` but `float` accepts it. */
  lemma NegativeIntComesBackAsFloat(n: nat)
    requires n > 0
    ensures Builtin(BuiltinText(PyInt(-(n as int))).value) == PyFloat(IntToString(-(n as int)))
  {
    NegativeIntIsFloatLiteral(n);
  }

  /** Digit strings, number-like strings and the keywords do not survive as str. */
  lemma StringsThatChangeType(s: string)
    requires AllDigits(s) || IsFloatLiteral(s) || s in {"true", "false", "null"}
    ensures !Builtin(BuiltinText(PyStr(s)).value).PyStr?
  {
  }

  /** Text to value to text: a text reads back as itself unless it is a digit string with a leading zero. */
  lemma TextRoundTrip(text: string)
    requires AllDigits(text) ==> text == NatToString(ParseNat(text))
    ensures BuiltinText(Builtin(text)) == Ok(text)
  {
  }

  /** Leading zeros are lost: "007" reads as 7, which is written "7". */
  lemma LeadingZerosAreLost()
    ensures BuiltinText(Builtin("007")) == Ok("7")
  {
    assert AllDigits("007");
    assert "007"[..2] == "00" && "00"[..1] == "0" && "0"[..0] == "";
    assert ParseNat("007") == 7;
    assert NatToString(7) == "7";
  }
}
