/**
 * The exception hierarchy of moon/schemas/errors.py, plus the few Python built-in
 * exceptions that the core lets escape. A handler written for a base class catches
 * every subclass, so errors are kinds with a subsumption relation IsA.
 */
module Errors {
  import opened Wrappers

  datatype ErrorKind =
    | MoonError            // _MOONError, the common base
    | ArgumentsError
    | ReadError
    | WriteError
    | TokenizerError
    | ParserError
    | UnexpectedToken
    | UnexpectedEOF
    | ASTError
    | UnexpectedEvent
    | UnknownEvent
    | ConstructorError
    | UnexpectedNode
    | UnknownNode
    | DuplicateIdentifierNode
    | RepresenterError
    | InvalidObjectError
    | SerializationError
    | EmitterError
      // Python built-ins raised by the core (not subclasses of _MOONError)
    | PyAttributeError
    | PyTypeError
    | PyRuntimeError
    | PyNotImplementedError

  /** The direct base class, where it is one of the kinds above. */
  function Parent(e: ErrorKind): Option<ErrorKind> {
    match e
    case MoonError => None
    case ArgumentsError => Some(MoonError)
    case ReadError => Some(MoonError)
    case WriteError => Some(MoonError)
    case TokenizerError => Some(MoonError)
    case ParserError => Some(MoonError)
    case UnexpectedToken => Some(ParserError)
    case UnexpectedEOF => Some(ParserError)
    case ASTError => Some(MoonError)
    case UnexpectedEvent => Some(ASTError)
    case UnknownEvent => Some(ASTError)
    case ConstructorError => Some(MoonError)
    case UnexpectedNode => Some(ConstructorError)
    case UnknownNode => Some(ConstructorError)
    case DuplicateIdentifierNode => Some(ConstructorError)
    case RepresenterError => Some(MoonError)
    case InvalidObjectError => Some(RepresenterError)
    case SerializationError => Some(MoonError)
    case EmitterError => Some(MoonError)
    case PyAttributeError => None
    case PyTypeError => None
    case PyRuntimeError => None
    case PyNotImplementedError => Some(PyRuntimeError)  // NotImplementedError derives from RuntimeError
  }

  /** Distance to the root of the hierarchy; a parent is always one step closer. */
  function Depth(e: ErrorKind): nat {
    match e
    case MoonError | PyAttributeError | PyTypeError | PyRuntimeError => 0
    case PyNotImplementedError => 1
    case UnexpectedToken | UnexpectedEOF | UnexpectedEvent | UnknownEvent
      | UnexpectedNode | UnknownNode | DuplicateIdentifierNode | InvalidObjectError => 2
    case _ => 1
  }

  /** `isinstance(e, base)`: e is base or one of its subclasses. */
  predicate IsA(e: ErrorKind, base: ErrorKind)
    decreases Depth(e)
  {
    e == base || (Parent(e).Some? && IsA(Parent(e).value, base))
  }

  /** An `except base` clause also catches every subclass of a subclass. */
  lemma {:induction false} IsATransitive(a: ErrorKind, b: ErrorKind, c: ErrorKind)
    requires IsA(a, b) && IsA(b, c)
    ensures IsA(a, c)
    decreases Depth(a)
  {
    if a != b {
      ParentIsCloser(a);
      IsATransitive(Parent(a).value, b, c);
    }
  }

  lemma ParentIsCloser(e: ErrorKind)
    ensures Parent(e).Some? ==> Depth(Parent(e).value) < Depth(e)
  {
  }

  /** Only the two roots of the subsumption order are their own ancestors' ancestors. */
  lemma {:induction false} IsAAntisymmetric(a: ErrorKind, b: ErrorKind)
    requires IsA(a, b) && IsA(b, a)
    ensures a == b
    decreases Depth(a)
  {
    if a != b {
      IsADepth(a, b);
      IsADepth(b, a);
    }
  }

  lemma {:induction false} IsADepth(a: ErrorKind, b: ErrorKind)
    requires IsA(a, b) && a != b
    ensures Depth(b) < Depth(a)
    decreases Depth(a)
  {
    var p := Parent(a).value;
    ParentIsCloser(a);
    if p != b {
      IsADepth(p, b);
    }
  }

  /** Every error the core defines is a MOON error; the Python built-ins are not. */
  predicate IsMoonError(e: ErrorKind) {
    IsA(e, MoonError)
  }

  lemma {:induction false} MoonErrorsAreRooted(e: ErrorKind)
    ensures IsMoonError(e) <==> !(e.PyAttributeError? || e.PyTypeError? || e.PyRuntimeError? || e.PyNotImplementedError?)
  {
    if e.PyAttributeError? || e.PyTypeError? || e.PyRuntimeError? {
      assert Parent(e).None?;
    } else if e.PyNotImplementedError? {
      assert Parent(e) == Some(PyRuntimeError) && !IsA(PyRuntimeError, MoonError);
    } else if e != MoonError {
      var p := Parent(e).value;
      assert p == MoonError || Parent(p) == Some(MoonError);
    }
  }

  /** The subclass facts the tests rely on: pytest.raises(ParserError) accepts UnexpectedToken, etc. */
  lemma ParserErrorFamily()
    ensures IsA(UnexpectedToken, ParserError) && IsA(UnexpectedEOF, ParserError)
    ensures !IsA(UnexpectedToken, ASTError)
  {
  }

  lemma ASTErrorFamily()
    ensures IsA(UnexpectedEvent, ASTError) && IsA(UnknownEvent, ASTError)
  {
  }

  lemma ConstructorErrorFamily()
    ensures IsA(DuplicateIdentifierNode, ConstructorError) && IsA(UnexpectedNode, ConstructorError)
    ensures IsA(UnknownNode, ConstructorError)
  {
  }

  /** InvalidObjectError is a RepresenterError; the AttributeError of a missing representer is not. */
  lemma RepresenterErrorFamily()
    ensures IsA(InvalidObjectError, RepresenterError) && !IsA(PyAttributeError, RepresenterError)
  {
  }
}
