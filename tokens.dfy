/** The token vocabulary of the rule compiler, its error kinds, and the
    small failure-compatible wrappers the lexer and parser return. */
module Tokens {

  datatype Option<+T> = None | Some(value: T)

  /** A token: its class and the text it was built from. `Allow`, `Deny` and
      `Var` are the identifier subclasses; the last five are the symbols. */
  datatype Token =
    | Id(val: string)
    | Allow(val: string)
    | Deny(val: string)
    | Var(val: string)
    | BlockSep(val: string)
    | ScopeSep(val: string)
    | ArraySep(val: string)
    | Wild(val: string)
    | SuperWild(val: string)
  {
    /** The `isinstance(t, Id)` test: true for `Id` and its three subclasses. */
    predicate IsId()
      ensures IsId() != IsSym()
    {
      Id? || Allow? || Deny? || Var?
    }

    /** The `isinstance(t, Sym)` test. */
    predicate IsSym() {
      BlockSep? || ScopeSep? || ArraySep? || Wild? || SuperWild?
    }

    /** The class name, the first half of what token equality compares. */
    function ClassName(): string {
      match this
      case Id(_) => "Id"
      case Allow(_) => "Allow"
      case Deny(_) => "Deny"
      case Var(_) => "Var"
      case BlockSep(_) => "BlockSep"
      case ScopeSep(_) => "ScopeSep"
      case ArraySep(_) => "ArraySep"
      case Wild(_) => "Wild"
      case SuperWild(_) => "SuperWild"
    }
  }

  /** Token equality compares class name and text; on this datatype that is
      exactly structural equality. */
  lemma {:induction false} TokenEquality(a: Token, b: Token)
    ensures a == b <==> a.ClassName() == b.ClassName() && a.val == b.val
  {
    if a.ClassName() == b.ClassName() {
      match a
      case Id(_) => assert b.Id?;
      case Allow(_) => assert b.Allow?;
      case Deny(_) => assert b.Deny?;
      case Var(_) => assert b.Var?;
      case BlockSep(_) => assert b.BlockSep?;
      case ScopeSep(_) => assert b.ScopeSep?;
      case ArraySep(_) => assert b.ArraySep?;
      case Wild(_) => assert b.Wild?;
      case SuperWild(_) => assert b.SuperWild?;
    }
  }

  /** The errors a compilation can end with: the three error classes of the
      token module, and the three built-in exceptions the compiler raises
      (an out-of-range string index, a failed assertion, and the
      "not implemented" error that carries the offending token). */
  datatype Error =
    | InvalidSyntax
    | InvalidSymbol
    | InvalidIdentifier(at: nat)
    | IndexOutOfRange
    | AssertionFailed
    | NotImplemented(found: Option<Token>)

  datatype Result<+T> = Ok(value: T) | Err(error: Error) {
    predicate IsFailure() {
      Err?
    }

    function PropagateFailure<U>(): Result<U>
      requires Err?
    {
      Err(error)
    }

    function Extract(): T
      requires Ok?
    {
      value
    }
  }

  /** The outcome of an operation that yields no value. */
  datatype Outcome = Pass | Fail(error: Error)
}
