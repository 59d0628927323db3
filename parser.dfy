/** The parser object: the actor string, the token generator's cursor and
    the two tokens of lookahead, updated in place by `Step` and `Skip`.
    Every method is proved to end in the state, and with the result, that
    the matching function of `Grammar` computes from the state it started
    in; a method that raises returns the error instead. */
module Compiler {
  import opened Tokens
  import opened Ast
  import Lexer
  import Grammar

  /** `prefix` followed by the items of `r`, or the error of `r`. */
  function Extend<T>(prefix: seq<T>, r: Result<(seq<T>, Grammar.Cursor)>): Result<(seq<T>, Grammar.Cursor)> {
    match r
    case Ok((items, c)) => Ok((prefix + items, c))
    case Err(e) => Err(e)
  }

  lemma ExtendExtend<T>(a: seq<T>, b: seq<T>, r: Result<(seq<T>, Grammar.Cursor)>)
    ensures Extend(a, Extend(b, r)) == Extend(a + b, r)
  {
    match r
    case Ok((items, c)) => assert a + (b + items) == (a + b) + items;
    case Err(_) =>
  }

  lemma ExtendNothing<T>(r: Result<(seq<T>, Grammar.Cursor)>)
    ensures Extend([], r) == r
  {
    match r
    case Ok((items, c)) => assert [] + items == items;
    case Err(_) =>
  }

  class Parser {
    const actor: string
    /** The position of the token generator started on `actor`. */
    var pos: nat
    var cur: Option<Token>
    var seek: Option<Token>
    /** Set once and never read by the parser. */
    var ast: Scopes

    function State(): Grammar.Cursor
      reads this
    {
      Grammar.Cursor(pos, cur, seek)
    }

    ghost predicate Valid()
      reads this
    {
      Grammar.Valid(actor, State())
    }

    /** The method ended as `spec` says: with its value and cursor, or its error. */
    ghost predicate Follows<T>(r: Result<T>, spec: Result<(T, Grammar.Cursor)>)
      reads this
    {
      match spec
      case Ok((v, c)) => r == Ok(v) && State() == c
      case Err(e) => r == Err(e)
    }

    ghost predicate Reached(r: Outcome, spec: Result<Grammar.Cursor>)
      reads this
    {
      match spec
      case Ok(c) => r == Pass && State() == c
      case Err(e) => r == Fail(e)
    }

    /** The object as built before any token is pulled: the generator has
        been created but not yet run. */
    constructor (actor: string)
      ensures this.actor == actor && State() == Grammar.Cursor(0, None, None)
      ensures ast == Scopes([])
    {
      this.actor := actor;
      pos := 0;
      cur, seek := None, None;
      ast := Scopes([]);
    }

    /** `next(self.tokens)`: resume the generator once. */
    method Pull() returns (r: Result<Option<Token>>)
      modifies this`pos
      ensures match Lexer.NextToken(actor, old(pos))
              case Ok((t, end)) => r == Ok(t) && pos == end
              case Err(e) => r == Err(e)
    {
      var n := Lexer.Next(actor, pos);
      match n
      case Err(e) =>
        r := Err(e);
      case Ok((t, end)) =>
        r := Ok(t);
        pos := end;
    }

    /** The two pulls that fill `cur` and `seek` when the parser is built. */
    method Start() returns (r: Outcome)
      requires pos == 0
      modifies this`pos, this`cur, this`seek
      ensures Reached(r, Grammar.Start(actor))
      ensures r.Pass? ==> Valid()
    {
      var first := Pull();
      if first.Err? {
        return Fail(first.error);
      }
      var second := Pull();
      if second.Err? {
        return Fail(second.error);
      }
      cur, seek := first.value, second.value;
      r := Pass;
    }

    method Step() returns (r: Outcome)
      requires Valid()
      modifies this`pos, this`cur, this`seek
      ensures Reached(r, Grammar.Step(actor, old(State())))
      ensures r.Pass? ==> Valid()
    {
      var next := Pull();
      if next.Err? {
        return Fail(next.error);
      }
      cur, seek := seek, next.value;
      r := Pass;
    }

    method Skip() returns (r: Outcome)
      requires Valid()
      modifies this`pos, this`cur, this`seek
      ensures Reached(r, Grammar.Skip(actor, old(State())))
      ensures r.Pass? ==> Valid()
    {
      r := Step();
      if r.Fail? {
        return;
      }
      r := Step();
    }

    method ParseArray() returns (r: Result<Block>)
      requires Valid()
      modifies this`pos, this`cur, this`seek
      ensures Follows(r, Grammar.ParseArray(actor, old(State())))
      ensures r.Ok? ==> Valid()
    {
      var inner: seq<Block> := [];
      ExtendNothing(Grammar.ArrayLoop(actor, State()));
      while Grammar.IsArraySep(seek)
        invariant Valid()
        invariant Grammar.ArrayLoop(actor, old(State())) == Extend(inner, Grammar.ArrayLoop(actor, State()))
        decreases Grammar.Measure(actor, State())
      {
        if cur.Some? && cur.value.IsId() {
          ghost var before := State();
          var item := Literal(cur.value.val);
          var skipped := Skip();
          if skipped.Fail? {
            return Err(skipped.error);
          }
          ExtendExtend(inner, [item], Grammar.ArrayLoop(actor, State()));
          assert Grammar.ArrayLoop(actor, before) == Extend([item], Grammar.ArrayLoop(actor, State()));
          inner := inner + [item];
        } else {
          return Err(InvalidSymbol);
        }
      }
      ghost var last := if Grammar.IsIdToken(cur) then [Literal(cur.value.val)] else [];
      assert Grammar.ArrayLoop(actor, State()) == Ok((last, State()));
      assert Extend(inner, Ok((last, State()))) == Ok((inner + last, State()));
      if cur.Some? && cur.value.IsId() {
        inner := inner + [Literal(cur.value.val)];
      } else {
        assert inner + last == inner;
      }
      assert Grammar.ArrayLoop(actor, old(State())) == Ok((inner, State()));
      r := Ok(Array(inner));
    }

    method ParseBlock() returns (r: Result<Block>)
      requires Valid()
      modifies this`pos, this`cur, this`seek
      ensures Follows(r, Grammar.ParseBlock(actor, old(State())))
      ensures r.Ok? ==> Valid()
    {
      var stepped := Step();
      if stepped.Fail? {
        return Err(stepped.error);
      }
      match cur
      case None =>
        r := Err(NotImplemented(None));
      case Some(t) =>
        if t.Var? {
          r := Ok(Variable(t.val));
        } else if t.IsId() {
          if seek == Some(ArraySep("|")) {
            r := ParseArray();
          } else {
            r := Ok(Literal(t.val));
          }
        } else if t.Wild? {
          r := Ok(WildBlock);
        } else if t.SuperWild? {
          r := Ok(SuperWildBlock);
        } else {
          r := Err(NotImplemented(cur));
        }
    }

    method ParseScope() returns (r: Result<Scope>)
      requires Valid()
      modifies this`pos, this`cur, this`seek
      ensures Follows(r, Grammar.ParseScope(actor, old(State())))
      ensures r.Ok? ==> Valid()
    {
      var allow := cur.Some? && cur.value.Allow?;
      if seek != Some(BlockSep("/")) {
        return Err(AssertionFailed);
      }
      var stepped := Step();
      if stepped.Fail? {
        return Err(stepped.error);
      }
      ghost var first := State();
      var blocks: seq<Block> := [];
      ExtendNothing(Grammar.BlocksLoop(actor, first));
      while true
        invariant Valid()
        invariant Grammar.BlocksLoop(actor, first) == Extend(blocks, Grammar.BlocksLoop(actor, State()))
        decreases Grammar.Measure(actor, State())
      {
        ghost var before := State();
        var block := ParseBlock();
        if block.Err? {
          return Err(block.error);
        }
        if seek == Some(BlockSep("/")) {
          stepped := Step();
          if stepped.Fail? {
            return Err(stepped.error);
          }
          ExtendExtend(blocks, [block.value], Grammar.BlocksLoop(actor, State()));
          blocks := blocks + [block.value];
        } else {
          blocks := blocks + [block.value];
          assert Grammar.BlocksLoop(actor, first) == Ok((blocks, State()));
          break;
        }
      }
      r := Ok(Scope(allow, blocks));
    }

    method Parse() returns (r: Result<Scopes>)
      requires Valid()
      modifies this`pos, this`cur, this`seek
      ensures Follows(r, Grammar.Parse(actor, old(State())))
    {
      var scopes: seq<Scope> := [];
      ExtendNothing(Grammar.ScopesLoop(actor, State()));
      while cur.Some?
        invariant Valid()
        invariant Grammar.ScopesLoop(actor, old(State())) == Extend(scopes, Grammar.ScopesLoop(actor, State()))
        decreases Grammar.Measure(actor, State())
      {
        if cur.value.Allow? || cur.value.Deny? {
          ghost var before := State();
          var scope := ParseScope();
          if scope.Err? {
            return Err(scope.error);
          }
          ghost var after := State();
          var skipped := Skip();
          if skipped.Fail? {
            return Err(skipped.error);
          }
          assert Grammar.ParseScope(actor, before) == Ok((scope.value, after));
          assert Grammar.Skip(actor, after) == Ok(State());
          assert Grammar.ScopesLoop(actor, before) == Extend([scope.value], Grammar.ScopesLoop(actor, State()));
          ExtendExtend(scopes, [scope.value], Grammar.ScopesLoop(actor, State()));
          scopes := scopes + [scope.value];
        } else {
          return Err(NotImplemented(cur));
        }
      }
      assert Grammar.ScopesLoop(actor, State()) == Ok(([], State()));
      assert scopes + [] == scopes;
      r := Ok(Scopes(scopes));
    }
  }

  /** Builds a parser on `actor` and runs it. */
  method Compile(actor: string) returns (r: Result<Scopes>)
    ensures r == Grammar.Compile(actor)
  {
    var parser := new Parser(actor);
    var started := parser.Start();
    if started.Fail? {
      return Err(started.error);
    }
    r := parser.Parse();
  }
}
