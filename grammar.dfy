/** The recursive-descent parser as functions over a cursor value. A cursor
    holds the lexer's position and the parser's two tokens of lookahead,
    `cur` and `seek`; every parser step that pulls a token may fail with the
    lexer's error, exactly when the parser pulls it. Each loop of the parser
    is a function that recurs while the loop would go round again. */
module Grammar {
  import opened Tokens
  import opened Ast
  import opened Lexer

  datatype Cursor = Cursor(pos: nat, cur: Option<Token>, seek: Option<Token>)

  predicate Spelled(t: Option<Token>) {
    t.Some? ==> WellSpelled(t.value)
  }

  /** What every reachable cursor satisfies: the lexer is within the input,
      `seek` is `None` only once the input is used up, `cur` is `None` only
      once `seek` is, and both hold tokens the lexer can produce. */
  predicate Valid(s: string, c: Cursor) {
    && c.pos <= |s|
    && (c.seek.None? ==> c.pos == |s|)
    && (c.cur.None? ==> c.seek.None?)
    && Spelled(c.cur) && Spelled(c.seek)
  }

  /** Decreases with every pull while a token remains in the window. */
  function Measure(s: string, c: Cursor): nat
    requires c.pos <= |s|
  {
    3 * (|s| - c.pos) + (if c.seek.Some? then 2 else 0) + (if c.cur.Some? then 1 else 0)
  }

  /** The errors the lexer raises. */
  predicate LexError(e: Error) {
    e.InvalidSyntax? || e.InvalidIdentifier? || e.IndexOutOfRange?
  }

  predicate IsArraySep(t: Option<Token>) {
    t.Some? && t.value.ArraySep?
  }

  predicate IsIdToken(t: Option<Token>) {
    t.Some? && t.value.IsId()
  }

  /** Literals of identifier text, as an array holds. */
  predicate LiteralItems(items: seq<Block>) {
    forall i :: 0 <= i < |items| ==> items[i].Literal? && IsIdentifier(items[i].inner)
  }

  /** The tree the parser builds: scopes with at least one block, arrays of
      at least one literal, and only identifier text in literals and
      variable names. */
  predicate WellShapedBlock(b: Block) {
    match b
    case Literal(v) => IsIdentifier(v)
    case Variable(v) => IsIdentifier(v)
    case WildBlock => true
    case SuperWildBlock => true
    case Array(items) =>
      |items| >= 1 && LiteralItems(items)
  }

  predicate WellShapedScope(sc: Scope) {
    |sc.scope| >= 1 && forall i :: 0 <= i < |sc.scope| ==> WellShapedBlock(sc.scope[i])
  }

  predicate WellShaped(scs: seq<Scope>) {
    forall i :: 0 <= i < |scs| ==> WellShapedScope(scs[i])
  }

  /** `step`: `seek` moves into `cur` and the next token is pulled. */
  function Step(s: string, c: Cursor): (r: Result<Cursor>)
    requires Valid(s, c)
    ensures r.Ok? ==> Valid(s, r.value) && r.value.cur == c.seek
    ensures r.Ok? ==> Measure(s, r.value) <= Measure(s, c)
    ensures r.Ok? && c.cur.Some? ==> Measure(s, r.value) < Measure(s, c)
    ensures c.seek.None? ==> r == Ok(Cursor(c.pos, None, None))
    ensures r.Err? ==> LexError(r.error)
  {
    var (t, end) :- NextToken(s, c.pos);
    assert t.Some? ==> WellSpelled(t.value) by {
      if t.Some? {
        NextTokenScans(s, c.pos);
      }
    }
    NextTokenFails(s, c.pos);
    Ok(Cursor(end, c.seek, t))
  }

  /** `skip`: two steps, whatever the token stepped over. */
  function Skip(s: string, c: Cursor): (r: Result<Cursor>)
    requires Valid(s, c)
    ensures r.Ok? ==> Valid(s, r.value)
    ensures r.Ok? ==> Measure(s, r.value) <= Measure(s, c)
    ensures r.Ok? && c.cur.Some? ==> Measure(s, r.value) < Measure(s, c)
    ensures r.Err? ==> LexError(r.error)
  {
    var c1 :- Step(s, c);
    Step(s, c1)
  }

  /** The parser's initial state: two tokens pulled from a fresh lexer. */
  function Start(s: string): (r: Result<Cursor>)
    ensures r.Ok? ==> Valid(s, r.value) && (r.value.cur.None? <==> |s| == 0)
    ensures r.Err? ==> LexError(r.error)
  {
    var (first, p1) :- NextToken(s, 0);
    var (second, p2) :- NextToken(s, p1);
    NextTokenFails(s, 0);
    NextTokenFails(s, p1);
    assert Spelled(first) && Spelled(second) by {
      if first.Some? { NextTokenScans(s, 0); }
      if second.Some? { NextTokenScans(s, p1); }
    }
    Ok(Cursor(p2, first, second))
  }

  /** `parse_array` loop: while `seek` is `|`, `cur` must be an identifier
      token and becomes a literal; after the loop a final identifier in `cur`
      becomes one too, and anything else there is dropped. The result is the
      literals the loop appends, in order. */
  function ArrayLoop(s: string, c: Cursor): (r: Result<(seq<Block>, Cursor)>)
    requires Valid(s, c)
    ensures r.Ok? ==> Valid(s, r.value.1) && Measure(s, r.value.1) <= Measure(s, c)
    ensures r.Ok? ==> !IsArraySep(r.value.1.seek)
    ensures r.Ok? ==> LiteralItems(r.value.0)
    ensures IsArraySep(c.seek) && !IsIdToken(c.cur) ==> r == Err(InvalidSymbol)
    ensures IsArraySep(c.seek) && IsIdToken(c.cur) && r.Ok? ==>
              |r.value.0| >= 1 && r.value.0[0] == Literal(c.cur.value.val)
    ensures !IsArraySep(c.seek) ==>
              r == Ok((if IsIdToken(c.cur) then [Literal(c.cur.value.val)] else [], c))
    ensures r.Err? ==> r.error == InvalidSymbol || LexError(r.error)
    decreases Measure(s, c)
  {
    assert IsIdToken(c.cur) ==> IsIdentifier(c.cur.value.val) by {
      if IsIdToken(c.cur) { IdTokenText(c.cur.value); }
    }
    if IsArraySep(c.seek) then
      if IsIdToken(c.cur) then
        var c1 :- Skip(s, c);
        var (rest, c2) :- ArrayLoop(s, c1);
        Ok(([Literal(c.cur.value.val)] + rest, c2))
      else
        Err(InvalidSymbol)
    else
      Ok((if IsIdToken(c.cur) then [Literal(c.cur.value.val)] else [], c))
  }

  function ParseArray(s: string, c: Cursor): (r: Result<(Block, Cursor)>)
    requires Valid(s, c)
    ensures r.Ok? ==> Valid(s, r.value.1) && Measure(s, r.value.1) <= Measure(s, c)
    ensures r.Ok? ==> r.value.0.Array? && !IsArraySep(r.value.1.seek)
    ensures r.Ok? && IsIdToken(c.cur) ==> WellShapedBlock(r.value.0)
    ensures r.Ok? && IsIdToken(c.cur) ==> r.value.0.items[0] == Literal(c.cur.value.val)
    ensures r.Err? ==> r.error == InvalidSymbol || LexError(r.error)
  {
    var (inner, c1) :- ArrayLoop(s, c);
    Ok((Array(inner), c1))
  }

  /** What `parse_block` makes of the token it classifies. */
  predicate Classifies(t: Token, b: Block) {
    match t
    case Var(v) => b == Variable(v)
    case Wild(_) => b == WildBlock
    case SuperWild(_) => b == SuperWildBlock
    case BlockSep(_) => false
    case ScopeSep(_) => false
    case ArraySep(_) => false
    case _ => b == Literal(t.val) || (b.Array? && |b.items| >= 1 && b.items[0] == Literal(t.val))
  }

  predicate IsSeparator(t: Option<Token>) {
    t.None? || t.value.BlockSep? || t.value.ScopeSep? || t.value.ArraySep?
  }

  /** `parse_block`: step once, then classify the new `cur`. */
  function ParseBlock(s: string, c: Cursor): (r: Result<(Block, Cursor)>)
    requires Valid(s, c)
    ensures r.Ok? ==> Valid(s, r.value.1) && Measure(s, r.value.1) < Measure(s, c)
    ensures r.Ok? ==> c.seek.Some? && Classifies(c.seek.value, r.value.0) && WellShapedBlock(r.value.0)
    ensures r.Ok? && r.value.0.Array? ==> !IsArraySep(r.value.1.seek)
    ensures IsSeparator(c.seek) && Step(s, c).Ok? ==> r == Err(NotImplemented(c.seek))
    ensures Step(s, c).Ok? && IsIdToken(c.seek) && !c.seek.value.Var? && r.Ok? ==>
              (r.value.0.Array? <==> Step(s, c).value.seek == Some(ArraySep("|")))
    ensures r.Err? ==> r.error.NotImplemented? || r.error == InvalidSymbol || LexError(r.error)
  {
    var c1 :- Step(s, c);
    assert IsIdToken(c1.cur) ==> IsIdentifier(c1.cur.value.val) by {
      if IsIdToken(c1.cur) { IdTokenText(c1.cur.value); }
    }
    match c1.cur
    case None => Err(NotImplemented(None))
    case Some(t) =>
      if t.Var? then Ok((Variable(t.val), c1))
      else if t.IsId() then
        if c1.seek == Some(ArraySep("|")) then ParseArray(s, c1)
        else Ok((Literal(t.val), c1))
      else if t.Wild? then Ok((WildBlock, c1))
      else if t.SuperWild? then Ok((SuperWildBlock, c1))
      else Err(NotImplemented(c1.cur))
  }

  /** `parse_scope` loop: parse a block, and go round again while `seek` is
      the block separator, stepping onto it. The result is the blocks the
      loop appends, in order. */
  function BlocksLoop(s: string, c: Cursor): (r: Result<(seq<Block>, Cursor)>)
    requires Valid(s, c)
    ensures r.Ok? ==> Valid(s, r.value.1) && Measure(s, r.value.1) < Measure(s, c)
    ensures r.Ok? ==> |r.value.0| >= 1 && forall i :: 0 <= i < |r.value.0| ==> WellShapedBlock(r.value.0[i])
    ensures r.Ok? ==> ParseBlock(s, c).Ok? && r.value.0[0] == ParseBlock(s, c).value.0
    ensures r.Ok? ==> r.value.1.seek != Some(BlockSep("/"))
    ensures r.Err? ==> r.error.NotImplemented? || r.error == InvalidSymbol || LexError(r.error)
    decreases Measure(s, c)
  {
    var (b, c1) :- ParseBlock(s, c);
    if c1.seek == Some(BlockSep("/")) then
      var c2 :- Step(s, c1);
      var (rest, c3) :- BlocksLoop(s, c2);
      Ok(([b] + rest, c3))
    else
      Ok(([b], c1))
  }

  /** `parse_scope`: the polarity is read from `cur`, `seek` must be `/`. */
  function ParseScope(s: string, c: Cursor): (r: Result<(Scope, Cursor)>)
    requires Valid(s, c)
    ensures r.Ok? ==> Valid(s, r.value.1) && Measure(s, r.value.1) < Measure(s, c)
    ensures r.Ok? ==> r.value.0.allow == (c.cur.Some? && c.cur.value.Allow?)
    ensures r.Ok? ==> WellShapedScope(r.value.0)
    ensures r.Ok? ==> r.value.1.seek != Some(BlockSep("/"))
    ensures r == Err(AssertionFailed) <==> c.seek != Some(BlockSep("/"))
  {
    var allow := c.cur.Some? && c.cur.value.Allow?;
    if c.seek != Some(BlockSep("/")) then Err(AssertionFailed)
    else
      var c1 :- Step(s, c);
      var (blocks, c2) :- BlocksLoop(s, c1);
      Ok((Scope(allow, blocks), c2))
  }

  /** `parse` loop: while `cur` is a token it must be a polarity keyword; a
      scope is parsed and appended, and the parser skips two tokens. The
      result is the scopes the loop appends, in order. */
  function ScopesLoop(s: string, c: Cursor): (r: Result<(seq<Scope>, Cursor)>)
    requires Valid(s, c)
    ensures r.Ok? ==> Valid(s, r.value.1) && r.value.1.cur.None?
    ensures r.Ok? ==> WellShaped(r.value.0)
    ensures r.Ok? && c.cur.Some? ==>
              |r.value.0| >= 1 && ParseScope(s, c).Ok? && r.value.0[0] == ParseScope(s, c).value.0
    ensures c.cur.None? ==> r == Ok(([], c))
    ensures c.cur.Some? && !c.cur.value.Allow? && !c.cur.value.Deny? ==> r == Err(NotImplemented(c.cur))
    decreases Measure(s, c)
  {
    match c.cur
    case None => Ok(([], c))
    case Some(t) =>
      if t.Allow? || t.Deny? then
        var (sc, c1) :- ParseScope(s, c);
        var c2 :- Skip(s, c1);
        var (rest, c3) :- ScopesLoop(s, c2);
        Ok(([sc] + rest, c3))
      else
        Err(NotImplemented(c.cur))
  }

  function Parse(s: string, c: Cursor): (r: Result<(Scopes, Cursor)>)
    requires Valid(s, c)
    ensures r.Ok? ==> WellShaped(r.value.0.scopes) && r.value.1.cur.None?
    ensures c.cur.None? ==> r == Ok((Scopes([]), c))
  {
    var (scopes, c1) :- ScopesLoop(s, c);
    Ok((Scopes(scopes), c1))
  }

  /** Compiling an actor string: start the parser, then parse. */
  function Compile(s: string): (r: Result<Scopes>)
    ensures r.Ok? ==> WellShaped(r.value.scopes)
    ensures s == "" ==> r == Ok(Scopes([]))
  {
    var c :- Start(s);
    var (scopes, _) :- Parse(s, c);
    Ok(scopes)
  }
}
