/** Compiling a serialized rule set gives back the rule set. The parser
    functions are followed along the token sequence the lexer yields, with
    the cursor described by the tokens still ahead of it. */
module RoundTrip {
  import opened Tokens
  import opened Ast
  import opened Lexer
  import opened Grammar
  import opened Render

  function Peek(us: seq<Token>, i: nat): Option<Token> {
    if i < |us| then Some(us[i]) else None
  }

  function Drop(us: seq<Token>, n: nat): seq<Token> {
    if n <= |us| then us[n..] else []
  }

  /** The cursor has `us` ahead of it: `cur`, then `seek`, then the tokens the
      lexer still yields from `pos`. */
  predicate Reading(s: string, c: Cursor, us: seq<Token>) {
    && Valid(s, c)
    && c.cur == Peek(us, 0) && c.seek == Peek(us, 1)
    && TokensFrom(s, c.pos) == Ok(Drop(us, 2))
  }

  /** The cursor has consumed a token, held in `cur`, and `us` lies after it. */
  predicate After(s: string, c: Cursor, us: seq<Token>) {
    c.cur.Some? && Reading(s, c, [c.cur.value] + us)
  }

  /** Resuming the lexer where it yields `ts` gives the first of them and
      leaves the rest. */
  lemma Pull(s: string, p: nat, ts: seq<Token>)
    requires p <= |s| && TokensFrom(s, p) == Ok(ts)
    ensures NextToken(s, p).Ok? && NextToken(s, p).value.1 <= |s|
    ensures NextToken(s, p).value.0 == Peek(ts, 0)
    ensures TokensFrom(s, NextToken(s, p).value.1) == Ok(Drop(ts, 1))
  {
    match NextToken(s, p)
    case Ok((t, e)) =>
      if t.Some? {
        TokensFromSome(s, p, t.value, e);
        assert ts == [t.value] + ts[1..];
      }
    case Err(_) =>
  }

  lemma StartReading(s: string)
    requires Tokenize(s).Ok?
    ensures Start(s).Ok? && Reading(s, Start(s).value, Tokenize(s).value)
  {
    var us := Tokenize(s).value;
    Pull(s, 0, us);
    Pull(s, NextToken(s, 0).value.1, Drop(us, 1));
    assert Drop(Drop(us, 1), 1) == Drop(us, 2);
  }

  lemma StepReading(s: string, c: Cursor, us: seq<Token>)
    requires Reading(s, c, us)
    ensures Step(s, c).Ok? && Reading(s, Step(s, c).value, Drop(us, 1))
  {
    Pull(s, c.pos, Drop(us, 2));
    assert Drop(Drop(us, 2), 1) == Drop(Drop(us, 1), 2);
  }

  lemma SkipReading(s: string, c: Cursor, us: seq<Token>)
    requires Reading(s, c, us)
    ensures Skip(s, c).Ok? && Reading(s, Skip(s, c).value, Drop(us, 2))
  {
    StepReading(s, c, us);
    StepReading(s, Step(s, c).value, Drop(us, 1));
    assert Drop(Drop(us, 1), 1) == Drop(us, 2);
  }

  lemma StepAfter(s: string, c: Cursor, us: seq<Token>)
    requires After(s, c, us)
    ensures Step(s, c).Ok? && Reading(s, Step(s, c).value, us)
  {
    StepReading(s, c, [c.cur.value] + us);
    assert Drop([c.cur.value] + us, 1) == us;
  }

  /** The next token is not `|`. */
  predicate NoArrayNext(us: seq<Token>) {
    |us| == 0 || !us[0].ArraySep?
  }

  lemma {:induction false} ArrayReads(s: string, c: Cursor, items: seq<Block>, us: seq<Token>)
    requires |items| >= 1 && LiteralItems(items) && NoArrayNext(us)
    requires Reading(s, c, ItemTokens(items) + us)
    ensures ArrayLoop(s, c).Ok? && ArrayLoop(s, c).value.0 == items
    ensures After(s, ArrayLoop(s, c).value.1, us)
    decreases |items|
  {
    var l := TextOf(items[0]);
    ItemTokensCons(items, us);
    if |items| == 1 {
      assert items == [Literal(l)];
    } else {
      var rest := ItemTokens(items[1..]) + us;
      StepAfter(s, c, [ArraySep("|")] + rest);
      var c1 := Step(s, c).value;
      StepAfter(s, c1, rest);
      assert LiteralItems(items[1..]) by {
        assert forall i :: 0 <= i < |items| - 1 ==> items[1..][i] == items[i + 1];
      }
      ArrayReads(s, Step(s, c1).value, items[1..], us);
      assert items == [Literal(l)] + items[1..];
    }
  }

  /** The cursor after the step of `parse_block` onto block `b`. */
  lemma BlockAt(s: string, c1: Cursor, b: Block, us: seq<Token>)
    requires RenderableBlock(b) && NoArrayNext(us) && !b.Array?
    requires Reading(s, c1, BlockTokens(b) + us)
    ensures c1.cur == Some(BlockTokens(b)[0]) && After(s, c1, us)
    ensures c1.seek != Some(ArraySep("|"))
  {
    assert BlockTokens(b) + us == [BlockTokens(b)[0]] + us;
  }

  lemma BlockReads(s: string, c: Cursor, b: Block, us: seq<Token>)
    requires RenderableBlock(b) && NoArrayNext(us)
    requires After(s, c, BlockTokens(b) + us)
    ensures ParseBlock(s, c).Ok? && ParseBlock(s, c).value.0 == b
    ensures After(s, ParseBlock(s, c).value.1, us)
  {
    StepAfter(s, c, BlockTokens(b) + us);
    var c1 := Step(s, c).value;
    if b.Array? {
      ItemTokensHead(b.items);
      assert c1.cur == Some(CreateId(TextOf(b.items[0])));
      assert c1.seek == Some(ArraySep("|"));
      ArrayReads(s, c1, b.items, us);
    } else {
      BlockAt(s, c1, b, us);
    }
  }

  /** What may follow a scope's last block: the end, or a `,`. */
  predicate ScopeEndNext(us: seq<Token>) {
    |us| == 0 || us[0] == ScopeSep(",")
  }

  lemma {:induction false} BlocksRead(s: string, c: Cursor, bs: seq<Block>, us: seq<Token>)
    requires RenderableBlocks(bs) && ScopeEndNext(us)
    requires After(s, c, BlocksTokens(bs) + us)
    ensures BlocksLoop(s, c).Ok? && BlocksLoop(s, c).value.0 == bs
    ensures After(s, BlocksLoop(s, c).value.1, us)
    decreases |bs|
  {
    BlocksTokensCons(bs, us);
    if |bs| == 1 {
      BlockReads(s, c, bs[0], us);
    } else {
      var more := [BlockSep("/")] + (BlocksTokens(bs[1..]) + us);
      BlockReads(s, c, bs[0], more);
      var c1 := ParseBlock(s, c).value.1;
      assert c1.seek == Some(BlockSep("/"));
      StepAfter(s, c1, more);
      var c2 := Step(s, c1).value;
      assert RenderableBlocks(bs[1..]) by {
        assert forall i :: 0 <= i < |bs| - 1 ==> bs[1..][i] == bs[i + 1];
      }
      BlocksRead(s, c2, bs[1..], us);
      assert bs == [bs[0]] + bs[1..];
    }
  }

  lemma {:induction false} ScopesRead(s: string, c: Cursor, scs: seq<Scope>)
    requires RenderableScopes(scs)
    requires Reading(s, c, ScopesTokens(scs))
    ensures ScopesLoop(s, c).Ok? && ScopesLoop(s, c).value.0 == scs
    decreases |scs|
  {
    if |scs| > 0 {
      var sc := scs[0];
      var us := ScopesTail(scs);
      var c2 := ScopeReads(s, c, scs);
      SkipReading(s, c2, [c2.cur.value] + us);
      var c3 := Skip(s, c2).value;
      assert Drop([c2.cur.value] + us, 2) == ScopesTokens(scs[1..]);
      assert RenderableScopes(scs[1..]) by {
        assert forall i :: 0 <= i < |scs| - 1 ==> scs[1..][i] == scs[i + 1];
      }
      ScopesRead(s, c3, scs[1..]);
      assert scs == [sc] + scs[1..];
    }
  }

  /** `parse_scope` on the first scope reads it and stops after its last block. */
  lemma ScopeReads(s: string, c: Cursor, scs: seq<Scope>) returns (c2: Cursor)
    requires |scs| >= 1 && RenderableScopes(scs)
    requires Reading(s, c, ScopesTokens(scs))
    ensures ParseScope(s, c) == Ok((scs[0], c2)) && After(s, c2, ScopesTail(scs))
  {
    var sc := scs[0];
    var us := ScopesTail(scs);
    ScopesTokensFirst(scs);
    var rest := BlocksTokens(sc.scope) + us;
    StepAfter(s, c, [BlockSep("/")] + rest);
    var c1 := Step(s, c).value;
    assert RenderableBlocks(sc.scope);
    BlocksRead(s, c1, sc.scope, us);
    c2 := BlocksLoop(s, c1).value.1;
  }

  /** Compiling the serialization of a renderable rule set gives it back. */
  lemma CompileSerialize(x: Scopes)
    requires Renderable(x)
    ensures Compile(Serialize(x)) == Ok(x)
  {
    var s := Serialize(x);
    SerializedTokens(x);
    StartReading(s);
    ScopesRead(s, Start(s).value, x.scopes);
  }
}
