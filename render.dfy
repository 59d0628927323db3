/** Writing a rule set back as an actor string with the canonical separators,
    and the proof that the lexer reads that string back as exactly the
    tokens it was written from. */
module Render {
  import opened Tokens
  import opened Ast
  import opened Lexer
  import opened Grammar

  function TextOf(b: Block): string {
    if b.Literal? then b.inner else ""
  }

  /** The alternatives of an array, separated by `|`. */
  function ItemTokens(items: seq<Block>): seq<Token>
    decreases |items|
  {
    if |items| == 0 then []
    else if |items| == 1 then [CreateId(TextOf(items[0]))]
    else [CreateId(TextOf(items[0]))] + ([ArraySep("|")] + ItemTokens(items[1..]))
  }

  lemma Regroup(a: seq<Token>, b: seq<Token>, c: seq<Token>, d: seq<Token>)
    ensures (a + (b + c)) + d == a + (b + (c + d))
  {
  }

  lemma ItemTokensCons(items: seq<Block>, us: seq<Token>)
    requires |items| >= 1
    ensures |items| == 1 ==> ItemTokens(items) + us == [CreateId(TextOf(items[0]))] + us
    ensures |items| >= 2 ==>
              ItemTokens(items) + us == [CreateId(TextOf(items[0]))] + ([ArraySep("|")] + (ItemTokens(items[1..]) + us))
  {
    var head := [CreateId(TextOf(items[0]))];
    if |items| >= 2 {
      var rest := ItemTokens(items[1..]);
      assert ItemTokens(items) == head + ([ArraySep("|")] + rest);
      Regroup(head, [ArraySep("|")], rest, us);
    }
  }

  lemma ItemTokensHead(items: seq<Block>)
    requires |items| >= 2
    ensures |ItemTokens(items)| >= 2
    ensures ItemTokens(items)[0] == CreateId(TextOf(items[0])) && ItemTokens(items)[1] == ArraySep("|")
  {
  }

  function BlockTokens(b: Block): seq<Token> {
    match b
    case Literal(v) => [CreateId(v)]
    case Variable(n) => [Var(n)]
    case WildBlock => [Wild("*")]
    case SuperWildBlock => [SuperWild("**")]
    case Array(items) => ItemTokens(items)
  }

  /** The blocks of a scope, separated by `/`. */
  function BlocksTokens(bs: seq<Block>): seq<Token>
    decreases |bs|
  {
    if |bs| == 0 then []
    else if |bs| == 1 then BlockTokens(bs[0])
    else BlockTokens(bs[0]) + ([BlockSep("/")] + BlocksTokens(bs[1..]))
  }

  lemma BlocksTokensCons(bs: seq<Block>, us: seq<Token>)
    requires |bs| >= 1
    ensures |bs| == 1 ==> BlocksTokens(bs) + us == BlockTokens(bs[0]) + us
    ensures |bs| >= 2 ==>
              BlocksTokens(bs) + us == BlockTokens(bs[0]) + ([BlockSep("/")] + (BlocksTokens(bs[1..]) + us))
  {
    if |bs| >= 2 {
      var head, rest := BlockTokens(bs[0]), BlocksTokens(bs[1..]);
      assert BlocksTokens(bs) == head + ([BlockSep("/")] + rest);
      Regroup(head, [BlockSep("/")], rest, us);
    }
  }

  function Polarity(allow: bool): Token {
    if allow then Allow("allow") else Deny("deny")
  }

  function ScopeTokens(sc: Scope): seq<Token> {
    [Polarity(sc.allow)] + ([BlockSep("/")] + BlocksTokens(sc.scope))
  }

  /** The scopes, separated by `,`. */
  function ScopesTokens(scs: seq<Scope>): seq<Token>
    decreases |scs|
  {
    if |scs| == 0 then []
    else if |scs| == 1 then ScopeTokens(scs[0])
    else ScopeTokens(scs[0]) + ([ScopeSep(",")] + ScopesTokens(scs[1..]))
  }

  /** What follows the first scope: nothing, or a `,` and the other scopes. */
  function ScopesTail(scs: seq<Scope>): seq<Token>
    requires |scs| >= 1
  {
    if |scs| == 1 then [] else [ScopeSep(",")] + ScopesTokens(scs[1..])
  }

  lemma ScopesTokensSplit(scs: seq<Scope>)
    requires |scs| >= 1
    ensures ScopesTokens(scs) == ScopeTokens(scs[0]) + ScopesTail(scs)
  {
    if |scs| == 1 {
      assert ScopeTokens(scs[0]) + [] == ScopeTokens(scs[0]);
    }
  }

  lemma ScopesTokensFirst(scs: seq<Scope>)
    requires |scs| >= 1
    ensures ScopesTokens(scs) ==
              [Polarity(scs[0].allow)] + ([BlockSep("/")] + (BlocksTokens(scs[0].scope) + ScopesTail(scs)))
  {
    ScopesTokensSplit(scs);
    Regroup([Polarity(scs[0].allow)], [BlockSep("/")], BlocksTokens(scs[0].scope), ScopesTail(scs));
  }

  function Serialize(x: Scopes): string {
    Spell(ScopesTokens(x.scopes))
  }

  /** A block that reads back as itself: identifier text, and arrays of at
      least two literals (one literal reads back as a plain literal). */
  predicate RenderableBlock(b: Block) {
    match b
    case Literal(v) => IsIdentifier(v)
    case Variable(n) => IsIdentifier(n)
    case WildBlock => true
    case SuperWildBlock => true
    case Array(items) => |items| >= 2 && LiteralItems(items)
  }

  predicate RenderableBlocks(bs: seq<Block>) {
    |bs| >= 1 && forall i :: 0 <= i < |bs| ==> RenderableBlock(bs[i])
  }

  predicate RenderableScopes(scs: seq<Scope>) {
    forall i :: 0 <= i < |scs| ==> RenderableBlocks(scs[i].scope)
  }

  function LastBlock(bs: seq<Block>): Block
    requires |bs| >= 1
  {
    bs[|bs| - 1]
  }

  /** A rule set that reads back as itself. Besides the block conditions, the
      very last block may not be `*`: the lexer reads past the end there. */
  predicate Renderable(x: Scopes) {
    && RenderableScopes(x.scopes)
    && (|x.scopes| > 0 ==> LastBlock(x.scopes[|x.scopes| - 1].scope) != WildBlock)
  }

  // ---------------------------------------------------------------------
  // Lexing a spelled token sequence

  /** `t` is scanned whole when the token `u` (or the end) follows it. */
  predicate Fits(t: Token, u: Option<Token>) {
    if t.IsId() then u.None? || u.value.IsSym()
    else if t.Wild? then u.Some? && !u.value.Wild? && !u.value.SuperWild?
    else true
  }

  /** Every token of `ts` is one the lexer produces and is scanned whole when
      followed by the next one, the last by `u`. */
  predicate LexableBefore(ts: seq<Token>, u: Option<Token>)
    decreases |ts|
  {
    |ts| == 0 ||
    (WellSpelled(ts[0]) && Fits(ts[0], if |ts| == 1 then u else Some(ts[1])) && LexableBefore(ts[1..], u))
  }

  lemma LexemeStart(t: Token)
    requires WellSpelled(t)
    ensures |Lexeme(t)| >= 1
    ensures t.IsSym() || t.Var? ==> !IsIdentChar(Lexeme(t)[0])
    ensures t.IsId() && !t.Var? ==> IsIdentStart(Lexeme(t)[0])
    ensures !t.Wild? && !t.SuperWild? ==> Lexeme(t)[0] != '*'
  {
  }

  /** The run of identifier characters from `p` ends exactly at `e`. */
  lemma {:induction false} IdEndAt(s: string, p: nat, e: nat)
    requires p <= e <= |s|
    requires forall i :: p <= i < e ==> IsIdentChar(s[i])
    requires e == |s| || !IsIdentChar(s[e])
    ensures IdEnd(s, p) == e
    decreases e - p
  {
    if p < e {
      IdEndAt(s, p + 1, e);
    }
  }

  /** One token, spelled at `p` and followed by a character that cannot
      continue it, is scanned as itself. */
  lemma LexOne(s: string, p: nat, t: Token)
    requires WellSpelled(t)
    requires p + |Lexeme(t)| <= |s| && s[p..p + |Lexeme(t)|] == Lexeme(t)
    requires t.IsId() ==> p + |Lexeme(t)| == |s| || !IsIdentChar(s[p + |Lexeme(t)|])
    requires t.Wild? ==> p + 1 < |s| && s[p + 1] != '*'
    ensures NextToken(s, p) == Ok((Some(t), p + |Lexeme(t)|))
  {
    LexemeStart(t);
    assert s[p] == Lexeme(t)[0];
    if t.Var? {
      LexVar(s, p, t);
    } else if t.IsId() {
      LexWord(s, p, t);
    } else if t.SuperWild? {
      assert s[p + 1] == Lexeme(t)[1];
    }
  }

  lemma LexWord(s: string, p: nat, t: Token)
    requires WellSpelled(t) && t.IsId() && !t.Var?
    requires p + |t.val| <= |s| && s[p..p + |t.val|] == t.val
    requires p + |t.val| == |s| || !IsIdentChar(s[p + |t.val|])
    ensures NextToken(s, p) == Ok((Some(t), p + |t.val|))
  {
    var e := p + |t.val|;
    IdTokenText(t);
    assert forall i :: p <= i < e ==> s[i] == t.val[i - p];
    IdEndAt(s, p, e);
  }

  lemma LexVar(s: string, p: nat, t: Token)
    requires WellSpelled(t) && t.Var?
    requires p + 1 + |t.val| <= |s| && s[p..p + 1 + |t.val|] == "@" + t.val
    requires p + 1 + |t.val| == |s| || !IsIdentChar(s[p + 1 + |t.val|])
    ensures NextToken(s, p) == Ok((Some(t), p + 1 + |t.val|))
  {
    var e := p + 1 + |t.val|;
    assert forall i :: p + 1 <= i < e ==> s[i] == t.val[i - p - 1];
    assert s[p] == '@' && s[p + 1] == t.val[0];
    IdEndAt(s, p + 1, e);
    assert s[p + 1..e] == t.val;
  }

  /** A suffix of `s` that is `a + b` holds `a` first and then `b`. */
  lemma SplitSuffix(s: string, p: nat, a: string, b: string)
    requires p <= |s| && s[p..] == a + b
    ensures p + |a| <= |s| && s[p..p + |a|] == a && s[p + |a|..] == b
  {
    assert forall i :: 0 <= i < |a| ==> s[p + i] == a[i];
    assert forall i :: 0 <= i < |b| ==> s[p + |a| + i] == b[i];
  }

  /** The first token of a spelled sequence is scanned as itself, and the
      rest of the text spells the rest of the sequence. */
  lemma LexHead(s: string, p: nat, ts: seq<Token>) returns (e: nat)
    requires p <= |s| && s[p..] == Spell(ts) && |ts| >= 1 && LexableBefore(ts, None)
    ensures e == p + |Lexeme(ts[0])| && e <= |s|
    ensures NextToken(s, p) == Ok((Some(ts[0]), e))
    ensures s[e..] == Spell(ts[1..])
  {
    var t := ts[0];
    e := p + |Lexeme(t)|;
    SplitSuffix(s, p, Lexeme(t), Spell(ts[1..]));
    if |ts| >= 2 {
      var u := ts[1];
      LexemeStart(u);
      SplitSuffix(s, e, Lexeme(u), Spell(ts[2..]));
      assert s[e] == Lexeme(u)[0];
    }
    LexOne(s, p, t);
  }

  lemma {:induction false} LexSpelled(s: string, p: nat, ts: seq<Token>)
    requires p <= |s| && s[p..] == Spell(ts) && LexableBefore(ts, None)
    ensures TokensFrom(s, p) == Ok(ts)
    decreases |ts|
  {
    if ts == [] {
      assert |s[p..]| == 0;
    } else {
      var e := LexHead(s, p, ts);
      TokensFromSome(s, p, ts[0], e);
      LexSpelled(s, e, ts[1..]);
      assert [ts[0]] + ts[1..] == ts;
    }
  }

  lemma {:induction false} LexableConcat(a: seq<Token>, b: seq<Token>, u: Option<Token>)
    requires |b| >= 1 && LexableBefore(a, Some(b[0])) && LexableBefore(b, u)
    ensures LexableBefore(a + b, u)
    decreases |a|
  {
    if a != [] {
      assert (a + b)[1..] == a[1..] + b;
      if |a| == 1 {
        assert a[1..] + b == b;
      } else {
        LexableConcat(a[1..], b, u);
      }
    } else {
      assert a + b == b;
    }
  }

  /** A separator that the serializer writes, or the end of the text. */
  predicate SepOrEnd(u: Option<Token>) {
    u.None? || u == Some(BlockSep("/")) || u == Some(ScopeSep(",")) || u == Some(ArraySep("|"))
  }

  lemma CreateIdSpelled(v: string)
    requires IsIdentifier(v)
    ensures WellSpelled(CreateId(v))
  {
  }

  lemma {:induction false} ItemsLexable(items: seq<Block>, u: Option<Token>)
    requires |items| >= 1 && LiteralItems(items) && SepOrEnd(u)
    ensures LexableBefore(ItemTokens(items), u)
    decreases |items|
  {
    CreateIdSpelled(TextOf(items[0]));
    if |items| >= 2 {
      ItemsLexable(items[1..], u);
      var rest := ItemTokens(items[1..]);
      assert LexableBefore([ArraySep("|")] + rest, u) by {
        assert ([ArraySep("|")] + rest)[1..] == rest;
      }
      assert LexableBefore([CreateId(TextOf(items[0]))], Some(ArraySep("|")));
      LexableConcat([CreateId(TextOf(items[0]))], [ArraySep("|")] + rest, u);
      assert [CreateId(TextOf(items[0]))] + ([ArraySep("|")] + rest) == ItemTokens(items);
    }
  }

  lemma BlockLexable(b: Block, u: Option<Token>)
    requires RenderableBlock(b) && SepOrEnd(u) && (b == WildBlock ==> u.Some?)
    ensures |BlockTokens(b)| >= 1 && LexableBefore(BlockTokens(b), u)
  {
    match b
    case Literal(v) => CreateIdSpelled(v);
    case Array(items) => ItemsLexable(items, u);
    case _ =>
  }

  lemma {:induction false} BlocksLexable(bs: seq<Block>, u: Option<Token>)
    requires RenderableBlocks(bs) && SepOrEnd(u) && (LastBlock(bs) == WildBlock ==> u.Some?)
    ensures |BlocksTokens(bs)| >= 1 && LexableBefore(BlocksTokens(bs), u)
    decreases |bs|
  {
    if |bs| == 1 {
      BlockLexable(bs[0], u);
    } else {
      BlockLexable(bs[0], Some(BlockSep("/")));
      assert RenderableBlocks(bs[1..]) && LastBlock(bs[1..]) == LastBlock(bs);
      BlocksLexable(bs[1..], u);
      var rest := BlocksTokens(bs[1..]);
      assert LexableBefore([BlockSep("/")] + rest, u) by {
        assert ([BlockSep("/")] + rest)[1..] == rest;
      }
      LexableConcat(BlockTokens(bs[0]), [BlockSep("/")] + rest, u);
      assert BlockTokens(bs[0]) + ([BlockSep("/")] + rest) == BlocksTokens(bs);
    }
  }

  lemma ScopeLexable(sc: Scope, u: Option<Token>)
    requires RenderableBlocks(sc.scope) && SepOrEnd(u) && (LastBlock(sc.scope) == WildBlock ==> u.Some?)
    ensures LexableBefore(ScopeTokens(sc), u)
  {
    BlocksLexable(sc.scope, u);
    var rest := BlocksTokens(sc.scope);
    assert ([Polarity(sc.allow), BlockSep("/")] + rest)[1..] == [BlockSep("/")] + rest;
    assert ([BlockSep("/")] + rest)[1..] == rest;
  }

  /** A separator in front of a lexable sequence keeps it lexable. */
  lemma SepLexable(sep: Token, rest: seq<Token>, u: Option<Token>)
    requires sep == BlockSep("/") || sep == ScopeSep(",")
    requires |rest| >= 1 && LexableBefore(rest, u)
    ensures LexableBefore([sep] + rest, u)
  {
    assert ([sep] + rest)[1..] == rest;
  }

  lemma RenderableTail(scs: seq<Scope>)
    requires |scs| >= 2 && Renderable(Scopes(scs))
    ensures RenderableBlocks(scs[0].scope) && Renderable(Scopes(scs[1..]))
  {
    var tail := scs[1..];
    assert tail[|tail| - 1] == scs[|scs| - 1];
    assert forall i :: 0 <= i < |tail| ==> tail[i] == scs[i + 1];
  }

  lemma ScopesTokensCons(scs: seq<Scope>)
    requires |scs| >= 2
    ensures ScopesTokens(scs) == ScopeTokens(scs[0]) + ([ScopeSep(",")] + ScopesTokens(scs[1..]))
    ensures |ScopesTokens(scs[1..])| >= 2
  {
    var tail := scs[1..];
    assert tail[0] == scs[1];
    assert |ScopeTokens(tail[0])| >= 2;
  }

  lemma {:induction false} ScopesLexable(scs: seq<Scope>)
    requires Renderable(Scopes(scs))
    ensures LexableBefore(ScopesTokens(scs), None)
    decreases |scs|
  {
    if |scs| == 1 {
      ScopeLexable(scs[0], None);
    } else if |scs| >= 2 {
      RenderableTail(scs);
      ScopeLexable(scs[0], Some(ScopeSep(",")));
      ScopesLexable(scs[1..]);
      ScopesTokensCons(scs);
      var rest := ScopesTokens(scs[1..]);
      SepLexable(ScopeSep(","), rest, None);
      LexableConcat(ScopeTokens(scs[0]), [ScopeSep(",")] + rest, None);
    }
  }

  /** The lexer reads a serialized rule set back as the tokens it was
      written from. */
  lemma SerializedTokens(x: Scopes)
    requires Renderable(x)
    ensures Tokenize(Serialize(x)) == Ok(ScopesTokens(x.scopes))
  {
    ScopesLexable(x.scopes);
    var s := Serialize(x);
    assert s[0..] == s;
    LexSpelled(s, 0, ScopesTokens(x.scopes));
  }
}
