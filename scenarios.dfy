/** Rule strings worked through the compiler, including the inputs where the
    code does something other than the rule grammar suggests.

    Each lemma names its input `s` and fixes it with `requires s == "..."`
    rather than writing the string literal into the ensures: with a literal
    argument the verifier unfolds the lexer and parser functions eagerly, and
    the proofs become slow and unstable. The helper lemmas take the parser's
    intermediate cursors as parameters for the same reason. */
module Scenarios {
  import opened Tokens
  import opened Ast
  import opened Lexer
  import opened Grammar
  import opened Render
  import opened RoundTrip

  // Well-formed rules: each is the serialization of its tree.

  lemma TwoLiterals(s: string)
    requires s == "allow/a/b"
    ensures Compile(s) == Ok(Scopes([Scope(true, [Literal("a"), Literal("b")])]))
  {
    var x := Scopes([Scope(true, [Literal("a"), Literal("b")])]);
    TwoLiteralsText(x, s);
    CompileSerialize(x);
  }

  lemma TwoLiteralsText(x: Scopes, s: string)
    requires x == Scopes([Scope(true, [Literal("a"), Literal("b")])]) && s == "allow/a/b"
    ensures Serialize(x) == s
  {
    var b := [Id("a")] + ([BlockSep("/")] + [Id("b")]);
    assert BlocksTokens(x.scopes[0].scope) == b;
    assert ScopesTokens(x.scopes) == [Allow("allow")] + ([BlockSep("/")] + b);
    SpellCons(Allow("allow"), [BlockSep("/")] + b);
    SpellCons(BlockSep("/"), b);
    SpellCons(Id("a"), [BlockSep("/")] + [Id("b")]);
    SpellCons(BlockSep("/"), [Id("b")]);
    SpellCons(Id("b"), []);
    assert [Id("b")] + [] == [Id("b")];
    assert "allow" + ("/" + ("a" + ("/" + ("b" + "")))) == s;
  }

  lemma TwoScopes(s: string)
    requires s == "deny/a,allow/b"
    ensures Compile(s) ==
            Ok(Scopes([Scope(false, [Literal("a")]), Scope(true, [Literal("b")])]))
  {
    var c0 := Cursor(5, Some(Deny("deny")), Some(BlockSep("/")));
    var c2 := Cursor(7, Some(Id("a")), Some(ScopeSep(",")));
    var c3 := Cursor(13, Some(Allow("allow")), Some(BlockSep("/")));
    var c5 := Cursor(14, None, None);
    var sc1 := Scope(false, [Literal("a")]);
    var sc2 := Scope(true, [Literal("b")]);
    TwoScopesFirst(s, c0, c2, c3);
    TwoScopesSecond(s, c3, c5);
    assert [sc1] + [sc2] == [sc1, sc2];
    assert ScopesLoop(s, c0) == Ok(([sc1, sc2], c5));
  }

  lemma TwoScopesFirst(s: string, c0: Cursor, c2: Cursor, c3: Cursor)
    requires s == "deny/a,allow/b"
    requires c0 == Cursor(5, Some(Deny("deny")), Some(BlockSep("/")))
    requires c2 == Cursor(7, Some(Id("a")), Some(ScopeSep(",")))
    requires c3 == Cursor(13, Some(Allow("allow")), Some(BlockSep("/")))
    ensures Start(s) == Ok(c0) && Valid(s, c0) && Valid(s, c2)
    ensures ParseScope(s, c0) == Ok((Scope(false, [Literal("a")]), c2))
    ensures Skip(s, c2) == Ok(c3)
  {
    DenyPrefix(s);
    assert s[5..6] == "a" && s[6] == ',';
    LexOne(s, 5, Id("a"));
    var c1 := Cursor(6, Some(BlockSep("/")), Some(Id("a")));
    assert Step(s, c0) == Ok(c1);
    assert ParseBlock(s, c1) == Ok((Literal("a"), c2));
    assert BlocksLoop(s, c1) == Ok(([Literal("a")], c2));
    TwoScopesSkip(s, c2, c3);
  }

  lemma TwoScopesSkip(s: string, c2: Cursor, c3: Cursor)
    requires s == "deny/a,allow/b"
    requires c2 == Cursor(7, Some(Id("a")), Some(ScopeSep(",")))
    requires c3 == Cursor(13, Some(Allow("allow")), Some(BlockSep("/")))
    ensures Skip(s, c2) == Ok(c3)
  {
    LexOne(s, 7, Allow("allow"));
  }

  lemma TwoScopesSecond(s: string, c3: Cursor, c5: Cursor)
    requires s == "deny/a,allow/b"
    requires c3 == Cursor(13, Some(Allow("allow")), Some(BlockSep("/")))
    requires c5 == Cursor(14, None, None)
    ensures Valid(s, c3)
    ensures ScopesLoop(s, c3) == Ok(([Scope(true, [Literal("b")])], c5))
  {
    LexOne(s, 13, Id("b"));
    var c4 := Cursor(14, Some(Id("b")), None);
    var sc2 := Scope(true, [Literal("b")]);
    assert ParseScope(s, c3) == Ok((sc2, c4));
    assert Skip(s, c4) == Ok(c5);
    assert ScopesLoop(s, c5) == Ok(([], c5));
    assert [sc2] + [] == [sc2];
  }

  lemma Alternatives(s: string)
    requires s == "allow/x|y|z"
    ensures Compile(s) ==
            Ok(Scopes([Scope(true, [Array([Literal("x"), Literal("y"), Literal("z")])])]))
  {
    var x := Scopes([Scope(true, [Array([Literal("x"), Literal("y"), Literal("z")])])]);
    AlternativesText(x, s);
    AlternativesRenderable(x);
    CompileSerialize(x);
  }

  lemma AlternativesRenderable(x: Scopes)
    requires x == Scopes([Scope(true, [Array([Literal("x"), Literal("y"), Literal("z")])])])
    ensures Renderable(x)
  {
    var items := x.scopes[0].scope[0].items;
    assert IsIdentifier("x") && IsIdentifier("y") && IsIdentifier("z");
    assert LiteralItems(items);
  }

  lemma AlternativesText(x: Scopes, s: string)
    requires x == Scopes([Scope(true, [Array([Literal("x"), Literal("y"), Literal("z")])])])
    requires s == "allow/x|y|z"
    ensures Serialize(x) == s
  {
    var items := x.scopes[0].scope[0].items;
    var yz := [Id("y")] + ([ArraySep("|")] + [Id("z")]);
    var xyz := [Id("x")] + ([ArraySep("|")] + yz);
    assert ItemTokens(items[1..]) == yz;
    assert ItemTokens(items) == xyz;
    assert ScopesTokens(x.scopes) == [Allow("allow")] + ([BlockSep("/")] + xyz);
    SpellCons(Allow("allow"), [BlockSep("/")] + xyz);
    SpellCons(BlockSep("/"), xyz);
    SpellCons(Id("x"), [ArraySep("|")] + yz);
    SpellCons(ArraySep("|"), yz);
    SpellCons(Id("y"), [ArraySep("|")] + [Id("z")]);
    SpellCons(ArraySep("|"), [Id("z")]);
    SpellCons(Id("z"), []);
    assert [Id("z")] + [] == [Id("z")];
    assert "allow" + ("/" + ("x" + ("|" + ("y" + ("|" + ("z" + "")))))) == s;
  }

  lemma Wildcards(s: string)
    requires s == "allow/*/**"
    ensures Compile(s) == Ok(Scopes([Scope(true, [WildBlock, SuperWildBlock])]))
  {
    var x := Scopes([Scope(true, [WildBlock, SuperWildBlock])]);
    WildcardsText(x, s);
    CompileSerialize(x);
  }

  lemma WildcardsText(x: Scopes, s: string)
    requires x == Scopes([Scope(true, [WildBlock, SuperWildBlock])]) && s == "allow/*/**"
    ensures Serialize(x) == s
  {
    var b := [Wild("*")] + ([BlockSep("/")] + [SuperWild("**")]);
    assert BlocksTokens(x.scopes[0].scope) == b;
    assert ScopesTokens(x.scopes) == [Allow("allow")] + ([BlockSep("/")] + b);
    SpellCons(Allow("allow"), [BlockSep("/")] + b);
    SpellCons(BlockSep("/"), b);
    SpellCons(Wild("*"), [BlockSep("/")] + [SuperWild("**")]);
    SpellCons(BlockSep("/"), [SuperWild("**")]);
    SpellCons(SuperWild("**"), []);
    assert [SuperWild("**")] + [] == [SuperWild("**")];
    assert "allow" + ("/" + ("*" + ("/" + ("**" + "")))) == s;
  }

  lemma VariableBlock(s: string)
    requires s == "allow/@role"
    ensures Compile(s) == Ok(Scopes([Scope(true, [Variable("role")])]))
  {
    var x := Scopes([Scope(true, [Variable("role")])]);
    VariableBlockText(x, s);
    CompileSerialize(x);
  }

  lemma VariableBlockText(x: Scopes, s: string)
    requires x == Scopes([Scope(true, [Variable("role")])]) && s == "allow/@role"
    ensures Serialize(x) == s
  {
    var b := [Var("role")];
    assert ScopesTokens(x.scopes) == [Allow("allow")] + ([BlockSep("/")] + b);
    SpellCons(Allow("allow"), [BlockSep("/")] + b);
    SpellCons(BlockSep("/"), b);
    SpellCons(Var("role"), []);
    assert b + [] == b;
    assert "allow" + ("/" + ("@role" + "")) == s;
  }

  // Inputs the code rejects, and which error wins.

  /** A scope must start with `allow` or `deny`; a longer word is an identifier. */
  lemma KeywordPrefix(s: string)
    requires s == "allowx"
    ensures Compile(s) == Err(NotImplemented(Some(Id("allowx"))))
  {
    LexOne(s, 0, Id("allowx"));
    assert Start(s) == Ok(Cursor(6, Some(Id("allowx")), None));
  }

  /** The parser rejects the first scope before the lexer reaches `%`. */
  lemma ParserErrorFirst(s: string)
    requires s == "maybe/%"
    ensures Compile(s) == Err(NotImplemented(Some(Id("maybe"))))
  {
    LexOne(s, 0, Id("maybe"));
    assert Start(s) == Ok(Cursor(6, Some(Id("maybe")), Some(BlockSep("/"))));
  }

  /** A rule that begins `allow/` starts the parser on the keyword, with the
      block separator as lookahead, whatever follows. */
  lemma AllowPrefix(s: string)
    requires |s| >= 6 && s[..6] == "allow/"
    ensures Start(s) == Ok(Cursor(6, Some(Allow("allow")), Some(BlockSep("/"))))
  {
    assert s[0..5] == "allow" && s[5] == '/';
    LexOne(s, 0, Allow("allow"));
  }

  lemma DenyPrefix(s: string)
    requires |s| >= 5 && s[..5] == "deny/"
    ensures Start(s) == Ok(Cursor(5, Some(Deny("deny")), Some(BlockSep("/"))))
  {
    assert s[0..4] == "deny" && s[4] == '/';
    LexOne(s, 0, Deny("deny"));
  }

  lemma UnknownCharacter(s: string)
    requires s == "allow/%"
    ensures Compile(s) == Err(InvalidSyntax)
  {
    AllowPrefix(s);
    assert Step(s, Cursor(6, Some(Allow("allow")), Some(BlockSep("/")))) == Err(InvalidSyntax);
  }

  /** `*` as the last character: the lexer looks one character beyond it. */
  lemma TrailingWildcard(s: string)
    requires s == "allow/*"
    ensures Compile(s) == Err(IndexOutOfRange)
  {
    AllowPrefix(s);
    assert Step(s, Cursor(6, Some(Allow("allow")), Some(BlockSep("/")))) == Err(IndexOutOfRange);
  }

  /** An `@` with no name after it. */
  lemma EmptyVariable(s: string)
    requires s == "allow/@"
    ensures Compile(s) == Err(InvalidIdentifier(7))
  {
    AllowPrefix(s);
    assert Step(s, Cursor(6, Some(Allow("allow")), Some(BlockSep("/")))) == Err(InvalidIdentifier(7));
  }

  // Inputs the code accepts although the rule grammar does not.

  /** A `|` at the end of a block leaves a one-literal array. */
  lemma TrailingBar(s: string)
    requires s == "allow/a|"
    ensures Compile(s) == Ok(Scopes([Scope(true, [Array([Literal("a")])])]))
  {
    AllowPrefix(s);
    var c0 := Cursor(6, Some(Allow("allow")), Some(BlockSep("/")));
    var c3 := Cursor(8, None, None);
    var sc := Scope(true, [Array([Literal("a")])]);
    TrailingBarScope(s, c0, c3);
    assert Skip(s, c3) == Ok(c3);
    assert ScopesLoop(s, c3) == Ok(([], c3));
    assert [sc] + [] == [sc];
    assert ScopesLoop(s, c0) == Ok(([sc], c3));
  }

  lemma TrailingBarScope(s: string, c0: Cursor, c3: Cursor)
    requires s == "allow/a|"
    requires c0 == Cursor(6, Some(Allow("allow")), Some(BlockSep("/")))
    requires c3 == Cursor(8, None, None)
    ensures Valid(s, c0) && Valid(s, c3)
    ensures ParseScope(s, c0) == Ok((Scope(true, [Array([Literal("a")])]), c3))
  {
    LexOne(s, 6, Id("a"));
    var c1 := Cursor(7, Some(BlockSep("/")), Some(Id("a")));
    assert Step(s, c0) == Ok(c1);
    var c2 := Cursor(8, Some(Id("a")), Some(ArraySep("|")));
    assert Step(s, c1) == Ok(c2);
    assert Skip(s, c2) == Ok(c3);
    assert ArrayLoop(s, c3) == Ok(([], c3));
    assert [Literal("a")] + [] == [Literal("a")];
    assert ArrayLoop(s, c2) == Ok(([Literal("a")], c3));
    assert ParseBlock(s, c1) == Ok((Array([Literal("a")]), c3));
  }

  /** A variable among the alternatives of an array is taken as a literal. */
  lemma VariableInArray(s: string)
    requires s == "allow/a|@b"
    ensures Compile(s) == Ok(Scopes([Scope(true, [Array([Literal("a"), Literal("b")])])]))
  {
    AllowPrefix(s);
    var c0 := Cursor(6, Some(Allow("allow")), Some(BlockSep("/")));
    var c3 := Cursor(10, Some(Var("b")), None);
    var c4 := Cursor(10, None, None);
    var sc := Scope(true, [Array([Literal("a"), Literal("b")])]);
    VariableInArrayScope(s, c0, c3);
    assert Skip(s, c3) == Ok(c4);
    assert ScopesLoop(s, c4) == Ok(([], c4));
    assert [sc] + [] == [sc];
    assert ScopesLoop(s, c0) == Ok(([sc], c4));
  }

  lemma VariableInArrayScope(s: string, c0: Cursor, c3: Cursor)
    requires s == "allow/a|@b"
    requires c0 == Cursor(6, Some(Allow("allow")), Some(BlockSep("/")))
    requires c3 == Cursor(10, Some(Var("b")), None)
    ensures Valid(s, c0) && Valid(s, c3)
    ensures ParseScope(s, c0) == Ok((Scope(true, [Array([Literal("a"), Literal("b")])]), c3))
  {
    LexOne(s, 6, Id("a"));
    LexOne(s, 7, ArraySep("|"));
    LexOne(s, 8, Var("b"));
    var c1 := Cursor(7, Some(BlockSep("/")), Some(Id("a")));
    assert Step(s, c0) == Ok(c1);
    var c2 := Cursor(8, Some(Id("a")), Some(ArraySep("|")));
    assert Step(s, c1) == Ok(c2);
    assert Skip(s, c2) == Ok(c3);
    assert ArrayLoop(s, c3) == Ok(([Literal("b")], c3));
    assert [Literal("a")] + [Literal("b")] == [Literal("a"), Literal("b")];
    assert ArrayLoop(s, c2) == Ok(([Literal("a"), Literal("b")], c3));
    assert BlocksLoop(s, c1) == Ok(([Array([Literal("a"), Literal("b")])], c3));
  }

  /** Whatever separates two scopes is skipped unread. */
  lemma AnySeparator(s: string)
    requires s == "allow/a**deny/b"
    ensures Compile(s) ==
            Ok(Scopes([Scope(true, [Literal("a")]), Scope(false, [Literal("b")])]))
  {
    AllowPrefix(s);
    var c0 := Cursor(6, Some(Allow("allow")), Some(BlockSep("/")));
    var c2 := Cursor(9, Some(Id("a")), Some(SuperWild("**")));
    var c3 := Cursor(14, Some(Deny("deny")), Some(BlockSep("/")));
    var c5 := Cursor(15, None, None);
    var sc1 := Scope(true, [Literal("a")]);
    var sc2 := Scope(false, [Literal("b")]);
    AnySeparatorFirst(s, c0, c2, c3);
    AnySeparatorSecond(s, c3, c5);
    assert [sc1] + [sc2] == [sc1, sc2];
    assert ScopesLoop(s, c0) == Ok(([sc1, sc2], c5));
  }

  lemma AnySeparatorFirst(s: string, c0: Cursor, c2: Cursor, c3: Cursor)
    requires s == "allow/a**deny/b"
    requires c0 == Cursor(6, Some(Allow("allow")), Some(BlockSep("/")))
    requires c2 == Cursor(9, Some(Id("a")), Some(SuperWild("**")))
    requires c3 == Cursor(14, Some(Deny("deny")), Some(BlockSep("/")))
    ensures Valid(s, c0) && Valid(s, c2)
    ensures ParseScope(s, c0) == Ok((Scope(true, [Literal("a")]), c2))
    ensures Skip(s, c2) == Ok(c3)
  {
    LexOne(s, 6, Id("a"));
    LexOne(s, 7, SuperWild("**"));
    AnySeparatorSkip(s, c2, c3);
  }

  /** The `**` is stepped over as if it were a `,`. */
  lemma AnySeparatorSkip(s: string, c2: Cursor, c3: Cursor)
    requires s == "allow/a**deny/b"
    requires c2 == Cursor(9, Some(Id("a")), Some(SuperWild("**")))
    requires c3 == Cursor(14, Some(Deny("deny")), Some(BlockSep("/")))
    ensures Skip(s, c2) == Ok(c3)
  {
    LexOne(s, 9, Deny("deny"));
  }

  lemma AnySeparatorSecond(s: string, c3: Cursor, c5: Cursor)
    requires s == "allow/a**deny/b"
    requires c3 == Cursor(14, Some(Deny("deny")), Some(BlockSep("/")))
    requires c5 == Cursor(15, None, None)
    ensures Valid(s, c3)
    ensures ScopesLoop(s, c3) == Ok(([Scope(false, [Literal("b")])], c5))
  {
    LexOne(s, 13, BlockSep("/"));
    LexOne(s, 14, Id("b"));
    var c4 := Cursor(15, Some(Id("b")), None);
    var sc2 := Scope(false, [Literal("b")]);
    assert ParseScope(s, c3) == Ok((sc2, c4));
    assert Skip(s, c4) == Ok(c5);
    assert ScopesLoop(s, c5) == Ok(([], c5));
    assert [sc2] + [] == [sc2];
  }

  /** `@allow` is a variable token, never the keyword. */
  lemma VariableNamedAllow(s: string)
    requires s == "@allow"
    ensures Tokenize(s) == Ok([Var("allow")])
    ensures Compile(s) == Err(NotImplemented(Some(Var("allow"))))
  {
    LexOne(s, 0, Var("allow"));
    TokensFromSome(s, 0, Var("allow"), 6);
    assert NextToken(s, 6) == Ok((None, 6));
    assert TokensFrom(s, 6) == Ok([]);
    assert [Var("allow")] + [] == [Var("allow")];
    assert Start(s) == Ok(Cursor(6, Some(Var("allow")), None));
  }
}
