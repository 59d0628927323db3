/** The lexer: scans an actor string left to right with an integer cursor.
    `NextToken` is one resumption of the token generator: the token (or the
    end-of-input marker `None`) that the next pull yields, with the cursor
    after it, or the error that pull raises. */
module Lexer {
  import opened Tokens

  /** An identifier may start with an ASCII letter or `_`. */
  predicate IsIdentStart(c: char) {
    ('a' <= c <= 'z') || ('A' <= c <= 'Z') || c == '_'
  }

  /** An identifier continues with letters, digits, `-` and `_`. */
  predicate IsIdentChar(c: char) {
    IsIdentStart(c) || ('0' <= c <= '9') || c == '-'
  }

  predicate IsIdentifier(w: string) {
    |w| > 0 && IsIdentStart(w[0]) && forall i :: 0 <= i < |w| ==> IsIdentChar(w[i])
  }

  /** Classifies a scanned word: the polarity keywords become `Allow` and
      `Deny`, every other word a plain `Id`; the text is kept as it is. */
  function CreateId(val: string): (t: Token)
    ensures t.val == val && t.IsId() && !t.Var?
    ensures t.Allow? <==> val == "allow"
    ensures t.Deny? <==> val == "deny"
    ensures t.Id? <==> val != "allow" && val != "deny"
  {
    match val
    case "allow" => Allow(val)
    case "deny" => Deny(val)
    case _ => Id(val)
  }

  /** The end of the longest run of identifier characters starting at `p`. */
  function IdEnd(s: string, p: nat): (e: nat)
    requires p <= |s|
    ensures p <= e <= |s|
    ensures forall i :: p <= i < e ==> IsIdentChar(s[i])
    ensures e == |s| || !IsIdentChar(s[e])
    decreases |s| - p
  {
    if p < |s| && IsIdentChar(s[p]) then IdEnd(s, p + 1) else p
  }

  /** Scans an identifier from `pos`: the cursor moves while it is on an
      identifier character, and the word scanned is classified. */
  method LexId(actor: string, pos: nat) returns (tok: Token, end: nat)
    requires pos <= |actor|
    ensures end == IdEnd(actor, pos)
    ensures tok == CreateId(actor[pos..end])
  {
    var start := pos;
    end := pos;
    while end < |actor|
      invariant start <= end <= |actor|
      invariant IdEnd(actor, end) == IdEnd(actor, start)
    {
      if IsIdentChar(actor[end]) {
        end := end + 1;
      } else {
        break;
      }
    }
    tok := CreateId(actor[start..end]);
  }

  /** The tokens the lexer can produce: a symbol carries its own spelling, an
      identifier class agrees with its text, a variable names an identifier. */
  predicate WellSpelled(t: Token) {
    match t
    case Id(v) => IsIdentifier(v) && v != "allow" && v != "deny"
    case Allow(v) => v == "allow"
    case Deny(v) => v == "deny"
    case Var(v) => IsIdentifier(v)
    case BlockSep(v) => v == "/"
    case ScopeSep(v) => v == ","
    case ArraySep(v) => v == "|"
    case Wild(v) => v == "*"
    case SuperWild(v) => v == "**"
  }

  /** Every identifier-class token the lexer produces carries identifier text. */
  lemma IdTokenText(t: Token)
    requires WellSpelled(t) && t.IsId()
    ensures IsIdentifier(t.val)
  {
    if t.Allow? {
      assert forall i :: 0 <= i < |t.val| ==> t.val[i] in "allow";
    } else if t.Deny? {
      assert forall i :: 0 <= i < |t.val| ==> t.val[i] in "deny";
    }
  }

  /** The input text a token was scanned from. */
  function Lexeme(t: Token): string {
    if t.Var? then "@" + t.val else t.val
  }

  /** Scans a symbol at `pos`. A `*` looks at the next character to tell
      `*` from `**`, and so reads past the end when it is the last one. */
  function LexSym(s: string, pos: nat): (r: Result<(Token, nat)>)
    ensures r.Ok? <==> pos < |s| && s[pos] in "/,|*" && (s[pos] == '*' ==> pos + 1 < |s|)
    ensures r.Err? ==> r.error == if pos < |s| && s[pos] !in "/,|*" then InvalidSymbol else IndexOutOfRange
    ensures r.Ok? ==> r.value.0.IsSym() && WellSpelled(r.value.0)
    ensures r.Ok? ==> pos < r.value.1 <= |s| && s[pos..r.value.1] == r.value.0.val
    ensures r.Ok? && r.value.0.Wild? ==> s[r.value.1] != '*'
  {
    if pos >= |s| then Err(IndexOutOfRange)
    else
      match s[pos]
      case '/' => Ok((BlockSep("/"), pos + 1))
      case ',' => Ok((ScopeSep(","), pos + 1))
      case '|' => Ok((ArraySep("|"), pos + 1))
      case '*' =>
        if pos + 1 >= |s| then Err(IndexOutOfRange)
        else if s[pos + 1] == '*' then Ok((SuperWild("**"), pos + 2))
        else Ok((Wild("*"), pos + 1))
      case _ => Err(InvalidSymbol)
  }

  /** One pull from the token generator started on `s`, its cursor at `pos`:
      `None` exactly when the input is used up, otherwise a token that moves
      the cursor forward (its text and error cases are stated by the lemmas
      `NextTokenScans` and `NextTokenFails`). */
  function NextToken(s: string, pos: nat): (r: Result<(Option<Token>, nat)>)
    ensures r.Ok? ==> (r.value.0.None? <==> pos >= |s|)
    ensures r.Ok? && r.value.0.None? ==> r.value.1 == pos
    ensures r.Ok? && r.value.0.Some? ==> pos < r.value.1 <= |s|
    ensures pos >= |s| ==> r.Ok?
  {
    if pos >= |s| then Ok((None, pos))
    else if IsIdentStart(s[pos]) then
      var end := IdEnd(s, pos);
      Ok((Some(CreateId(s[pos..end])), end))
    else if s[pos] in "/,|*" then
      var (t, end) :- LexSym(s, pos);
      Ok((Some(t), end))
    else if s[pos] == '@' then
      if pos + 1 < |s| && IsIdentStart(s[pos + 1]) then
        var end := IdEnd(s, pos + 1);
        Ok((Some(Var(CreateId(s[pos + 1..end]).val)), end))
      else
        Err(InvalidIdentifier(pos + 1))
    else
      Err(InvalidSyntax)
  }

  /** A token is scanned from exactly the text it spells, is one the lexer
      can produce, and is maximal: an identifier stops only before a
      non-identifier character, and `*` is `Wild` only before a non-`*`. */
  lemma NextTokenScans(s: string, pos: nat)
    requires NextToken(s, pos).Ok? && NextToken(s, pos).value.0.Some?
    ensures var (t, end) := (NextToken(s, pos).value.0.value, NextToken(s, pos).value.1);
      && WellSpelled(t)
      && s[pos..end] == Lexeme(t)
      && (t.IsId() ==> end == |s| || !IsIdentChar(s[end]))
      && (t.Wild? ==> end < |s| && s[end] != '*')
  {
    if IsIdentStart(s[pos]) {
      WordIsIdentifier(s, pos);
    } else if s[pos] == '@' {
      WordIsIdentifier(s, pos + 1);
      var end := IdEnd(s, pos + 1);
      assert s[pos..end] == "@" + s[pos + 1..end];
    }
  }

  /** The run scanned from an identifier start is an identifier. */
  lemma WordIsIdentifier(s: string, p: nat)
    requires p < |s| && IsIdentStart(s[p])
    ensures IsIdentifier(s[p..IdEnd(s, p)])
  {
    var w := s[p..IdEnd(s, p)];
    assert forall i :: 0 <= i < |w| ==> w[i] == s[p + i];
  }

  /** The three ways a pull can fail, each exactly when it happens. */
  lemma NextTokenFails(s: string, pos: nat)
    ensures NextToken(s, pos) == Err(InvalidSyntax) <==>
      pos < |s| && !IsIdentStart(s[pos]) && s[pos] !in "/,|*@"
    ensures NextToken(s, pos) == Err(InvalidIdentifier(pos + 1)) <==>
      pos < |s| && s[pos] == '@' && !(pos + 1 < |s| && IsIdentStart(s[pos + 1]))
    ensures NextToken(s, pos) == Err(IndexOutOfRange) <==> pos + 1 == |s| && s[pos] == '*'
    ensures NextToken(s, pos).Err? ==>
      NextToken(s, pos).error in {InvalidSyntax, InvalidIdentifier(pos + 1), IndexOutOfRange}
  {
  }

  /** The body of the generator's loop: the same pull as `NextToken`, with
      identifiers scanned by the `LexId` loop. */
  method Next(actor: string, pos: nat) returns (r: Result<(Option<Token>, nat)>)
    ensures r == NextToken(actor, pos)
  {
    if pos >= |actor| {
      return Ok((None, pos));
    }
    var cur := actor[pos];
    if IsIdentStart(cur) {
      var tok, end := LexId(actor, pos);
      r := Ok((Some(tok), end));
    } else if cur in "/,|*" {
      var sym := LexSym(actor, pos);
      match sym
      case Err(e) => r := Err(e);
      case Ok((tok, end)) => r := Ok((Some(tok), end));
    } else if cur == '@' {
      if pos + 1 < |actor| && IsIdentStart(actor[pos + 1]) {
        var tok, end := LexId(actor, pos + 1);
        r := Ok((Some(Var(tok.val)), end));
      } else {
        r := Err(InvalidIdentifier(pos + 1));
      }
    } else {
      r := Err(InvalidSyntax);
    }
  }

  /** Every token the generator yields from `pos` before its first `None`,
      or the first error. */
  function TokensFrom(s: string, pos: nat): (r: Result<seq<Token>>)
    requires pos <= |s|
    ensures r.Ok? ==> |r.value| <= |s| - pos
    ensures r.Ok? ==> forall i :: 0 <= i < |r.value| ==> WellSpelled(r.value[i])
    decreases |s| - pos
  {
    var (t, end) :- NextToken(s, pos);
    match t
    case None => Ok([])
    case Some(tok) =>
      var rest :- TokensFrom(s, end);
      Ok([tok] + rest)
  }

  function Tokenize(s: string): Result<seq<Token>> {
    TokensFrom(s, 0)
  }

  /** `ts` followed by the tokens of `r`, or the error of `r`. */
  function Prepend(ts: seq<Token>, r: Result<seq<Token>>): Result<seq<Token>> {
    match r
    case Ok(rest) => Ok(ts + rest)
    case Err(e) => Err(e)
  }

  lemma TokensFromSome(s: string, pos: nat, t: Token, end: nat)
    requires pos <= |s| && NextToken(s, pos) == Ok((Some(t), end))
    ensures end <= |s| && TokensFrom(s, pos) == Prepend([t], TokensFrom(s, end))
  {
  }

  /** Pulls from the generator until it yields `None` or raises. */
  method Lex(actor: string) returns (r: Result<seq<Token>>)
    ensures r == Tokenize(actor)
  {
    var pos := 0;
    var out: seq<Token> := [];
    match TokensFrom(actor, 0) {
      case Ok(ts) => assert out + ts == ts;
      case Err(_) =>
    }
    while true
      invariant pos <= |actor|
      invariant Tokenize(actor) == Prepend(out, TokensFrom(actor, pos))
      decreases |actor| - pos
    {
      var n := Next(actor, pos);
      match n
      case Err(e) =>
        return Err(e);
      case Ok((None, _)) =>
        assert TokensFrom(actor, pos) == Ok([]) && out + [] == out;
        return Ok(out);
      case Ok((Some(t), end)) =>
        TokensFromSome(actor, pos, t, end);
        match TokensFrom(actor, end) {
          case Ok(rest) => assert out + ([t] + rest) == (out + [t]) + rest;
          case Err(_) =>
        }
        out, pos := out + [t], end;
    }
  }

  /** The concatenated text of a token sequence. */
  function Spell(ts: seq<Token>): string {
    if ts == [] then "" else Lexeme(ts[0]) + Spell(ts[1..])
  }

  /** Lexing loses and adds nothing: the tokens spell out the whole input. */
  lemma {:induction false} TokensSpellInput(s: string, pos: nat)
    requires pos <= |s| && TokensFrom(s, pos).Ok?
    ensures Spell(TokensFrom(s, pos).value) == s[pos..]
    decreases |s| - pos
  {
    var (t, end) := NextToken(s, pos).value;
    if t.Some? {
      var tok := t.value;
      TokensFromSome(s, pos, tok, end);
      NextTokenScans(s, pos);
      TokensSpellInput(s, end);
      var rest := TokensFrom(s, end).value;
      SpellCons(tok, rest);
      JoinSuffix(s, pos, end);
    }
  }

  lemma SpellCons(t: Token, ts: seq<Token>)
    ensures Spell([t] + ts) == Lexeme(t) + Spell(ts)
  {
    assert ([t] + ts)[1..] == ts;
  }

  lemma JoinSuffix(s: string, p: nat, e: nat)
    requires p <= e <= |s|
    ensures s[p..] == s[p..e] + s[e..]
  {
  }

  /** Once the input is used up, every further pull yields `None` again. */
  lemma EndOfInputRepeats(s: string, pos: nat)
    requires pos <= |s| && NextToken(s, pos).Ok? && NextToken(s, pos).value.0.None?
    ensures NextToken(s, NextToken(s, pos).value.1) == Ok((None, pos))
  {
  }

  /** A variable token keeps its text, even when it spells a keyword. */
  lemma VariableNeverPolarity(s: string, pos: nat)
    requires pos < |s| && s[pos] == '@' && NextToken(s, pos).Ok?
    ensures NextToken(s, pos).value.0.Some?
    ensures NextToken(s, pos).value.0.value == Var(s[pos + 1..NextToken(s, pos).value.1])
  {
  }
}
