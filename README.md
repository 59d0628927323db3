# scopie rule-string compiler, modelled in Dafny

This project models the compiler of the scopie permission library. The
compiler turns an actor string such as `allow/users/@id,deny/admin|root/**`
into a rule set, `Scopes`: an ordered list of `Scope(allow, blocks)`. Each
block is one of:
- a `Literal`;
- a `Variable` (`@name`);
- a `WildBlock` (`*`);
- a `SuperWildBlock` (`**`);
- an `Array` of literal alternatives (`a|b|c`).

The compiler has two layers.

- **Lexer** (`lexer.dfy`, module `Lexer`). It scans the string left to right
  with an integer cursor. `NextToken(s, pos)` is one resumption of the lazy
  token generator. It returns the next token, or `None` once the input is
  used up, together with the new cursor; or it returns the error that this
  pull raises.
  - `LexId` (a method with the scanning loop), `LexSym` and `CreateId` model
    the three helpers.
  - `Lex` is the loop that drains the generator. `TokensFrom` and `Tokenize`
    specify what that loop returns.
- **Parser**.
  - `parser.dfy`, module `Compiler`, holds the class `Parser`. Its fields are
    the actor, the generator's cursor `pos`, the two lookahead tokens `cur`
    and `seek`, and the `ast` field. Its methods `Step`, `Skip`, `ParseBlock`,
    `ParseArray`, `ParseScope` and `Parse` update `pos`, `cur` and `seek` in
    place, with the source's `while` loops. Their frames name only those
    three fields, so `actor` and `ast` never change after construction.
  - `grammar.dfy`, module `Grammar`, is the specification. It holds one pure
    function per parser operation over a cursor value `Cursor(pos, cur,
    seek)`, and one recursive function per loop.
  - Every method is proved to end with `pos`, `cur` and `seek` exactly as its
    `Grammar` function computes them from the starting state, and with exactly
    that function's result or error.

A lexer error is raised only when the parser pulls the token that contains
it. An input can therefore fail in the parser before the lexer ever sees a
later bad character. The model keeps this order.

The round trip is the main theorem. `render.dfy` writes a rule set back as a
string with the canonical separators (`Serialize`). It proves that the lexer
reads that string back as exactly the tokens it was written from
(`SerializedTokens`). `roundtrip.dfy` then follows the parser functions along
those tokens. It proves that compiling the serialization of any renderable
rule set gives back that rule set (`CompileSerialize`).

`scenarios.dfy` works concrete strings through `Compile`. They include the
inputs where the code does something other than the rule grammar suggests.
In each such case the model follows the code:

- `allowx` is a plain identifier at the scope-start position. It fails with
  the "not implemented" error carrying `Id("allowx")`, not with a
  malformed-scope error.
- `maybe/%` fails in the parser, on the identifier `maybe`. The lexer never
  reaches the `%`.
- `allow/*` fails with an out-of-range index. To tell `*` from `**`, the
  lexer reads the character after a final `*` (`compile.py:173`). The same
  happens for `allow/a|*`, where an array-literal error might be expected.
- `allow/a|` compiles to an array of one literal; it is not rejected.
- `allow/a|@b` accepts the variable as a literal, because `Var` is an `Id`
  subclass.
- `allow/a**deny/b` compiles to two scopes. The token after a scope is
  skipped without checking that it is `,`.
- `@allow` is a variable token, never the `allow` keyword.

Errors are the `Error` datatype. Its cases are the three error classes of
`tokens.py`, plus the three built-in exceptions the compiler raises: an
index out of range, the failed `assert` in `parse_scope`, and the
"not implemented" error carrying the offending token (or `None`).

## Model

| member | source | states |
|---|---|---|
| `Tokens.TokenEquality` | tokens.py:5-9 | two tokens are equal exactly when their class names and their texts are equal |
| `Tokens.Token.IsId` | tokens.py:14-42 | a token passes the `Id` class test (`Id`, `Allow`, `Deny`, `Var`) exactly when it fails the `Sym` test |
| `Lexer.CreateId` | compile.py:55-62 | keeps the text; the result is `Allow` exactly for "allow", `Deny` exactly for "deny", and `Id` otherwise; it is never a `Var` |
| `Lexer.IdEnd` | compile.py:155-162 | the end of the maximal run of identifier characters from `p`: every character before it continues an identifier, and the one at it (if any) does not |
| `Lexer.LexId` | compile.py:155-162 | the scanning loop stops at the end of the maximal identifier run and returns `create_id` of the text it scanned |
| `Lexer.LexSym` | compile.py:164-178 | a block, scope or array separator advances one; `**` advances two; `*` before a non-`*` advances one; a final `*` is an out-of-range read; any other character is an invalid symbol; the token spells exactly the text consumed |
| `Lexer.NextToken` | compile.py:134-153 | a pull yields `None` exactly when the input is used up, and then leaves the cursor where it is; every token it yields moves the cursor strictly forward, within the input |
| `Lexer.NextTokenScans` | compile.py:136-147 | a yielded token is spelled by exactly the text it consumed, is one the lexer can produce, and is maximal: an identifier stops only before a non-identifier character |
| `Lexer.NextTokenFails` | compile.py:144-151 | a pull fails with invalid syntax exactly on a character outside identifiers, the four symbol characters and `@`; with an invalid identifier at `pos + 1` exactly on an `@` not followed by an identifier start; with an out-of-range read exactly on a final `*`; and with no other error |
| `Lexer.EndOfInputRepeats` | compile.py:152-153 | once a pull has yielded `None`, the next pull yields `None` again at the same position |
| `Lexer.VariableNeverPolarity` | compile.py:144-147 | `@` followed by an identifier yields `Var` of exactly the identifier's text, even when that text is "allow" or "deny" |
| `Lexer.Next` | compile.py:136-151 | the body of the generator loop, with identifiers scanned by `LexId`, yields exactly the pull `NextToken` describes |
| `Lexer.TokensFrom` | compile.py:134-153 | draining the generator yields no more tokens than characters remain, and each is a token the lexer can produce |
| `Lexer.Lex` | compile.py:134-153 | the draining loop returns the tokens before the first `None`, in order, or the first error |
| `Lexer.TokensSpellInput` | compile.py:134-162 | lexing loses and adds nothing: the texts of the tokens yielded from `pos` concatenate to the input from `pos` |
| `Grammar.Step` | compile.py:126-127 | `seek` moves into `cur`, the cursor stays valid, and the termination measure never grows (it shrinks while `cur` holds a token); a lexer error is the only failure; once `seek` is `None` both tokens stay `None` |
| `Grammar.Skip` | compile.py:129-131 | two steps whatever the token stepped over; fails only with a lexer error |
| `Grammar.Start` | compile.py:65-69 | the parser starts with the first two pulled tokens, `cur` is `None` exactly for the empty string, and only a lexer error can stop it |
| `Grammar.ArrayLoop` | compile.py:114-124 | every appended element is a literal; a non-identifier followed by an array separator raises invalid symbol; when `seek` is not an array separator the loop appends only the final identifier (if any) and moves nothing |
| `Grammar.ParseArray` | compile.py:114-124 | the result is an array whose first element is the literal of `cur`, and the token after it is not an array separator |
| `Grammar.ParseBlock` | compile.py:97-112 | steps once and classifies the token stepped onto: `Var` gives a variable, any other identifier-class token a literal (or an array when an array separator follows), `*` and `**` the wildcards; a separator or the end raises "not implemented" with that token |
| `Grammar.BlocksLoop` | compile.py:86-93 | at least one well-shaped block, the first being what `parse_block` returns; the loop ends only when `seek` is not `/`; its errors are those of `parse_block` and the lexer |
| `Grammar.ParseScope` | compile.py:83-95 | the polarity is "allow" exactly when `cur` is `Allow`; the assertion fails exactly when `seek` is not `/`; the block list is non-empty and well shaped |
| `Grammar.ScopesLoop` | compile.py:71-81 | the empty remainder yields no scopes; a `cur` other than `Allow`/`Deny` raises "not implemented" with it; otherwise the first scope is what `parse_scope` returns; every parsed scope is well shaped |
| `Grammar.Parse` | compile.py:71-81 | a successful parse consumes the whole token stream and every scope is well shaped; with nothing left it returns no scopes |
| `Grammar.Compile` | compile.py:64-81 | the empty string compiles to no scopes, and any compiled rule set is well shaped |
| `Compiler.Parser.constructor` | compile.py:65-69 | stores the actor, puts the generator at the start of it with both lookahead tokens empty, and sets `ast` to no scopes |
| `Compiler.Parser.Pull` | compile.py:127 | one `next` on the generator: moves `pos` as `NextToken` does and returns its token or its error |
| `Compiler.Parser.Start` | compile.py:67-68 | the two initial pulls leave the object in exactly the state `Grammar.Start` computes, or return its error; `actor` and `ast` are left unchanged |
| `Compiler.Parser.Step` | compile.py:126-127 | updates `cur`, `seek` and `pos` exactly as `Grammar.Step` and changes no other field |
| `Compiler.Parser.Skip` | compile.py:129-131 | updates `cur`, `seek` and `pos` exactly as `Grammar.Skip` and changes no other field |
| `Compiler.Parser.ParseArray` | compile.py:114-124 | the loop builds exactly the array `Grammar.ParseArray` computes and leaves the object in its cursor, or returns its error; `actor` and `ast` are left unchanged |
| `Compiler.Parser.ParseBlock` | compile.py:97-112 | returns exactly the block or error of `Grammar.ParseBlock` and ends in its cursor; `actor` and `ast` are left unchanged |
| `Compiler.Parser.ParseScope` | compile.py:83-95 | the block loop builds exactly the scope `Grammar.ParseScope` computes and ends in its cursor, or returns its error; `actor` and `ast` are left unchanged |
| `Compiler.Parser.Parse` | compile.py:71-81 | the scope loop builds exactly the rule set `Grammar.Parse` computes and ends in its cursor, or returns its error; `actor` and `ast` are left unchanged |
| `Compiler.Compile` | compile.py:64-81 | building a parser on the actor and parsing gives exactly `Grammar.Compile` of the actor |
| `Render.LexOne` | compile.py:134-176 | a token spelled at `p` and followed by a character that cannot continue it is pulled as itself, with the cursor just after its text |
| `Render.LexSpelled` | compile.py:134-153 | text that spells a token sequence whose tokens all fit against their successors is lexed as exactly that sequence |
| `Render.SerializedTokens` | compile.py:134-178 | the lexer reads the serialization of a renderable rule set back as exactly the tokens it was written from |
| `RoundTrip.CompileSerialize` | compile.py:71-124 | compiling the serialization of a renderable rule set gives back that rule set |
| `Scenarios.TwoLiterals` | compile.py:83-95 | `allow/a/b` compiles to one allow scope of the literals `a` and `b` |
| `Scenarios.TwoScopes` | compile.py:71-81 | `deny/a,allow/b` compiles to a deny scope and an allow scope, in that order |
| `Scenarios.Alternatives` | compile.py:114-124 | the three alternatives `x`, `y`, `z` after `allow/` compile to one array of the three literals |
| `Scenarios.Wildcards` | compile.py:172-176 | `allow/*/**` compiles to a wildcard followed by a super-wildcard |
| `Scenarios.VariableBlock` | compile.py:100-101 | `allow/@role` compiles to the variable `role` |
| `Scenarios.KeywordPrefix` | compile.py:73-79 | `allowx` is an identifier at scope start and raises "not implemented" with `Id("allowx")` |
| `Scenarios.ParserErrorFirst` | compile.py:73-79 | `maybe/%` raises "not implemented" on `maybe` before the lexer reaches `%` |
| `Scenarios.UnknownCharacter` | compile.py:150-151 | `allow/%` fails with invalid syntax |
| `Scenarios.TrailingWildcard` | compile.py:172-176 | `allow/*` fails with an out-of-range read |
| `Scenarios.EmptyVariable` | compile.py:144-149 | `allow/@` fails with an invalid identifier at position 7 |
| `Scenarios.TrailingBar` | compile.py:114-124 | `allow/a` followed by a trailing array separator compiles to an array of the single literal `a` |
| `Scenarios.VariableInArray` | compile.py:116-118 | `allow/a` followed by an array separator and `@b` accepts the variable as the literal `b` |
| `Scenarios.AnySeparator` | compile.py:129-131 | `allow/a**deny/b` compiles to two scopes: the token between scopes is skipped unchecked |
| `Scenarios.VariableNamedAllow` | compile.py:144-147 | `@allow` lexes to `Var("allow")` and compiling it raises "not implemented" with that token |

## Left out

- The `__repr__` and `__str__` methods of the tree and token classes are
  presentation only. Token equality, which the source computes by comparing
  those strings, is datatype equality here; `TokenEquality` states that the
  two agree.
- Python's Unicode `str.isidentifier` and `str.isalnum` are replaced by ASCII
  predicates. An identifier starts with a letter or `_` and continues with
  letters, digits, `-` and `_`.
- The generator is modelled by its cursor. Its endless run of `None` after
  the input is the end-of-input case of `NextToken`. Exceptions are values
  of `Error`, and their message text is not kept. `InvalidIdentifier` keeps
  the position it reports.
- `Parser.__init__` is split into the constructor and `Start`, which makes
  the two initial pulls. A Dafny constructor cannot fail, and these pulls
  can.
- The `ast` field is set by the constructor and never read by the parser.
- Running Python with `-O` removes the `assert` in `parse_scope`. The model
  always keeps that check.
- `__main__.py` (fixture loading from a file and console output) is not part
  of this model.
- `RoundTrip.CompileSerialize` covers only renderable rule sets. These have
  identifier text in literals and variable names, at least two literals per
  array, at least one block per scope, and no `*` as the very last block. A
  one-literal array reads back as a plain literal. A final `*` makes the
  lexer read past the end of the string.
