/** The tree a rule string compiles to. */
module Ast {

  /** One `/`-separated segment of a scope. An `Array` holds the alternatives
      written with `|`; the parser only ever puts `Literal`s in it. */
  datatype Block =
    | Literal(inner: string)
    | Variable(name: string)
    | WildBlock
    | SuperWildBlock
    | Array(items: seq<Block>)

  /** An allow or deny rule over a path of blocks. */
  datatype Scope = Scope(allow: bool, scope: seq<Block>)

  /** The compiled rule set, scopes in the order they were written. */
  datatype Scopes = Scopes(scopes: seq<Scope>)
}
