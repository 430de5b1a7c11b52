/**
  The values a property can carry and the expressions the grammar hands to the
  scope resolver.
 */
module Expressions {

  /** The union `number | string | boolean` that a property value may take. */
  datatype Value = Num(n: real) | Str(s: string) | Bool(b: bool)

  /**
    A header keeps its whole lexeme, angle brackets included (the resolver
    compares it with `<global>`, `<group>` and `<region>`); a property carries
    its name without the trailing `=` and its value.
   */
  datatype Expr = HeaderExpr(lexeme: string) | PropertyExpr(key: string, value: Value)

  /** The lexemes of the header expressions, in order. */
  function HeaderLexemes(es: seq<Expr>): seq<string>
  {
    if |es| == 0 then []
    else if es[0].HeaderExpr? then [es[0].lexeme] + HeaderLexemes(es[1..])
    else HeaderLexemes(es[1..])
  }
}
