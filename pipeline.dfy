/**
  The grammar and the resolver as they are wired together. The HEADER
  reduction calls `setHeader` with the lexeme; the call to `setProp` in the
  property reduction is commented out. The resolver's functions and its
  `let` variables sit in the grammar's action code, which the generated
  parser runs afresh on every reduction: each HEADER reduction therefore
  meets empty scopes and an empty `regions`, and what it leaves is dropped
  when the reduction returns.
 */
module Pipeline {
  import opened Wrappers
  import opened Expressions
  import opened Grammar
  import Scopes

  /**
    The resolver state each reduction with a live action leaves, in order:
    one per header expression, each started from empty scopes.
   */
  function Reductions(es: seq<Expr>): seq<Scopes.State>
  {
    if |es| == 0 then []
    else if es[0].HeaderExpr? then [Scopes.Step(Scopes.Initial, es[0])] + Reductions(es[1..])
    else Reductions(es[1..])
  }

  /** The states the header reductions leave once the parser has accepted `ts`, or the parse error. */
  function AsWired(ts: seq<Token>): Result<seq<Scopes.State>, ParseError>
  {
    match Parse(ts)
    case Ok(es) => Ok(Reductions(es))
    case Err(e) => Err(e)
  }

  /** What one `setHeader` call on fresh scopes leaves: at most one record, and that one empty. */
  predicate FreshHeaderState(s: Scopes.State, h: string)
  {
    && s.global == map[] && s.group == map[] && s.region == map[]
    && s.regions == if Scopes.IsScopeHeader(h) then [map[]] else []
  }

  /** The `k`-th live reduction is the `k`-th header, acting on fresh scopes. */
  lemma {:induction false} ReductionsFollowHeaders(es: seq<Expr>)
    ensures |Reductions(es)| == |HeaderLexemes(es)|
    ensures forall k :: 0 <= k < |Reductions(es)| ==> FreshHeaderState(Reductions(es)[k], HeaderLexemes(es)[k])
    decreases |es|
  {
    if |es| > 0 {
      ReductionsFollowHeaders(es[1..]);
      if es[0].HeaderExpr? {
        Scopes.MergeOfRegionAlone(map[]);
        assert FreshHeaderState(Scopes.Step(Scopes.Initial, es[0]), es[0].lexeme);
      }
    }
  }

  /**
    As wired, an accepted input runs one live reduction per HEADER token, in
    input order. A `<global>`, `<group>` or `<region>` header leaves exactly
    one record, and it is empty; any other header leaves none. Every scope is
    empty after each reduction, since no property ever reaches the resolver.
   */
  lemma AsWiredFlushesEmptyRecords(ts: seq<Token>)
    requires WellFormed(ts)
    ensures AsWired(ts).Ok?
    ensures |AsWired(ts).value| == |HeaderTokens(ts)|
    ensures forall k :: 0 <= k < |AsWired(ts).value| ==> FreshHeaderState(AsWired(ts).value[k], HeaderTokens(ts)[k])
  {
    ParseAccepts(ts);
    ParseYields(ts);
    ReductionsFollowHeaders(Parse(ts).value);
  }
}
