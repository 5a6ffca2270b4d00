/**
 * FilterStatementInterface: the eight condition constants, the shape of a
 * statement, and the query it is pushed into.
 *
 * The ORM query is external. It is modelled by what the filter chain can
 * observe of it: the columns it exposes (what ORMUtils::queryContainsFieldName
 * consults) and the statements applied to it so far, in order.
 */
module FilterStatements {
  import opened Wrappers

  datatype Condition =
    | SortAsc
    | SortDesc
    | LessThan
    | GreaterThan
    | EqualTo
    | NotEqualTo
    | Contains
    | PaginateBy

  /** The integer value of each COND_ constant. */
  function Code(c: Condition): (k: int)
    ensures 1 <= k <= 8
  {
    match c
    case SortAsc => 1
    case SortDesc => 2
    case LessThan => 3
    case GreaterThan => 4
    case EqualTo => 5
    case NotEqualTo => 6
    case Contains => 7
    case PaginateBy => 8
  }

  /** The condition a stored integer stands for, if any. */
  function ConditionOf(k: int): (c: Option<Condition>)
    ensures c.Some? <==> 1 <= k <= 8
  {
    if k == 1 then Some(SortAsc)
    else if k == 2 then Some(SortDesc)
    else if k == 3 then Some(LessThan)
    else if k == 4 then Some(GreaterThan)
    else if k == 5 then Some(EqualTo)
    else if k == 6 then Some(NotEqualTo)
    else if k == 7 then Some(Contains)
    else if k == 8 then Some(PaginateBy)
    else None
  }

  /** Decoding a code gives back the condition, so no two conditions share a code. */
  lemma CodeRoundTrip(c: Condition)
    ensures ConditionOf(Code(c)) == Some(c)
  {
  }

  lemma CodeOfDecoded(k: int)
    requires 1 <= k <= 8
    ensures Code(ConditionOf(k).value) == k
  {
  }

  lemma CodesDistinct(c: Condition, d: Condition)
    ensures Code(c) == Code(d) ==> c == d
  {
    CodeRoundTrip(c);
    CodeRoundTrip(d);
  }

  predicate IsSort(c: Condition) {
    c == SortAsc || c == SortDesc
  }

  /** The sort conditions are codes 1 and 2; pagination is code 8. */
  lemma SortAndPaginationCodes(c: Condition)
    ensures IsSort(c) <==> Code(c) == 1 || Code(c) == 2
    ensures c == SortAsc <==> Code(c) == 1
    ensures c == PaginateBy <==> Code(c) == 8
  {
  }

  /** A statement: getFieldName, getCondition, getCriterion and getControl. */
  datatype Statement = Statement(fieldName: string, condition: Condition, criterion: string, control: Option<string>)

  /** What the filter chain can observe of an ORM query. */
  datatype Query = Query(columns: set<string>, applied: seq<Statement>)

  /** ORMUtils::queryContainsFieldName. */
  predicate ContainsField(q: Query, name: string) {
    name in q.columns
  }

  /** applyToQuery: the statement's ordering, predicate or pagination is added to the query. */
  function ApplyToQuery(s: Statement, q: Query): Query {
    q.(applied := q.applied + [s])
  }

  /** Applying statements one after the other, first to last. */
  function ApplyAll(stmts: seq<Statement>, q: Query): Query
    decreases |stmts|
  {
    if stmts == [] then q else ApplyToQuery(stmts[|stmts| - 1], ApplyAll(stmts[..|stmts| - 1], q))
  }

  /**
   * Applying statements yields a query on the same columns, with exactly
   * those statements added after the ones it already had, in order.
   */
  lemma {:induction false} ApplyAllExtends(stmts: seq<Statement>, q: Query)
    ensures ApplyAll(stmts, q) == Query(q.columns, q.applied + stmts)
    decreases |stmts|
  {
    if stmts != [] {
      ApplyAllExtends(stmts[..|stmts| - 1], q);
      assert q.applied + stmts[..|stmts| - 1] + [stmts[|stmts| - 1]] == q.applied + stmts;
    }
  }
}
