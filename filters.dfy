/**
 * Filter: a singly linked chain of filters ending in a DummyFilter sentinel.
 * queryFilter pushes statements into the query until a statement names a
 * column the query lacks, or the next filter already holds row statements;
 * from then on statements are deferred to rowStatements, which rowFilter
 * later replays over the rows.
 *
 * The first half of the module gives the routing rules as functions over
 * values; the class at the end runs them over linked filter objects and is
 * proved against them.
 */
module Filters {
  import opened FilterStatements

  /** The values PHP treats as false among strings. */
  predicate Falsy(name: string) {
    name == "" || name == "0"
  }

  /** The test that breaks query filtering for a node: a truthy field name the query lacks. */
  predicate Breaks(s: Statement, q: Query) {
    !Falsy(s.fieldName) && !ContainsField(q, s.fieldName)
  }

  /** The local state of one node's statement loop. */
  datatype Routing = Routing(query: Query, rowStatements: seq<Statement>, broken: bool)

  /** One pass of the loop body. */
  function RouteOne(st: Routing, s: Statement): Routing {
    var broken := st.broken || Breaks(s, st.query);
    if broken then Routing(st.query, st.rowStatements + [s], true)
    else Routing(ApplyToQuery(s, st.query), st.rowStatements, false)
  }

  /** The loop over a node's statements, first to last. */
  function Route(init: Routing, stmts: seq<Statement>): Routing
    decreases |stmts|
  {
    if stmts == [] then init else RouteOne(Route(init, stmts[..|stmts| - 1]), stmts[|stmts| - 1])
  }

  /**
   * Where a node's loop starts. When the next node holds row statements the
   * node's own statements are first copied into rowStatements and the node
   * starts broken; otherwise rowStatements keeps what earlier calls left.
   */
  function RouteStart(statements: seq<Statement>, rowStatements: seq<Statement>, nextHasRows: bool, q: Query): Routing {
    if nextHasRows then Routing(q, statements, true) else Routing(q, rowStatements, false)
  }

  /** What one non-sentinel node holds. */
  datatype NodeState = NodeState(statements: seq<Statement>, rowStatements: seq<Statement>)

  /** A node's queryFilter once its successor has run. */
  function NodeQueryFilter(n: NodeState, nextHasRows: bool, q: Query): Routing {
    Route(RouteStart(n.statements, n.rowStatements, nextHasRows, q), n.statements)
  }

  /**
   * queryFilter on a chain, given as its non-sentinel nodes from the head:
   * the rest of the chain runs first, then the head. Returns the query and
   * the new node states.
   */
  function ChainQueryFilter(chain: seq<NodeState>, q: Query): (r: (Query, seq<NodeState>))
    ensures |r.1| == |chain|
    ensures forall i :: 0 <= i < |chain| ==> r.1[i].statements == chain[i].statements
    decreases |chain|
  {
    if chain == [] then (q, [])
    else
      var (q1, rest) := ChainQueryFilter(chain[1..], q);
      var nextHasRows := rest != [] && rest[0].rowStatements != [];
      var routed := NodeQueryFilter(chain[0], nextHasRows, q1);
      (routed.query, [NodeState(chain[0].statements, routed.rowStatements)] + rest)
  }

  /** Replaying statements over rows, first to last. */
  function Replay<R>(stmts: seq<Statement>, rows: seq<R>, applyToRows: (Statement, seq<R>) -> seq<R>): seq<R>
    decreases |stmts|
  {
    if stmts == [] then rows
    else applyToRows(stmts[|stmts| - 1], Replay(stmts[..|stmts| - 1], rows, applyToRows))
  }

  /** rowFilter on a chain: the rest of the chain runs first, then the head's rowStatements. */
  function ChainRowFilter<R>(chain: seq<NodeState>, rows: seq<R>, applyToRows: (Statement, seq<R>) -> seq<R>): seq<R>
    decreases |chain|
  {
    if chain == [] then rows
    else Replay(chain[0].rowStatements, ChainRowFilter(chain[1..], rows, applyToRows), applyToRows)
  }

  /** The statements of the chain in the order queryFilter reaches them: tail node first. */
  function TailFirst(chain: seq<NodeState>): seq<Statement>
    decreases |chain|
  {
    if chain == [] then [] else TailFirst(chain[1..]) + chain[0].statements
  }

  /** Index of the first statement that breaks query filtering; |stmts| when none does. */
  function FirstBreak(q: Query, stmts: seq<Statement>): (k: nat)
    ensures k <= |stmts|
    ensures forall i :: 0 <= i < k ==> !Breaks(stmts[i], q)
    ensures k < |stmts| ==> Breaks(stmts[k], q)
    decreases |stmts|
  {
    if stmts == [] then 0
    else
      var k := FirstBreak(q, stmts[..|stmts| - 1]);
      if k < |stmts| - 1 then k
      else if Breaks(stmts[|stmts| - 1], q) then |stmts| - 1
      else |stmts|
  }

  /** Once broken, every later statement of the node is deferred and none reaches the query. */
  lemma {:induction false} RouteWhenBroken(init: Routing, stmts: seq<Statement>)
    requires init.broken
    ensures Route(init, stmts) == Routing(init.query, init.rowStatements + stmts, true)
    decreases |stmts|
  {
    if stmts != [] {
      var p := stmts[..|stmts| - 1];
      RouteWhenBroken(init, p);
      assert init.rowStatements + p + [stmts[|stmts| - 1]] == init.rowStatements + stmts;
    }
  }

  /**
   * The stickiness rule: starting unbroken, the statements before the first
   * breaking one are applied to the query in order, and that statement and all
   * after it are appended to rowStatements.
   */
  lemma RouteWhenUnbroken(init: Routing, stmts: seq<Statement>)
    requires !init.broken
    ensures var k := FirstBreak(init.query, stmts);
      Route(init, stmts) == Routing(ApplyAll(stmts[..k], init.query), init.rowStatements + stmts[k..], k < |stmts|)
  {
    RouteWhenUnbrokenAppends(init, stmts);
    ApplyAllExtends(stmts[..FirstBreak(init.query, stmts)], init.query);
  }

  /** RouteWhenUnbroken, with the query written as the statements appended to it. */
  lemma {:induction false} RouteWhenUnbrokenAppends(init: Routing, stmts: seq<Statement>)
    requires !init.broken
    ensures var k := FirstBreak(init.query, stmts);
      Route(init, stmts) == Routing(Query(init.query.columns, init.query.applied + stmts[..k]), init.rowStatements + stmts[k..], k < |stmts|)
    decreases |stmts|
  {
    if stmts == [] {
      assert init.query.applied + [] == init.query.applied;
      assert init.rowStatements + [] == init.rowStatements;
    } else {
      var p := stmts[..|stmts| - 1];
      RouteWhenUnbrokenAppends(init, p);
      assert RoutesByAppending(init, p);
      if FirstBreak(init.query, p) < |p| {
        AppendsAfterBreak(init, stmts);
      } else {
        AppendsBeforeBreak(init, stmts);
      }
      assert RoutesByAppending(init, stmts);
    }
  }

  /** The statement of RouteWhenUnbrokenAppends for one list of statements. */
  predicate RoutesByAppending(init: Routing, stmts: seq<Statement>) {
    var k := FirstBreak(init.query, stmts);
    Route(init, stmts) == Routing(Query(init.query.columns, init.query.applied + stmts[..k]), init.rowStatements + stmts[k..], k < |stmts|)
  }

  /** A statement after the first break is appended to the row statements. */
  lemma AppendsAfterBreak(init: Routing, stmts: seq<Statement>)
    requires !init.broken && stmts != []
    requires RoutesByAppending(init, stmts[..|stmts| - 1])
    requires FirstBreak(init.query, stmts[..|stmts| - 1]) < |stmts| - 1
    ensures RoutesByAppending(init, stmts)
  {
    var p := stmts[..|stmts| - 1];
    var last := stmts[|stmts| - 1];
    var k := FirstBreak(init.query, stmts);
    assert k == FirstBreak(init.query, p);
    assert p[k..] + [last] == stmts[k..];
    assert stmts[..k] == p[..k];
  }

  /** With no break so far, the last statement either breaks or is applied to the query. */
  lemma AppendsBeforeBreak(init: Routing, stmts: seq<Statement>)
    requires !init.broken && stmts != []
    requires RoutesByAppending(init, stmts[..|stmts| - 1])
    requires FirstBreak(init.query, stmts[..|stmts| - 1]) == |stmts| - 1
    ensures RoutesByAppending(init, stmts)
  {
    var q := init.query;
    var n := |stmts|;
    var p := stmts[..n - 1];
    var last := stmts[n - 1];
    var k := FirstBreak(q, stmts);
    assert p[..n - 1] == p;
    assert Route(init, p).query.columns == q.columns;
    if Breaks(last, q) {
      assert k == n - 1;
      assert stmts[k..] == [last];
      assert stmts[..k] == p;
    } else {
      assert k == n;
      assert stmts[..k] == stmts;
      assert q.applied + p + [last] == q.applied + stmts;
      assert init.rowStatements + stmts[k..] == init.rowStatements;
    }
  }

  /**
   * When the next node holds row statements, none of this node's statements
   * reaches the query and rowStatements becomes the statements twice over:
   * once from the assignment, once from the appends in the loop.
   */
  lemma NodeWhenNextDegraded(n: NodeState, q: Query)
    ensures NodeQueryFilter(n, true, q) == Routing(q, n.statements + n.statements, true)
  {
    RouteWhenBroken(Routing(q, n.statements, true), n.statements);
  }

  /**
   * When the next node holds no row statements, the statements before the
   * first breaking one reach the query and the rest are appended to what
   * rowStatements already held: nothing is cleared.
   */
  lemma NodeWhenNextClean(n: NodeState, q: Query)
    ensures var k := FirstBreak(q, n.statements);
      NodeQueryFilter(n, false, q) ==
        Routing(ApplyAll(n.statements[..k], q), n.rowStatements + n.statements[k..], k < |n.statements|)
  {
    RouteWhenUnbroken(Routing(q, n.rowStatements, false), n.statements);
  }

  /** queryFilter on a chain only adds statements to the query and never changes its columns. */
  lemma {:induction false} ChainQueryExtends(chain: seq<NodeState>, q: Query)
    ensures var r := ChainQueryFilter(chain, q).0;
      r.columns == q.columns && |q.applied| <= |r.applied| && r.applied[..|q.applied|] == q.applied
    decreases |chain|
  {
    if chain != [] {
      ChainQueryExtends(chain[1..], q);
      var (q1, rest) := ChainQueryFilter(chain[1..], q);
      var nextHasRows := rest != [] && rest[0].rowStatements != [];
      if nextHasRows {
        NodeWhenNextDegraded(chain[0], q1);
      } else {
        NodeWhenNextClean(chain[0], q1);
        var k := FirstBreak(q1, chain[0].statements);
        ApplyAllExtends(chain[0].statements[..k], q1);
        assert (q1.applied + chain[0].statements[..k])[..|q.applied|] == q1.applied[..|q.applied|];
      }
    }
  }

  /**
   * A node's row statements are never reset: after queryFilter they are either
   * its statements twice over (the next node had row statements) or what they
   * were before with more statements appended.
   */
  lemma {:induction false} RowStatementsAccumulate(chain: seq<NodeState>, q: Query, i: nat)
    requires i < |chain|
    ensures var after := ChainQueryFilter(chain, q).1[i].rowStatements;
      after == chain[i].statements + chain[i].statements ||
      (|chain[i].rowStatements| <= |after| && after[..|chain[i].rowStatements|] == chain[i].rowStatements)
    decreases |chain|
  {
    if i > 0 {
      RowStatementsAccumulate(chain[1..], q, i - 1);
    } else {
      var (q1, rest) := ChainQueryFilter(chain[1..], q);
      var nextHasRows := rest != [] && rest[0].rowStatements != [];
      if nextHasRows {
        NodeWhenNextDegraded(chain[0], q1);
      } else {
        NodeWhenNextClean(chain[0], q1);
      }
    }
  }

  /**
   * One step of degradation: when a node ends up holding row statements, its
   * predecessor's row statements become the predecessor's statements twice
   * over, none of which reached the query.
   */
  lemma {:induction false} DegradationPropagates(chain: seq<NodeState>, q: Query, i: nat)
    requires i + 1 < |chain|
    requires ChainQueryFilter(chain, q).1[i + 1].rowStatements != []
    ensures ChainQueryFilter(chain, q).1[i].rowStatements == chain[i].statements + chain[i].statements
    decreases |chain|
  {
    var (q1, rest) := ChainQueryFilter(chain[1..], q);
    if i > 0 {
      DegradationPropagates(chain[1..], q, i - 1);
    } else {
      NodeWhenNextDegraded(chain[0], q1);
    }
  }

  /**
   * Degradation is monotonic towards the head within a single call: when node
   * i + 1 ends up holding row statements and nodes j .. i all have statements,
   * each of those nodes holds its statements twice over. It stops only at a
   * node without statements.
   */
  lemma DegradationSpreads(chain: seq<NodeState>, q: Query, j: nat, i: nat)
    requires j <= i && i + 1 < |chain|
    requires ChainQueryFilter(chain, q).1[i + 1].rowStatements != []
    requires forall m :: j <= m <= i ==> chain[m].statements != []
    ensures forall m :: j <= m <= i ==> Doubled(ChainQueryFilter(chain, q).1, chain, m)
  {
    var after := ChainQueryFilter(chain, q).1;
    forall m: nat | m + 1 < |chain| && after[m + 1].rowStatements != []
      ensures Doubled(after, chain, m)
    {
      DegradationPropagates(chain, q, m);
    }
    DoublingSpreads(after, chain, j, i);
  }

  /**
   * The induction behind DegradationSpreads, over any result in which a node
   * holding row statements makes its predecessor hold its statements twice over.
   */
  lemma {:induction false} DoublingSpreads(after: seq<NodeState>, chain: seq<NodeState>, j: nat, i: nat)
    requires |after| == |chain| && j <= i && i + 1 < |chain|
    requires after[i + 1].rowStatements != []
    requires forall m :: j <= m <= i ==> chain[m].statements != []
    requires forall m: nat :: m + 1 < |chain| && after[m + 1].rowStatements != [] ==> Doubled(after, chain, m)
    ensures forall m :: j <= m <= i ==> Doubled(after, chain, m)
    decreases i - j
  {
    assert Doubled(after, chain, i);
    if j < i {
      assert after[i].rowStatements != [];
      DoublingSpreads(after, chain, j, i - 1);
    }
  }

  /** Node m holds its statements twice over as row statements. */
  predicate Doubled(after: seq<NodeState>, chain: seq<NodeState>, m: nat)
    requires m < |after| && m < |chain|
  {
    after[m].rowStatements == chain[m].statements + chain[m].statements
  }

  /** The rest of a chain runs first: its results reappear unchanged behind the head. */
  lemma ChainQueryFilterTail(chain: seq<NodeState>, q: Query)
    requires chain != []
    ensures ChainQueryFilter(chain, q).1[1..] == ChainQueryFilter(chain[1..], q).1
  {
  }

  /**
   * When degradation reaches the head (node i + 1 holds row statements and
   * every node before it has statements), none of the statements of nodes
   * 0 .. i reaches the query: the chain returns the query that the nodes
   * after i produced.
   */
  lemma {:induction false} DegradedPrefixLeavesQuery(chain: seq<NodeState>, q: Query, i: nat)
    requires i + 1 < |chain|
    requires ChainQueryFilter(chain, q).1[i + 1].rowStatements != []
    requires forall m :: 0 <= m <= i ==> chain[m].statements != []
    ensures ChainQueryFilter(chain, q).0 == ChainQueryFilter(chain[i + 1..], q).0
    decreases i
  {
    var tail := chain[1..];
    var (q1, rest) := ChainQueryFilter(tail, q);
    ChainQueryFilterTail(chain, q);
    if i > 0 {
      assert rest[i] == ChainQueryFilter(chain, q).1[i + 1];
      forall m | 0 <= m <= i - 1 ensures tail[m].statements != [] {
        assert tail[m] == chain[m + 1];
      }
      DegradedPrefixLeavesQuery(tail, q, i - 1);
      assert tail[i..] == chain[i + 1..];
      DegradationSpreads(chain, q, 1, i);
      assert Doubled(ChainQueryFilter(chain, q).1, chain, 1);
    }
    assert rest[0] == ChainQueryFilter(chain, q).1[1];
    assert rest != [] && rest[0].rowStatements != [];
    NodeWhenNextDegraded(chain[0], q1);
  }

  predicate NoRowStatements(chain: seq<NodeState>) {
    forall i :: 0 <= i < |chain| ==> chain[i].rowStatements == []
  }

  predicate AllFieldsPresent(chain: seq<NodeState>, q: Query) {
    forall i, j :: 0 <= i < |chain| && 0 <= j < |chain[i].statements| ==> !Breaks(chain[i].statements[j], q)
  }

  /** A node none of whose statements breaks: all of them reach the query. */
  lemma NodeAllPresent(n: NodeState, q: Query, q1: Query)
    requires q1.columns == q.columns
    requires forall j :: 0 <= j < |n.statements| ==> !Breaks(n.statements[j], q)
    ensures NodeQueryFilter(n, false, q1) == Routing(Query(q1.columns, q1.applied + n.statements), n.rowStatements, false)
  {
    NodeWhenNextClean(n, q1);
    var k := FirstBreak(q1, n.statements);
    ApplyAllExtends(n.statements[..k], q1);
    assert forall j :: 0 <= j < |n.statements| ==> !Breaks(n.statements[j], q1);
    assert n.statements[..k] == n.statements;
    assert n.rowStatements + n.statements[k..] == n.rowStatements;
  }

  /** Both preconditions of ChainAllPresent pass from a chain to its head and its tail. */
  lemma SplitAllPresent(chain: seq<NodeState>, q: Query)
    requires chain != []
    requires NoRowStatements(chain)
    requires AllFieldsPresent(chain, q)
    ensures chain[0].rowStatements == []
    ensures forall j :: 0 <= j < |chain[0].statements| ==> !Breaks(chain[0].statements[j], q)
    ensures NoRowStatements(chain[1..]) && AllFieldsPresent(chain[1..], q)
  {
    var tail := chain[1..];
    forall i | 0 <= i < |tail| ensures tail[i].rowStatements == [] {
      assert tail[i] == chain[i + 1];
    }
    forall i, j | 0 <= i < |tail| && 0 <= j < |tail[i].statements| ensures !Breaks(tail[i].statements[j], q) {
      assert tail[i] == chain[i + 1];
    }
    forall j | 0 <= j < |chain[0].statements| ensures !Breaks(chain[0].statements[j], q) {
    }
  }

  /**
   * On a chain with no row statements yet, over a query exposing every named
   * field: every statement is applied to the query, tail node first and each
   * node's statements in order, and no row statement appears.
   */
  lemma ChainAllPresent(chain: seq<NodeState>, q: Query)
    requires NoRowStatements(chain)
    requires AllFieldsPresent(chain, q)
    ensures ChainQueryFilter(chain, q) == (ApplyAll(TailFirst(chain), q), chain)
  {
    ChainAllPresentAppends(chain, q);
    ApplyAllExtends(TailFirst(chain), q);
  }

  /** ChainAllPresent, with the query written as the statements appended to it. */
  lemma {:induction false} ChainAllPresentAppends(chain: seq<NodeState>, q: Query)
    requires NoRowStatements(chain)
    requires AllFieldsPresent(chain, q)
    ensures ChainQueryFilter(chain, q) == (Query(q.columns, q.applied + TailFirst(chain)), chain)
    decreases |chain|
  {
    if chain != [] {
      var n := chain[0];
      var tail := chain[1..];
      SplitAllPresent(chain, q);
      ChainAllPresentAppends(tail, q);
      var q1 := Query(q.columns, q.applied + TailFirst(tail));
      assert ChainQueryFilter(tail, q) == (q1, tail);
      assert !(tail != [] && tail[0].rowStatements != []);
      NodeAllPresent(n, q, q1);
      var routed := NodeQueryFilter(n, false, q1);
      assert ChainQueryFilter(chain, q) == (routed.query, [NodeState(n.statements, routed.rowStatements)] + tail);
      assert routed.rowStatements == [];
      assert TailFirst(chain) == TailFirst(tail) + n.statements;
      assert routed.query == Query(q.columns, q.applied + TailFirst(chain));
      assert [NodeState(n.statements, [])] + tail == chain;
    } else {
      assert q.applied + [] == q.applied;
    }
  }

  /** With no row statements anywhere, rowFilter returns the rows untouched. */
  lemma {:induction false} RowFilterIdentity<R>(chain: seq<NodeState>, rows: seq<R>, applyToRows: (Statement, seq<R>) -> seq<R>)
    requires NoRowStatements(chain)
    ensures ChainRowFilter(chain, rows, applyToRows) == rows
    decreases |chain|
  {
    if chain != [] {
      RowFilterIdentity(chain[1..], rows, applyToRows);
    }
  }

  /**
   * The foreach of queryFilter: each statement is applied to the query until
   * one breaks, and from then on appended to the row statements.
   */
  method RouteStatements(statements: seq<Statement>, start: Routing) returns (r: Query, rows: seq<Statement>, broken: bool)
    ensures Routing(r, rows, broken) == Route(start, statements)
  {
    r, rows, broken := start.query, start.rowStatements, start.broken;
    var i := 0;
    while i < |statements|
      invariant 0 <= i <= |statements|
      invariant Routing(r, rows, broken) == Route(start, statements[..i])
    {
      var s := statements[i];
      if !Falsy(s.fieldName) && !ContainsField(r, s.fieldName) {
        broken := true;
      }
      if broken {
        rows := rows + [s];
      } else {
        r := ApplyToQuery(s, r);
      }
      assert statements[..i + 1][..i] == statements[..i];
      i := i + 1;
    }
    assert statements[..i] == statements;
  }

  /**
   * A filter object. The DummyFilter sentinel is the same class with
   * `sentinel` set: it has no statements, no row statements and no next
   * filter, and its operations are identities.
   */
  class Filter {
    const handle: string
    const sentinel: bool
    const statements: seq<Statement>
    var rowStatements: seq<Statement>
    var next: Filter?
    ghost var Repr: set<Filter>

    /** The chain from this node is acyclic and ends in a sentinel. */
    ghost predicate Valid()
      reads this, Repr
      decreases Repr
    {
      this in Repr &&
      if sentinel then
        next == null && statements == [] && rowStatements == [] && Repr == {this}
      else
        next != null && next in Repr && next.Repr <= Repr && this !in next.Repr && next.Valid()
    }

    /** The non-sentinel nodes from this one to the end of the chain. */
    ghost function States(): (s: seq<NodeState>)
      reads this, Repr
      requires Valid()
      ensures sentinel <==> s == []
      ensures !sentinel ==> s[0] == NodeState(statements, rowStatements)
      decreases Repr
    {
      if sentinel then [] else [NodeState(statements, rowStatements)] + next.States()
    }

    /** Filter::__construct: without a next filter a fresh DummyFilter is installed. */
    constructor (handle: string, statements: seq<Statement>, nextFilter: Filter?)
      requires nextFilter != null ==> nextFilter.Valid()
      ensures Valid() && !sentinel
      ensures this.handle == handle && this.statements == statements && rowStatements == []
      ensures nextFilter != null ==> next == nextFilter && Repr == {this} + nextFilter.Repr
      ensures nextFilter == null ==> fresh(next) && next.sentinel && fresh(Repr)
      ensures States() == [NodeState(statements, [])] + next.States()
    {
      this.handle := handle;
      this.statements := statements;
      sentinel := false;
      rowStatements := [];
      var n: Filter;
      if nextFilter == null {
        n := new Filter.Dummy();
      } else {
        n := nextFilter;
      }
      next := n;
      Repr := {this} + n.Repr;
    }

    /** DummyFilter::__construct: deliberately no next filter. */
    constructor Dummy()
      ensures Valid() && sentinel && fresh(Repr)
      ensures next == null && statements == [] && rowStatements == [] && States() == []
    {
      handle := "";
      sentinel := true;
      statements := [];
      rowStatements := [];
      next := null;
      Repr := {this};
    }

    /** getNextFilter: null exactly for the sentinel, the next node otherwise. */
    function GetNextFilter(): (f: Filter?)
      reads this, Repr
      requires Valid()
      ensures f == null <==> sentinel
      ensures f != null ==> f.Valid() && f.Repr < Repr
    {
      if sentinel then null else next
    }

    /**
     * combine: a filter splices f in as its next filter and returns itself;
     * the sentinel returns f and changes nothing.
     */
    method Combine(f: Filter) returns (r: Filter)
      requires Valid()
      requires !sentinel ==> f.Valid() && this !in f.Repr
      modifies this
      ensures sentinel ==> r == f && unchanged(this)
      ensures !sentinel ==> r == this && next == f && Repr == {this} + f.Repr && rowStatements == old(rowStatements)
      ensures !sentinel ==> Valid() && States() == [NodeState(statements, rowStatements)] + f.States()
    {
      if sentinel {
        return f;
      }
      next := f;
      Repr := {this} + f.Repr;
      r := this;
    }

    /** queryFilter over the whole chain from this node, proved against ChainQueryFilter. */
    method QueryFilter(q: Query) returns (r: Query)
      requires Valid()
      modifies Repr`rowStatements
      ensures Valid()
      ensures (r, States()) == ChainQueryFilter(old(States()), q)
      decreases Repr
    {
      if sentinel {
        return q;
      }
      ghost var before := States();
      assert before[1..] == next.States();
      var q1 := next.QueryFilter(q);
      ghost var rest := next.States();
      assert (q1, rest) == ChainQueryFilter(before[1..], q);

      var broken := false;
      var rows := rowStatements;
      if next.rowStatements != [] {
        rows := statements;
        broken := true;
      }
      assert (rest != [] && rest[0].rowStatements != []) == broken;
      var start := Routing(q1, rows, broken);
      assert start == RouteStart(statements, before[0].rowStatements, broken, q1);

      r, rows, broken := RouteStatements(statements, start);
      rowStatements := rows;
      assert next.Valid();
      assert States() == [NodeState(statements, rowStatements)] + rest;
    }

    /** rowFilter over the whole chain from this node, proved against ChainRowFilter. */
    method RowFilter<R>(rows: seq<R>, applyToRows: (Statement, seq<R>) -> seq<R>) returns (r: seq<R>)
      requires Valid()
      ensures r == ChainRowFilter(States(), rows, applyToRows)
      decreases Repr
    {
      if sentinel {
        return rows;
      }
      r := next.RowFilter(rows, applyToRows);
      ghost var base := r;
      for k := 0 to |rowStatements|
        invariant r == Replay(rowStatements[..k], base, applyToRows)
      {
        assert rowStatements[..k + 1][..k] == rowStatements[..k];
        r := applyToRows(rowStatements[k], r);
      }
      assert rowStatements[..|rowStatements|] == rowStatements;
    }
  }
}
