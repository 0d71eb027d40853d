/**
 Racing edits of the hierarchy. A call that adds a child checks for a cycle in one transaction and
 inserts in another; that transaction, and the one that removes a relationship, are several
 statements under READ COMMITTED: each statement reads what is committed when it starts, and what
 the transaction writes appears when it commits. Nothing locks more than the rows written, so any
 number of calls interleave statement by statement.
 */
module HierarchyRace {
  import opened GroupGraph

  /** How far a call is, and what its statements have read. */
  datatype Call =
    | Checked(p: GroupId, c: GroupId)
    | Inserted(p: GroupId, c: GroupId)
    | Joined(p: GroupId, c: GroupId, rows: map<Pair, nat>)
    | Deleted(p: GroupId, c: GroupId)
    | Targeted(p: GroupId, c: GroupId, targets: set<GroupId>)
    | Dropped(p: GroupId, c: GroupId, targets: set<GroupId>, gone: set<Pair>)
    | Rebuilt(p: GroupId, c: GroupId, gone: set<Pair>, reach: set<Reached>)

  /** The committed tables, and the calls under way. */
  datatype State = State(groups: set<GroupId>, edges: set<Pair>, lineage: map<Pair, nat>, calls: map<nat, Call>)

  datatype Step =
    | Create(g: GroupId)
    | Check(x: nat, p: GroupId, c: GroupId)
    | Insert(x: nat)
    | Join(x: nat)
    | CommitInsert(x: nat)
    | Delete(x: nat, p: GroupId, c: GroupId)
    | Target(x: nat)
    | Drop(x: nat, gone: set<Pair>)
    | Rebuild(x: nat)
    | CommitRemove(x: nat)
    | End(x: nat)

  // ---------------------------------------------------------------- what the statements read and write

  function Below(lineage: map<Pair, nat>, c: GroupId): set<GroupId> {
    set k | k in lineage && k.0 == c :: k.1
  }

  function Left(lineage: map<Pair, nat>, gone: set<Pair>): map<Pair, nat> {
    map k | k in lineage && k !in gone :: lineage[k]
  }

  /** What the recursive query returns on a snapshot of the edges. */
  ghost function ReachNow(groups: set<GroupId>, edges: set<Pair>, targets: set<GroupId>): set<Reached> {
    set a, d, n | a in groups && d in targets && 1 <= n <= |groups| && Walk(edges, a, d, n) :: (a, d, n)
  }

  lemma ReachNowIsReached(groups: set<GroupId>, edges: set<Pair>, targets: set<GroupId>)
    requires WellFormed(groups, edges) && !CycleInto(edges, targets)
    ensures ReachedExactly(edges, targets, ReachNow(groups, edges, targets))
  {
    forall r: Reached | r.1 in targets && 1 <= r.2 && Walk(edges, r.0, r.1, r.2)
      ensures r in ReachNow(groups, edges, targets)
    {
      WalkIntoBounded(groups, edges, targets, r.0, r.1, r.2);
      WalkStays(groups, edges, r.0, r.1, r.2);
    }
  }

  /** The closure an undisturbed removal leaves. */
  ghost function RemovedClosure(s: State, p: GroupId, c: GroupId): map<Pair, nat> {
    var targets := Below(s.lineage, c);
    Relinked(Pruned(s.lineage, targets), ReachNow(s.groups, s.edges - {(p, c)}, targets))
  }

  // ---------------------------------------------------------------- steps

  /** No transaction under way has written the edge: its unique key makes a second writer wait. */
  predicate Free(s: State, p: GroupId, c: GroupId) {
    forall x :: x in s.calls && !s.calls[x].Checked? ==> (s.calls[x].p, s.calls[x].c) != (p, c)
  }

  ghost predicate Enabled(s: State, t: Step) {
    match t
    case Create(g) => g !in s.groups
    case Check(x, p, c) =>
      x !in s.calls && p in s.groups && c in s.groups && p != c && (p, c) !in s.edges && (c, p) !in s.lineage
    case Insert(x) =>
      x in s.calls && s.calls[x].Checked? && (s.calls[x].p, s.calls[x].c) !in s.edges &&
          Free(s, s.calls[x].p, s.calls[x].c)
    case Join(x) => x in s.calls && s.calls[x].Inserted?
    case CommitInsert(x) => x in s.calls && s.calls[x].Joined?
    case Delete(x, p, c) => x !in s.calls && (p, c) in s.edges && Free(s, p, c)
    case Target(x) => x in s.calls && s.calls[x].Deleted?
    // The rows the delete sees, less those another removal rewrites while it waits.
    case Drop(x, gone) =>
      && x in s.calls && s.calls[x].Targeted?
      && gone <= set k | k in s.lineage && k.1 in s.calls[x].targets && k.0 != k.1
    // The query comes back only if no cycle leads into its targets.
    case Rebuild(x) =>
      && x in s.calls && s.calls[x].Dropped?
      && !CycleInto(s.edges - {(s.calls[x].p, s.calls[x].c)}, s.calls[x].targets)
    case CommitRemove(x) => x in s.calls && s.calls[x].Rebuilt?
    case End(x) => x in s.calls
  }

  ghost function Next(s: State, t: Step): (s': State)
    requires Enabled(s, t)
  {
    match t
    case Create(g) => s.(groups := s.groups + {g}, lineage := s.lineage[(g, g) := 0])
    case Check(x, p, c) => s.(calls := s.calls[x := Checked(p, c)])
    case Insert(x) => s.(calls := s.calls[x := Inserted(s.calls[x].p, s.calls[x].c)])
    case Join(x) =>
      var (p, c) := (s.calls[x].p, s.calls[x].c);
      s.(calls := s.calls[x := Joined(p, c, Rows(s.lineage, p, c))])
    case CommitInsert(x) =>
      var call := s.calls[x];
      State(s.groups, s.edges + {(call.p, call.c)}, Merged(s.lineage, call.rows), s.calls - {x})
    case Delete(x, p, c) => s.(calls := s.calls[x := Deleted(p, c)])
    case Target(x) => s.(calls := s.calls[x := Targeted(s.calls[x].p, s.calls[x].c, Below(s.lineage, s.calls[x].c))])
    case Drop(x, gone) =>
      s.(calls := s.calls[x := Dropped(s.calls[x].p, s.calls[x].c, s.calls[x].targets, gone)])
    case Rebuild(x) =>
      var call := s.calls[x];
      var reach := ReachNow(s.groups, s.edges - {(call.p, call.c)}, call.targets);
      s.(calls := s.calls[x := Rebuilt(call.p, call.c, call.gone, reach)])
    case CommitRemove(x) =>
      var call := s.calls[x];
      State(s.groups, s.edges - {(call.p, call.c)}, Relinked(Left(s.lineage, call.gone), call.reach), s.calls - {x})
    case End(x) => s.(calls := s.calls - {x})
  }

  /** What every interleaving keeps: foreign keys, of the tables and of the calls. */
  ghost predicate Inv(s: State) {
    && WellFormed(s.groups, s.edges)
    && (forall x :: x in s.calls ==>
        s.calls[x].p in s.groups && s.calls[x].c in s.groups && s.calls[x].p != s.calls[x].c)
  }

  lemma InvKept(s: State, t: Step)
    requires Inv(s) && Enabled(s, t)
    ensures Inv(Next(s, t))
  {
  }

  /** What the hierarchy promises: no cycle, and an exact closure. */
  ghost predicate Good(s: State) {
    Acyclic(s.edges) && Exact(s.groups, s.edges, s.lineage)
  }

  // ---------------------------------------------------------------- exactly when a step is safe

  /**
   An insert must, where it commits, still pass the cycle check, and its rows must give what the cross
   join would give on the closure of that moment. A removal must leave what it would leave undisturbed.
   */
  ghost predicate Safe(s: State, t: Step)
    requires Enabled(s, t)
  {
    match t
    case CommitInsert(x) =>
      var call := s.calls[x];
      (call.c, call.p) !in s.lineage && Merged(s.lineage, call.rows) == Linked(s.lineage, call.p, call.c)
    case CommitRemove(x) =>
      var call := s.calls[x];
      Relinked(Left(s.lineage, call.gone), call.reach) == RemovedClosure(s, call.p, call.c)
    case _ => true
  }

  lemma InsertSafeIff(s: State, x: nat)
    requires Inv(s) && Good(s) && Enabled(s, CommitInsert(x))
    ensures Good(Next(s, CommitInsert(x))) <==> Safe(s, CommitInsert(x))
  {
    var call := s.calls[x];
    var edges' := s.edges + {(call.p, call.c)};
    CycleIffAncestor(s.groups, s.edges, s.lineage, call.p, call.c);
    LinkedIsExact(s.groups, s.edges, s.lineage, call.p, call.c);
    if Exact(s.groups, edges', Merged(s.lineage, call.rows)) {
      ExactIsUnique(s.groups, edges', Merged(s.lineage, call.rows), Linked(s.lineage, call.p, call.c));
    }
  }

  lemma RemovedClosureIsExact(s: State, p: GroupId, c: GroupId)
    requires Inv(s) && Good(s) && c in s.groups
    ensures Exact(s.groups, s.edges - {(p, c)}, RemovedClosure(s, p, c))
  {
    var rest, targets := s.edges - {(p, c)}, Below(s.lineage, c);
    FewerEdgesAcyclic(s.edges, rest);
    AcyclicHasNoCycleInto(rest, targets);
    ReachNowIsReached(s.groups, rest, targets);
    RelinkedIsExact(s.groups, s.edges, s.lineage, p, c, targets, ReachNow(s.groups, rest, targets));
  }

  lemma RemoveSafeIff(s: State, x: nat)
    requires Inv(s) && Good(s) && Enabled(s, CommitRemove(x))
    ensures Good(Next(s, CommitRemove(x))) <==> Safe(s, CommitRemove(x))
  {
    var call := s.calls[x];
    var rest, left := s.edges - {(call.p, call.c)}, Relinked(Left(s.lineage, call.gone), call.reach);
    FewerEdgesAcyclic(s.edges, rest);
    RemovedClosureIsExact(s, call.p, call.c);
    if Exact(s.groups, rest, left) {
      ExactIsUnique(s.groups, rest, left, RemovedClosure(s, call.p, call.c));
    }
  }

  /** A step keeps the hierarchy acyclic and its closure exact if and only if it is safe. */
  lemma StepSafeIff(s: State, t: Step)
    requires Inv(s) && Good(s) && Enabled(s, t)
    ensures Good(Next(s, t)) <==> Safe(s, t)
  {
    match t
    case Create(g) => CreateExact(s.groups, s.edges, s.lineage, g);
    case CommitInsert(x) => InsertSafeIff(s, x);
    case CommitRemove(x) => RemoveSafeIff(s, x);
    case _ =>
  }

  /** Dropping all rows the delete sees, and rebuilding from the edges of the same moment, is an undisturbed removal. */
  lemma UndisturbedRemove(s: State, p: GroupId, c: GroupId)
    ensures var targets := Below(s.lineage, c);
            var gone := set k | k in s.lineage && k.1 in targets && k.0 != k.1;
            Relinked(Left(s.lineage, gone), ReachNow(s.groups, s.edges - {(p, c)}, targets)) == RemovedClosure(s, p, c)
  {
    var targets := Below(s.lineage, c);
    var gone := set k | k in s.lineage && k.1 in targets && k.0 != k.1;
    assert Left(s.lineage, gone) == Pruned(s.lineage, targets);
  }

  // ---------------------------------------------------------------- runs

  ghost predicate Possible(s: State, ts: seq<Step>)
    decreases |ts|
  {
    ts == [] || (Enabled(s, ts[0]) && Possible(Next(s, ts[0]), ts[1..]))
  }

  ghost function Run(s: State, ts: seq<Step>): (s': State)
    requires Possible(s, ts)
    decreases |ts|
  {
    if ts == [] then s else Run(Next(s, ts[0]), ts[1..])
  }

  ghost predicate AlwaysGood(s: State, ts: seq<Step>)
    requires Possible(s, ts)
    decreases |ts|
  {
    Good(s) && (ts == [] || AlwaysGood(Next(s, ts[0]), ts[1..]))
  }

  ghost predicate AlwaysSafe(s: State, ts: seq<Step>)
    requires Possible(s, ts)
    decreases |ts|
  {
    ts == [] || (Safe(s, ts[0]) && AlwaysSafe(Next(s, ts[0]), ts[1..]))
  }

  lemma NotGoodAtOnce(s: State, ts: seq<Step>)
    requires Possible(s, ts) && !Good(s)
    ensures !AlwaysGood(s, ts)
  {
  }

  /**
   Over any interleaving the hierarchy is acyclic with an exact closure at every moment if and only if
   every commit is safe.
   */
  lemma {:induction false} RacesGoodIff(s: State, ts: seq<Step>)
    requires Inv(s) && Good(s) && Possible(s, ts)
    ensures AlwaysGood(s, ts) <==> AlwaysSafe(s, ts)
    decreases |ts|
  {
    if ts != [] {
      InvKept(s, ts[0]);
      StepSafeIff(s, ts[0]);
      if Safe(s, ts[0]) {
        RacesGoodIff(Next(s, ts[0]), ts[1..]);
      } else {
        NotGoodAtOnce(Next(s, ts[0]), ts[1..]);
      }
    }
  }

  // ---------------------------------------------------------------- three runs that fail

  lemma {:induction false} RunOneMore(s: State, ts: seq<Step>, t: Step)
    requires Possible(s, ts) && Enabled(Run(s, ts), t)
    ensures Possible(s, ts + [t]) && Run(s, ts + [t]) == Next(Run(s, ts), t)
    decreases |ts|
  {
    if ts == [] {
      assert ts + [t] == [t] && [t][1..] == [];
    } else {
      assert (ts + [t])[1..] == ts[1..] + [t];
      RunOneMore(Next(s, ts[0]), ts[1..], t);
    }
  }

  ghost predicate Reaches(start: State, ts: seq<Step>, s: State) {
    Possible(start, ts) && Run(start, ts) == s
  }

  lemma Then(start: State, ts: seq<Step>, s: State, t: Step, s': State) returns (ts': seq<Step>)
    requires Reaches(start, ts, s) && Enabled(s, t) && s' == Next(s, t)
    ensures Reaches(start, ts', s')
  {
    RunOneMore(start, ts, t);
    ts' := ts + [t];
  }

  /** The state with two calls under way. */
  function Two(s: State, first: Call, second: Call): State {
    s.(calls := map[0 := first, 1 := second])
  }

  predicate Addable(s: State, p: GroupId, c: GroupId) {
    p in s.groups && c in s.groups && p != c && (p, c) !in s.edges && (c, p) !in s.lineage
  }

  lemma BothCheck(s: State, p: GroupId, c: GroupId, p': GroupId, c': GroupId) returns (ts: seq<Step>)
    requires s.calls == map[] && Addable(s, p, c) && Addable(s, p', c')
    ensures Reaches(s, ts, Two(s, Checked(p, c), Checked(p', c')))
  {
    var s1 := s.(calls := map[0 := Checked(p, c)]);
    ts := Then(s, [], s, Check(0, p, c), s1);
    ts := Then(s, ts, s1, Check(1, p', c'), Two(s, Checked(p, c), Checked(p', c')));
  }

  lemma OneInsert(start: State, ts: seq<Step>, s: State, x: nat, p: GroupId, c: GroupId) returns (ts': seq<Step>)
    requires Reaches(start, ts, s) && x in s.calls && s.calls[x] == Checked(p, c) && (p, c) !in s.edges && Free(s, p, c)
    ensures Reaches(start, ts', s.(calls := s.calls[x := Inserted(p, c)]))
  {
    ts' := Then(start, ts, s, Insert(x), s.(calls := s.calls[x := Inserted(p, c)]));
  }

  lemma OneJoin(start: State, ts: seq<Step>, s: State, x: nat, p: GroupId, c: GroupId) returns (ts': seq<Step>)
    requires Reaches(start, ts, s) && x in s.calls && s.calls[x] == Inserted(p, c)
    ensures Reaches(start, ts', s.(calls := s.calls[x := Joined(p, c, Rows(s.lineage, p, c))]))
  {
    ts' := Then(start, ts, s, Join(x), s.(calls := s.calls[x := Joined(p, c, Rows(s.lineage, p, c))]));
  }

  lemma OneCommit(start: State, ts: seq<Step>, s: State, x: nat, p: GroupId, c: GroupId, rows: map<Pair, nat>)
    returns (ts': seq<Step>)
    requires Reaches(start, ts, s) && x in s.calls && s.calls[x] == Joined(p, c, rows)
    ensures Reaches(start, ts', State(s.groups, s.edges + {(p, c)}, Merged(s.lineage, rows), s.calls - {x}))
  {
    ts' := Then(start, ts, s, CommitInsert(x),
        State(s.groups, s.edges + {(p, c)}, Merged(s.lineage, rows), s.calls - {x}));
  }

  lemma TwoUpdates(s: State, first: Call, second: Call, first': Call, second': Call)
    ensures Two(s, first, second).(calls := Two(s, first, second).calls[0 := first']) == Two(s, first', second)
    ensures Two(s, first, second).(calls := Two(s, first, second).calls[1 := second']) == Two(s, first, second')
    ensures Two(s, first, second).calls - {0} == map[1 := second] && Two(s, first, second).calls - {0} - {1} == map[]
  {
    assert Two(s, first, second).calls[0 := first'] == Two(s, first', second).calls;
    assert Two(s, first, second).calls[1 := second'] == Two(s, first, second').calls;
  }

  lemma BothInsert(start: State, ts: seq<Step>, s: State, p: GroupId, c: GroupId, p': GroupId, c': GroupId)
    returns (ts': seq<Step>)
    requires Reaches(start, ts, Two(s, Checked(p, c), Checked(p', c')))
    requires (p, c) !in s.edges && (p', c') !in s.edges && (p, c) != (p', c')
    ensures Reaches(start, ts', Two(s, Inserted(p, c), Inserted(p', c')))
  {
    ts' := OneInsert(start, ts, Two(s, Checked(p, c), Checked(p', c')), 0, p, c);
    TwoUpdates(s, Checked(p, c), Checked(p', c'), Inserted(p, c), Inserted(p', c'));
    ts' := OneInsert(start, ts', Two(s, Inserted(p, c), Checked(p', c')), 1, p', c');
    TwoUpdates(s, Inserted(p, c), Checked(p', c'), Inserted(p, c), Inserted(p', c'));
  }

  lemma BothJoin(start: State, ts: seq<Step>, s: State, p: GroupId, c: GroupId, p': GroupId, c': GroupId)
    returns (ts': seq<Step>)
    requires Reaches(start, ts, Two(s, Inserted(p, c), Inserted(p', c')))
    ensures Reaches(start, ts', Two(s, Joined(p, c, Rows(s.lineage, p, c)), Joined(p', c', Rows(s.lineage, p', c'))))
  {
    var first, second := Joined(p, c, Rows(s.lineage, p, c)), Joined(p', c', Rows(s.lineage, p', c'));
    ts' := OneJoin(start, ts, Two(s, Inserted(p, c), Inserted(p', c')), 0, p, c);
    TwoUpdates(s, Inserted(p, c), Inserted(p', c'), first, second);
    ts' := OneJoin(start, ts', Two(s, first, Inserted(p', c')), 1, p', c');
    TwoUpdates(s, first, Inserted(p', c'), first, second);
  }

  /** The tables after two inserts whose cross joins read the same snapshot. */
  function Overlapped(s: State, p: GroupId, c: GroupId, p': GroupId, c': GroupId): State {
    State(s.groups, s.edges + {(p, c)} + {(p', c')},
          Merged(Merged(s.lineage, Rows(s.lineage, p, c)), Rows(s.lineage, p', c')), map[])
  }

  lemma BothCommit(start: State, ts: seq<Step>, s: State, p: GroupId, c: GroupId, p': GroupId, c': GroupId,
                   rows: map<Pair, nat>, rows': map<Pair, nat>) returns (ts': seq<Step>)
    requires Reaches(start, ts, Two(s, Joined(p, c, rows), Joined(p', c', rows')))
    ensures Reaches(start, ts', State(s.groups, s.edges + {(p, c)} + {(p', c')},
            Merged(Merged(s.lineage, rows), rows'), map[]))
  {
    var first, second := Joined(p, c, rows), Joined(p', c', rows');
    TwoUpdates(s, first, second, first, second);
    ts' := OneCommit(start, ts, Two(s, first, second), 0, p, c, rows);
    ts' := OneCommit(start, ts', State(s.groups, s.edges + {(p, c)}, Merged(s.lineage, rows), map[1 := second]), 1,
        p', c', rows');
  }

  /** Two calls whose statements overlap from check to commit. */
  lemma OverlappingInserts(s: State, p: GroupId, c: GroupId, p': GroupId, c': GroupId) returns (ts: seq<Step>)
    requires s.calls == map[] && Addable(s, p, c) && Addable(s, p', c') && (p, c) != (p', c')
    ensures Reaches(s, ts, Overlapped(s, p, c, p', c'))
  {
    ts := BothCheck(s, p, c, p', c');
    ts := BothInsert(s, ts, s, p, c, p', c');
    ts := BothJoin(s, ts, s, p, c, p', c');
    ts := BothCommit(s, ts, s, p, c, p', c', Rows(s.lineage, p, c), Rows(s.lineage, p', c'));
  }

  lemma BothWays(edges: set<Pair>, p: GroupId, c: GroupId)
    requires (p, c) in edges && (c, p) in edges
    ensures !Acyclic(edges)
  {
    assert Walk(edges, p, p, 0);
    assert Walk(edges, c, p, 1);
    assert Walk(edges, p, p, 2);
  }

  /**
   From any hierarchy, two calls that put two unrelated groups above one another both pass their check
   and close a cycle.
   */
  lemma RaceClosesCycle(s: State, p: GroupId, c: GroupId) returns (ts: seq<Step>)
    requires s.calls == map[] && Addable(s, p, c) && Addable(s, c, p)
    ensures Possible(s, ts) && !Acyclic(Run(s, ts).edges)
  {
    ts := OverlappingInserts(s, p, c, c, p);
    BothWays(Run(s, ts).edges, p, c);
  }

  /** Three groups none of which is above another. */
  predicate Apart(s: State, a: GroupId, b: GroupId, c: GroupId) {
    && Addable(s, a, b) && Addable(s, b, c) && Addable(s, c, a)
    && (a, b) !in s.lineage && (b, c) !in s.lineage && (a, c) !in s.lineage
  }

  lemma RowMissing(s: State, a: GroupId, b: GroupId, c: GroupId)
    requires Apart(s, a, b, c)
    ensures (a, c) !in Overlapped(s, a, b, b, c).lineage
  {
    assert (a, c) !in CrossJoin(s.lineage, a, b) && (a, c) !in CrossJoin(s.lineage, b, c);
  }

  lemma TwoEdges(edges: set<Pair>, a: GroupId, b: GroupId, c: GroupId)
    requires (a, b) in edges && (b, c) in edges
    ensures Chain(edges, a, c, 2)
  {
    assert Walk(edges, c, c, 0);
    assert Walk(edges, b, c, 1);
  }

  /**
   From any hierarchy, two overlapping inserts that make a chain of three unrelated groups both pass
   their check, and leave the closure without the row from the top to the bottom.
   */
  lemma OverlapLosesRow(s: State, a: GroupId, b: GroupId, c: GroupId) returns (ts: seq<Step>)
    requires s.calls == map[] && Apart(s, a, b, c)
    ensures Reaches(s, ts, Overlapped(s, a, b, b, c))
    ensures var s' := Overlapped(s, a, b, b, c);
            (a, c) !in s'.lineage && Chain(s'.edges, a, c, 2) && !Exact(s'.groups, s'.edges, s'.lineage)
  {
    ts := OverlappingInserts(s, a, b, b, c);
    RowMissing(s, a, b, c);
    TwoEdges(Overlapped(s, a, b, b, c).edges, a, b, c);
  }

  /** One undisturbed call. */
  lemma LoneInsert(start: State, ts: seq<Step>, s: State, p: GroupId, c: GroupId) returns (ts': seq<Step>)
    requires Reaches(start, ts, s) && s.calls == map[] && Addable(s, p, c)
    ensures Reaches(start, ts', State(s.groups, s.edges + {(p, c)}, Merged(s.lineage, Rows(s.lineage, p, c)), map[]))
  {
    var s1, s2 := s.(calls := map[0 := Checked(p, c)]), s.(calls := map[0 := Inserted(p, c)]);
    var s3 := s.(calls := map[0 := Joined(p, c, Rows(s.lineage, p, c))]);
    ts' := Then(start, ts, s, Check(0, p, c), s1);
    assert s1.calls[0 := Inserted(p, c)] == s2.calls;
    ts' := Then(start, ts', s1, Insert(0), s2);
    assert s2.calls[0 := Joined(p, c, Rows(s.lineage, p, c))] == s3.calls;
    ts' := Then(start, ts', s2, Join(0), s3);
    assert s3.calls - {0} == map[];
    ts' := Then(start, ts', s3, CommitInsert(0),
        State(s.groups, s.edges + {(p, c)}, Merged(s.lineage, Rows(s.lineage, p, c)), map[]));
  }

  lemma Triangle(edges: set<Pair>, a: GroupId, b: GroupId, c: GroupId)
    requires (a, b) in edges && (b, c) in edges && (c, a) in edges
    ensures !Acyclic(edges)
  {
    TwoEdges(edges, a, b, c);
    assert Walk(edges, a, a, 0);
    assert Walk(edges, c, a, 1);
    WalkConcat(edges, a, c, a, 2, 1);
  }

  /**
   After that, one undisturbed call that closes the triangle passes its check, and still passes it
   where it commits.
   */
  lemma StaleClosureHidesCycle(s: State, a: GroupId, b: GroupId, c: GroupId) returns (ts: seq<Step>)
    requires s.calls == map[] && Apart(s, a, b, c)
    ensures Addable(Overlapped(s, a, b, b, c), c, a)
    ensures Possible(s, ts) && !Acyclic(Run(s, ts).edges)
  {
    ts := OverlapLosesRow(s, a, b, c);
    ts := LoneInsert(s, ts, Overlapped(s, a, b, b, c), c, a);
    Triangle(Run(s, ts).edges, a, b, c);
  }

  // ---------------------------------------------------------------- calls that nothing disturbs

  /**
   On an acyclic hierarchy with an exact closure, an edge passes its check exactly if it is new, joins two
   groups that exist and closes no cycle.
   */
  lemma CheckIff(s: State, x: nat, p: GroupId, c: GroupId)
    requires Inv(s) && Good(s) && x !in s.calls
    ensures Enabled(s, Check(x, p, c)) <==> Addable(s, p, c)
    ensures Addable(s, p, c) <==>
            p in s.groups && c in s.groups && p != c && (p, c) !in s.edges && Acyclic(s.edges + {(p, c)})
  {
    if p in s.groups && c in s.groups && p != c {
      CycleIffAncestor(s.groups, s.edges, s.lineage, p, c);
    }
  }

  // ---------------------------------------------------------------- writers of one edge

  /** No two transactions under way have written the same edge. */
  ghost predicate WritersApart(s: State) {
    forall x, y :: x in s.calls && y in s.calls && x != y && !s.calls[x].Checked? && !s.calls[y].Checked? ==>
      (s.calls[x].p, s.calls[x].c) != (s.calls[y].p, s.calls[y].c)
  }

  /** How many statements a call is past its first. */
  function Progress(call: Call): nat {
    match call
    case Checked(_, _) => 0
    case Inserted(_, _) => 1
    case Joined(_, _, _) => 2
    case Deleted(_, _) => 0
    case Targeted(_, _, _) => 1
    case Dropped(_, _, _, _) => 2
    case Rebuilt(_, _, _, _) => 3
  }

  predicate Adding(call: Call) {
    call.Checked? || call.Inserted? || call.Joined?
  }

  /**
   A step leaves a call alone, or moves it on by one statement for the same edge, or ends it: by its
   commit after its last statement, or by giving up, which leaves the tables as they are.
   */
  lemma CallAdvances(s: State, t: Step, x: nat)
    requires Enabled(s, t) && x in s.calls
    ensures var s', call := Next(s, t), s.calls[x];
            if x in s'.calls
            then
              || s'.calls[x] == call
              || (&& (s'.calls[x].p, s'.calls[x].c) == (call.p, call.c) && Adding(s'.calls[x]) == Adding(call)
                  && Progress(s'.calls[x]) == Progress(call) + 1)
            else
              || (t == CommitInsert(x) && Adding(call) && Progress(call) == 2)
              || (t == CommitRemove(x) && !Adding(call) && Progress(call) == 3)
              || (t == End(x) && s' == s.(calls := s'.calls))
  {
  }

  /** A call under way can give up at any time. */
  lemma MayEnd(s: State, x: nat)
    requires x in s.calls
    ensures Enabled(s, End(x)) && x !in Next(s, End(x)).calls
  {
  }

  /** The delete of a removal takes only rows above its targets, never a group's own, and may take all the others. */
  lemma DropTakes(s: State, x: nat, gone: set<Pair>)
    requires x in s.calls && s.calls[x].Targeted?
    ensures Enabled(s, Drop(x, gone)) <==>
            forall k :: k in gone ==> k in s.lineage && k.1 in s.calls[x].targets && k.0 != k.1
  {
    var all := set k | k in s.lineage && k.1 in s.calls[x].targets && k.0 != k.1;
    if forall k :: k in gone ==> k in s.lineage && k.1 in s.calls[x].targets && k.0 != k.1 {
      assert gone <= all;
    }
  }

  /** The rebuild of a removal goes on exactly if its recursive query comes to an empty round. */
  lemma RebuildsIff(s: State, x: nat)
    requires Inv(s) && x in s.calls && s.calls[x].Dropped?
    ensures Enabled(s, Rebuild(x)) <==>
            exists k: nat :: k > 0 && EmptyRound(s.edges - {(s.calls[x].p, s.calls[x].c)}, s.calls[x].targets, k)
  {
    QueryEndsIff(s.groups, s.edges - {(s.calls[x].p, s.calls[x].c)}, s.calls[x].targets);
  }

  /**
   Inserting an edge that is there is refused; inserting a new one and deleting one that is there wait exactly
   for a transaction that has written the same edge.
   */
  lemma WaitsIff(s: State, x: nat, p: GroupId, c: GroupId)
    ensures x in s.calls && s.calls[x] == Checked(p, c) && (p, c) in s.edges ==> !Enabled(s, Insert(x))
    ensures x in s.calls && s.calls[x] == Checked(p, c) && (p, c) !in s.edges ==>
              (Enabled(s, Insert(x)) <==>
               forall y :: y in s.calls && (s.calls[y].p, s.calls[y].c) == (p, c) ==> s.calls[y].Checked?)
    ensures x !in s.calls && (p, c) in s.edges ==>
              (Enabled(s, Delete(x, p, c)) <==>
               forall y :: y in s.calls && (s.calls[y].p, s.calls[y].c) == (p, c) ==> s.calls[y].Checked?)
  {
  }

  lemma WritersStayApart(s: State, t: Step)
    requires WritersApart(s) && Enabled(s, t)
    ensures WritersApart(Next(s, t))
  {
  }

  /** In every interleaving at most one transaction at a time has written an edge. */
  lemma {:induction false} OneWriterPerEdge(s: State, ts: seq<Step>)
    requires WritersApart(s) && Possible(s, ts)
    ensures WritersApart(Run(s, ts))
    decreases |ts|
  {
    if ts != [] {
      WritersStayApart(s, ts[0]);
      OneWriterPerEdge(Next(s, ts[0]), ts[1..]);
    }
  }

  /** An undisturbed call that adds an edge reaches a good hierarchy with exactly that edge added. */
  lemma LoneInsertIsGood(s: State, p: GroupId, c: GroupId) returns (ts: seq<Step>)
    requires Inv(s) && Good(s) && s.calls == map[] && Addable(s, p, c)
    ensures Possible(s, ts) && Good(Run(s, ts))
    ensures Run(s, ts).edges == s.edges + {(p, c)} && Run(s, ts).groups == s.groups && Run(s, ts).calls == map[]
  {
    ts := LoneInsert(s, [], s, p, c);
    CycleIffAncestor(s.groups, s.edges, s.lineage, p, c);
    LinkedIsExact(s.groups, s.edges, s.lineage, p, c);
  }

  /** The state with one call under way. */
  function One(s: State, call: Call): State {
    s.(calls := map[0 := call])
  }

  lemma OneUpdate(s: State, call: Call, call': Call)
    ensures One(s, call).(calls := One(s, call).calls[0 := call']) == One(s, call') && One(s, call).calls - {0} == map[]
  {
    assert One(s, call).calls[0 := call'] == One(s, call').calls;
  }

  lemma ThenDeletes(s: State, p: GroupId, c: GroupId) returns (ts: seq<Step>)
    requires s.calls == map[] && (p, c) in s.edges
    ensures Reaches(s, ts, One(s, Deleted(p, c)))
  {
    ts := Then(s, [], s, Delete(0, p, c), One(s, Deleted(p, c)));
  }

  lemma ThenTargets(start: State, ts: seq<Step>, s: State, p: GroupId, c: GroupId) returns (ts': seq<Step>)
    requires Reaches(start, ts, One(s, Deleted(p, c)))
    ensures Reaches(start, ts', One(s, Targeted(p, c, Below(s.lineage, c))))
  {
    OneUpdate(s, Deleted(p, c), Targeted(p, c, Below(s.lineage, c)));
    ts' := Then(start, ts, One(s, Deleted(p, c)), Target(0), One(s, Targeted(p, c, Below(s.lineage, c))));
  }

  function Visible(s: State, targets: set<GroupId>): set<Pair> {
    set k | k in s.lineage && k.1 in targets && k.0 != k.1
  }

  lemma ThenDrops(start: State, ts: seq<Step>, s: State, p: GroupId, c: GroupId,
                  targets: set<GroupId>) returns (ts': seq<Step>)
    requires Reaches(start, ts, One(s, Targeted(p, c, targets)))
    ensures Reaches(start, ts', One(s, Dropped(p, c, targets, Visible(s, targets))))
  {
    OneUpdate(s, Targeted(p, c, targets), Dropped(p, c, targets, Visible(s, targets)));
    ts' := Then(start, ts, One(s, Targeted(p, c, targets)), Drop(0, Visible(s, targets)),
                One(s, Dropped(p, c, targets, Visible(s, targets))));
  }

  lemma ThenRebuilds(start: State, ts: seq<Step>, s: State, p: GroupId, c: GroupId,
                     targets: set<GroupId>, gone: set<Pair>)
    returns (ts': seq<Step>)
    requires Reaches(start, ts, One(s, Dropped(p, c, targets, gone))) && !CycleInto(s.edges - {(p, c)}, targets)
    ensures Reaches(start, ts', One(s, Rebuilt(p, c, gone, ReachNow(s.groups, s.edges - {(p, c)}, targets))))
  {
    var after := Rebuilt(p, c, gone, ReachNow(s.groups, s.edges - {(p, c)}, targets));
    OneUpdate(s, Dropped(p, c, targets, gone), after);
    ts' := Then(start, ts, One(s, Dropped(p, c, targets, gone)), Rebuild(0), One(s, after));
  }

  lemma ThenCommitsRemoval(start: State, ts: seq<Step>, s: State, p: GroupId, c: GroupId,
                           gone: set<Pair>, reach: set<Reached>)
    returns (ts': seq<Step>)
    requires Reaches(start, ts, One(s, Rebuilt(p, c, gone, reach)))
    ensures Reaches(start, ts', State(s.groups, s.edges - {(p, c)}, Relinked(Left(s.lineage, gone), reach), map[]))
  {
    OneUpdate(s, Rebuilt(p, c, gone, reach), Rebuilt(p, c, gone, reach));
    ts' := Then(start, ts, One(s, Rebuilt(p, c, gone, reach)), CommitRemove(0),
                State(s.groups, s.edges - {(p, c)}, Relinked(Left(s.lineage, gone), reach), map[]));
  }

  /** An undisturbed removal reaches a good hierarchy with exactly that edge gone. */
  lemma LoneRemoveIsGood(s: State, p: GroupId, c: GroupId) returns (ts: seq<Step>)
    requires Inv(s) && Good(s) && s.calls == map[] && (p, c) in s.edges
    ensures Possible(s, ts) && Good(Run(s, ts))
    ensures Run(s, ts).edges == s.edges - {(p, c)} && Run(s, ts).groups == s.groups && Run(s, ts).calls == map[]
  {
    var rest, targets := s.edges - {(p, c)}, Below(s.lineage, c);
    FewerEdgesAcyclic(s.edges, rest);
    AcyclicHasNoCycleInto(rest, targets);
    ts := ThenDeletes(s, p, c);
    ts := ThenTargets(s, ts, s, p, c);
    ts := ThenDrops(s, ts, s, p, c, targets);
    ts := ThenRebuilds(s, ts, s, p, c, targets, Visible(s, targets));
    ts := ThenCommitsRemoval(s, ts, s, p, c, Visible(s, targets), ReachNow(s.groups, rest, targets));
    UndisturbedRemove(s, p, c);
    RemovedClosureIsExact(s, p, c);
  }
}
