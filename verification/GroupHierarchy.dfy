/**
 The group hierarchy and its closure table.

 `group_relationships` holds the direct parent/child edges of a graph of groups and
 `group_lineage` holds, for every ancestor/descendant pair, one row with the length of
 the shortest chain of edges between them (0 for a group and itself). Access decisions
 read only the closure table, so everything downstream rests on it being exact.
 */
module GroupGraph {
  import opened Basics

  type GroupId = int

  /** A parent/child edge, or an ancestor/descendant pair of the closure table. */
  type Pair = (GroupId, GroupId)

  /** One row of the recursive query that rebuilds lineage: ancestor, descendant, depth. */
  type Reached = (GroupId, GroupId, nat)

  /** Some chain of exactly `n` edges leads from `a` down to `d`. */
  ghost predicate Walk(edges: set<Pair>, a: GroupId, d: GroupId, n: nat)
    decreases n
  {
    if n == 0 then a == d else exists m :: (a, m) in edges && Walk(edges, m, d, n - 1)
  }

  /** Foreign keys and `chk_no_self_relationship`. */
  ghost predicate WellFormed(groups: set<GroupId>, edges: set<Pair>) {
    forall p, c :: (p, c) in edges ==> p in groups && c in groups && p != c
  }

  ghost predicate Acyclic(edges: set<Pair>) {
    forall a, n: nat :: n > 0 ==> !Walk(edges, a, a, n)
  }

  /** A walk, named once more so that facts about the closure table are used only where a proof asks for them. */
  ghost predicate Chain(edges: set<Pair>, a: GroupId, d: GroupId, n: nat) {
    Walk(edges, a, d, n)
  }

  /** The closure table holds exactly the connected pairs, each with its shortest distance. */
  ghost predicate Exact(groups: set<GroupId>, edges: set<Pair>, lineage: map<Pair, nat>) {
    && (forall a, d :: (a, d) in lineage ==> a in groups && d in groups && Chain(edges, a, d, lineage[(a, d)]))
    && (forall a, d, n: nat :: a in groups && Chain(edges, a, d, n) ==> (a, d) in lineage && lineage[(a, d)] <= n)
  }

  // ---------------------------------------------------------------- walks

  lemma {:induction false} WalkConcat(edges: set<Pair>, a: GroupId, b: GroupId, d: GroupId, n: nat, k: nat)
    requires Walk(edges, a, b, n) && Walk(edges, b, d, k)
    ensures Walk(edges, a, d, n + k)
    decreases n
  {
    if n > 0 {
      var m :| (a, m) in edges && Walk(edges, m, b, n - 1);
      WalkConcat(edges, m, b, d, n - 1, k);
    }
  }

  lemma {:induction false} WalkMonotone(edges: set<Pair>, more: set<Pair>, a: GroupId, d: GroupId, n: nat)
    requires edges <= more && Walk(edges, a, d, n)
    ensures Walk(more, a, d, n)
    decreases n
  {
    if n > 0 {
      var m :| (a, m) in edges && Walk(edges, m, d, n - 1);
      WalkMonotone(edges, more, m, d, n - 1);
    }
  }

  /** Every walk ends in a walk of each smaller length. */
  lemma {:induction false} WalkSuffix(edges: set<Pair>, a: GroupId, d: GroupId, n: nat, k: nat) returns (m: GroupId)
    requires k <= n && Walk(edges, a, d, n)
    ensures Walk(edges, m, d, k)
    decreases n
  {
    if k == n {
      m := a;
    } else {
      var b :| (a, b) in edges && Walk(edges, b, d, n - 1);
      m := WalkSuffix(edges, b, d, n - 1, k);
    }
  }

  lemma {:induction false} WalkStays(groups: set<GroupId>, edges: set<Pair>, a: GroupId, d: GroupId, n: nat)
    requires WellFormed(groups, edges) && Walk(edges, a, d, n)
    ensures n > 0 ==> a in groups && d in groups
    decreases n
  {
    if n > 0 {
      var m :| (a, m) in edges && Walk(edges, m, d, n - 1);
      WalkStays(groups, edges, m, d, n - 1);
    }
  }

  /** A walk over one extra edge either avoids it or can be cut to use it once. */
  lemma {:induction false} WalkOverNewEdge(edges: set<Pair>, p: GroupId, c: GroupId, a: GroupId, d: GroupId, n: nat)
    returns (direct: bool, i: nat, j: nat)
    requires Walk(edges + {(p, c)}, a, d, n)
    ensures direct ==> Walk(edges, a, d, n)
    ensures !direct ==> Walk(edges, a, p, i) && Walk(edges, c, d, j) && i + 1 + j <= n
    decreases n
  {
    i, j := 0, 0;
    if n == 0 {
      direct := true;
    } else {
      var m :| (a, m) in edges + {(p, c)} && Walk(edges + {(p, c)}, m, d, n - 1);
      direct, i, j := WalkOverNewEdge(edges, p, c, m, d, n - 1);
      if (a, m) in edges {
        i := i + 1;
      } else if direct {
        direct, i, j := false, 0, n - 1;
      } else {
        i := 0;
      }
    }
  }

  /** A walk that ends outside the descendants of `c` never used the edge into `c`. */
  lemma {:induction false} WalkWithoutEdge(edges: set<Pair>, p: GroupId, c: GroupId, a: GroupId, d: GroupId, n: nat)
    requires Walk(edges, a, d, n)
    requires forall k: nat :: !Walk(edges, c, d, k)
    ensures Walk(edges - {(p, c)}, a, d, n)
    decreases n
  {
    if n > 0 {
      var m :| (a, m) in edges && Walk(edges, m, d, n - 1);
      WalkWithoutEdge(edges, p, c, m, d, n - 1);
    }
  }

  // ---------------------------------------------------------------- bounded depth

  /** The groups strictly above `g`. */
  ghost function Above(groups: set<GroupId>, edges: set<Pair>, g: GroupId): set<GroupId> {
    set x | x in groups && exists n: nat :: n > 0 && Walk(edges, x, g, n)
  }

  lemma AboveGrows(groups: set<GroupId>, edges: set<Pair>, p: GroupId, c: GroupId)
    requires WellFormed(groups, edges) && Acyclic(edges) && (p, c) in edges
    ensures |Above(groups, edges, p)| < |Above(groups, edges, c)|
  {
    var up, down := Above(groups, edges, p), Above(groups, edges, c);
    assert Walk(edges, c, c, 0);
    assert Walk(edges, p, c, 1);
    forall x | x in up
      ensures x in down
    {
      var n: nat :| n > 0 && Walk(edges, x, p, n);
      WalkConcat(edges, x, p, c, n, 1);
    }
    assert p in down && p !in up;
    SubsetSmaller(up, down, p);
  }

  lemma SubsetSmaller<T>(small: set<T>, big: set<T>, extra: T)
    requires small <= big && extra in big && extra !in small
    ensures |small| < |big|
  {
    SubsetSize(small, big - {extra});
  }

  lemma {:induction false} WalkRaisesAbove(groups: set<GroupId>, edges: set<Pair>, a: GroupId, d: GroupId, n: nat)
    requires WellFormed(groups, edges) && Acyclic(edges) && Walk(edges, a, d, n)
    ensures |Above(groups, edges, a)| + n <= |Above(groups, edges, d)|
    decreases n
  {
    if n > 0 {
      var m :| (a, m) in edges && Walk(edges, m, d, n - 1);
      AboveGrows(groups, edges, a, m);
      WalkRaisesAbove(groups, edges, m, d, n - 1);
    }
  }

  /** In an acyclic hierarchy no chain is longer than the number of groups. */
  lemma WalkBounded(groups: set<GroupId>, edges: set<Pair>, a: GroupId, d: GroupId, n: nat)
    requires WellFormed(groups, edges) && Acyclic(edges) && Walk(edges, a, d, n)
    ensures n <= |groups|
  {
    WalkRaisesAbove(groups, edges, a, d, n);
    SubsetSize(Above(groups, edges, d), groups);
  }

  // ---------------------------------------------------------------- the closure itself

  /** There is only one exact closure table. */
  lemma ExactIsUnique(groups: set<GroupId>, edges: set<Pair>, a: map<Pair, nat>, b: map<Pair, nat>)
    requires Exact(groups, edges, a) && Exact(groups, edges, b)
    ensures a == b
  {
    forall k: Pair
      ensures k in a <==> k in b
      ensures k in a && k in b ==> a[k] == b[k]
    {
      if k in a {
        assert Chain(edges, k.0, k.1, a[(k.0, k.1)]);
      }
      if k in b {
        assert Chain(edges, k.0, k.1, b[(k.0, k.1)]);
      }
    }
    assert a.Keys == b.Keys;
  }

  /** A new group with its depth-0 row. */
  lemma CreateExact(groups: set<GroupId>, edges: set<Pair>, lineage: map<Pair, nat>, g: GroupId)
    requires WellFormed(groups, edges) && Exact(groups, edges, lineage) && g !in groups
    ensures Exact(groups + {g}, edges, lineage[(g, g) := 0])
  {
    var groups', lineage' := groups + {g}, lineage[(g, g) := 0];
    forall a, d, n: nat | a in groups' && Chain(edges, a, d, n)
      ensures (a, d) in lineage' && lineage'[(a, d)] <= n
    {
      WalkStays(groups, edges, a, d, n);
      assert Chain(edges, a, d, n);
    }
    forall a, d | (a, d) in lineage'
      ensures a in groups' && d in groups' && Chain(edges, a, d, lineage'[(a, d)])
    {
      assert (a, d) == (g, g) || (a, d) in lineage;
    }
  }

  lemma FewerEdgesAcyclic(edges: set<Pair>, fewer: set<Pair>)
    requires fewer <= edges && Acyclic(edges)
    ensures Acyclic(fewer)
  {
    forall a, n: nat | n > 0
      ensures !Walk(fewer, a, a, n)
    {
      if Walk(fewer, a, a, n) {
        WalkMonotone(fewer, edges, a, a, n);
      }
    }
  }

  // ---------------------------------------------------------------- adding an edge

  /** The rows selected by the cross join: ancestors of `p` paired with descendants of `c`. */
  function CrossJoin(lineage: map<Pair, nat>, p: GroupId, c: GroupId): (r: set<Pair>)
    ensures forall a, d {:trigger (a, d) in r} :: (a, d) in r <==> (a, p) in lineage && (c, d) in lineage
  {
    set x, y | x in lineage.Keys && y in lineage.Keys && x.1 == p && y.0 == c :: (x.0, y.1)
  }

  /** The rows the cross join inserts. */
  function Rows(lineage: map<Pair, nat>, p: GroupId, c: GroupId): map<Pair, nat> {
    map k | k in CrossJoin(lineage, p, c) :: lineage[(k.0, p)] + lineage[(c, k.1)] + 1
  }

  /** `on conflict do update set depth = least(...)`. */
  function Merged(lineage: map<Pair, nat>, rows: map<Pair, nat>): map<Pair, nat> {
    lineage + map k | k in rows :: if k in lineage && lineage[k] <= rows[k] then lineage[k] else rows[k]
  }

  /** The whole statement: both halves on the same table. */
  function Linked(lineage: map<Pair, nat>, p: GroupId, c: GroupId): (r: map<Pair, nat>) {
    Merged(lineage, Rows(lineage, p, c))
  }

  /** What the statement leaves in the table, row by row. */
  ghost predicate IsLinked(lineage: map<Pair, nat>, linked: map<Pair, nat>, p: GroupId, c: GroupId) {
    forall a, d {:trigger (a, d) in linked} :: LinkedRow(lineage, linked, p, c, a, d)
  }

  ghost predicate LinkedRow(lineage: map<Pair, nat>, linked: map<Pair, nat>, p: GroupId, c: GroupId, a: GroupId,
                            d: GroupId) {
    var joined := (a, p) in lineage && (c, d) in lineage;
    && ((a, d) in linked <==> (a, d) in lineage || joined)
    && ((a, d) in lineage ==> linked[(a, d)] <= lineage[(a, d)])
    && (joined ==> linked[(a, d)] <= lineage[(a, p)] + lineage[(c, d)] + 1)
    && ((a, d) in linked ==>
          || ((a, d) in lineage && linked[(a, d)] == lineage[(a, d)])
          || (joined && linked[(a, d)] == lineage[(a, p)] + lineage[(c, d)] + 1))
  }

  lemma LinkedIsLinked(lineage: map<Pair, nat>, p: GroupId, c: GroupId)
    ensures IsLinked(lineage, Linked(lineage, p, c), p, c)
  {
    var linked := Linked(lineage, p, c);
    forall a, d
      ensures LinkedRow(lineage, linked, p, c, a, d)
    {
      assert (a, d) in CrossJoin(lineage, p, c) <==> (a, p) in lineage && (c, d) in lineage;
    }
  }

  /** The incremental update is exact, whatever the graph: no acyclicity is needed. */
  lemma LinkedIsExact(groups: set<GroupId>, edges: set<Pair>, lineage: map<Pair, nat>, p: GroupId, c: GroupId)
    requires WellFormed(groups, edges) && Exact(groups, edges, lineage)
    requires p in groups && c in groups
    ensures Exact(groups, edges + {(p, c)}, Linked(lineage, p, c))
  {
    LinkedIsLinked(lineage, p, c);
    IsLinkedExact(groups, edges, lineage, Linked(lineage, p, c), p, c);
  }

  lemma IsLinkedExact(groups: set<GroupId>, edges: set<Pair>, lineage: map<Pair, nat>, linked: map<Pair, nat>,
                      p: GroupId, c: GroupId)
    requires Exact(groups, edges, lineage) && IsLinked(lineage, linked, p, c)
    requires p in groups && c in groups
    ensures Exact(groups, edges + {(p, c)}, linked)
  {
    var edges' := edges + {(p, c)};
    forall a, d | (a, d) in linked
      ensures a in groups && d in groups && Chain(edges', a, d, linked[(a, d)])
    {
      var n := linked[(a, d)];
      if (a, d) in lineage && n == lineage[(a, d)] {
        WalkMonotone(edges, edges', a, d, n);
      } else {
        LinkWalks(edges, p, c, a, d, lineage[(a, p)], lineage[(c, d)]);
        assert n == lineage[(a, p)] + (1 + lineage[(c, d)]);
      }
    }
    forall a, d, n: nat | a in groups && Chain(edges', a, d, n)
      ensures (a, d) in linked && linked[(a, d)] <= n
    {
      var direct, i, j := WalkOverNewEdge(edges, p, c, a, d, n);
      if direct {
        assert Chain(edges, a, d, n);
      } else {
        assert Chain(edges, a, p, i) && Chain(edges, c, d, j);
      }
    }
  }

  lemma LinkWalks(edges: set<Pair>, p: GroupId, c: GroupId, a: GroupId, d: GroupId, i: nat, j: nat)
    requires Walk(edges, a, p, i) && Walk(edges, c, d, j)
    ensures Walk(edges + {(p, c)}, a, d, i + (1 + j))
  {
    var edges' := edges + {(p, c)};
    WalkMonotone(edges, edges', a, p, i);
    WalkMonotone(edges, edges', c, d, j);
    assert (p, c) in edges';
    assert Walk(edges', p, d, 1 + j);
    WalkConcat(edges', a, p, d, i, 1 + j);
  }

  /** `would_create_cycle`: the edge closes a cycle exactly when `c` is already above `p`. */
  lemma CycleIffAncestor(groups: set<GroupId>, edges: set<Pair>, lineage: map<Pair, nat>, p: GroupId, c: GroupId)
    requires WellFormed(groups, edges) && Exact(groups, edges, lineage) && Acyclic(edges)
    requires p in groups && c in groups
    ensures (c, p) in lineage <==> !Acyclic(edges + {(p, c)})
  {
    var edges' := edges + {(p, c)};
    if (c, p) in lineage {
      var n := lineage[(c, p)];
      WalkMonotone(edges, edges', c, p, n);
      assert (p, c) in edges';
      assert Walk(edges', p, p, n + 1);
    } else {
      forall a, n: nat | n > 0
        ensures !Walk(edges', a, a, n)
      {
        if Walk(edges', a, a, n) {
          var direct, i, j := WalkOverNewEdge(edges, p, c, a, a, n);
          if !direct {
            WalkConcat(edges, c, a, p, j, i);
            assert Chain(edges, c, p, j + i);
          }
        }
      }
    }
  }

  // ---------------------------------------------------------------- removing an edge

  /** The rows reached by the recursive query after `k` rounds: all walks of length 1..k into `targets`. */
  ghost predicate ReachedUpTo(edges: set<Pair>, targets: set<GroupId>, k: nat, rows: set<Reached>) {
    forall r: Reached :: r in rows <==> r.1 in targets && 1 <= r.2 <= k && Walk(edges, r.0, r.1, r.2)
  }

  ghost predicate ReachedExactly(edges: set<Pair>, targets: set<GroupId>, rows: set<Reached>) {
    forall r: Reached :: r in rows <==> r.1 in targets && 1 <= r.2 && Walk(edges, r.0, r.1, r.2)
  }

  /** One round of `union select gr.parent_group_id, r.descendant_id, r.depth + 1`. */
  function NextRound(edges: set<Pair>, work: set<Reached>): (next: set<Reached>) {
    set e, r | e in edges && r in work && e.1 == r.0 :: (e.0, r.1, r.2 + 1)
  }

  function FirstRound(edges: set<Pair>, targets: set<GroupId>): (rows: set<Reached>) {
    set e | e in edges && e.1 in targets :: (e.0, e.1, 1)
  }

  lemma FirstRoundReaches(edges: set<Pair>, targets: set<GroupId>)
    ensures ReachedUpTo(edges, targets, 1, FirstRound(edges, targets))
  {
  }

  /** A round turns all walks of length `k` into all walks of length `k + 1`. */
  lemma NextRoundReaches(edges: set<Pair>, targets: set<GroupId>, k: nat, work: set<Reached>)
    requires forall r: Reached :: r in work <==> r.1 in targets && r.2 == k && Walk(edges, r.0, r.1, k)
    ensures forall r: Reached :: r in NextRound(edges, work) <==>
            r.1 in targets && r.2 == k + 1 && Walk(edges, r.0, r.1, k + 1)
  {
    var next := NextRound(edges, work);
    forall r: Reached
      ensures r in next <==> r.1 in targets && r.2 == k + 1 && Walk(edges, r.0, r.1, k + 1)
    {
      if r.1 in targets && r.2 == k + 1 && Walk(edges, r.0, r.1, k + 1) {
        var m :| (r.0, m) in edges && Walk(edges, m, r.1, k);
        var e, w := (r.0, m), (m, r.1, k);
        assert e in edges && w in work;
        assert (e.0, w.1, w.2 + 1) == r;
      }
    }
  }

  /** Once no walk of length `k` enters the targets, no longer one does either. */
  lemma EmptyRoundIsLast(edges: set<Pair>, targets: set<GroupId>, k: nat, rows: set<Reached>)
    requires ReachedUpTo(edges, targets, k, rows)
    requires forall a, d :: d in targets ==> !Walk(edges, a, d, k)
    ensures ReachedExactly(edges, targets, rows)
  {
    forall r: Reached | r.1 in targets && 1 <= r.2 && Walk(edges, r.0, r.1, r.2)
      ensures r in rows
    {
      if r.2 > k {
        var m := WalkSuffix(edges, r.0, r.1, r.2, k);
      }
    }
  }

  /** Some cycle leads into the targets. */
  ghost predicate CycleInto(edges: set<Pair>, targets: set<GroupId>) {
    exists a, d, n: nat, m: nat :: d in targets && n > 0 && Walk(edges, a, a, n) && Walk(edges, a, d, m)
  }

  /** No walk of exactly `k` edges enters the targets: the k-th round of the query is empty. */
  ghost predicate EmptyRound(edges: set<Pair>, targets: set<GroupId>, k: nat) {
    forall a, d :: d in targets ==> !Walk(edges, a, d, k)
  }

  /** The edges from which some walk goes on into the targets. */
  ghost function Leading(edges: set<Pair>, targets: set<GroupId>): set<Pair> {
    set e | e in edges && exists d, n: nat :: d in targets && Walk(edges, e.1, d, n)
  }

  lemma {:induction false} WalkLeads(edges: set<Pair>, targets: set<GroupId>, a: GroupId, d: GroupId, n: nat)
    requires d in targets && Walk(edges, a, d, n)
    ensures Walk(Leading(edges, targets), a, d, n)
    decreases n
  {
    if n > 0 {
      var m :| (a, m) in edges && Walk(edges, m, d, n - 1);
      WalkLeads(edges, targets, m, d, n - 1);
      var e := (a, m);
      assert e in Leading(edges, targets);
    }
  }

  lemma LeadingAcyclic(edges: set<Pair>, targets: set<GroupId>)
    requires !CycleInto(edges, targets)
    ensures Acyclic(Leading(edges, targets))
  {
    forall a, n: nat | n > 0
      ensures !Walk(Leading(edges, targets), a, a, n)
    {
      if Walk(Leading(edges, targets), a, a, n) {
        WalkMonotone(Leading(edges, targets), edges, a, a, n);
        var m :| (a, m) in Leading(edges, targets) && Walk(Leading(edges, targets), m, a, n - 1);
        var d, k: nat :| d in targets && Walk(edges, m, d, k);
        assert Walk(edges, a, d, k + 1);
      }
    }
  }

  /** Without a cycle into the targets, no walk into them is longer than the number of groups. */
  lemma WalkIntoBounded(groups: set<GroupId>, edges: set<Pair>, targets: set<GroupId>, a: GroupId, d: GroupId, n: nat)
    requires WellFormed(groups, edges) && !CycleInto(edges, targets) && d in targets && Walk(edges, a, d, n)
    ensures n <= |groups|
  {
    LeadingAcyclic(edges, targets);
    WalkLeads(edges, targets, a, d, n);
    WalkBounded(groups, Leading(edges, targets), a, d, n);
  }

  lemma {:induction false} AroundAgain(edges: set<Pair>, a: GroupId, d: GroupId, n: nat, m: nat, times: nat)
    returns (k: nat)
    requires n > 0 && Walk(edges, a, a, n) && Walk(edges, a, d, m)
    ensures k >= times && Walk(edges, a, d, k)
    decreases times
  {
    if times == 0 {
      k := m;
    } else {
      k := AroundAgain(edges, a, d, n, m, times - 1);
      WalkConcat(edges, a, a, d, n, k);
      k := n + k;
    }
  }

  /** The recursive query reaches an empty round, and so ends, if and only if no cycle leads into the targets. */
  lemma QueryEndsIff(groups: set<GroupId>, edges: set<Pair>, targets: set<GroupId>)
    requires WellFormed(groups, edges)
    ensures (exists k: nat :: k > 0 && EmptyRound(edges, targets, k)) <==> !CycleInto(edges, targets)
  {
    if CycleInto(edges, targets) {
      var a, d, n: nat, m: nat :| d in targets && n > 0 && Walk(edges, a, a, n) && Walk(edges, a, d, m);
      forall k: nat
        ensures !EmptyRound(edges, targets, k)
      {
        var long := AroundAgain(edges, a, d, n, m, k);
        var b := WalkSuffix(edges, a, d, long, k);
      }
    } else {
      var last := |groups| + 1;
      forall a, d | d in targets
        ensures !Walk(edges, a, d, last)
      {
        if Walk(edges, a, d, last) {
          WalkIntoBounded(groups, edges, targets, a, d, last);
        }
      }
      assert EmptyRound(edges, targets, last);
    }
  }

  lemma AcyclicHasNoCycleInto(edges: set<Pair>, targets: set<GroupId>)
    requires Acyclic(edges)
    ensures !CycleInto(edges, targets)
  {
  }

  /** `with recursive reachable as (...)`: iterate rounds until one adds no row. */
  method RecursiveReach(ghost groups: set<GroupId>, edges: set<Pair>, targets: set<GroupId>)
    returns (rows: set<Reached>)
    requires WellFormed(groups, edges) && !CycleInto(edges, targets)
    ensures ReachedExactly(edges, targets, rows)
  {
    rows := FirstRound(edges, targets);
    var work := rows;
    ghost var k: nat := 1;
    FirstRoundReaches(edges, targets);
    while work != {}
      invariant 1 <= k <= |groups| + 1
      invariant ReachedUpTo(edges, targets, k, rows)
      invariant forall r: Reached :: r in work <==> r.1 in targets && r.2 == k && Walk(edges, r.0, r.1, k)
      decreases |groups| + 1 - k
    {
      ghost var w :| w in work;
      WalkIntoBounded(groups, edges, targets, w.0, w.1, k);
      NextRoundReaches(edges, targets, k, work);
      work := NextRound(edges, work) - rows;
      rows := rows + work;
      k := k + 1;
    }
    forall a, d | d in targets
      ensures !Walk(edges, a, d, k)
    {
      var w: Reached := (a, d, k);
      assert w !in work;
    }
    EmptyRoundIsLast(edges, targets, k, rows);
  }

  /** Row with the least depth for one pair: `distinct on (...) order by ..., depth`. */
  ghost predicate Shortest(rows: set<Reached>, r: Reached) {
    r in rows && forall s :: s in rows && s.0 == r.0 && s.1 == r.1 ==> r.2 <= s.2
  }

  lemma ShortestExists(rows: set<Reached>, r: Reached) returns (s: Reached)
    requires r in rows
    ensures Shortest(rows, s) && s.0 == r.0 && s.1 == r.1
    decreases r.2
  {
    if better :| better in rows && better.0 == r.0 && better.1 == r.1 && better.2 < r.2 {
      s := ShortestExists(rows, better);
    } else {
      s := r;
    }
  }

  function PairsOf(rows: set<Reached>): (r: set<Pair>)
    ensures forall k {:trigger k in r} :: k in r <==> exists s :: s in rows && k == (s.0, s.1)
  {
    set s | s in rows :: (s.0, s.1)
  }

  function LeastDepth(rows: set<Reached>, k: Pair): (n: nat)
    requires k in PairsOf(rows)
    ensures (k.0, k.1, n) in rows
    ensures forall s :: s in rows && s.0 == k.0 && s.1 == k.1 ==> n <= s.2
  {
    assert exists s :: s in rows && s.0 == k.0 && s.1 == k.1 && Shortest(rows, s) by {
      var r :| r in rows && k == (r.0, r.1);
      var s := ShortestExists(rows, r);
    }
    var s :| s in rows && s.0 == k.0 && s.1 == k.1 &&
        (forall t :: t in rows && t.0 == s.0 && t.1 == s.1 ==> s.2 <= t.2);
    assert s == (k.0, k.1, s.2);
    s.2
  }

  /** `delete from group_lineage where descendant_id = any(..) and ancestor_id != descendant_id`. */
  function Pruned(lineage: map<Pair, nat>, targets: set<GroupId>): (r: map<Pair, nat>) {
    map k | k in lineage && (k.1 !in targets || k.0 == k.1) :: lineage[k]
  }

  /** Insert the rebuilt rows, joined with the depth-0 row of each descendant. */
  function Relinked(lineage: map<Pair, nat>, rows: set<Reached>): (r: map<Pair, nat>) {
    lineage + map k | k in PairsOf(rows) && exists g :: g in lineage && g.1 == k.1 && lineage[g] == 0 ::
      if k in lineage && lineage[k] <= LeastDepth(rows, k) then lineage[k] else LeastDepth(rows, k)
  }

  /**
   Any rebuild, whatever closure it meets: rows that were there stay, at their old depth or a smaller rebuilt
   one, and a rebuilt pair is added exactly if some row at depth zero ends at its descendant.
   */
  lemma RelinkedRow(lineage: map<Pair, nat>, rows: set<Reached>, k: Pair)
    ensures var r := Relinked(lineage, rows);
            && (k in lineage ==> k in r && r[k] <= lineage[k])
            && (k in r && !(k in lineage && r[k] == lineage[k]) ==> (k.0, k.1, r[k]) in rows)
            && (k !in lineage ==>
                  (k in r <==>
                   && (exists s :: s in rows && (s.0, s.1) == k)
                   && exists g :: g in lineage && g.1 == k.1 && lineage[g] == 0))
            && ((exists g :: g in lineage && g.1 == k.1 && lineage[g] == 0) ==>
                  forall s :: s in rows && (s.0, s.1) == k ==> k in r && r[k] <= s.2)
  {
  }

  lemma RelinkedIsExact(groups: set<GroupId>, edges: set<Pair>, lineage: map<Pair, nat>, p: GroupId, c: GroupId,
                        targets: set<GroupId>, rows: set<Reached>)
    requires WellFormed(groups, edges) && Acyclic(edges) && Exact(groups, edges, lineage)
    requires c in groups
    requires targets == set k | k in lineage && k.0 == c :: k.1
    requires ReachedExactly(edges - {(p, c)}, targets, rows)
    ensures Exact(groups, edges - {(p, c)}, Relinked(Pruned(lineage, targets), rows))
  {
    var edges', kept := edges - {(p, c)}, Pruned(lineage, targets);
    var lineage' := Relinked(kept, rows);
    assert WellFormed(groups, edges');
    forall a, d | (a, d) in lineage'
      ensures a in groups && d in groups && Chain(edges', a, d, lineage'[(a, d)])
    {
      RelinkedSound(groups, edges, lineage, p, c, targets, rows, a, d);
    }
    forall a, d, n: nat | a in groups && Chain(edges', a, d, n)
      ensures (a, d) in lineage' && lineage'[(a, d)] <= n
    {
      WalkMonotone(edges', edges, a, d, n);
      WalkStays(groups, edges, a, d, n);
      assert Chain(edges, d, d, 0) && Chain(edges, a, d, n);
      RelinkedComplete(edges', lineage, targets, rows, a, d, n);
    }
  }

  lemma RelinkedComplete(edges: set<Pair>, lineage: map<Pair, nat>, targets: set<GroupId>, rows: set<Reached>,
                         a: GroupId, d: GroupId, n: nat)
    requires ReachedExactly(edges, targets, rows) && Walk(edges, a, d, n)
    requires (a, d) in lineage && lineage[(a, d)] <= n
    requires (d, d) in lineage && lineage[(d, d)] == 0
    ensures (a, d) in Relinked(Pruned(lineage, targets), rows)
    ensures Relinked(Pruned(lineage, targets), rows)[(a, d)] <= n
  {
    var kept := Pruned(lineage, targets);
    if d in targets && a != d {
      var r: Reached := (a, d, n);
      assert r in rows;
      assert (a, d) in PairsOf(rows);
      assert (d, d) in kept;
    }
  }

  lemma RelinkedSound(groups: set<GroupId>, edges: set<Pair>, lineage: map<Pair, nat>, p: GroupId, c: GroupId,
                      targets: set<GroupId>, rows: set<Reached>, a: GroupId, d: GroupId)
    requires WellFormed(groups, edges) && Acyclic(edges) && Exact(groups, edges, lineage)
    requires c in groups
    requires targets == set k | k in lineage && k.0 == c :: k.1
    requires ReachedExactly(edges - {(p, c)}, targets, rows)
    requires (a, d) in Relinked(Pruned(lineage, targets), rows)
    ensures a in groups && d in groups && Walk(edges - {(p, c)}, a, d, Relinked(Pruned(lineage, targets), rows)[(a, d)])
  {
    var edges', kept := edges - {(p, c)}, Pruned(lineage, targets);
    var n := Relinked(kept, rows)[(a, d)];
    if (a, d) in PairsOf(rows) && n == LeastDepth(rows, (a, d)) {
      assert (a, d, n) in rows;
      WalkStays(groups, edges', a, d, n);
    } else {
      assert (a, d) in kept && n == lineage[(a, d)];
      if a == d {
        assert Chain(edges, a, a, 0);
      } else {
        assert (c, d) !in lineage;
        forall k: nat
          ensures !Walk(edges, c, d, k)
        {
          assert !Chain(edges, c, d, k);
        }
        WalkWithoutEdge(edges, p, c, a, d, n);
      }
    }
  }

  // ---------------------------------------------------------------- deleting a group

  function EdgesWithout(edges: set<Pair>, g: GroupId): (r: set<Pair>) {
    set e | e in edges && e.0 != g && e.1 != g
  }

  function LineageWithout(lineage: map<Pair, nat>, g: GroupId): (r: map<Pair, nat>) {
    map k | k in lineage && k.0 != g && k.1 != g :: lineage[k]
  }

  /** Each parent of `g` is also tied to each child of `g` directly or through some other group. */
  predicate Bridged(edges: set<Pair>, g: GroupId) {
    forall up, down :: up in edges && down in edges && up.1 == g && down.0 == g ==>
      up.0 == down.1 || (up.0, down.1) in edges ||
          (exists e :: e in edges && e.0 == up.0 && e.1 != g && (e.1, down.1) in edges)
  }

  /** A two-edge chain through `g` can be replaced by a walk that avoids it. */
  lemma BridgeWalk(edges: set<Pair>, g: GroupId, a: GroupId, b: GroupId) returns (k: nat)
    requires Bridged(edges, g) && (a, g) in edges && (g, b) in edges && a != g && b != g
    ensures k <= 2 && Walk(EdgesWithout(edges, g), a, b, k)
  {
    var rest := EdgesWithout(edges, g);
    var up, down := (a, g), (g, b);
    assert up in edges && down in edges;
    assert Walk(rest, b, b, 0);
    if a == b {
      k := 0;
    } else if (a, b) in edges {
      assert (a, b) in rest;
      k := 1;
    } else {
      var e :| e in edges && e.0 == a && e.1 != g && (e.1, b) in edges;
      assert (a, e.1) in rest && (e.1, b) in rest;
      assert Walk(rest, e.1, b, 1);
      k := 2;
    }
  }

  lemma DetourStep(edges: set<Pair>, g: GroupId, a: GroupId, m: GroupId, d: GroupId, n: nat)
    requires (a, m) in edges && a != g && m != g && Walk(EdgesWithout(edges, g), m, d, n)
    ensures Walk(EdgesWithout(edges, g), a, d, n + 1)
  {
    assert (a, m) in EdgesWithout(edges, g);
  }

  lemma DetourThrough(edges: set<Pair>, g: GroupId, a: GroupId, b: GroupId, d: GroupId, n: nat) returns (n': nat)
    requires Bridged(edges, g) && (a, g) in edges && (g, b) in edges && a != g && b != g
    requires Walk(EdgesWithout(edges, g), b, d, n)
    ensures n' <= n + 2 && Walk(EdgesWithout(edges, g), a, d, n')
  {
    var k := BridgeWalk(edges, g, a, b);
    WalkConcat(EdgesWithout(edges, g), a, b, d, k, n);
    n' := k + n;
  }

  lemma FirstEdge(edges: set<Pair>, a: GroupId, d: GroupId, n: nat) returns (m: GroupId)
    requires a != d && Walk(edges, a, d, n)
    ensures n > 0 && (a, m) in edges && Walk(edges, m, d, n - 1)
  {
    m :| (a, m) in edges && Walk(edges, m, d, n - 1);
  }

  lemma {:induction false} DetourAround(edges: set<Pair>, g: GroupId, a: GroupId, d: GroupId, n: nat) returns (n': nat)
    requires (g, g) !in edges
    requires Bridged(edges, g) && a != g && d != g && Walk(edges, a, d, n)
    ensures n' <= n && Walk(EdgesWithout(edges, g), a, d, n')
    decreases n
  {
    if a == d {
      return 0;
    }
    var m := FirstEdge(edges, a, d, n);
    if m != g {
      n' := DetourAround(edges, g, m, d, n - 1);
      DetourStep(edges, g, a, m, d, n');
      n' := n' + 1;
    } else {
      var b := FirstEdge(edges, g, d, n - 1);
      n' := DetourAround(edges, g, b, d, n - 2);
      n' := DetourThrough(edges, g, a, b, d, n');
    }
  }

  lemma BridgedKeepsExact(groups: set<GroupId>, edges: set<Pair>, lineage: map<Pair, nat>, g: GroupId)
    requires WellFormed(groups, edges) && Exact(groups, edges, lineage) && Bridged(edges, g)
    ensures Exact(groups - {g}, EdgesWithout(edges, g), LineageWithout(lineage, g))
  {
    var rest, kept := EdgesWithout(edges, g), LineageWithout(lineage, g);
    forall a, d | (a, d) in kept
      ensures Chain(rest, a, d, kept[(a, d)])
    {
      var n' := DetourAround(edges, g, a, d, kept[(a, d)]);
      WalkMonotone(rest, edges, a, d, n');
      assert Chain(edges, a, d, n');
    }
    forall a, d, n: nat | a in groups - {g} && Chain(rest, a, d, n)
      ensures (a, d) in kept && kept[(a, d)] <= n
    {
      WalkMonotone(rest, edges, a, d, n);
      WalkStays(groups - {g}, rest, a, d, n);
      assert Chain(edges, a, d, n);
    }
  }

  /**
   Deleting a group only cascades to the rows that name it; rows for chains that passed
   through it stay. The table is exact afterwards if and only if every parent/child pair
   of the deleted group is bridged.
   */
  lemma DeleteExactIffBridged(groups: set<GroupId>, edges: set<Pair>, lineage: map<Pair, nat>, g: GroupId)
    requires WellFormed(groups, edges) && Exact(groups, edges, lineage)
    ensures Exact(groups - {g}, EdgesWithout(edges, g), LineageWithout(lineage, g)) <==> Bridged(edges, g)
  {
    var rest, kept := EdgesWithout(edges, g), LineageWithout(lineage, g);
    if Bridged(edges, g) {
      BridgedKeepsExact(groups, edges, lineage, g);
    }
    if Exact(groups - {g}, rest, kept) {
      forall up, down | up in edges && down in edges && up.1 == g && down.0 == g
        ensures up.0 == down.1 || (up.0, down.1) in edges ||
                (exists e :: e in edges && e.0 == up.0 && e.1 != g && (e.1, down.1) in edges)
      {
        ExactGivesBridge(groups, edges, lineage, g, up.0, down.1);
      }
    }
  }

  lemma ExactGivesBridge(groups: set<GroupId>, edges: set<Pair>, lineage: map<Pair, nat>, g: GroupId, p: GroupId,
                         c: GroupId)
    requires WellFormed(groups, edges) && Exact(groups, edges, lineage)
    requires Exact(groups - {g}, EdgesWithout(edges, g), LineageWithout(lineage, g))
    requires (p, g) in edges && (g, c) in edges
    ensures p == c || (p, c) in edges || (exists e :: e in edges && e.0 == p && e.1 != g && (e.1, c) in edges)
  {
    var rest := EdgesWithout(edges, g);
    assert Walk(edges, c, c, 0);
    assert Walk(edges, g, c, 1);
    assert Chain(edges, p, c, 2);
    var n := lineage[(p, c)];
    assert (p, c) in LineageWithout(lineage, g);
    assert Chain(rest, p, c, n);
    if n == 1 {
      var m :| (p, m) in rest && Walk(rest, m, c, 0);
      assert (p, c) in edges;
    } else if n == 2 {
      var m :| (p, m) in rest && Walk(rest, m, c, 1);
      var m' :| (m, m') in rest && Walk(rest, m', c, 0);
      var e := (p, m);
      assert e in edges && e.1 != g && (e.1, c) in edges;
    }
  }

  lemma ChainOfThree() returns (lineage: map<Pair, nat>)
    ensures Exact({1, 2, 3}, {(1, 2), (2, 3)}, lineage)
  {
    var groups: set<GroupId> := {1, 2, 3};
    lineage := map[(1, 1) := 0, (2, 2) := 0, (3, 3) := 0];
    assert Exact(groups, {}, lineage);
    lineage := LinkOne(groups, {}, lineage, 1, 2);
    assert {} + {(1, 2)} == {(1, 2)};
    lineage := LinkOne(groups, {(1, 2)}, lineage, 2, 3);
    assert {(1, 2)} + {(2, 3)} == {(1, 2), (2, 3)};
  }

  lemma LinkOne(groups: set<GroupId>, edges: set<Pair>, lineage: map<Pair, nat>, p: GroupId, c: GroupId)
    returns (linked: map<Pair, nat>)
    requires WellFormed(groups, edges) && Exact(groups, edges, lineage) && p in groups && c in groups
    ensures Exact(groups, edges + {(p, c)}, linked)
  {
    LinkedIsExact(groups, edges, lineage, p, c);
    linked := Linked(lineage, p, c);
  }

  lemma ThreeNotBridged(edges: set<Pair>)
    requires edges == {(1, 2), (2, 3)}
    ensures !Bridged(edges, 2)
  {
  }

  /** A chain 1 - 2 - 3 loses its middle group: the row for (1, 3) survives although nothing connects them any more. */
  lemma StaleRowAfterDelete() returns (lineage: map<Pair, nat>)
    ensures var groups, edges := {1, 2, 3}, {(1, 2), (2, 3)};
            && WellFormed(groups, edges) && Acyclic(edges) && Exact(groups, edges, lineage)
            && (1, 3) in LineageWithout(lineage, 2)
            && !Exact(groups - {2}, EdgesWithout(edges, 2), LineageWithout(lineage, 2))
  {
    lineage := ChainOfThree();
    ThreeAcyclic({(1, 2), (2, 3)});
    ThreeStale({1, 2, 3}, {(1, 2), (2, 3)}, lineage);
  }

  lemma ThreeStale(groups: set<GroupId>, edges: set<Pair>, lineage: map<Pair, nat>)
    requires groups == {1, 2, 3} && edges == {(1, 2), (2, 3)} && Exact(groups, edges, lineage)
    ensures (1, 3) in LineageWithout(lineage, 2)
    ensures !Exact(groups - {2}, EdgesWithout(edges, 2), LineageWithout(lineage, 2))
  {
    ThreeConnected(edges);
    ThreeNotBridged(edges);
    DeleteExactIffBridged(groups, edges, lineage, 2);
  }

  lemma ThreeConnected(edges: set<Pair>)
    requires edges == {(1, 2), (2, 3)}
    ensures Chain(edges, 1, 3, 2)
  {
    assert Walk(edges, 3, 3, 0);
    assert Walk(edges, 2, 3, 1);
  }

  lemma ThreeAcyclic(edges: set<Pair>)
    requires edges == {(1, 2), (2, 3)}
    ensures Acyclic(edges)
  {
    forall a, d, n: nat | n > 0 && Walk(edges, a, d, n)
      ensures a < d
    {
      WalkGoesUp(edges, a, d, n);
    }
  }

  lemma {:induction false} WalkGoesUp(edges: set<Pair>, a: GroupId, d: GroupId, n: nat)
    requires (forall e :: e in edges ==> e.0 < e.1) && Walk(edges, a, d, n)
    ensures a + n <= d
    decreases n
  {
    if n > 0 {
      var m :| (a, m) in edges && Walk(edges, m, d, n - 1);
      WalkGoesUp(edges, m, d, n - 1);
    }
  }
}
