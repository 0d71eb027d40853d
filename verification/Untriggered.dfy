/**
 Changes that flip access decisions without a trigger that names the users: deleting a group,
 silent joins, and edits of the hierarchy. For each, the exact condition under which provisioning
 still converges, stated on the tables before the change, and a world in which it does not.
 */
module Untriggered {
  import opened Basics
  import opened GroupGraph
  import opened Access
  import opened PushQueue
  import opened Provisioning

  function Sp(sp: AppId): App {
    App(ServiceProvider, sp)
  }

  /** For a change that leaves users and providers alone, a flip is a change of scope. */
  lemma FlipIsScopeChange(w: World, c: Cmd, sp: AppId, u: UserId)
    requires Change(w.t, c).users == w.t.users && Change(w.t, c).sps == w.t.sps
    ensures Flips(w, c, sp, u) <==>
              Managed(w, sp, u) && u in w.t.users && InScope(w.t, u, sp) != InScope(Change(w.t, c), u, sp)
  {
  }

  // ---------------------------------------------------------------- deleting groups

  /** Access that names none of the groups. */
  predicate ReachesWithout(t: Tables, u: UserId, app: App, gs: set<GroupId>) {
    app in t.availableToAll ||
    exists m, s :: m in t.members && s in t.grants && m.0 == u && s.0 == app && (s.1, m.1) in t.lineage &&
        m.1 !in gs && s.1 !in gs
  }

  /** Everyone who loses a provider with the groups already has a row there. */
  ghost predicate LosersQueued(w: World, gs: set<GroupId>) {
    forall sp, u :: Managed(w, sp, u) && Wanted(w.t, u, sp) && !ReachesWithout(w.t, u, Sp(sp), gs) ==>
        Promised(w, UserKey(sp, u))
  }

  lemma DropAccess(t: Tables, gs: set<GroupId>, u: UserId, app: App)
    ensures CanAccess(WithoutGroups(t, gs), u, app) <==> ReachesWithout(t, u, app, gs)
    ensures ReachesWithout(t, u, app, gs) ==> CanAccess(t, u, app)
  {
    var t' := WithoutGroups(t, gs);
    if GrantedThroughGroup(t', u, app) {
      var m, s :| m in t'.members && s in t'.grants && m.0 == u && s.0 == app && (s.1, m.1) in t'.lineage;
      assert m in t.members && s in t.grants && (s.1, m.1) in t.lineage && m.1 !in gs && s.1 !in gs;
    }
    if m, s :|
        && m in t.members && s in t.grants && m.0 == u && s.0 == app && (s.1, m.1) in t.lineage
        && m.1 !in gs && s.1 !in gs {
      assert m in t'.members && s in t'.grants && (s.1, m.1) in t'.lineage;
    }
  }

  lemma DropFlips(w: World, c: Cmd, gs: set<GroupId>, sp: AppId, u: UserId)
    requires Change(w.t, c) == WithoutGroups(w.t, gs)
    ensures Flips(w, c, sp, u) <==> Managed(w, sp, u) && Wanted(w.t, u, sp) && !ReachesWithout(w.t, u, Sp(sp), gs)
  {
    ScimListingIsPointwise(w.t, u, sp);
    ScimListingIsPointwise(Change(w.t, c), u, sp);
    DropAccess(w.t, gs, u, Sp(sp));
  }

  lemma DropSafeIff(w: World, c: Cmd, gs: set<GroupId>, newId: Key -> RowId, failed: set<Key>, now: Time)
    requires Converging(w) && Allowed(w.t, c) && Change(w.t, c) == WithoutGroups(w.t, gs) && Fired(w.t, c) == {}
    ensures Converging(Commit(w, c, newId, failed, now)) <==> LosersQueued(w, gs)
  {
    CommitConvergesIff(w, c, newId, failed, now);
    forall sp, u
      ensures Flips(w, c, sp, u) <==> Managed(w, sp, u) && Wanted(w.t, u, sp) && !ReachesWithout(w.t, u, Sp(sp), gs)
    {
      DropFlips(w, c, gs, sp, u);
    }
  }

  /** The trigger of `group_deleted` looks the group up after its rows are gone, and enqueues nothing at all. */
  lemma DeletionFiresNothing(t: Tables, g: GroupId)
    ensures Fired(t, DeleteGroup(g)) == {}
  {
    var t' := Change(t, DeleteGroup(g));
    assert forall l :: l in t'.lineage ==> l.1 != g;
    assert ScimSpsGrantingViaGroup(t', g) == {};
  }

  /**
   Deleting a group keeps disagreements tracked if and only if everyone who loses a provider with it
   already has a row there.
   */
  lemma DeleteGroupSafeIff(w: World, g: GroupId, newId: Key -> RowId, failed: set<Key>, now: Time)
    requires Converging(w)
    ensures Converging(Commit(w, DeleteGroup(g), newId, failed, now)) <==> LosersQueued(w, {g})
  {
    DeletionFiresNothing(w.t, g);
    DropSafeIff(w, DeleteGroup(g), {g}, newId, failed, now);
  }

  /** The same for the groups deleted with their identity provider, whose event has no trigger. */
  lemma InvalidateGroupsSafeIff(w: World, gs: set<GroupId>, newId: Key -> RowId, failed: set<Key>, now: Time)
    requires Converging(w)
    ensures Converging(Commit(w, InvalidateGroups(gs), newId, failed, now)) <==> LosersQueued(w, gs)
  {
    DropSafeIff(w, InvalidateGroups(gs), gs, newId, failed, now);
  }

  // ---------------------------------------------------------------- silent joins

  predicate GrantedToGroup(t: Tables, app: App, g: GroupId) {
    exists s :: s in t.grants && s.0 == app && (s.1, g) in t.lineage
  }

  lemma ViaGroupIff(t: Tables, sp: AppId, g: GroupId)
    ensures sp in ScimSpsGrantingViaGroup(t, g) <==> IsScimEnabledSp(t, sp) && GrantedToGroup(t, Sp(sp), g)
  {
    if IsScimEnabledSp(t, sp) && GrantedToGroup(t, Sp(sp), g) {
      var s :| s in t.grants && s.0 == Sp(sp) && (s.1, g) in t.lineage;
      var l := (s.1, g);
      assert l in t.lineage && l.0 == s.1 && l.1 == g;
    }
  }

  lemma JoinAccess(t: Tables, us: set<UserId>, gs: set<GroupId>, u: UserId, app: App)
    ensures GrantedThroughGroup(JoinAll(t, us, gs), u, app) <==>
            GrantedThroughGroup(t, u, app) || (u in us && exists g :: g in gs && GrantedToGroup(t, app, g))
  {
    var t' := JoinAll(t, us, gs);
    if GrantedThroughGroup(t, u, app) {
      var m, s :| m in t.members && s in t.grants && m.0 == u && s.0 == app && (s.1, m.1) in t.lineage;
      assert m in t'.members;
    }
    if u in us {
      if g :| g in gs && GrantedToGroup(t, app, g) {
        var m := (u, g);
        assert m in t'.members && m.0 == u && m.1 == g;
      }
    }
    if GrantedThroughGroup(t', u, app) && !GrantedThroughGroup(t, u, app) {
      var m, s :| m in t'.members && s in t'.grants && m.0 == u && s.0 == app && (s.1, m.1) in t'.lineage;
      assert m !in t.members && m.1 in gs && GrantedToGroup(t, app, m.1);
    }
  }

  ghost predicate ReachedVia(t: Tables, gs: set<GroupId>, sp: AppId) {
    exists g :: g in gs && sp in ScimSpsGrantingViaGroup(t, g)
  }

  lemma ReachedViaIff(t: Tables, gs: set<GroupId>, sp: AppId)
    ensures ReachedVia(t, gs, sp) <==> IsScimEnabledSp(t, sp) && exists g :: g in gs && GrantedToGroup(t, Sp(sp), g)
  {
    forall g | g in gs
      ensures sp in ScimSpsGrantingViaGroup(t, g) <==> IsScimEnabledSp(t, sp) && GrantedToGroup(t, Sp(sp), g)
    {
      ViaGroupIff(t, sp, g);
    }
  }

  lemma JoinScope(t: Tables, us: set<UserId>, gs: set<GroupId>, u: UserId, sp: AppId)
    ensures InScope(JoinAll(t, us, gs), u, sp) <==> InScope(t, u, sp) || (u in us && ReachedVia(t, gs, sp))
  {
    ScimListingIsPointwise(t, u, sp);
    ScimListingIsPointwise(JoinAll(t, us, gs), u, sp);
    JoinAccess(t, us, gs, u, Sp(sp));
    ReachedViaIff(t, gs, sp);
  }

  /** A provider the user newly reaches through one of the groups. */
  ghost predicate NewlyReached(w: World, gs: set<GroupId>, sp: AppId, u: UserId) {
    Managed(w, sp, u) && !InScope(w.t, u, sp) && ReachedVia(w.t, gs, sp)
  }

  lemma JoinFlips(w: World, us: set<UserId>, gs: set<GroupId>, sp: AppId, u: UserId)
    requires us <= w.t.users.Keys
    ensures Flips(w, JoinSilently(us, gs), sp, u) <==> u in us && NewlyReached(w, gs, sp, u)
  {
    FlipIsScopeChange(w, JoinSilently(us, gs), sp, u);
    JoinScope(w.t, us, gs, u, sp);
  }

  /**
   Joins whose event has no trigger keep disagreements tracked if and only if every provider a user
   newly reaches already has a row for that user.
   */
  lemma JoinSafeIff(w: World, us: set<UserId>, gs: set<GroupId>, newId: Key -> RowId, failed: set<Key>, now: Time)
    requires Converging(w) && us <= w.t.users.Keys
    ensures Converging(Commit(w, JoinSilently(us, gs), newId, failed, now)) <==>
            forall sp, u :: u in us && NewlyReached(w, gs, sp, u) ==> Promised(w, UserKey(sp, u))
  {
    CommitConvergesIff(w, JoinSilently(us, gs), newId, failed, now);
    forall sp, u
      ensures Flips(w, JoinSilently(us, gs), sp, u) <==> u in us && NewlyReached(w, gs, sp, u)
    {
      JoinFlips(w, us, gs, sp, u);
    }
  }

  // ---------------------------------------------------------------- hierarchy edits

  lemma TransitiveIff(t: Tables, g: GroupId, u: UserId)
    ensures u in TransitiveUserIdsForGroup(t, g) <==> exists m :: m in t.members && m.0 == u && (g, m.1) in t.lineage
  {
    if m :| m in t.members && m.0 == u && (g, m.1) in t.lineage {
      var l := (g, m.1);
      assert l in t.lineage && l.1 == m.1 && l.0 == g;
    }
  }

  ghost predicate CrossRow(before: set<Pair>, now: set<Pair>, p: GroupId, c: GroupId, a: GroupId, d: GroupId) {
    (a, d) in now <==> (a, d) in before || ((a, p) in before && (c, d) in before)
  }

  ghost predicate AddsCross(before: set<Pair>, now: set<Pair>, p: GroupId, c: GroupId) {
    forall a, d :: CrossRow(before, now, p, c, a, d)
  }

  lemma LinkedAddsCross(lineage: map<Pair, nat>, p: GroupId, c: GroupId)
    ensures AddsCross(lineage.Keys, Linked(lineage, p, c).Keys, p, c)
  {
    LinkedIsLinked(lineage, p, c);
    forall a, d
      ensures CrossRow(lineage.Keys, Linked(lineage, p, c).Keys, p, c, a, d)
    {
      assert LinkedRow(lineage, Linked(lineage, p, c), p, c, a, d);
    }
  }

  lemma LinkKeepsAccess(t: Tables, now: set<Pair>, p: GroupId, c: GroupId, u: UserId, app: App)
    requires AddsCross(t.lineage, now, p, c)
    requires GrantedThroughGroup(t, u, app) || (GrantedToGroup(t, app, p) && u in TransitiveUserIdsForGroup(t, c))
    ensures GrantedThroughGroup(t.(lineage := now), u, app)
  {
    if GrantedThroughGroup(t, u, app) {
      var m, s :| m in t.members && s in t.grants && m.0 == u && s.0 == app && (s.1, m.1) in t.lineage;
      assert CrossRow(t.lineage, now, p, c, s.1, m.1);
    } else {
      TransitiveIff(t, c, u);
      var s :| s in t.grants && s.0 == app && (s.1, p) in t.lineage;
      var m :| m in t.members && m.0 == u && (c, m.1) in t.lineage;
      assert CrossRow(t.lineage, now, p, c, s.1, m.1);
    }
  }

  lemma LinkAddsNoOther(t: Tables, now: set<Pair>, p: GroupId, c: GroupId, u: UserId, app: App)
    requires AddsCross(t.lineage, now, p, c) && GrantedThroughGroup(t.(lineage := now), u, app)
    ensures GrantedThroughGroup(t, u, app) || (GrantedToGroup(t, app, p) && u in TransitiveUserIdsForGroup(t, c))
  {
    var m, s :| m in t.members && s in t.grants && m.0 == u && s.0 == app && (s.1, m.1) in now;
    if (s.1, m.1) !in t.lineage {
      assert CrossRow(t.lineage, now, p, c, s.1, m.1);
      TransitiveIff(t, c, u);
    }
  }

  lemma LinkScope(t: Tables, now: set<Pair>, p: GroupId, c: GroupId, u: UserId, sp: AppId)
    requires AddsCross(t.lineage, now, p, c)
    ensures InScope(t.(lineage := now), u, sp) <==>
            InScope(t, u, sp) || (sp in ScimSpsGrantingViaGroup(t, p) && u in TransitiveUserIdsForGroup(t, c))
  {
    var t' := t.(lineage := now);
    ScimListingIsPointwise(t, u, sp);
    ScimListingIsPointwise(t', u, sp);
    ViaGroupIff(t, sp, p);
    if GrantedThroughGroup(t', u, Sp(sp)) {
      LinkAddsNoOther(t, now, p, c, u, Sp(sp));
    } else if GrantedThroughGroup(t, u, Sp(sp)) ||
        (GrantedToGroup(t, Sp(sp), p) && u in TransitiveUserIdsForGroup(t, c)) {
      LinkKeepsAccess(t, now, p, c, u, Sp(sp));
    }
  }

  /** A provider that reaches the parent and a user below the child, not yet joined by access. */
  ghost predicate NewlyLinked(w: World, p: GroupId, c: GroupId, sp: AppId, u: UserId) {
    && Managed(w, sp, u) && u in w.t.users && !InScope(w.t, u, sp)
    && sp in ScimSpsGrantingViaGroup(w.t, p) && u in TransitiveUserIdsForGroup(w.t, c)
  }

  lemma LinkFlips(w: World, now: set<Pair>, p: GroupId, c: GroupId, sp: AppId, u: UserId)
    requires AddsCross(w.t.lineage, now, p, c)
    ensures Flips(w, EditHierarchy(now), sp, u) <==> NewlyLinked(w, p, c, sp, u)
  {
    FlipIsScopeChange(w, EditHierarchy(now), sp, u);
    LinkScope(w.t, now, p, c, u, sp);
  }

  /**
   Adding a child group, whose event has no trigger, keeps disagreements tracked if and only if every
   provider granting the parent already has a row for every newly admitted user below the child.
   */
  lemma AddChildSafeIff(w: World, lineage: map<Pair, nat>, p: GroupId, c: GroupId, newId: Key -> RowId,
                        failed: set<Key>, at: Time)
    requires Converging(w) && w.t.lineage == lineage.Keys
    ensures Converging(Commit(w, EditHierarchy(Linked(lineage, p, c).Keys), newId, failed, at)) <==>
            forall sp, u :: NewlyLinked(w, p, c, sp, u) ==> Promised(w, UserKey(sp, u))
  {
    LinkedAddsCross(lineage, p, c);
    LinkSafeIff(w, Linked(lineage, p, c).Keys, p, c, newId, failed, at);
  }

  lemma LinkSafeIff(w: World, now: set<Pair>, p: GroupId, c: GroupId, newId: Key -> RowId, failed: set<Key>, at: Time)
    requires Converging(w) && AddsCross(w.t.lineage, now, p, c)
    ensures Converging(Commit(w, EditHierarchy(now), newId, failed, at)) <==>
            forall sp, u :: NewlyLinked(w, p, c, sp, u) ==> Promised(w, UserKey(sp, u))
  {
    CommitConvergesIff(w, EditHierarchy(now), newId, failed, at);
    forall sp, u
      ensures Flips(w, EditHierarchy(now), sp, u) <==> NewlyLinked(w, p, c, sp, u)
    {
      LinkFlips(w, now, p, c, sp, u);
    }
  }

  /** Access through the remaining edges. */
  ghost predicate Connected(t: Tables, edges: set<Pair>, u: UserId, app: App) {
    app in t.availableToAll || exists g, m, n: nat ::
        (app, g) in t.grants && (u, m) in t.members && Chain(edges, g, m, n)
  }

  lemma ScopeIsConnection(t: Tables, groups: set<GroupId>, edges: set<Pair>, lineage: map<Pair, nat>, u: UserId,
                          sp: AppId)
    requires Exact(groups, edges, lineage) && t.lineage == lineage.Keys && forall s :: s in t.grants ==> s.1 in groups
    ensures InScope(t, u, sp) <==> IsScimEnabledSp(t, sp) && Connected(t, edges, u, Sp(sp))
  {
    ScimListingIsPointwise(t, u, sp);
    AccessIsReachability(t, groups, edges, lineage, u, Sp(sp));
  }

  lemma SameConnection(t: Tables, lineage: set<Pair>, edges: set<Pair>, u: UserId, app: App)
    ensures Connected(t.(lineage := lineage), edges, u, app) <==> Connected(t, edges, u, app)
  {
  }

  lemma FewerEdges(t: Tables, edges: set<Pair>, fewer: set<Pair>, u: UserId, app: App)
    requires fewer <= edges && Connected(t, fewer, u, app)
    ensures Connected(t, edges, u, app)
  {
    if app !in t.availableToAll {
      var g, m, n: nat :| (app, g) in t.grants && (u, m) in t.members && Chain(fewer, g, m, n);
      WalkMonotone(fewer, edges, g, m, n);
      assert Chain(edges, g, m, n);
    }
  }

  ghost predicate CutOff(w: World, edges: set<Pair>, sp: AppId, u: UserId) {
    Managed(w, sp, u) && Wanted(w.t, u, sp) && !Connected(w.t, edges, u, Sp(sp))
  }

  lemma UnlinkFlips(w: World, groups: set<GroupId>, edges: set<Pair>, lineage: map<Pair, nat>, p: GroupId, c: GroupId,
                    rebuilt: map<Pair, nat>, sp: AppId, u: UserId)
    requires Exact(groups, edges, lineage) && w.t.lineage == lineage.Keys &&
             (forall s :: s in w.t.grants ==> s.1 in groups)
    requires Exact(groups, edges - {(p, c)}, rebuilt)
    ensures Flips(w, EditHierarchy(rebuilt.Keys), sp, u) <==> CutOff(w, edges - {(p, c)}, sp, u)
  {
    var rest := edges - {(p, c)};
    FlipIsScopeChange(w, EditHierarchy(rebuilt.Keys), sp, u);
    ScopeIsConnection(w.t, groups, edges, lineage, u, sp);
    ScopeIsConnection(w.t.(lineage := rebuilt.Keys), groups, rest, rebuilt, u, sp);
    SameConnection(w.t, rebuilt.Keys, rest, u, Sp(sp));
    if Connected(w.t, rest, u, Sp(sp)) {
      FewerEdges(w.t, edges, rest, u, Sp(sp));
    }
  }

  /**
   Removing a relationship, whose event has no trigger, keeps disagreements tracked if and only if
   everyone no longer connected to a provider by the remaining edges already has a row there.
   */
  lemma RemoveChildSafeIff(w: World, groups: set<GroupId>, edges: set<Pair>, lineage: map<Pair, nat>, p: GroupId,
                           c: GroupId, rebuilt: map<Pair, nat>,
                           newId: Key -> RowId, failed: set<Key>, at: Time)
    requires Converging(w)
    requires Exact(groups, edges, lineage) && w.t.lineage == lineage.Keys &&
             (forall s :: s in w.t.grants ==> s.1 in groups)
    requires Exact(groups, edges - {(p, c)}, rebuilt)
    ensures Converging(Commit(w, EditHierarchy(rebuilt.Keys), newId, failed, at)) <==>
            forall sp, u :: CutOff(w, edges - {(p, c)}, sp, u) ==> Promised(w, UserKey(sp, u))
  {
    CommitConvergesIff(w, EditHierarchy(rebuilt.Keys), newId, failed, at);
    forall sp, u
      ensures Flips(w, EditHierarchy(rebuilt.Keys), sp, u) <==> CutOff(w, edges - {(p, c)}, sp, u)
    {
      UnlinkFlips(w, groups, edges, lineage, p, c, rebuilt, sp, u);
    }
  }

  // ---------------------------------------------------------------- worlds where it fails

  /** Provider 1 is granted to group 10; user 5 exists. The rest is given. */
  function SmallTables(members: set<(UserId, GroupId)>): Tables {
    Tables(map[5 := UserRow(false, false, false)], members, {(App(ServiceProvider, 1), 10)}, {(10, 10)}, {},
           map[1 := SpRow("app", true, true, true, false)], {})
  }

  lemma SmallScope(members: set<(UserId, GroupId)>, u: UserId, sp: AppId)
    ensures InScope(SmallTables(members), u, sp) <==> sp == 1 && (u, 10) in members
    ensures sp == 1 ==> ScimSpsGrantingViaGroup(SmallTables(members), 10) == {1}
  {
    var t := SmallTables(members);
    ScimListingIsPointwise(t, u, sp);
    var s, l := (App(ServiceProvider, 1), 10), (10, 10);
    assert s in t.grants && l in t.lineage;
    if (u, 10) in members {
      var m := (u, 10);
      assert m in t.members && m.0 == u && (s.1, m.1) in t.lineage;
    }
  }

  /** User 5 is a member of group 10 and present at provider 1; nothing is queued. */
  function MemberWorld(): World {
    World(SmallTables({(5, 10)}), map[], {(1, 5)}, {1}, 0, map[])
  }

  /** User 5 is in no group and present nowhere; nothing is queued. */
  function OutsiderWorld(): World {
    World(SmallTables({}), map[], {}, {1}, 0, map[])
  }

  lemma MemberWorldConverges()
    ensures Converging(MemberWorld()) && Wanted(MemberWorld().t, 5, 1)
  {
    forall sp, u
      ensures Tracked(MemberWorld(), sp, u)
    {
      MemberTracked(sp, u);
    }
    SmallScope({(5, 10)}, 5, 1);
  }

  lemma MemberTracked(sp: AppId, u: UserId)
    ensures Tracked(MemberWorld(), sp, u)
  {
    SmallScope({(5, 10)}, u, sp);
  }

  lemma OutsiderWorldConverges()
    ensures Converging(OutsiderWorld())
  {
    forall sp, u
      ensures Tracked(OutsiderWorld(), sp, u)
    {
      SmallScope({}, u, sp);
    }
  }

  lemma FlipLosesTrack(w: World, c: Cmd, newId: Key -> RowId, now: Time, sp: AppId, u: UserId)
    requires Tracked(w, sp, u) && Allowed(w.t, c) && Flips(w, c, sp, u) && w.q == map[] && w.jobs == map[] &&
             Fired(w.t, c) == {}
    ensures var w' := Commit(w, c, newId, {}, now);
            !Converging(w') && w'.q == map[] && Managed(w', sp, u) && !Agrees(w', sp, u)
  {
    PairTrackedIff(w, c, newId, {}, now, sp, u);
    assert !Tracked(Commit(w, c, newId, {}, now), sp, u);
  }

  lemma MemberHasNoOther(members: set<(UserId, GroupId)>)
    ensures !ReachesWithout(SmallTables(members), 5, Sp(1), {10})
  {
  }

  /** Deleting the group leaves its member at the receiver, without access and without a row. */
  lemma DeletedGroupLosesTrack(newId: Key -> RowId, now: Time)
    ensures var w, w' := MemberWorld(), Commit(MemberWorld(), DeleteGroup(10), newId, {}, now);
            && Converging(w) && !Converging(w')
            && w'.q == map[] && Managed(w', 1, 5) && !Agrees(w', 1, 5)
  {
    var w := MemberWorld();
    MemberWorldConverges();
    assert Tracked(w, 1, 5);
    MemberHasNoOther({(5, 10)});
    DropFlips(w, DeleteGroup(10), {10}, 1, 5);
    DeletionFiresNothing(w.t, 10);
    FlipLosesTrack(w, DeleteGroup(10), newId, now, 1, 5);
  }

  lemma OutsiderNewlyReaches()
    ensures NewlyReached(OutsiderWorld(), {10}, 1, 5)
  {
    SmallScope({}, 5, 1);
    assert 10 in {10} && 1 in ScimSpsGrantingViaGroup(OutsiderWorld().t, 10);
  }

  /** A silent join gives the user access the receiver never hears of. */
  lemma SilentJoinLosesTrack(newId: Key -> RowId, now: Time)
    ensures var w, w' := OutsiderWorld(), Commit(OutsiderWorld(), JoinSilently({5}, {10}), newId, {}, now);
            && Converging(w) && !Converging(w')
            && w'.q == map[] && Managed(w', 1, 5) && !Agrees(w', 1, 5)
  {
    var w := OutsiderWorld();
    OutsiderWorldConverges();
    assert Tracked(w, 1, 5);
    OutsiderNewlyReaches();
    JoinFlips(w, {5}, {10}, 1, 5);
    FlipLosesTrack(w, JoinSilently({5}, {10}), newId, now, 1, 5);
  }

  /** So does deleting the group with its identity provider. */
  lemma InvalidatedGroupLosesTrack(newId: Key -> RowId, now: Time)
    ensures var w, w' := MemberWorld(), Commit(MemberWorld(), InvalidateGroups({10}), newId, {}, now);
            && Converging(w) && !Converging(w')
            && w'.q == map[] && Managed(w', 1, 5) && !Agrees(w', 1, 5)
  {
    var w := MemberWorld();
    MemberWorldConverges();
    assert Tracked(w, 1, 5);
    MemberHasNoOther({(5, 10)});
    DropFlips(w, InvalidateGroups({10}), {10}, 1, 5);
    FlipLosesTrack(w, InvalidateGroups({10}), newId, now, 1, 5);
  }

  // ---------------------------------------------------------------- hierarchy edits that lose track

  /** Groups 10 and 11, linked or not: the closure of one edge or of none. */
  function ChainLineage(linked: bool): set<Pair> {
    {(10, 10), (11, 11)} + if linked then {(10, 11)} else {}
  }

  function ChainEdges(linked: bool): set<Pair> {
    if linked then {(10, 11)} else {}
  }

  lemma {:induction false} OneEdgeWalk(edges: set<Pair>, a: GroupId, d: GroupId, n: nat)
    requires edges <= {(10, 11)} && Walk(edges, a, d, n)
    ensures (n == 0 && a == d) || (n == 1 && a == 10 && d == 11 && (10, 11) in edges)
    decreases n
  {
    if n > 0 {
      var m :| (a, m) in edges && Walk(edges, m, d, n - 1);
      OneEdgeWalk(edges, m, d, n - 1);
    }
  }

  function ChainDepths(linked: bool): map<Pair, nat> {
    map k | k in ChainLineage(linked) :: if k.0 == k.1 then 0 else 1
  }

  /** Both closures are exact, so each is what adding or removing the child leaves. */
  lemma ChainIsExact(groups: set<GroupId>, edges: set<Pair>, linked: bool)
    requires groups == {10, 11} && edges == ChainEdges(linked)
    ensures Exact(groups, edges, ChainDepths(linked)) && ChainDepths(linked).Keys == ChainLineage(linked)
  {
    var lineage := ChainDepths(linked);
    forall a, d, n: nat | a in groups && Chain(edges, a, d, n)
      ensures (a, d) in lineage && lineage[(a, d)] <= n
    {
      OneEdgeWalk(edges, a, d, n);
    }
    forall a, d | (a, d) in lineage
      ensures a in groups && d in groups && Chain(edges, a, d, lineage[(a, d)])
    {
      assert Walk(edges, d, d, 0);
    }
  }

  /** Provider 1 is granted to group 10, user 5 is a member of group 11. */
  function ChainTables(linked: bool): Tables {
    Tables(map[5 := UserRow(false, false, false)], {(5, 11)}, {(App(ServiceProvider, 1), 10)}, ChainLineage(linked), {},
           map[1 := SpRow("app", true, true, true, false)], {})
  }

  function ChainWorld(linked: bool): World {
    World(ChainTables(linked), map[], if linked then {(1, 5)} else {}, {1}, 0, map[])
  }

  lemma ChainScope(linked: bool, u: UserId, sp: AppId)
    ensures InScope(ChainTables(linked), u, sp) <==> sp == 1 && u == 5 && linked
  {
    var t := ChainTables(linked);
    ScimListingIsPointwise(t, u, sp);
    var m, s := (5, 11), (App(ServiceProvider, 1), 10);
    assert m in t.members && s in t.grants;
    assert (s.1, m.1) in t.lineage <==> linked;
  }

  lemma ChainWorldConverges(linked: bool)
    ensures Converging(ChainWorld(linked))
  {
    forall sp, u
      ensures Tracked(ChainWorld(linked), sp, u)
    {
      ChainTracked(linked, sp, u);
    }
  }

  lemma ChainTracked(linked: bool, sp: AppId, u: UserId)
    ensures Tracked(ChainWorld(linked), sp, u)
  {
    ChainScope(linked, u, sp);
  }

  lemma ChainEdited(linked: bool)
    ensures Change(ChainTables(linked), EditHierarchy(ChainLineage(!linked))) == ChainTables(!linked)
  {
  }

  lemma ChainFlips(linked: bool)
    ensures Flips(ChainWorld(linked), EditHierarchy(ChainLineage(!linked)), 1, 5)
  {
    ChainScope(linked, 5, 1);
    ChainScope(!linked, 5, 1);
    ChainEdited(linked);
    FlipIsScopeChange(ChainWorld(linked), EditHierarchy(ChainLineage(!linked)), 1, 5);
  }

  /** Removing the child leaves its member at the receiver; adding it gives access the receiver never hears of. */
  lemma HierarchyEditLosesTrack(linked: bool, newId: Key -> RowId, now: Time)
    ensures var w := ChainWorld(linked);
            var w' := Commit(w, EditHierarchy(ChainLineage(!linked)), newId, {}, now);
            && Converging(w) && !Converging(w')
            && w'.q == map[] && Managed(w', 1, 5) && !Agrees(w', 1, 5)
  {
    ChainWorldConverges(linked);
    assert Tracked(ChainWorld(linked), 1, 5);
    ChainFlips(linked);
    FlipLosesTrack(ChainWorld(linked), EditHierarchy(ChainLineage(!linked)), newId, now, 1, 5);
  }

  // ---------------------------------------------------------------- triggers that cross

  /** User 5 leaves group 10, then provider 1 is unassigned from group 10; neither trigger has run yet. */
  function CrossedWorld(): World {
    Changed(Changed(MemberWorld(), 0, RemoveMembers(10, {5})), 1, UnassignGroup(1, 10))
  }

  /** The tables after both changes: no member and no grant is left. */
  function EmptyTables(): Tables {
    SmallTables({}).(grants := {})
  }

  lemma CrossedTables()
    ensures Change(SmallTables({(5, 10)}), RemoveMembers(10, {5})) == SmallTables({})
    ensures CrossedWorld().t == EmptyTables()
  {
    var us: set<UserId> := {5};
    assert 5 in us;
    assert {(5, 10)} - (set u | u in us :: (u, 10)) == {};
    assert {(App(ServiceProvider, 1), 10)} - {(App(ServiceProvider, 1), 10)} == {};
  }

  lemma NothingToFind(u: UserId, sp: AppId)
    ensures UserKey(sp, u) !in MembershipKeys(EmptyTables(), 10, {5}) &&
            UserKey(sp, u) !in GrantKeys(EmptyTables(), 1, {10})
  {
    assert ScimSpsGrantingViaGroup(EmptyTables(), 10) == {};
    assert forall g :: TransitiveUserIdsForGroup(EmptyTables(), g) == {};
  }

  lemma CrossedKeys()
    ensures CrossedWorld().jobs.Keys == {0, 1}
    ensures UserKey(1, 5) !in KeysNow(CrossedWorld(), CrossedWorld().jobs[0])
    ensures UserKey(1, 5) !in KeysNow(CrossedWorld(), CrossedWorld().jobs[1])
  {
    CrossedTables();
    NothingToFind(5, 1);
    assert CrossedWorld().jobs[0].c == RemoveMembers(10, {5}) && CrossedWorld().jobs[1].c == UnassignGroup(1, 10);
  }

  lemma FireMisses(w: World, i: nat, newId: Key -> RowId, now: Time, k: Key)
    requires i in w.jobs && k !in w.q && k !in KeysNow(w, w.jobs[i])
    ensures var w' := Fire(w, i, newId, {}, now);
            k !in w'.q && w'.t == w.t && w'.remote == w.remote && w'.targets == w.targets && w'.jobs == w.jobs - {i}
  {
  }

  lemma CrossedConverges()
    ensures Converging(CrossedWorld()) && 0 in CrossedWorld().jobs && 1 in CrossedWorld().jobs
  {
    MemberWorldConverges();
    ChangedConverges(MemberWorld(), 0, RemoveMembers(10, {5}));
    ChangedConverges(Changed(MemberWorld(), 0, RemoveMembers(10, {5})), 1, UnassignGroup(1, 10));
  }

  lemma EmptyScope(u: UserId, sp: AppId)
    ensures !InScope(EmptyTables(), u, sp)
  {
    ScimListingIsPointwise(EmptyTables(), u, sp);
  }

  lemma CrossedDisagrees(w: World)
    requires w.t == EmptyTables() && w.remote == {(1, 5)} && w.targets == {1}
    ensures Managed(w, 1, 5) && !Agrees(w, 1, 5)
  {
    EmptyScope(5, 1);
  }

  /**
   Two triggered changes whose enqueues all succeed, the triggers running after both: the first finds
   no provider granting the group, the second no member of it. The receiver keeps the user, nothing is
   owed any more and no row for the pair was ever queued. The first trigger is the unsafe step.
   */
  lemma CrossedTriggersLoseTrack(newId: Key -> RowId, now: Time)
    ensures var w := CrossedWorld();
            && Converging(MemberWorld()) && Converging(w) && 0 in w.jobs && !FireSafe(w, 0, {})
            && var w1 := Fire(w, 0, newId, {}, now);
               && 1 in w1.jobs
               && var w2 := Fire(w1, 1, newId, {}, now);
                  w2.jobs == map[] && UserKey(1, 5) !in w2.q && Managed(w2, 1, 5) && !Agrees(w2, 1, 5)
  {
    MemberWorldConverges();
    CrossedConverges();
    CrossedTables();
    CrossedKeys();
    SecondOwesNothing();
    CrossedOutcome(CrossedWorld(), newId, now);
  }

  lemma CrossedOutcome(w: World, newId: Key -> RowId, now: Time)
    requires w.t == EmptyTables() && w.remote == {(1, 5)} && w.targets == {1} && UserKey(1, 5) !in w.q &&
             w.jobs.Keys == {0, 1}
    requires UserKey(1, 5) !in KeysNow(w, w.jobs[0]) && UserKey(1, 5) !in KeysNow(w, w.jobs[1])
    requires UserKey(1, 5) !in w.jobs[1].owes && Converging(w)
    ensures !FireSafe(w, 0, {})
    ensures var w1 := Fire(w, 0, newId, {}, now);
            && 1 in w1.jobs
            && var w2 := Fire(w1, 1, newId, {}, now);
               w2.jobs == map[] && UserKey(1, 5) !in w2.q && Managed(w2, 1, 5) && !Agrees(w2, 1, 5)
  {
    var w1 := Fire(w, 0, newId, {}, now);
    FireMisses(w, 0, newId, now, UserKey(1, 5));
    FireMisses(w1, 1, newId, now, UserKey(1, 5));
    CrossedDisagrees(w1);
    CrossedDisagrees(Fire(w1, 1, newId, {}, now));
    assert w.jobs - {0} - {1} == map[];
    FireConvergesIff(w, 0, newId, {}, now);
    assert !Tracked(w1, 1, 5);
  }

  /** By then the user has no access to lose, so the second change owes nothing. */
  lemma SecondOwesNothing()
    ensures UserKey(1, 5) !in CrossedWorld().jobs[1].owes
  {
    CrossedTables();
    SmallScope({}, 5, 1);
    var w := Changed(MemberWorld(), 0, RemoveMembers(10, {5}));
    EmptyScope(5, 1);
    OwesFlips(w, UnassignGroup(1, 10), 1, 5);
  }
}
