/**
 Who may use which app. One decision is written many times over: as a point query, as a
 left-join listing, as union listings, as grouped counts, and as the fan-out queries that
 choose what to re-push after a change. The lemmas here tie all of them to one definition
 and that definition to the group hierarchy.
 */
module Access {
  import opened Basics
  import opened GroupGraph

  type UserId = int
  type AppId = int

  datatype Result<+T> = Ok(value: T) | ValueError

  /** The three nullable foreign keys of `sp_group_assignments`, exactly one of which is set. */
  datatype AppKind = ServiceProvider | ProxyApp | OAuth2Client
  datatype App = App(kind: AppKind, id: AppId)

  datatype UserRow = UserRow(inactivated: bool, anonymized: bool, serviceAccount: bool)
  datatype SpRow = SpRow(name: string, enabled: bool, trustEstablished: bool, scimEnabled: bool, directMode: bool)

  datatype Tables = Tables(
    users: map<UserId, UserRow>,
    members: set<(UserId, GroupId)>,
    grants: set<(App, GroupId)>,
    lineage: set<Pair>,
    availableToAll: set<App>,
    sps: map<AppId, SpRow>,
    logos: set<(AppId, Time)>)

  // ---------------------------------------------------------------- the point query

  /** A membership, a lineage row and an assignment that join. */
  predicate GrantedThroughGroup(t: Tables, u: UserId, app: App) {
    exists m, s :: m in t.members && s in t.grants && m.0 == u && s.0 == app && (s.1, m.1) in t.lineage
  }

  predicate CanAccess(t: Tables, u: UserId, app: App) {
    app in t.availableToAll || GrantedThroughGroup(t, u, app)
  }

  function Selected(flags: seq<(AppKind, bool)>): (r: seq<AppKind>) {
    if flags == [] then [] else (if flags[0].1 then [flags[0].0] else []) + Selected(flags[1..])
  }

  /** `user_can_access_app`: exactly one kind must be selected, otherwise the call is an error. */
  function UserCanAccessApp(t: Tables, u: UserId, id: AppId, sp: bool, proxy: bool, client: bool): (r: Result<bool>)
    ensures r.ValueError? <==> (sp && proxy) || (sp && client) || (proxy && client) || (!sp && !proxy && !client)
    ensures r.Ok? && sp ==> (r.value <==> CanAccess(t, u, App(ServiceProvider, id)))
    ensures r.Ok? && proxy ==> (r.value <==> CanAccess(t, u, App(ProxyApp, id)))
    ensures r.Ok? && client ==> (r.value <==> CanAccess(t, u, App(OAuth2Client, id)))
  {
    var selected := Selected([(ServiceProvider, sp), (ProxyApp, proxy), (OAuth2Client, client)]);
    assert Selected([(ProxyApp, proxy), (OAuth2Client, client)]) ==
           (if proxy then [ProxyApp] else []) + (if client then [OAuth2Client] else []) by {
      assert [(ProxyApp, proxy), (OAuth2Client, client)][1..] == [(OAuth2Client, client)];
      assert Selected([(OAuth2Client, client)]) == if client then [OAuth2Client] else [];
    }
    assert [(ServiceProvider, sp), (ProxyApp, proxy), (OAuth2Client, client)][1..] ==
        [(ProxyApp, proxy), (OAuth2Client, client)];
    if |selected| != 1 then ValueError else Ok(CanAccess(t, u, App(selected[0], id)))
  }

  /**
   With an exact closure table, access means a chain of edges from a granted group down to one of the
   user's groups.
   */
  lemma AccessIsReachability(t: Tables, groups: set<GroupId>, edges: set<Pair>, lineage: map<Pair, nat>, u: UserId,
                             app: App)
    requires Exact(groups, edges, lineage) && t.lineage == lineage.Keys
    requires forall s :: s in t.grants ==> s.1 in groups
    ensures CanAccess(t, u, app) <==>
            || app in t.availableToAll
            || (exists g, m, n: nat :: (app, g) in t.grants && (u, m) in t.members && Chain(edges, g, m, n))
  {
    if GrantedThroughGroup(t, u, app) {
      var m, s :| m in t.members && s in t.grants && m.0 == u && s.0 == app && (s.1, m.1) in t.lineage;
      assert (app, s.1) in t.grants && (u, m.1) in t.members;
      assert Chain(edges, s.1, m.1, lineage[(s.1, m.1)]);
    }
    if g, m, n: nat :| (app, g) in t.grants && (u, m) in t.members && Chain(edges, g, m, n) {
      var member, grant := (u, m), (app, g);
      assert member in t.members && grant in t.grants && (grant.1, member.1) in t.lineage;
    }
  }

  // ---------------------------------------------------------------- the left-join listing

  /** A row of `service_providers left join sp_group_assignments`. */
  datatype GrantRow = GrantRow(sp: AppId, group: Option<GroupId>)
  datatype LineageRow = LineageRow(sp: AppId, group: Option<GroupId>, below: Option<GroupId>)
  datatype MemberRow = MemberRow(sp: AppId, group: Option<GroupId>, below: Option<GroupId>, user: Option<UserId>)

  function JoinGrants(t: Tables): (rows: set<GrantRow>) {
    (set s | s in t.grants && s.0.kind.ServiceProvider? && s.0.id in t.sps :: GrantRow(s.0.id, Some(s.1))) +
    (set sp | sp in t.sps && !(exists s :: s in t.grants && s.0 == App(ServiceProvider, sp)) :: GrantRow(sp, None))
  }

  function JoinLineage(t: Tables, rows: set<GrantRow>): (joined: set<LineageRow>) {
    (set r, l | r in rows && l in t.lineage && r.group == Some(l.0) :: LineageRow(r.sp, r.group, Some(l.1))) +
    (set r | r in rows && !(exists l :: l in t.lineage && r.group == Some(l.0)) :: LineageRow(r.sp, r.group, None))
  }

  function JoinMembers(t: Tables, u: UserId, rows: set<LineageRow>): (joined: set<MemberRow>) {
    (set r, m | r in rows && m in t.members && m.0 == u &&
        r.below == Some(m.1) :: MemberRow(r.sp, r.group, r.below, Some(m.0))) +
    (set r | r in rows && !(exists m :: m in t.members && m.0 == u && r.below == Some(m.1)) ::
        MemberRow(r.sp, r.group, r.below, None))
  }

  /** `scim_sps_granting_user`: the ids selected by the left-join query. */
  function ScimSpsGrantingUser(t: Tables, u: UserId): (ids: set<AppId>) {
    set r | r in JoinMembers(t, u, JoinLineage(t, JoinGrants(t))) && r.sp in t.sps && t.sps[r.sp].scimEnabled &&
      (App(ServiceProvider, r.sp) in t.availableToAll || r.user.Some?) :: r.sp
  }

  /** Each provider has at least one row after the first join, and each row after a join extends one before it. */
  lemma JoinsKeepProvider(t: Tables, u: UserId, sp: AppId) returns (r: MemberRow)
    requires sp in t.sps
    ensures r in JoinMembers(t, u, JoinLineage(t, JoinGrants(t))) && r.sp == sp
  {
    var grants := JoinGrants(t);
    var r1: GrantRow;
    if s :| s in t.grants && s.0 == App(ServiceProvider, sp) {
      r1 := GrantRow(sp, Some(s.1));
    } else {
      r1 := GrantRow(sp, None);
    }
    assert r1 in grants;
    var lineages := JoinLineage(t, grants);
    var r2: LineageRow;
    if l :| l in t.lineage && r1.group == Some(l.0) {
      r2 := LineageRow(sp, r1.group, Some(l.1));
    } else {
      r2 := LineageRow(sp, r1.group, None);
    }
    assert r2 in lineages;
    if m :| m in t.members && m.0 == u && r2.below == Some(m.1) {
      r := MemberRow(sp, r2.group, r2.below, Some(u));
    } else {
      r := MemberRow(sp, r2.group, r2.below, None);
    }
  }

  /** The left joins, with their null rows, select exactly the SCIM-enabled providers the point query accepts. */
  lemma ScimListingIsPointwise(t: Tables, u: UserId, sp: AppId)
    ensures sp in ScimSpsGrantingUser(t, u) <==>
            sp in t.sps && t.sps[sp].scimEnabled && CanAccess(t, u, App(ServiceProvider, sp))
  {
    var rows := JoinMembers(t, u, JoinLineage(t, JoinGrants(t)));
    if sp in ScimSpsGrantingUser(t, u) && App(ServiceProvider, sp) !in t.availableToAll {
      var r :| r in rows && r.sp == sp && r.user.Some?;
      MatchedRowJoins(t, u, r);
    }
    if sp in t.sps && t.sps[sp].scimEnabled && CanAccess(t, u, App(ServiceProvider, sp)) {
      if GrantedThroughGroup(t, u, App(ServiceProvider, sp)) {
        var m, s :| m in t.members && s in t.grants && m.0 == u && s.0 == App(ServiceProvider, sp) &&
            (s.1, m.1) in t.lineage;
        var r1, l := GrantRow(sp, Some(s.1)), (s.1, m.1);
        assert r1 in JoinGrants(t) && l in t.lineage;
        var r2 := LineageRow(sp, Some(s.1), Some(m.1));
        assert r2 in JoinLineage(t, JoinGrants(t));
        assert MemberRow(sp, Some(s.1), Some(m.1), Some(u)) in rows;
      } else {
        var r := JoinsKeepProvider(t, u, sp);
      }
    }
  }

  lemma MatchedRowJoins(t: Tables, u: UserId, r: MemberRow)
    requires r in JoinMembers(t, u, JoinLineage(t, JoinGrants(t))) && r.user.Some?
    ensures r.sp in t.sps && GrantedThroughGroup(t, u, App(ServiceProvider, r.sp))
  {
  }

  // ---------------------------------------------------------------- the union listings

  /** Ids selected by the inner-join arm and the open arm of every `get_accessible_*` / `get_launchable_*` query. */
  function UnionListing(t: Tables, u: UserId, kind: AppKind, eligible: set<AppId>): (ids: set<AppId>) {
    (set s, l, m | s in t.grants && l in t.lineage && m in t.members &&
       s.0.kind == kind && s.0.id in eligible && l.0 == s.1 && m.1 == l.1 && m.0 == u :: s.0.id) +
    (set id | id in eligible && App(kind, id) in t.availableToAll)
  }

  lemma UnionListingIsPointwise(t: Tables, u: UserId, kind: AppKind, eligible: set<AppId>, id: AppId)
    ensures id in UnionListing(t, u, kind, eligible) <==> id in eligible && CanAccess(t, u, App(kind, id))
  {
  }

  /** The columns both arms of `get_accessible_sps_for_user` project. */
  datatype SpListing = SpListing(id: AppId, name: string, logoUpdatedAt: Option<Time>)

  /** A row of the first arm's join before projection. */
  datatype ArmRow = ArmRow(listing: SpListing, granted: GroupId, below: GroupId, user: UserId)

  predicate IsLaunchable(t: Tables, sp: AppId) {
    sp in t.sps && t.sps[sp].enabled && t.sps[sp].trustEstablished
  }

  /** `sp_logos_pkey`. */
  ghost predicate UniqueLogos(t: Tables) {
    forall a, b :: a in t.logos && b in t.logos && a.0 == b.0 ==> a == b
  }

  /** `service_providers left join sp_logos`. */
  function JoinLogos(t: Tables): (rows: set<SpListing>) {
    (set sp, l | sp in t.sps && l in t.logos && l.0 == sp :: SpListing(sp, t.sps[sp].name, Some(l.1))) +
    (set sp | sp in t.sps && !(exists l :: l in t.logos && l.0 == sp) :: SpListing(sp, t.sps[sp].name, None))
  }

  /** Assignments, lineage and memberships of the user, joined. */
  function JoinPaths(t: Tables, u: UserId): (rows: set<(App, GroupId, GroupId)>) {
    set s, m | s in t.grants && m in t.members && m.0 == u && (s.1, m.1) in t.lineage :: (s.0, s.1, m.1)
  }

  /** The first arm: one row for every path that grants the provider. */
  function GrantedArm(t: Tables, u: UserId): (rows: set<ArmRow>) {
    set r, x | r in JoinLogos(t) && x in JoinPaths(t, u) && x.0 == App(ServiceProvider, r.id) &&
        IsLaunchable(t, r.id) ::
      ArmRow(r, x.1, x.2, u)
  }

  /** The second arm: providers open to all. */
  function OpenArm(t: Tables): (rows: set<SpListing>) {
    set r | r in JoinLogos(t) && App(ServiceProvider, r.id) in t.availableToAll && IsLaunchable(t, r.id)
  }

  /** `get_accessible_sps_for_user`: the distinct rows of both arms. */
  function AccessibleSps(t: Tables, u: UserId): (rows: set<SpListing>) {
    (set x | x in GrantedArm(t, u) :: x.listing) + OpenArm(t)
  }

  lemma PathIsGrant(t: Tables, u: UserId, app: App)
    ensures (exists x :: x in JoinPaths(t, u) && x.0 == app) <==> GrantedThroughGroup(t, u, app)
  {
    if GrantedThroughGroup(t, u, app) {
      var m, s :| m in t.members && s in t.grants && m.0 == u && s.0 == app && (s.1, m.1) in t.lineage;
      var x := (s.0, s.1, m.1);
      assert x in JoinPaths(t, u) && x.0 == app;
    }
  }

  lemma ArmIsJoined(t: Tables, u: UserId, r: SpListing)
    ensures r in (set x | x in GrantedArm(t, u) :: x.listing) <==>
            r in JoinLogos(t) && IsLaunchable(t, r.id) && exists x ::
                x in JoinPaths(t, u) && x.0 == App(ServiceProvider, r.id)
  {
    if r in JoinLogos(t) && IsLaunchable(t, r.id) {
      if x :| x in JoinPaths(t, u) && x.0 == App(ServiceProvider, r.id) {
        var row := ArmRow(r, x.1, x.2, u);
        assert row in GrantedArm(t, u) && row.listing == r;
      }
    }
  }

  lemma ListedIsJoined(t: Tables, u: UserId, r: SpListing)
    ensures r in AccessibleSps(t, u) <==>
            r in JoinLogos(t) && IsLaunchable(t, r.id) && CanAccess(t, u, App(ServiceProvider, r.id))
  {
    ArmIsJoined(t, u, r);
    PathIsGrant(t, u, App(ServiceProvider, r.id));
  }

  /** The left join has a row for every provider, and with unique logos only one. */
  lemma LogoRowExists(t: Tables, sp: AppId) returns (r: SpListing)
    requires sp in t.sps
    ensures r in JoinLogos(t) && r.id == sp
  {
    if l :| l in t.logos && l.0 == sp {
      r := SpListing(sp, t.sps[sp].name, Some(l.1));
    } else {
      r := SpListing(sp, t.sps[sp].name, None);
    }
  }

  lemma LogoColumns(t: Tables, r: SpListing)
    requires r in JoinLogos(t)
    ensures r.id in t.sps && r.name == t.sps[r.id].name
    ensures r.logoUpdatedAt.Some? <==> exists l :: l in t.logos && l.0 == r.id
  {
  }

  lemma LogoRowUnique(t: Tables, r: SpListing, r': SpListing)
    requires UniqueLogos(t) && r in JoinLogos(t) && r' in JoinLogos(t) && r.id == r'.id
    ensures r == r'
  {
  }

  /**
   A provider is listed exactly when it is launchable and open to the user, and however many paths
   grant it, in one row.
   */
  lemma AccessibleSpsOnce(t: Tables, u: UserId, sp: AppId)
    requires UniqueLogos(t)
    ensures (exists r :: r in AccessibleSps(t, u) && r.id == sp) <==>
            && sp in t.sps && t.sps[sp].enabled && t.sps[sp].trustEstablished
            && CanAccess(t, u, App(ServiceProvider, sp))
    ensures forall r :: r in AccessibleSps(t, u) ==>
              && r.id in t.sps && r.name == t.sps[r.id].name
              && (r.logoUpdatedAt.Some? <==> exists l :: l in t.logos && l.0 == r.id)
    ensures forall r, r' :: r in AccessibleSps(t, u) && r' in AccessibleSps(t, u) && r.id == r'.id ==> r == r'
  {
    forall r | r in AccessibleSps(t, u)
      ensures r.id in t.sps && r.name == t.sps[r.id].name
      ensures r.logoUpdatedAt.Some? <==> exists l :: l in t.logos && l.0 == r.id
    {
      ListedIsJoined(t, u, r);
      LogoColumns(t, r);
    }
    forall r, r' | r in AccessibleSps(t, u) && r' in AccessibleSps(t, u) && r.id == r'.id
      ensures r == r'
    {
      ListedIsJoined(t, u, r);
      ListedIsJoined(t, u, r');
      LogoRowUnique(t, r, r');
    }
    if r :| r in AccessibleSps(t, u) && r.id == sp {
      ListedIsJoined(t, u, r);
    }
    if IsLaunchable(t, sp) && CanAccess(t, u, App(ServiceProvider, sp)) {
      var r := LogoRowExists(t, sp);
      ListedIsJoined(t, u, r);
    }
  }

  // ---------------------------------------------------------------- the grouped count

  predicate Active(t: Tables, u: UserId) {
    u in t.users && !t.users[u].inactivated && !t.users[u].anonymized
  }

  /** The `sp_id` column of an assignment: null for proxy apps and OAuth2 clients. */
  function SpColumn(app: App): Option<AppId> {
    if app.kind.ServiceProvider? then Some(app.id) else None
  }

  /** Assignments joined with lineage: each app with every group it reaches. */
  function GrantedGroups(t: Tables): (rows: set<(App, GroupId)>) {
    set s, l | s in t.grants && l in t.lineage && l.0 == s.1 :: (s.0, l.1)
  }

  /** Distinct (sp_id, user_id) pairs of the joined rows. */
  function CountedPairs(t: Tables): (pairs: set<(Option<AppId>, UserId)>) {
    set r, m | r in GrantedGroups(t) && m in t.members && m.1 == r.1 && Active(t, m.0) :: (SpColumn(r.0), m.0)
  }

  function UsersCounted(t: Tables, column: Option<AppId>): (us: set<UserId>) {
    set p | p in CountedPairs(t) && p.0 == column :: p.1
  }

  /** `count_user_access_for_sps`: one entry per grouped key, counting distinct users. */
  function CountUserAccessForSps(t: Tables): (counts: map<Option<AppId>, nat>) {
    map column | column in (set p | p in CountedPairs(t) :: p.0) :: |UsersCounted(t, column)|
  }

  lemma CountedIsGranted(t: Tables, column: Option<AppId>, u: UserId) returns (app: App)
    requires (column, u) in CountedPairs(t)
    ensures Active(t, u) && SpColumn(app) == column && GrantedThroughGroup(t, u, app)
  {
    var r, m :| r in GrantedGroups(t) && m in t.members && m.1 == r.1 && Active(t, m.0) &&
        (SpColumn(r.0), m.0) == (column, u);
    var s, l :| s in t.grants && l in t.lineage && l.0 == s.1 && (s.0, l.1) == r;
    assert (s.1, m.1) == l;
    app := s.0;
  }

  lemma GrantedIsCounted(t: Tables, app: App, u: UserId)
    requires Active(t, u) && GrantedThroughGroup(t, u, app)
    ensures (SpColumn(app), u) in CountedPairs(t)
  {
    var m, s :| m in t.members && s in t.grants && m.0 == u && s.0 == app && (s.1, m.1) in t.lineage;
    var l := (s.1, m.1);
    assert l in t.lineage && l.0 == s.1;
    var r := (app, m.1);
    assert r in GrantedGroups(t);
  }

  lemma CountedIffGranted(t: Tables, sp: AppId, u: UserId)
    ensures (Some(sp), u) in CountedPairs(t) <==> Active(t, u) && GrantedThroughGroup(t, u, App(ServiceProvider, sp))
  {
  }

  lemma CountIsActiveUsers(t: Tables, sp: AppId)
    ensures var granted := set u | u in t.users && Active(t, u) && GrantedThroughGroup(t, u, App(ServiceProvider, sp));
            var counts := CountUserAccessForSps(t);
            && (Some(sp) in counts <==> granted != {})
            && (Some(sp) in counts ==> counts[Some(sp)] == |granted|)
  {
    var granted := set u | u in t.users && Active(t, u) && GrantedThroughGroup(t, u, App(ServiceProvider, sp));
    forall u
      ensures u in granted <==> (Some(sp), u) in CountedPairs(t)
    {
      CountedIffGranted(t, sp, u);
    }
    GroupedCount(CountedPairs(t), Some(sp), granted);
    assert UsersCounted(t, Some(sp)) == granted;
  }

  /**
   The count of a provider is the number of active users the point query admits through a group; a
   provider with none has no entry.
   */
  lemma CountIsDistinctUsers(t: Tables, sp: AppId)
    ensures var granted := set u | u in t.users && !t.users[u].inactivated && !t.users[u].anonymized &&
                                   GrantedThroughGroup(t, u, App(ServiceProvider, sp));
            var counts := CountUserAccessForSps(t);
            && (Some(sp) in counts <==> granted != {})
            && (Some(sp) in counts ==> counts[Some(sp)] == |granted|)
  {
    var granted := set u | u in t.users && !t.users[u].inactivated && !t.users[u].anonymized &&
                           GrantedThroughGroup(t, u, App(ServiceProvider, sp));
    assert granted == set u | u in t.users && Active(t, u) && GrantedThroughGroup(t, u, App(ServiceProvider, sp));
    CountIsActiveUsers(t, sp);
  }

  /** Grouping pairs by their first column. */
  lemma GroupedCount<K, V>(pairs: set<(K, V)>, key: K, values: set<V>)
    requires forall v :: v in values <==> (key, v) in pairs
    ensures (set p | p in pairs && p.0 == key :: p.1) == values
    ensures key in (set p | p in pairs :: p.0) <==> values != {}
  {
  }

  /** Grants of the other app kinds are grouped together under the null key, which is no provider. */
  lemma NullKeyIsOtherKinds(t: Tables)
    ensures None in CountUserAccessForSps(t) <==>
            exists app: App, u :: !app.kind.ServiceProvider? && Active(t, u) && GrantedThroughGroup(t, u, app)
  {
    if None in CountUserAccessForSps(t) {
      var p :| p in CountedPairs(t) && p.0 == None;
      var app := CountedIsGranted(t, None, p.1);
    }
    if app: App, u :| !app.kind.ServiceProvider? && Active(t, u) && GrantedThroughGroup(t, u, app) {
      GrantedIsCounted(t, app, u);
      NullKeyCounted(CountedPairs(t), u);
    }
  }

  lemma NullKeyCounted(pairs: set<(Option<AppId>, UserId)>, u: UserId)
    requires (None, u) in pairs
    ensures None in (set p | p in pairs :: p.0)
  {
  }

  /** One proxy app granted to the group of one active user: no provider at all, and the result has an entry. */
  lemma NullKeyExample()
    ensures var t := Tables(map[5 := UserRow(false, false, false)], {(5, 10)}, {(App(ProxyApp, 7), 10)}, {(10, 10)},
            {}, map[], {});
            None in CountUserAccessForSps(t)
  {
    var t := Tables(map[5 := UserRow(false, false, false)], {(5, 10)}, {(App(ProxyApp, 7), 10)}, {(10, 10)}, {},
        map[], {});
    var m, s := (5, 10), (App(ProxyApp, 7), 10);
    assert m in t.members && s in t.grants && (s.1, m.1) in t.lineage;
    assert GrantedThroughGroup(t, 5, App(ProxyApp, 7));
    NullKeyIsOtherKinds(t);
  }

  // ---------------------------------------------------------------- fan-out queries

  /** `scim_sps_granting_via_group`. */
  function ScimSpsGrantingViaGroup(t: Tables, g: GroupId): (ids: set<AppId>) {
    set s, l | s in t.grants && l in t.lineage && s.0.kind.ServiceProvider? && s.0.id in t.sps &&
        t.sps[s.0.id].scimEnabled &&
      l.0 == s.1 && l.1 == g :: s.0.id
  }

  /** `transitive_user_ids_for_group`. */
  function TransitiveUserIdsForGroup(t: Tables, g: GroupId): (us: set<UserId>) {
    set m, l | m in t.members && l in t.lineage && l.1 == m.1 && l.0 == g :: m.0
  }

  /** `tenant_user_ids`: every user row that is not a service account. */
  function TenantUserIds(t: Tables): (us: set<UserId>) {
    set u | u in t.users && !t.users[u].serviceAccount
  }

  predicate InScope(t: Tables, u: UserId, sp: AppId) {
    sp in ScimSpsGrantingUser(t, u)
  }

  ghost predicate SameExceptMembers(t: Tables, t': Tables, us: set<UserId>, g: GroupId) {
    && t' == t.(members := t'.members)
    && (forall m :: (m in t.members) != (m in t'.members) ==> m.0 in us && m.1 == g)
  }

  ghost predicate SameExceptGrants(t: Tables, t': Tables, sp: AppId, gs: set<GroupId>) {
    && t' == t.(grants := t'.grants)
    && (forall s :: (s in t.grants) != (s in t'.grants) ==> s.0 == App(ServiceProvider, sp) && s.1 in gs)
  }

  /** Membership fan-out misses nobody, and its provider list is the same before and after the change. */
  lemma MembershipFanOutComplete(t: Tables, t': Tables, us: set<UserId>, g: GroupId, u: UserId, sp: AppId)
    requires SameExceptMembers(t, t', us, g)
    ensures ScimSpsGrantingViaGroup(t, g) == ScimSpsGrantingViaGroup(t', g)
    ensures InScope(t, u, sp) != InScope(t', u, sp) ==> u in us && sp in ScimSpsGrantingViaGroup(t', g)
  {
  }

  /** Grant fan-out misses nobody, and its member lists are the same before and after the change. */
  lemma GrantFanOutComplete(t: Tables, t': Tables, sp: AppId, gs: set<GroupId>, u: UserId, sp': AppId)
    requires SameExceptGrants(t, t', sp, gs)
    ensures forall g :: TransitiveUserIdsForGroup(t, g) == TransitiveUserIdsForGroup(t', g)
    ensures InScope(t, u, sp') != InScope(t', u, sp') ==>
              sp' == sp && t.sps[sp].scimEnabled && exists g :: g in gs && u in TransitiveUserIdsForGroup(t', g)
  {
    ScimListingIsPointwise(t, u, sp');
    ScimListingIsPointwise(t', u, sp');
    var app := App(ServiceProvider, sp');
    if InScope(t, u, sp') != InScope(t', u, sp') {
      var more := if InScope(t, u, sp') then t else t';
      var m, s :| m in more.members && s in more.grants && m.0 == u && s.0 == app && (s.1, m.1) in more.lineage;
      var l := (s.1, m.1);
      assert m in t'.members && l in t'.lineage;
      assert (s in t.grants) != (s in t'.grants);
      assert l.1 == m.1 && l.0 == s.1;
      assert u in TransitiveUserIdsForGroup(t', s.1);
    }
  }
}
