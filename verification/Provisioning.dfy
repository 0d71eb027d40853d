/**
 Outbound SCIM provisioning end to end: a change to users, groups, memberships, grants, access mode
 or the hierarchy is committed, its dispatch trigger (if it has one) enqueues rows, and the push
 worker drains them.

 The promise is convergence: whenever a receiver disagrees with the local access decision
 about a user, a queue row for that pair exists, so an empty queue means agreement. A change keeps
 it exactly when every decision it flips has a row, queued before or by the trigger.
 The SCIM configuration of the providers is fixed throughout.
 */
module Provisioning {
  import opened Basics
  import opened GroupGraph
  import opened Access
  import opened PushQueue

  /**
   The tables, the queue, who each receiver currently holds, and the triggers still to run.
   `targets` are the providers with a target URL.
   */
  datatype World = World(
    t: Tables,
    q: Queue,
    remote: set<(AppId, UserId)>,
    targets: set<AppId>,
    tenant: TenantId,
    jobs: map<nat, Job>)

  /**
   A committed change whose trigger has not run yet: whether an event was logged at all, the keys
   resolved before the change, the keys of the decisions it flipped, and the tables it left.
   */
  datatype Job = Job(c: Cmd, logged: bool, resolved: set<Key>, owes: set<Key>, after: Tables)

  /** What a push would establish right now: present if the user exists and is in scope, absent otherwise. */
  predicate Wanted(t: Tables, u: UserId, sp: AppId) {
    u in t.users && InScope(t, u, sp)
  }

  function UserKey(sp: AppId, u: UserId): Key {
    Key(sp, UserResource, u)
  }

  /** The pair is provisioned at all: a SCIM-enabled provider with a target, and not a service account. */
  predicate Managed(w: World, sp: AppId, u: UserId) {
    && sp in w.t.sps && w.t.sps[sp].scimEnabled && sp in w.targets
    && !(u in w.t.users && w.t.users[u].serviceAccount)
  }

  predicate Agrees(w: World, sp: AppId, u: UserId) {
    (sp, u) in w.remote <==> Wanted(w.t, u, sp)
  }

  /** Some trigger still to run owes the key. */
  predicate Owed(w: World, k: Key) {
    exists i :: i in w.jobs && k in w.jobs[i].owes
  }

  /** A row for the key is queued, or a trigger still to run owes one. */
  predicate Promised(w: World, k: Key) {
    k in w.q || Owed(w, k)
  }

  ghost predicate Tracked(w: World, sp: AppId, u: UserId) {
    Managed(w, sp, u) ==> Agrees(w, sp, u) || Promised(w, UserKey(sp, u))
  }

  /** Every disagreement is queued or owed by a trigger still to run. */
  ghost predicate Converging(w: World) {
    forall sp, u :: Tracked(w, sp, u)
  }

  // ---------------------------------------------------------------- triggers

  function UserSelfKeys(t: Tables, u: UserId): (ks: set<Key>)
    ensures forall k :: k in ks <==> k == UserKey(k.sp, u) && k.sp in ScimSpsGrantingUser(t, u)
  {
    set sp | sp in ScimSpsGrantingUser(t, u) :: UserKey(sp, u)
  }

  function GroupSelfKeys(t: Tables, g: GroupId): (ks: set<Key>)
    ensures forall k :: k in ks <==> k == Key(k.sp, GroupResource, g) && k.sp in ScimSpsGrantingViaGroup(t, g)
  {
    set sp | sp in ScimSpsGrantingViaGroup(t, g) :: Key(sp, GroupResource, g)
  }

  function MembershipKeys(t: Tables, g: GroupId, us: set<UserId>): (ks: set<Key>)
    ensures forall sp, u :: UserKey(sp, u) in ks <==> sp in ScimSpsGrantingViaGroup(t, g) && u in us
  {
    (set sp, u | sp in ScimSpsGrantingViaGroup(t, g) && u in us :: UserKey(sp, u)) +
    (set sp | sp in ScimSpsGrantingViaGroup(t, g) && sp in t.sps && t.sps[sp].directMode :: Key(sp, GroupResource, g))
  }

  predicate IsScimEnabledSp(t: Tables, sp: AppId) {
    sp in t.sps && t.sps[sp].scimEnabled
  }

  function GrantKeys(t: Tables, sp: AppId, gs: set<GroupId>): (ks: set<Key>)
    ensures forall sp', u :: UserKey(sp', u) in ks <==>
              sp' == sp && IsScimEnabledSp(t, sp) && exists g :: g in gs && u in TransitiveUserIdsForGroup(t, g)
  {
    if !IsScimEnabledSp(t, sp) then {}
    else
      (set g, u | g in gs && u in TransitiveUserIdsForGroup(t, g) :: UserKey(sp, u)) +
      (set g | g in gs :: Key(sp, GroupResource, g))
  }

  function TenantKeys(t: Tables, sp: AppId): (ks: set<Key>)
    ensures forall sp', u :: UserKey(sp', u) in ks <==> sp' == sp && IsScimEnabledSp(t, sp) && u in TenantUserIds(t)
  {
    if !IsScimEnabledSp(t, sp) then {} else set u | u in TenantUserIds(t) :: UserKey(sp, u)
  }

  /** One `upsert_entry` per key. */
  function Enqueue(w: World, ks: set<Key>, newId: Key -> RowId, now: Time): (q: Queue)
    ensures q.Keys == w.q.Keys + ks
  {
    w.q + map k | k in ks :: Upserted(w.q, k, w.tenant, newId(k), now)
  }

  // ---------------------------------------------------------------- commands

  datatype Cmd =
    | AddMembers(g: GroupId, us: set<UserId>)
    | RemoveMembers(g: GroupId, us: set<UserId>)
    | AssignGroups(sp: AppId, gs: set<GroupId>)
    | UnassignGroup(sp: AppId, g: GroupId)
    | SetAvailableToAll(sp: AppId, value: bool)
    | CreateUser(u: UserId, row: UserRow)
    | UpdateUser(u: UserId, row: UserRow)
    | DeleteUser(u: UserId)
    | CreateGroup(g: GroupId)
    | UpdateGroup(g: GroupId)
    | DeleteGroup(g: GroupId)
    | InvalidateGroups(gs: set<GroupId>)
    | JoinSilently(us: set<UserId>, gs: set<GroupId>)
    | EditHierarchy(lineage: set<Pair>)

  /** Foreign keys, existence checks and refusals of the service layer. */
  predicate Allowed(t: Tables, c: Cmd) {
    match c
    case AddMembers(g, us) => us <= t.users.Keys
    case AssignGroups(sp, gs) => sp in t.sps
    case UnassignGroup(sp, g) => sp in t.sps
    case SetAvailableToAll(sp, value) => sp in t.sps
    case CreateUser(u, row) => u !in t.users
    case UpdateUser(u, row) => u in t.users && row.serviceAccount == t.users[u].serviceAccount
    case DeleteUser(u) => u in t.users && !t.users[u].serviceAccount
    case CreateGroup(g) => forall s :: s in t.grants ==> s.1 != g
    case JoinSilently(us, gs) => us <= t.users.Keys
    case _ => true
  }

  /** `on delete cascade`: whatever names one of the groups goes with it. */
  function WithoutGroups(t: Tables, gs: set<GroupId>): Tables {
    t.(members := (set m | m in t.members && m.1 !in gs),
       grants := (set s | s in t.grants && s.1 !in gs),
       lineage := (set l | l in t.lineage && l.0 !in gs && l.1 !in gs))
  }

  function JoinAll(t: Tables, us: set<UserId>, gs: set<GroupId>): Tables {
    t.(members := t.members + set u, g | u in us && g in gs :: (u, g))
  }

  function Change(t: Tables, c: Cmd): (t': Tables) {
    match c
    case AddMembers(g, us) => t.(members := t.members + set u | u in us :: (u, g))
    case RemoveMembers(g, us) => t.(members := t.members - set u | u in us :: (u, g))
    case AssignGroups(sp, gs) => t.(grants := t.grants + set g | g in gs :: (App(ServiceProvider, sp), g))
    case UnassignGroup(sp, g) => t.(grants := t.grants - {(App(ServiceProvider, sp), g)})
    case SetAvailableToAll(sp, value) =>
      var app := App(ServiceProvider, sp);
      t.(availableToAll := if value then t.availableToAll + {app} else t.availableToAll - {app})
    case CreateUser(u, row) => t.(users := t.users[u := row])
    case UpdateUser(u, row) => t.(users := t.users[u := row])
    case DeleteUser(u) => t.(users := t.users - {u}, members := set m | m in t.members && m.0 != u)
    case CreateGroup(g) => t.(lineage := t.lineage + {(g, g)})
    case UpdateGroup(g) => t
    case DeleteGroup(g) => WithoutGroups(t, {g})
    case InvalidateGroups(gs) => WithoutGroups(t, gs)
    case JoinSilently(us, gs) => JoinAll(t, us, gs)
    case EditHierarchy(lineage) => t.(lineage := lineage)
  }

  /** Whether the service logs an event: membership, grant and access-mode changes log only what changed something. */
  predicate Logged(t: Tables, c: Cmd) {
    c.AddMembers? || c.RemoveMembers? || c.AssignGroups? || c.UnassignGroup? || c.SetAvailableToAll? ==>
        Change(t, c) != t
  }

  /** The keys a deletion of a user resolves before it takes place. */
  function Resolved(t: Tables, c: Cmd): set<Key> {
    if c.DeleteUser? then UserSelfKeys(t, c.u) else {}
  }

  /** The keys the trigger enqueues when it runs on tables `t`. */
  function TriggerKeys(t: Tables, c: Cmd, logged: bool, resolved: set<Key>): (ks: set<Key>) {
    if !logged then {}
    else
      match c
      case AddMembers(g, us) => MembershipKeys(t, g, us)
      case RemoveMembers(g, us) => MembershipKeys(t, g, us)
      case AssignGroups(sp, gs) => GrantKeys(t, sp, gs)
      case UnassignGroup(sp, g) => GrantKeys(t, sp, {g})
      case SetAvailableToAll(sp, value) => TenantKeys(t, sp)
      case CreateUser(u, row) => UserSelfKeys(t, u)
      case UpdateUser(u, row) => UserSelfKeys(t, u)
      case DeleteUser(u) => resolved
      case CreateGroup(g) => GroupSelfKeys(t, g)
      case UpdateGroup(g) => GroupSelfKeys(t, g)
      case DeleteGroup(g) => GroupSelfKeys(t, g)
      case InvalidateGroups(gs) => {}
      case JoinSilently(us, gs) => {}
      case EditHierarchy(lineage) => {}
  }

  /** The keys a trigger enqueues when it runs on the tables its change left. */
  function Fired(t: Tables, c: Cmd): (ks: set<Key>) {
    TriggerKeys(Change(t, c), c, Logged(t, c), Resolved(t, c))
  }

  /** The change flips a decision the receiver of a managed pair should hear of. */
  predicate Flips(w: World, c: Cmd, sp: AppId, u: UserId) {
    Managed(w.(t := Change(w.t, c)), sp, u) && Wanted(w.t, u, sp) != Wanted(Change(w.t, c), u, sp)
  }

  /** The keys of all decisions a change flips. */
  function Owes(w: World, c: Cmd): set<Key> {
    set sp, u | sp in w.t.sps && u in w.t.users.Keys + Change(w.t, c).users.Keys && Flips(w, c, sp, u) :: UserKey(sp, u)
  }

  lemma OwesFlips(w: World, c: Cmd, sp: AppId, u: UserId)
    ensures UserKey(sp, u) in Owes(w, c) <==> Flips(w, c, sp, u)
  {
    if Flips(w, c, sp, u) {
      FlipsInRange(w, c, sp, u);
    }
  }

  lemma ChangeKeepsSps(t: Tables, c: Cmd)
    ensures Change(t, c).sps == t.sps
  {
  }

  lemma FlipsInRange(w: World, c: Cmd, sp: AppId, u: UserId)
    requires Flips(w, c, sp, u)
    ensures sp in w.t.sps && u in w.t.users.Keys + Change(w.t, c).users.Keys
  {
    ChangeKeepsSps(w.t, c);
  }

  /** The change commits; its trigger will run later. */
  function Changed(w: World, i: nat, c: Cmd): (w': World) {
    var t' := Change(w.t, c);
    w.(t := t', jobs := w.jobs[i := Job(c, Logged(w.t, c), Resolved(w.t, c), Owes(w, c), t')])
  }

  /** The keys the trigger of a job enqueues when it runs now. */
  function KeysNow(w: World, job: Job): set<Key> {
    TriggerKeys(w.t, job.c, job.logged, job.resolved)
  }

  /** The trigger runs, on the tables of this moment. It logs and skips the keys it `failed` to enqueue. */
  function Fire(w: World, i: nat, newId: Key -> RowId, failed: set<Key>, now: Time): (w': World)
    requires i in w.jobs
  {
    w.(q := Enqueue(w, KeysNow(w, w.jobs[i]) - failed, newId, now), jobs := w.jobs - {i})
  }

  /** A change with its trigger run at once. */
  function Commit(w: World, c: Cmd, newId: Key -> RowId, failed: set<Key>, now: Time): (w': World) {
    w.(t := Change(w.t, c), q := Enqueue(w, Fired(w.t, c) - failed, newId, now))
  }

  lemma PromptFireIsCommit(w: World, i: nat, c: Cmd, newId: Key -> RowId, failed: set<Key>, now: Time)
    requires i !in w.jobs
    ensures Fire(Changed(w, i, c), i, newId, failed, now) == Commit(w, c, newId, failed, now)
  {
    assert w.jobs[i := Job(c, Logged(w.t, c), Resolved(w.t, c), Owes(w, c), Change(w.t, c))] - {i} == w.jobs;
  }

  // ---------------------------------------------------------------- what each change does

  ghost predicate SameGrants(t: Tables, t': Tables) {
    t'.grants == t.grants && t'.availableToAll == t.availableToAll && t'.sps == t.sps && t'.lineage == t.lineage
  }

  /** The switch stores the value given: on opens the app to everyone, off leaves exactly the granted users. */
  lemma SwitchEffect(t: Tables, sp: AppId, value: bool, u: UserId)
    ensures var t', app := Change(t, SetAvailableToAll(sp, value)), App(ServiceProvider, sp);
            && (app in t'.availableToAll <==> value)
            && (CanAccess(t', u, app) <==> value || GrantedThroughGroup(t, u, app))
            && (forall other :: other != app ==> (CanAccess(t', u, other) <==> CanAccess(t, u, other)))
            && t' == t.(availableToAll := t'.availableToAll)
  {
    var t' := Change(t, SetAvailableToAll(sp, value));
    forall app: App
      ensures GrantedThroughGroup(t', u, app) <==> GrantedThroughGroup(t, u, app)
    {
    }
  }

  /** Some group of the user lies below one of the given groups. */
  predicate Below(t: Tables, u: UserId, gs: set<GroupId>) {
    exists m, g :: m in t.members && m.0 == u && g in gs && (g, m.1) in t.lineage
  }

  /** Assigning groups admits exactly the users below them to that provider. */
  lemma AssignEffect(t: Tables, sp: AppId, gs: set<GroupId>, u: UserId, app: App)
    ensures var t' := Change(t, AssignGroups(sp, gs));
            && t' == t.(grants := t'.grants)
            && (CanAccess(t', u, app) <==> CanAccess(t, u, app) || (app == App(ServiceProvider, sp) && Below(t, u, gs)))
  {
    var t' := Change(t, AssignGroups(sp, gs));
    if GrantedThroughGroup(t, u, app) {
      var m, s :| m in t.members && s in t.grants && m.0 == u && s.0 == app && (s.1, m.1) in t.lineage;
      assert s in t'.grants;
    }
    if app == App(ServiceProvider, sp) && Below(t, u, gs) {
      var m, g :| m in t.members && m.0 == u && g in gs && (g, m.1) in t.lineage;
      var s := (app, g);
      assert s in t'.grants && s.0 == app && (s.1, m.1) in t'.lineage;
    }
  }

  /** Unassigning takes that one grant. */
  lemma UnassignEffect(t: Tables, sp: AppId, g: GroupId)
    ensures var t' := Change(t, UnassignGroup(sp, g));
            && t' == t.(grants := t'.grants)
            && (forall s :: s in t'.grants <==> s in t.grants && s != (App(ServiceProvider, sp), g))
  {
  }

  lemma PairsWith(us: set<UserId>, g: GroupId)
    ensures forall m: (UserId, GroupId) :: m in (set u | u in us :: (u, g)) <==> m.0 in us && m.1 == g
  {
    forall m: (UserId, GroupId)
      ensures m in (set u | u in us :: (u, g)) <==> m.0 in us && m.1 == g
    {
      if m.0 in us && m.1 == g {
        var u := m.0;
        assert u in us && (u, g) == m;
      }
    }
  }

  /** Adding members makes each of them a member, nobody else, and admits them to exactly what reaches the group. */
  lemma AddMembersEffect(t: Tables, g: GroupId, us: set<UserId>, u: UserId, app: App)
    ensures var t' := Change(t, AddMembers(g, us));
            && t' == t.(members := t'.members)
            && (forall m: (UserId, GroupId) :: m in t'.members <==> m in t.members || (m.0 in us && m.1 == g))
            && (CanAccess(t', u, app) <==>
                CanAccess(t, u, app) || (u in us && exists s :: s in t.grants && s.0 == app && (s.1, g) in t.lineage))
  {
    var t' := Change(t, AddMembers(g, us));
    PairsWith(us, g);
    if GrantedThroughGroup(t, u, app) {
      var m, s :| m in t.members && s in t.grants && m.0 == u && s.0 == app && (s.1, m.1) in t.lineage;
      assert m in t'.members;
    }
    if u in us {
      var m := (u, g);
      assert m in t'.members && m.0 == u && m.1 == g;
    }
  }

  /** Removing members ends exactly those memberships. */
  lemma RemoveMembersEffect(t: Tables, g: GroupId, us: set<UserId>)
    ensures var t' := Change(t, RemoveMembers(g, us));
            && t' == t.(members := t'.members)
            && (forall m: (UserId, GroupId) :: m in t'.members <==> m in t.members && !(m.0 in us && m.1 == g))
  {
    PairsWith(us, g);
  }

  /** Creating or updating a user stores the row; deleting one takes the row and that user's memberships. */
  lemma UserEffect(t: Tables, u: UserId, row: UserRow)
    ensures Change(t, CreateUser(u, row)) == t.(users := t.users[u := row])
    ensures Change(t, UpdateUser(u, row)) == t.(users := t.users[u := row])
    ensures var t' := Change(t, DeleteUser(u));
            && SameGrants(t, t') && t'.users.Keys == t.users.Keys - {u}
            && (forall v :: v in t'.users ==> t'.users[v] == t.users[v])
            && (forall m: (UserId, GroupId) :: m in t'.members <==> m in t.members && m.0 != u)
  {
  }

  /** Creating a group gives it its own lineage row; updating one changes no table of the model. */
  lemma GroupEffect(t: Tables, g: GroupId)
    ensures Change(t, CreateGroup(g)) == t.(lineage := t.lineage + {(g, g)})
    ensures Change(t, UpdateGroup(g)) == t
  {
  }

  /** Groups go with exactly the memberships, grants and lineage rows that name one of them, one by one or in bulk. */
  lemma GroupsGoneEffect(t: Tables, g: GroupId, gs: set<GroupId>)
    ensures Change(t, DeleteGroup(g)) == Change(t, InvalidateGroups({g}))
    ensures var t' := Change(t, InvalidateGroups(gs));
            && t' == t.(members := t'.members, grants := t'.grants, lineage := t'.lineage)
            && (forall m :: m in t'.members <==> m in t.members && m.1 !in gs)
            && (forall s :: s in t'.grants <==> s in t.grants && s.1 !in gs)
            && (forall l :: l in t'.lineage <==> l in t.lineage && l.0 !in gs && l.1 !in gs)
  {
  }

  /** The tables name only users and providers that exist, in what the foreign keys cover. */
  ghost predicate References(t: Tables) {
    && (forall m :: m in t.members ==> m.0 in t.users)
    && (forall s :: s in t.grants && s.0.kind.ServiceProvider? ==> s.0.id in t.sps)
  }

  /** Whatever the service layer lets through keeps the foreign keys. */
  lemma AllowedKeepsReferences(t: Tables, c: Cmd)
    requires References(t) && Allowed(t, c)
    ensures References(Change(t, c))
  {
  }

  /** Memberships are refused exactly if they would name a user that does not exist. */
  lemma UnknownUserRefusedIff(t: Tables, g: GroupId, us: set<UserId>, gs: set<GroupId>)
    requires References(t)
    ensures Allowed(t, AddMembers(g, us)) <==> References(Change(t, AddMembers(g, us)))
    ensures gs != {} ==> (Allowed(t, JoinSilently(us, gs)) <==> References(Change(t, JoinSilently(us, gs))))
  {
    var unknown := us - t.users.Keys;
    if unknown == {} {
      forall u | u in us
        ensures u in t.users.Keys
      {
        assert u !in unknown;
      }
      AllowedKeepsReferences(t, AddMembers(g, us));
      AllowedKeepsReferences(t, JoinSilently(us, gs));
    } else {
      var u := Element(unknown);
      var m := (u, g);
      assert m in Change(t, AddMembers(g, us)).members && m.0 !in t.users;
      if gs != {} {
        var h := Element(gs);
        var n := (u, h);
        assert n in Change(t, JoinSilently(us, gs)).members && n.0 !in t.users;
      }
    }
  }

  /** So are grants for a provider that does not exist, and with them the other commands on a provider. */
  lemma UnknownProviderRefusedIff(t: Tables, sp: AppId, gs: set<GroupId>, g: GroupId, value: bool)
    requires References(t) && gs != {}
    ensures Allowed(t, AssignGroups(sp, gs)) <==> References(Change(t, AssignGroups(sp, gs)))
    ensures Allowed(t, UnassignGroup(sp, g)) <==> References(Change(t, AssignGroups(sp, gs)))
    ensures Allowed(t, SetAvailableToAll(sp, value)) <==> References(Change(t, AssignGroups(sp, gs)))
  {
    var h := Element(gs);
    var t', grant := Change(t, AssignGroups(sp, gs)), (App(ServiceProvider, sp), h);
    assert grant in t'.grants && grant.0.kind.ServiceProvider? && grant.0.id == sp;
  }

  function ServiceAccounts(t: Tables): set<UserId> {
    set u | u in t.users && t.users[u].serviceAccount
  }

  /**
   Users are created under ids not taken, edited and deleted under ids that are, and by no edit or deletion
   does a service account go or a user become one.
   */
  lemma UserRefusedIff(t: Tables, u: UserId, row: UserRow)
    ensures Allowed(t, CreateUser(u, row)) <==> Change(t, CreateUser(u, row)).users.Keys != t.users.Keys
    ensures Allowed(t, UpdateUser(u, row)) <==>
            && Change(t, UpdateUser(u, row)).users.Keys == t.users.Keys
            && ServiceAccounts(Change(t, UpdateUser(u, row))) == ServiceAccounts(t)
    ensures Allowed(t, DeleteUser(u)) <==>
            && Change(t, DeleteUser(u)).users.Keys != t.users.Keys
            && ServiceAccounts(Change(t, DeleteUser(u))) == ServiceAccounts(t)
  {
    var edited := Change(t, UpdateUser(u, row));
    assert edited.users.Keys == t.users.Keys + {u};
    assert u in ServiceAccounts(edited) <==> row.serviceAccount;
    assert u in ServiceAccounts(t) <==> u in t.users && t.users[u].serviceAccount;
  }

  /** A membership, grant or access-mode command that changes nothing is not logged and enqueues nothing. */
  lemma NoChangeFiresNothing(t: Tables, c: Cmd)
    requires c.AddMembers? || c.RemoveMembers? || c.AssignGroups? || c.UnassignGroup? || c.SetAvailableToAll?
    requires Change(t, c) == t
    ensures Fired(t, c) == {}
  {
  }

  /** The switch enqueues exactly the real users of the tenant, and no service account, for an enabled provider. */
  lemma SwitchEnqueues(t: Tables, sp: AppId, value: bool)
    requires Change(t, SetAvailableToAll(sp, value)) != t
    ensures forall k :: k in Fired(t, SetAvailableToAll(sp, value)) <==>
              && k == UserKey(sp, k.resource) && sp in t.sps && t.sps[sp].scimEnabled
              && k.resource in t.users && !t.users[k.resource].serviceAccount
  {
    var ks := Fired(t, SetAvailableToAll(sp, value));
    forall k | k in ks
      ensures k == UserKey(sp, k.resource)
    {
    }
  }

  /** A grant change enqueues, beside the users, each group itself. */
  lemma GrantEnqueuesGroups(t: Tables, sp: AppId, gs: set<GroupId>, k: Key)
    requires k.kind.GroupResource?
    ensures k in GrantKeys(t, sp, gs) <==> k.sp == sp && k.resource in gs && IsScimEnabledSp(t, sp)
  {
    assert k == Key(k.sp, GroupResource, k.resource);
  }

  /** A membership change enqueues the group itself for the providers in direct mode. */
  lemma MembershipEnqueuesGroup(t: Tables, g: GroupId, us: set<UserId>, k: Key)
    requires k.kind.GroupResource?
    ensures k in MembershipKeys(t, g, us) <==>
            k.resource == g && k.sp in ScimSpsGrantingViaGroup(t, g) && k.sp in t.sps && t.sps[k.sp].directMode
  {
    assert k == Key(k.sp, GroupResource, k.resource);
  }

  /** Each event runs the trigger its entry in the table names. */
  lemma EventsRunTheirTriggers(t: Tables, c: Cmd, k: Key)
    ensures c.UpdateGroup? ==>
              (k in Fired(t, c) <==> k == Key(k.sp, GroupResource, c.g) && k.sp in ScimSpsGrantingViaGroup(t, c.g))
    ensures c.CreateGroup? ==>
              (k in Fired(t, c) <==>
               k == Key(k.sp, GroupResource, c.g) && k.sp in ScimSpsGrantingViaGroup(Change(t, c), c.g))
    ensures c.CreateUser? || c.UpdateUser? ==>
              (k in Fired(t, c) <==> k == UserKey(k.sp, c.u) && k.sp in ScimSpsGrantingUser(Change(t, c), c.u))
    ensures c.DeleteUser? ==> (k in Fired(t, c) <==> k == UserKey(k.sp, c.u) && k.sp in ScimSpsGrantingUser(t, c.u))
    ensures c.InvalidateGroups? || c.JoinSilently? || c.EditHierarchy? ==> k !in Fired(t, c)
  {
  }

  // ---------------------------------------------------------------- exactly when a change is safe

  /** Every flipped decision is queued, owed by an earlier change, or enqueued by the trigger. */
  ghost predicate Covered(w: World, c: Cmd, failed: set<Key>) {
    forall sp, u :: Flips(w, c, sp, u) ==> Promised(w, UserKey(sp, u)) || UserKey(sp, u) in Fired(w.t, c) - failed
  }

  lemma ChangeKeepsManaged(w: World, c: Cmd, sp: AppId, u: UserId)
    requires Allowed(w.t, c) && Managed(w.(t := Change(w.t, c)), sp, u)
    ensures Managed(w, sp, u)
  {
  }

  lemma EnqueuedTrackedIff(w: World, t': Tables, ks: set<Key>, w': World, sp: AppId, u: UserId)
    requires Tracked(w, sp, u) && (Managed(w.(t := t'), sp, u) ==> Managed(w, sp, u))
    requires w' == w.(t := t', q := w'.q) && w'.q.Keys == w.q.Keys + ks
    ensures Tracked(w', sp, u) <==>
            (Managed(w.(t := t'), sp, u) && Wanted(w.t, u, sp) != Wanted(t', u, sp) ==>
               Promised(w, UserKey(sp, u)) || UserKey(sp, u) in ks)
  {
    assert Managed(w', sp, u) <==> Managed(w.(t := t'), sp, u);
    assert Promised(w', UserKey(sp, u)) <==> Promised(w, UserKey(sp, u)) || UserKey(sp, u) in ks;
  }

  lemma PairTrackedIff(w: World, c: Cmd, newId: Key -> RowId, failed: set<Key>, now: Time, sp: AppId, u: UserId)
    requires Tracked(w, sp, u) && Allowed(w.t, c)
    ensures Tracked(Commit(w, c, newId, failed, now), sp, u) <==>
            (Flips(w, c, sp, u) ==> Promised(w, UserKey(sp, u)) || UserKey(sp, u) in Fired(w.t, c) - failed)
  {
    if Managed(w.(t := Change(w.t, c)), sp, u) {
      ChangeKeepsManaged(w, c, sp, u);
    }
    EnqueuedTrackedIff(w, Change(w.t, c), Fired(w.t, c) - failed, Commit(w, c, newId, failed, now), sp, u);
  }

  /** A committed change, with or without a trigger, keeps every disagreement tracked if and only if it is covered. */
  lemma CommitConvergesIff(w: World, c: Cmd, newId: Key -> RowId, failed: set<Key>, now: Time)
    requires Converging(w) && Allowed(w.t, c)
    ensures Converging(Commit(w, c, newId, failed, now)) <==> Covered(w, c, failed)
  {
    var w' := Commit(w, c, newId, failed, now);
    forall sp, u
      ensures Tracked(w', sp, u) <==>
              (Flips(w, c, sp, u) ==> Promised(w, UserKey(sp, u)) || UserKey(sp, u) in Fired(w.t, c) - failed)
    {
      assert Tracked(w, sp, u);
      PairTrackedIff(w, c, newId, failed, now, sp, u);
    }
  }

  // ---------------------------------------------------------------- exactly when a deferred trigger is safe

  lemma MoreJobsPromised(w: World, i: nat, job: Job, k: Key)
    requires i !in w.jobs
    ensures Promised(w.(jobs := w.jobs[i := job]), k) <==> Promised(w, k) || k in job.owes
  {
    var w' := w.(jobs := w.jobs[i := job]);
    if Owed(w, k) {
      var j :| j in w.jobs && k in w.jobs[j].owes;
      assert j in w'.jobs && w'.jobs[j] == w.jobs[j];
    }
    if k in job.owes {
      assert i in w'.jobs && k in w'.jobs[i].owes;
    }
  }

  /** Committing a change keeps every disagreement queued or owed, whatever the change. */
  lemma ChangedConverges(w: World, i: nat, c: Cmd)
    requires Converging(w) && Allowed(w.t, c) && i !in w.jobs
    ensures Converging(Changed(w, i, c))
  {
    forall sp, u
      ensures Tracked(Changed(w, i, c), sp, u)
    {
      assert Tracked(w, sp, u);
      ChangedTracks(w, i, c, sp, u);
    }
  }

  lemma ChangedTracks(w: World, i: nat, c: Cmd, sp: AppId, u: UserId)
    requires Tracked(w, sp, u) && Allowed(w.t, c) && i !in w.jobs
    ensures Tracked(Changed(w, i, c), sp, u)
  {
    var w' := Changed(w, i, c);
    OwesFlips(w, c, sp, u);
    MoreJobsPromised(w, i, w'.jobs[i], UserKey(sp, u));
    assert Promised(w', UserKey(sp, u)) <==> Promised(w.(jobs := w'.jobs), UserKey(sp, u));
    assert Managed(w', sp, u) <==> Managed(w.(t := Change(w.t, c)), sp, u);
    if Managed(w', sp, u) {
      ChangeKeepsManaged(w, c, sp, u);
    }
  }

  /** What the other triggers still to run owe. */
  predicate OwedByOthers(w: World, i: nat, k: Key) {
    exists j :: j in w.jobs && j != i && k in w.jobs[j].owes
  }

  /**
   Whatever the job owes is settled by now, or queued, or enqueued by this trigger, or owed by
   another one.
   */
  ghost predicate FireSafe(w: World, i: nat, failed: set<Key>)
    requires i in w.jobs
  {
    forall sp, u :: UserKey(sp, u) in w.jobs[i].owes && Managed(w, sp, u) && !Agrees(w, sp, u) ==>
      || UserKey(sp, u) in w.q
      || UserKey(sp, u) in KeysNow(w, w.jobs[i]) - failed
      || OwedByOthers(w, i, UserKey(sp, u))
  }

  lemma FirePromises(w: World, i: nat, newId: Key -> RowId, failed: set<Key>, now: Time, k: Key)
    requires i in w.jobs
    ensures Promised(Fire(w, i, newId, failed, now), k) <==>
            k in w.q || k in KeysNow(w, w.jobs[i]) - failed || OwedByOthers(w, i, k)
  {
    var w' := Fire(w, i, newId, failed, now);
    if OwedByOthers(w, i, k) {
      var j :| j in w.jobs && j != i && k in w.jobs[j].owes;
      assert j in w'.jobs && k in w'.jobs[j].owes;
    }
  }

  /** A trigger, whenever it runs, keeps every disagreement queued or owed if and only if it is safe. */
  lemma FireConvergesIff(w: World, i: nat, newId: Key -> RowId, failed: set<Key>, now: Time)
    requires Converging(w) && i in w.jobs
    ensures Converging(Fire(w, i, newId, failed, now)) <==> FireSafe(w, i, failed)
  {
    var w' := Fire(w, i, newId, failed, now);
    forall sp, u
      ensures Tracked(w', sp, u) <==>
              (UserKey(sp, u) in w.jobs[i].owes && Managed(w, sp, u) && !Agrees(w, sp, u) ==>
                 || UserKey(sp, u) in w.q
                 || UserKey(sp, u) in KeysNow(w, w.jobs[i]) - failed
                 || OwedByOthers(w, i, UserKey(sp, u)))
    {
      assert Tracked(w, sp, u);
      FireTracksIff(w, i, newId, failed, now, sp, u);
    }
  }

  lemma FireTracksIff(w: World, i: nat, newId: Key -> RowId, failed: set<Key>, now: Time, sp: AppId, u: UserId)
    requires Tracked(w, sp, u) && i in w.jobs
    ensures Tracked(Fire(w, i, newId, failed, now), sp, u) <==>
            (UserKey(sp, u) in w.jobs[i].owes && Managed(w, sp, u) && !Agrees(w, sp, u) ==>
               || UserKey(sp, u) in w.q
               || UserKey(sp, u) in KeysNow(w, w.jobs[i]) - failed
               || OwedByOthers(w, i, UserKey(sp, u)))
  {
    FirePromises(w, i, newId, failed, now, UserKey(sp, u));
    if Owed(w, UserKey(sp, u)) && UserKey(sp, u) !in w.jobs[i].owes {
      var j :| j in w.jobs && UserKey(sp, u) in w.jobs[j].owes;
      assert j != i;
    }
  }

  // ---------------------------------------------------------------- triggers miss nothing

  lemma SameScope(t: Tables, t': Tables, u: UserId, sp: AppId)
    requires t'.sps == t.sps && t'.grants == t.grants && t'.lineage == t.lineage &&
             t'.availableToAll == t.availableToAll
    requires forall m: (UserId, GroupId) :: m.0 == u ==> (m in t.members <==> m in t'.members)
    ensures InScope(t, u, sp) <==> InScope(t', u, sp)
  {
  }

  lemma ToggleChangesOneProvider(t: Tables, sp: AppId, value: bool, u: UserId, sp': AppId)
    ensures var t' := Change(t, SetAvailableToAll(sp, value));
            InScope(t, u, sp') != InScope(t', u, sp') ==> sp' == sp && IsScimEnabledSp(t', sp) && t' != t
  {
  }

  /** The changes whose trigger is meant to cover the users they affect. */
  predicate Triggered(c: Cmd) {
    !c.DeleteGroup? && !c.InvalidateGroups? && !c.JoinSilently? && !c.EditHierarchy?
  }

  lemma SelfRowGrantsNothing(t: Tables, g: GroupId, u: UserId, sp: AppId)
    requires Allowed(t, CreateGroup(g))
    ensures InScope(t, u, sp) <==> InScope(Change(t, CreateGroup(g)), u, sp)
  {
    var t', app := Change(t, CreateGroup(g)), App(ServiceProvider, sp);
    ScimListingIsPointwise(t, u, sp);
    ScimListingIsPointwise(t', u, sp);
    if GrantedThroughGroup(t, u, app) {
      var m, s :| m in t.members && s in t.grants && m.0 == u && s.0 == app && (s.1, m.1) in t.lineage;
      assert m in t'.members && s in t'.grants && (s.1, m.1) in t'.lineage;
    }
  }

  /** Whatever decision a triggered change flips for a real user, its trigger enqueues that user for that provider. */
  lemma TriggerCoversChange(w: World, c: Cmd, sp: AppId, u: UserId)
    requires !c.DeleteGroup? && !c.InvalidateGroups? && !c.JoinSilently? && !c.EditHierarchy?
    requires Allowed(w.t, c) && Flips(w, c, sp, u)
    ensures UserKey(sp, u) in Fired(w.t, c)
  {
    var t, t' := w.t, Change(w.t, c);
    match c
    case AddMembers(g, us) =>
      MembershipFanOutComplete(t, t', us, g, u, sp);
    case RemoveMembers(g, us) =>
      MembershipFanOutComplete(t, t', us, g, u, sp);
    case AssignGroups(p, gs) =>
      GrantFanOutComplete(t, t', p, gs, u, sp);
    case UnassignGroup(p, g) =>
      GrantFanOutComplete(t, t', p, {g}, u, sp);
    case SetAvailableToAll(p, value) =>
      ToggleChangesOneProvider(t, p, value, u, sp);
    case CreateUser(v, row) =>
      SameScope(t, t', u, sp);
    case UpdateUser(v, row) =>
      SameScope(t, t', u, sp);
    case DeleteUser(v) =>
      if u != v {
        SameScope(t, t', u, sp);
      }
    case CreateGroup(g) =>
      SelfRowGrantsNothing(t, g, u, sp);
    case UpdateGroup(g) =>
  }

  /** What a job owes was enqueued by its trigger, had it run on the tables its change left. */
  ghost predicate WellOwed(w: World, i: nat)
    requires i in w.jobs
  {
    var job := w.jobs[i];
    Triggered(job.c) ==> forall sp, u ::
      UserKey(sp, u) in job.owes ==> UserKey(sp, u) in TriggerKeys(job.after, job.c, job.logged, job.resolved)
  }

  lemma ChangedWellOwed(w: World, i: nat, c: Cmd)
    requires Allowed(w.t, c)
    ensures WellOwed(Changed(w, i, c), i)
  {
    if Triggered(c) {
      forall sp, u | UserKey(sp, u) in Owes(w, c)
        ensures UserKey(sp, u) in Fired(w.t, c)
      {
        OwesFlips(w, c, sp, u);
        TriggerCoversChange(w, c, sp, u);
      }
    }
  }

  /** A trigger that runs before the next change, and enqueues without failure, is safe. */
  lemma PromptFireIsSafe(w: World, i: nat, failed: set<Key>)
    requires i in w.jobs && WellOwed(w, i) && Triggered(w.jobs[i].c) && w.t == w.jobs[i].after
    requires failed !! KeysNow(w, w.jobs[i])
    ensures FireSafe(w, i, failed)
  {
  }

  /** A triggered change whose enqueues all succeed keeps every disagreement tracked. */
  lemma CommitConverges(w: World, c: Cmd, newId: Key -> RowId, failed: set<Key>, now: Time)
    requires !c.DeleteGroup? && !c.InvalidateGroups? && !c.JoinSilently? && !c.EditHierarchy?
    requires Converging(w) && Allowed(w.t, c) && failed !! Fired(w.t, c)
    ensures Covered(w, c, failed) && Converging(Commit(w, c, newId, failed, now))
  {
    forall sp, u | Flips(w, c, sp, u)
      ensures UserKey(sp, u) in Fired(w.t, c) - failed
    {
      TriggerCoversChange(w, c, sp, u);
    }
    CommitConvergesIff(w, c, newId, failed, now);
  }

  // ---------------------------------------------------------------- trigger loops

  /** `q` is `start` with every key of `ks` upserted: fresh or reset, dead-letter marks kept, all else alone. */
  ghost predicate Enqueued(start: Queue, q: Queue, ks: set<Key>) {
    && q.Keys == start.Keys + ks
    && (forall k :: k in start ==> q[k].id == start[k].id && q[k].deadLetterAt == start[k].deadLetterAt)
    && (forall k :: k in start && k !in ks ==> q[k] == start[k])
    && (forall k :: k in ks ==>
        q[k].attempts == 0 && q[k].nextAttemptAt.None? && (k !in start ==> q[k].deadLetterAt.None?))
  }

  lemma EnqueueIsEnqueued(w: World, ks: set<Key>, newId: Key -> RowId, now: Time)
    ensures Enqueued(w.q, Enqueue(w, ks, newId, now), ks)
  {
  }

  lemma UpsertOneMore(start: Queue, ks: set<Key>, q: Queue, k: Key, tenant: TenantId, newId: RowId, now: Time)
    requires Enqueued(start, q, ks)
    ensures Enqueued(start, Apply(q, Upsert(k, tenant, newId), now), ks + {k})
  {
  }

  /** One enqueue inside its own `try`: an exception is logged and the loop goes on. */
  method TryEnqueue(w: World, start: Queue, ghost done: set<Key>, k: Key, newId: RowId, failed: set<Key>, now: Time)
    returns (q: Queue)
    requires Enqueued(w.q, start, done - failed)
    ensures Enqueued(w.q, q, done + {k} - failed)
  {
    q := start;
    if k in failed {
      assert done + {k} - failed == done - failed;
    } else {
      UpsertOneMore(w.q, done - failed, q, k, w.tenant, newId, now);
      q := Apply(q, Upsert(k, w.tenant, newId), now);
      assert done + {k} - failed == done - failed + {k};
    }
  }

  /** The inner loop shared by the triggers: one `enqueue_user` per id. */
  method EnqueueUsers(w: World, start: Queue, ghost done: set<Key>, sp: AppId, us: seq<UserId>,
                      newId: Key -> RowId, failed: set<Key>, clock: Key -> Time)
    returns (q: Queue)
    requires Enqueued(w.q, start, done - failed)
    ensures Enqueued(w.q, q, done + UserKeys(sp, us) - failed)
  {
    q := start;
    assert done + UserKeys(sp, us[..0]) == done;
    for j := 0 to |us|
      invariant Enqueued(w.q, q, done + UserKeys(sp, us[..j]) - failed)
    {
      var k := UserKey(sp, us[j]);
      q := TryEnqueue(w, q, done + UserKeys(sp, us[..j]), k, newId(k), failed, clock(k));
      assert us[..j + 1] == us[..j] + [us[j]];
      assert done + UserKeys(sp, us[..j]) + {k} == done + UserKeys(sp, us[..j + 1]);
    }
    assert us[..|us|] == us;
  }

  /** What a membership change enqueues for one provider. */
  function KeysForSp(t: Tables, g: GroupId, us: seq<UserId>, sp: AppId): set<Key> {
    UserKeys(sp, us) + if sp in t.sps && t.sps[sp].directMode then {Key(sp, GroupResource, g)} else {}
  }

  function KeysForSps(t: Tables, g: GroupId, us: seq<UserId>, sps: seq<AppId>): (ks: set<Key>)
    ensures forall k :: k in ks <==> k.sp in sps && k in KeysForSp(t, g, us, k.sp)
  {
    if sps == [] then {} else KeysForSps(t, g, us, sps[..|sps| - 1]) + KeysForSp(t, g, us, sps[|sps| - 1])
  }

  /** The body of the outer loop: each user and, in direct mode, the group. */
  method EnqueueForSp(w: World, start: Queue, ghost done: set<Key>, g: GroupId, us: seq<UserId>, sp: AppId,
                      newId: Key -> RowId, failed: set<Key>, clock: Key -> Time)
    returns (q: Queue)
    requires Enqueued(w.q, start, done - failed)
    ensures Enqueued(w.q, q, done + KeysForSp(w.t, g, us, sp) - failed)
  {
    q := EnqueueUsers(w, start, done, sp, us, newId, failed, clock);
    if sp in w.t.sps && w.t.sps[sp].directMode {
      var k := Key(sp, GroupResource, g);
      q := TryEnqueue(w, q, done + UserKeys(sp, us), k, newId(k), failed, clock(k));
      assert done + UserKeys(sp, us) + {k} == done + KeysForSp(w.t, g, us, sp);
    } else {
      assert done + UserKeys(sp, us) == done + KeysForSp(w.t, g, us, sp);
    }
  }

  /** `enqueue_membership_change`: exactly the fan-out keys whose enqueue did not fail. */
  method EnqueueMembershipChange(w: World, g: GroupId, us: seq<UserId>, sps: seq<AppId>,
                                 newId: Key -> RowId, failed: set<Key>, clock: Key -> Time)
    returns (q: Queue)
    requires forall sp :: sp in sps <==> sp in ScimSpsGrantingViaGroup(w.t, g)
    ensures Enqueued(w.q, q, MembershipKeys(w.t, g, set u | u in us) - failed)
  {
    q := w.q;
    for i := 0 to |sps|
      invariant Enqueued(w.q, q, KeysForSps(w.t, g, us, sps[..i]) - failed)
    {
      q := EnqueueForSp(w, q, KeysForSps(w.t, g, us, sps[..i]), g, us, sps[i], newId, failed, clock);
      assert sps[..i + 1][..i] == sps[..i];
      assert KeysForSps(w.t, g, us, sps[..i + 1]) == KeysForSps(w.t, g, us, sps[..i]) + KeysForSp(w.t, g, us, sps[i]);
    }
    assert sps[..|sps|] == sps;
    KeysForAllSps(w.t, g, us, sps);
  }

  lemma KeysForAllSps(t: Tables, g: GroupId, us: seq<UserId>, sps: seq<AppId>)
    requires forall sp :: sp in sps <==> sp in ScimSpsGrantingViaGroup(t, g)
    ensures KeysForSps(t, g, us, sps) == MembershipKeys(t, g, set u | u in us)
  {
    var ks := MembershipKeys(t, g, set u | u in us);
    forall k
      ensures k in KeysForSps(t, g, us, sps) <==> k in ks
    {
      if k.kind.UserResource? {
        assert k == UserKey(k.sp, k.resource);
      }
    }
  }
}
