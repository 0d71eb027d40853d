/**
 Rotation of outbound SCIM bearer credentials. A rotation is a transaction of several
 statements that holds a row lock on the credential it replaces; any number of rotations,
 revocations and creations may overlap. The model interleaves the statements freely.
 */
module Credentials {
  import opened Basics

  type CredId = int
  type AppId = int
  type Txn = nat

  datatype Cred = Cred(sp: AppId, createdAt: Time, revokedAt: Option<Time>, ciphertext: bool)

  /** Where a rotation stands. `seen` is the `revoked_at` read under the lock; `minted` the id of the new row. */
  datatype Phase =
    | Waiting
    | Locked(seen: Option<Time>)
    | Inserted(minted: CredId)
    | Scheduled(minted: CredId)
    | Ended(result: Option<CredId>)

  /** `now()` is the start time of the transaction. */
  datatype Rotation = Rotation(sp: AppId, target: CredId, overlapHours: nat, now: Time, phase: Phase)

  /** Committed rows, row locks and transactions, with the history the counting theorem speaks of. */
  datatype Db = Db(
    rows: map<CredId, Cred>,
    locks: map<CredId, Txn>,
    txns: map<Txn, Rotation>,
    creations: multiset<AppId>,
    revocations: multiset<AppId>,
    rotated: multiset<CredId>)

  datatype Step =
    | Create(id: CredId, cred: Cred)
    | Revoke(id: CredId, at: Time)
    | Start(x: Txn, sp: AppId, target: CredId, overlapHours: nat, now: Time)
    | Lock(x: Txn)
    | Reject(x: Txn)
    | Insert(x: Txn, minted: CredId)
    | Schedule(x: Txn)
    | Commit(x: Txn)
    | Abort(x: Txn)

  predicate Minting(p: Phase) {
    p.Inserted? || p.Scheduled?
  }

  predicate Holds(p: Phase) {
    p.Locked? || Minting(p)
  }

  /** The row a rotation names is there and belongs to the provider it names. */
  predicate Matches(d: Db, r: Rotation) {
    r.target in d.rows && d.rows[r.target].sp == r.sp
  }

  predicate InUse(d: Db, id: CredId) {
    id in d.rows || exists x :: x in d.txns && Minting(d.txns[x].phase) && d.txns[x].phase.minted == id
  }

  predicate Enabled(d: Db, s: Step) {
    match s
    case Create(id, cred) => !InUse(d, id) && cred.revokedAt.None?
    case Revoke(id, at) => id !in d.locks
    case Start(x, _, _, _, _) => x !in d.txns
    case Lock(x) => x in d.txns && d.txns[x].phase.Waiting? && (Matches(d, d.txns[x]) ==> d.txns[x].target !in d.locks)
    case Reject(x) => x in d.txns && d.txns[x].phase.Locked? && d.txns[x].phase.seen.Some?
    case Insert(x, minted) => x in d.txns && d.txns[x].phase == Locked(None) && !InUse(d, minted)
    case Schedule(x) => x in d.txns && d.txns[x].phase.Inserted?
    case Commit(x) => x in d.txns && d.txns[x].phase.Scheduled?
    case Abort(x) => x in d.txns && !d.txns[x].phase.Ended?
  }

  function WithPhase(d: Db, x: Txn, p: Phase): Db
    requires x in d.txns
  {
    d.(txns := d.txns[x := d.txns[x].(phase := p)])
  }

  /** Ends a transaction and gives up its lock. */
  function Released(d: Db, x: Txn, result: Option<CredId>): Db
    requires x in d.txns
  {
    WithPhase(d, x, Ended(result)).(locks := map c | c in d.locks && d.locks[c] != x :: d.locks[c])
  }

  /** `update ... set revoked_at = ... where id = ... and revoked_at is null`. */
  function RevokedRows(rows: map<CredId, Cred>, id: CredId, at: Time): map<CredId, Cred> {
    if id in rows && rows[id].revokedAt.None? then rows[id := rows[id].(revokedAt := Some(at))] else rows
  }

  function Next(d: Db, s: Step): (d': Db)
    requires Enabled(d, s)
  {
    match s
    case Create(id, cred) => d.(rows := d.rows[id := cred], creations := d.creations + multiset{cred.sp})
    case Revoke(id, at) =>
      var effective := id in d.rows && d.rows[id].revokedAt.None?;
      d.(rows := RevokedRows(d.rows, id, at),
         revocations := if effective then d.revocations + multiset{d.rows[id].sp} else d.revocations)
    case Start(x, sp, target, overlapHours, now) =>
        d.(txns := d.txns[x := Rotation(sp, target, overlapHours, now, Waiting)])
    case Lock(x) =>
      var r := d.txns[x];
      if !Matches(d, r) then Released(d, x, None)
      else WithPhase(d, x, Locked(d.rows[r.target].revokedAt)).(locks := d.locks[r.target := x])
    case Reject(x) => Released(d, x, None)
    case Insert(x, minted) => WithPhase(d, x, Inserted(minted))
    case Schedule(x) => WithPhase(d, x, Scheduled(d.txns[x].phase.minted))
    case Commit(x) =>
      var r, minted := d.txns[x], d.txns[x].phase.minted;
      var at := if r.overlapHours == 0 then r.now else r.now + 3600 * r.overlapHours;
      Released(d, x, Some(minted)).(
        rows := RevokedRows(d.rows, r.target, at)[minted := Cred(r.sp, r.now, None, true)],
        rotated := d.rotated + multiset{r.target})
    case Abort(x) => Released(d, x, None)
  }

  // ---------------------------------------------------------------- invariant

  /** A transaction past its lock owns the lock, and what it read is still what is stored. */
  ghost predicate Owns(d: Db, x: Txn)
    requires x in d.txns
  {
    var r := d.txns[x];
    Holds(r.phase) ==>
      && Matches(d, r)
      && r.target in d.locks && d.locks[r.target] == x
      && d.rows[r.target].revokedAt == (if r.phase.Locked? then r.phase.seen else None)
  }

  ghost predicate FreshApart(d: Db) {
    && (forall x :: x in d.txns && Minting(d.txns[x].phase) ==> d.txns[x].phase.minted !in d.rows)
    && (forall x, y :: x in d.txns && y in d.txns && x != y && Minting(d.txns[x].phase) && Minting(d.txns[y].phase) ==>
                         d.txns[x].phase.minted != d.txns[y].phase.minted)
  }

  ghost predicate LocksOwned(d: Db) {
    forall c :: c in d.locks ==>
        d.locks[c] in d.txns && Holds(d.txns[d.locks[c]].phase) && d.txns[d.locks[c]].target == c
  }

  ghost predicate RotatedOnce(d: Db) {
    forall c :: d.rotated[c] <= 1 && (d.rotated[c] == 1 ==> c in d.rows && d.rows[c].revokedAt.Some?)
  }

  /** Credentials of a provider that no one has scheduled for revocation. */
  function Live(rows: map<CredId, Cred>, sp: AppId): set<CredId> {
    set c | c in rows && rows[c].sp == sp && rows[c].revokedAt.None?
  }

  ghost predicate Counted(d: Db) {
    forall sp :: |Live(d.rows, sp)| + d.revocations[sp] == d.creations[sp]
  }

  ghost predicate Inv(d: Db) {
    && (forall x :: x in d.txns ==> Owns(d, x))
    && LocksOwned(d)
    && FreshApart(d)
    && RotatedOnce(d)
    && Counted(d)
  }

  // ---------------------------------------------------------------- preservation

  lemma LocksKept(d: Db, s: Step)
    requires Inv(d) && Enabled(d, s)
    ensures LocksOwned(Next(d, s))
  {
  }

  lemma OwnsKept(d: Db, s: Step, x: Txn)
    requires Inv(d) && Enabled(d, s) && x in Next(d, s).txns
    ensures Owns(Next(d, s), x)
  {
    if x in d.txns {
      assert Owns(d, x);
    }
  }

  lemma FreshKept(d: Db, s: Step)
    requires Inv(d) && Enabled(d, s)
    ensures FreshApart(Next(d, s))
  {
  }

  lemma RotatedKept(d: Db, s: Step)
    requires Inv(d) && Enabled(d, s)
    ensures RotatedOnce(Next(d, s))
  {
  }

  lemma CountKept(d: Db, s: Step)
    requires Inv(d) && Enabled(d, s)
    ensures Counted(Next(d, s))
  {
    forall sp
      ensures |Live(Next(d, s).rows, sp)| + Next(d, s).revocations[sp] == Next(d, s).creations[sp]
    {
      CountKeptFor(d, s, sp);
    }
  }

  lemma CountKeptFor(d: Db, s: Step, sp: AppId)
    requires Inv(d) && Enabled(d, s)
    ensures |Live(Next(d, s).rows, sp)| + Next(d, s).revocations[sp] == Next(d, s).creations[sp]
  {
    var d' := Next(d, s);
    assert |Live(d.rows, sp)| + d.revocations[sp] == d.creations[sp];
    match s
    case Create(id, cred) =>
      LiveAfterCreate(d.rows, id, cred, sp);
    case Revoke(id, at) =>
      LiveAfterRevoke(d.rows, id, at, sp);
    case Commit(x) =>
      assert Owns(d, x);
      var r, minted := d.txns[x], d.txns[x].phase.minted;
      var at := if r.overlapHours == 0 then r.now else r.now + 3600 * r.overlapHours;
      LiveAfterRevoke(d.rows, r.target, at, sp);
      LiveAfterCreate(RevokedRows(d.rows, r.target, at), minted, Cred(r.sp, r.now, None, true), sp);
    case _ =>
      assert d'.rows == d.rows;
  }

  lemma LiveAfterCreate(rows: map<CredId, Cred>, id: CredId, cred: Cred, sp: AppId)
    requires id !in rows && cred.revokedAt.None?
    ensures |Live(rows[id := cred], sp)| == |Live(rows, sp)| + if cred.sp == sp then 1 else 0
  {
    assert Live(rows[id := cred], sp) == if cred.sp == sp then Live(rows, sp) + {id} else Live(rows, sp);
  }

  lemma LiveAfterRevoke(rows: map<CredId, Cred>, id: CredId, at: Time, sp: AppId)
    ensures |Live(RevokedRows(rows, id, at), sp)| ==
            |Live(rows, sp)| - if id in rows && rows[id].revokedAt.None? && rows[id].sp == sp then 1 else 0
  {
    assert Live(RevokedRows(rows, id, at), sp) == Live(rows, sp) - {id};
  }

  lemma InvKept(d: Db, s: Step)
    requires Inv(d) && Enabled(d, s)
    ensures Inv(Next(d, s))
  {
    LocksKept(d, s);
    forall x | x in Next(d, s).txns
      ensures Owns(Next(d, s), x)
    {
      OwnsKept(d, s, x);
    }
    FreshKept(d, s);
    RotatedKept(d, s);
    CountKept(d, s);
  }

  // ---------------------------------------------------------------- runs

  /** Any interleaving of the statements of any number of transactions, from `d`. */
  predicate Possible(d: Db, steps: seq<Step>)
    decreases |steps|
  {
    steps == [] || (Enabled(d, steps[0]) && Possible(Next(d, steps[0]), steps[1..]))
  }

  function Run(d: Db, steps: seq<Step>): (d': Db)
    requires Possible(d, steps)
    decreases |steps|
  {
    if steps == [] then d else Run(Next(d, steps[0]), steps[1..])
  }

  function EmptyDb(): Db {
    Db(map[], map[], map[], multiset{}, multiset{}, multiset{})
  }

  lemma EmptyIsInv()
    ensures Inv(EmptyDb())
  {
  }

  lemma {:induction false} RunKeepsInv(d: Db, steps: seq<Step>)
    requires Inv(d) && Possible(d, steps)
    ensures Inv(Run(d, steps))
    decreases |steps|
  {
    if steps != [] {
      InvKept(d, steps[0]);
      RunKeepsInv(Next(d, steps[0]), steps[1..]);
    }
  }

  /** However many rotations of one credential overlap, at most one of them commits a new row. */
  lemma AtMostOneRotation(steps: seq<Step>, c: CredId)
    requires Possible(EmptyDb(), steps)
    ensures Run(EmptyDb(), steps).rotated[c] <= 1
  {
    EmptyIsInv();
    RunKeepsInv(EmptyDb(), steps);
  }

  /** Rotations never change how many credentials a provider has outstanding: creations minus effective revocations. */
  lemma OutstandingIsConserved(steps: seq<Step>, sp: AppId)
    requires Possible(EmptyDb(), steps)
    ensures var d := Run(EmptyDb(), steps);
            |Live(d.rows, sp)| + d.revocations[sp] == d.creations[sp]
  {
    EmptyIsInv();
    RunKeepsInv(EmptyDb(), steps);
  }

  lemma StepKeepsRevokedAt(d: Db, s: Step, c: CredId)
    requires Inv(d) && Enabled(d, s) && c in d.rows
    ensures var d' := Next(d, s);
            && c in d'.rows && d'.rows[c].createdAt == d.rows[c].createdAt
            && (d.rows[c].revokedAt.Some? ==> d'.rows[c] == d.rows[c])
  {
  }

  /** `revoked_at` is write-once: no interleaving ever changes it after it is set, and no row disappears. */
  lemma {:induction false} RevokedAtIsWriteOnce(d: Db, steps: seq<Step>, c: CredId)
    requires Inv(d) && Possible(d, steps) && c in d.rows
    ensures c in Run(d, steps).rows && Run(d, steps).rows[c].createdAt == d.rows[c].createdAt
    ensures d.rows[c].revokedAt.Some? ==> Run(d, steps).rows[c].revokedAt == d.rows[c].revokedAt
    decreases |steps|
  {
    if steps != [] {
      InvKept(d, steps[0]);
      StepKeepsRevokedAt(d, steps[0], c);
      RevokedAtIsWriteOnce(Next(d, steps[0]), steps[1..], c);
    }
  }

  predicate Usable(cred: Cred, now: Time) {
    cred.revokedAt.None? || cred.revokedAt.value > now
  }

  // ---------------------------------------------------------------- rotations only advance

  /** How far a rotation is. */
  function Stage(p: Phase): nat {
    match p
    case Waiting => 0
    case Locked(_) => 1
    case Inserted(_) => 2
    case Scheduled(_) => 3
    case Ended(_) => 4
  }

  /** A statement moves its own rotation forward and leaves every other where it is. */
  lemma StageAdvances(d: Db, s: Step, x: Txn)
    requires Enabled(d, s) && x in d.txns
    ensures x in Next(d, s).txns
    ensures var before, after := d.txns[x], Next(d, s).txns[x];
            && after == before.(phase := after.phase)
            && if !s.Create? && !s.Revoke? && !s.Start? && s.x == x
               then Stage(before.phase) < Stage(after.phase)
               else after == before
  {
  }

  /** The rotations of a credential that ended with a new one. */
  function Completed(d: Db, c: CredId): set<Txn> {
    set x | x in d.txns && d.txns[x].target == c && d.txns[x].phase.Ended? && d.txns[x].phase.result.Some?
  }

  lemma CompletedStep(d: Db, s: Step, c: CredId)
    requires Enabled(d, s) && |Completed(d, c)| == d.rotated[c]
    ensures |Completed(Next(d, s), c)| == Next(d, s).rotated[c]
  {
    if s.Commit? && d.txns[s.x].target == c {
      assert Completed(Next(d, s), c) == Completed(d, c) + {s.x};
    } else {
      assert Completed(Next(d, s), c) == Completed(d, c);
    }
  }

  /** The history counts every rotation that completed. */
  lemma {:induction false} RotatedCountsCompleted(d: Db, steps: seq<Step>, c: CredId)
    requires Possible(d, steps) && |Completed(d, c)| == d.rotated[c]
    ensures |Completed(Run(d, steps), c)| == Run(d, steps).rotated[c]
    decreases |steps|
  {
    if steps != [] {
      CompletedStep(d, steps[0], c);
      RotatedCountsCompleted(Next(d, steps[0]), steps[1..], c);
    }
  }

  /** Once a credential is refused it is refused for good. */
  lemma UnusableStaysUnusable(d: Db, steps: seq<Step>, c: CredId, now: Time, later: Time)
    requires Inv(d) && Possible(d, steps) && c in d.rows
    requires now <= later && !Usable(d.rows[c], now)
    ensures c in Run(d, steps).rows && !Usable(Run(d, steps).rows[c], later)
  {
    RevokedAtIsWriteOnce(d, steps, c);
  }

  /**
   A committed rotation hands over without a gap: from its start time on, the old credential is
   accepted exactly until the overlap ends and the new one is accepted from then on too.
   */
  lemma RotationOverlaps(d: Db, x: Txn, later: Time)
    requires Inv(d) && Enabled(d, Commit(x)) && d.txns[x].now <= later
    ensures var r, d' := d.txns[x], Next(d, Commit(x));
            && r.phase.minted !in d.rows && r.phase.minted in d'.rows
            && d'.rows[r.phase.minted] == Cred(r.sp, r.now, None, true)
            && (Usable(d'.rows[r.target], later) <==> later < r.now + 3600 * r.overlapHours)
            && Usable(d'.rows[r.phase.minted], later)
  {
  }

  // ---------------------------------------------------------------- the outbound pick

  predicate Candidate(rows: map<CredId, Cred>, sp: AppId, now: Time, c: CredId) {
    c in rows && rows[c].sp == sp && rows[c].ciphertext && Usable(rows[c], now)
  }

  /** A row can be picked exactly if it is the provider's, holds a ciphertext and is not revoked, or not yet. */
  lemma CandidateIff(rows: map<CredId, Cred>, sp: AppId, now: Time, c: CredId)
    ensures Candidate(rows, sp, now, c) <==>
            && c in rows && rows[c].sp == sp && rows[c].ciphertext
            && (rows[c].revokedAt.Some? ==> now < rows[c].revokedAt.value)
  {
  }

  /** `get_active_credential_for_outbound`: the newest usable row that holds a ciphertext. */
  method ActiveCredentialForOutbound(rows: map<CredId, Cred>, sp: AppId, now: Time) returns (r: Option<CredId>)
    ensures r.Some? <==> exists c :: Candidate(rows, sp, now, c)
    ensures r.Some? ==> Candidate(rows, sp, now, r.value)
    ensures r.Some? ==> forall c :: Candidate(rows, sp, now, c) ==> rows[c].createdAt <= rows[r.value].createdAt
  {
    r := None;
    var candidates := set c | c in rows && Candidate(rows, sp, now, c);
    var rest := candidates;
    while rest != {}
      invariant rest <= candidates
      invariant r.Some? ==> r.value in candidates
      invariant forall c :: c in candidates - rest ==> r.Some? && rows[c].createdAt <= rows[r.value].createdAt
      decreases |rest|
    {
      var c :| c in rest;
      if r.None? || rows[r.value].createdAt < rows[c].createdAt {
        r := Some(c);
      }
      rest := rest - {c};
    }
  }

  // ---------------------------------------------------------------- the table in place

  lemma {:induction false} RunOneMore(d: Db, steps: seq<Step>, s: Step)
    requires Possible(d, steps) && Enabled(Run(d, steps), s)
    ensures Possible(d, steps + [s]) && Run(d, steps + [s]) == Next(Run(d, steps), s)
    decreases |steps|
  {
    if steps == [] {
      assert steps + [s] == [s] && [s][1..] == [];
    } else {
      assert (steps + [s])[1..] == steps[1..] + [s];
      RunOneMore(Next(d, steps[0]), steps[1..], s);
    }
  }

  /** One statement of the protocol, added to the history of the calling transaction. */
  method Perform(d: Db, s: Step, ghost start: Db, ghost before: seq<Step>) returns (d': Db, ghost steps: seq<Step>)
    requires Enabled(d, s) && Possible(start, before) && d == Run(start, before)
    ensures d' == Next(d, s)
    ensures steps == before + [s] && Possible(start, steps) && d' == Run(start, steps)
  {
    RunOneMore(start, before, s);
    d' := Next(d, s);
    steps := before + [s];
  }

  predicate Rotatable(d: Db, sp: AppId, c: CredId) {
    c in d.rows && d.rows[c].sp == sp && d.rows[c].revokedAt.None?
  }

  /** Giving up a lock restores the locks held before it was taken. */
  lemma LocksRestored(d: Db, x: Txn, result: Option<CredId>, locks: map<CredId, Txn>, c: CredId)
    requires x in d.txns && (forall b :: b in locks ==> locks[b] != x) && c !in locks
    requires d.locks == locks || d.locks == locks[c := x]
    ensures Released(d, x, result).locks == locks
  {
    var left := Released(d, x, result).locks;
    forall b
      ensures b in left <==> b in locks
    {
      assert b in left <==> b in d.locks && d.locks[b] != x;
    }
    assert left.Keys == locks.Keys;
  }

  /** A rotation under way has inserted a row under the id. */
  ghost predicate BeingMinted(d: Db, id: CredId) {
    exists x :: x in d.txns &&
      (d.txns[x].phase == Inserted(id) || d.txns[x].phase == Scheduled(id))
  }

  /** Insert, schedule and commit, with the lock held and the credential unrevoked. */
  method MintAndSchedule(d: Db, x: Txn, minted: CredId, ghost start: Db, ghost before: seq<Step>)
    returns (d': Db, ghost steps: seq<Step>)
    requires x in d.txns && d.txns[x].phase == Locked(None) && !InUse(d, minted)
    requires Possible(start, before) && d == Run(start, before)
    ensures Possible(start, steps) && d' == Run(start, steps)
    ensures d'.locks == Released(d, x, Some(minted)).locks
    ensures var r := d.txns[x];
            d'.rows == RevokedRows(d.rows, r.target,
                r.now + 3600 * r.overlapHours)[minted := Cred(r.sp, r.now, None, true)]
  {
    d', steps := Perform(d, Insert(x, minted), start, before);
    d', steps := Perform(d', Schedule(x), start, steps);
    d', steps := Perform(d', Commit(x), start, steps);
  }

  /**
   `rotate_credential_atomic` from the moment its lock is free, undisturbed: a run of the protocol
   that either replaces the credential or leaves every row as it was, and holds no lock afterwards.
   */
  method Rotate(d: Db, x: Txn, sp: AppId, existing: CredId, minted: CredId, overlapHours: nat, now: Time)
    returns (r: Option<CredId>, d': Db, ghost steps: seq<Step>)
    requires x !in d.txns && existing !in d.locks && minted !in d.rows && !BeingMinted(d, minted)
    requires forall c :: c in d.locks ==> d.locks[c] in d.txns
    ensures Possible(d, steps) && d' == Run(d, steps) && d'.locks == d.locks
    ensures r == if Rotatable(d, sp, existing) then Some(minted) else None
    ensures r.Some? ==> d'.rows == RevokedRows(d.rows, existing,
            now + 3600 * overlapHours)[minted := Cred(sp, now, None, true)]
    ensures r.None? ==> d'.rows == d.rows
  {
    d', steps := Perform(d, Start(x, sp, existing, overlapHours, now), d, []);
    LocksRestored(d', x, None, d.locks, existing);
    d', steps := Perform(d', Lock(x), d, steps);
    if d'.txns[x].phase.Ended? {
      return None, d', steps;
    }
    LocksRestored(d', x, None, d.locks, existing);
    LocksRestored(d', x, Some(minted), d.locks, existing);
    if d'.txns[x].phase.seen.Some? {
      d', steps := Perform(d', Reject(x), d, steps);
      return None, d', steps;
    }
    d', steps := MintAndSchedule(d', x, minted, d, steps);
    r := Some(minted);
  }

  class CredentialTable {
    var db: Db

    ghost predicate Valid()
      reads this
    {
      Inv(db)
    }

    constructor ()
      ensures Valid() && db == EmptyDb()
    {
      db := EmptyDb();
      new;
      EmptyIsInv();
    }

    /** `create_credential`. */
    method CreateCredential(id: CredId, sp: AppId, now: Time)
      requires Valid() && id !in db.rows && !BeingMinted(db, id)
      modifies this
      ensures Valid() && db.rows == old(db).rows[id := Cred(sp, now, None, true)]
      ensures db.locks == old(db).locks && db.txns == old(db).txns
    {
      var step := Create(id, Cred(sp, now, None, true));
      InvKept(db, step);
      db := Next(db, step);
    }

    /** `mark_revoked` with `at` the current time, `schedule_revocation` with a later one; returns the rows updated. */
    method MarkRevoked(id: CredId, at: Time) returns (updated: nat)
      requires Valid() && id !in db.locks
      modifies this
      ensures Valid() && db.locks == old(db).locks && db.txns == old(db).txns
      ensures updated == if id in old(db).rows && old(db).rows[id].revokedAt.None? then 1 else 0
      ensures updated == 1 ==> db.rows == old(db).rows[id := old(db).rows[id].(revokedAt := Some(at))]
      ensures updated == 0 ==> db.rows == old(db).rows
    {
      updated := if id in db.rows && db.rows[id].revokedAt.None? then 1 else 0;
      InvKept(db, Revoke(id, at));
      db := Next(db, Revoke(id, at));
    }

    method RotateCredentialAtomic(x: Txn, sp: AppId, existing: CredId, minted: CredId, overlapHours: nat, now: Time)
      returns (r: Option<CredId>)
      requires Valid() && x !in db.txns && existing !in db.locks && minted !in db.rows && !BeingMinted(db, minted)
      modifies this
      ensures Valid() && db.locks == old(db).locks
      ensures r == if Rotatable(old(db), sp, existing) then Some(minted) else None
      ensures r.Some? ==> db.rows == RevokedRows(old(db).rows, existing,
              now + 3600 * overlapHours)[minted := Cred(sp, now, None, true)]
      ensures r.None? ==> db.rows == old(db).rows
    {
      var result, d', steps := Rotate(db, x, sp, existing, minted, overlapHours, now);
      RunKeepsInv(db, steps);
      db := d';
      r := result;
    }
  }
}
