/**
 The outbound SCIM push queue: a coalescing outbox with at most one row per provider and
 resource. `Apply` says what each statement does to the table; the class runs the
 statements in place.
 */
module PushQueue {
  import opened Basics
  import opened Access

  type RowId = int
  type TenantId = int

  datatype ResourceKind = UserResource | GroupResource
  datatype Key = Key(sp: AppId, kind: ResourceKind, resource: int)

  datatype Row = Row(
    id: RowId,
    tenant: TenantId,
    enqueuedAt: Time,
    attempts: nat,
    nextAttemptAt: Option<Time>,
    lastError: Option<string>,
    deadLetterAt: Option<Time>)

  /** The table, keyed by its unique constraint. */
  type Queue = map<Key, Row>

  /** Primary key: no two rows share an id. */
  ghost predicate UniqueIds(q: Queue) {
    forall k, j :: k in q && j in q && q[k].id == q[j].id ==> k == j
  }

  // ---------------------------------------------------------------- statements

  datatype Op =
    | Upsert(key: Key, tenant: TenantId, newId: RowId)
    | AttemptFailed(id: RowId, error: string, next: Time)
    | DeadLetter(id: RowId, error: string)
    | ClearDeadLetter(id: RowId)
    | Revive(sp: AppId)
    | Delete(id: RowId)

  /** The row an upsert leaves under `k`: a new row, or the old one refreshed but still dead-lettered if it was. */
  function Upserted(q: Queue, k: Key, tenant: TenantId, newId: RowId, now: Time): Row {
    if k in q
    then q[k].(enqueuedAt := now, attempts := 0, nextAttemptAt := None, lastError := None)
    else Row(newId, tenant, now, 0, None, None, None)
  }

  function Revived(r: Row): Row {
    r.(deadLetterAt := None, attempts := 0, nextAttemptAt := None)
  }

  /** One statement at time `now`. */
  function Apply(q: Queue, op: Op, now: Time): (q': Queue) {
    match op
    case Upsert(k, tenant, newId) => q[k := Upserted(q, k, tenant, newId, now)]
    case AttemptFailed(id, error, next) =>
      map k | k in q :: if q[k].id == id then q[k].(attempts := q[k].attempts + 1, nextAttemptAt := Some(next),
          lastError := Some(error)) else q[k]
    case DeadLetter(id, error) =>
      map k | k in q :: if q[k].id == id then q[k].(deadLetterAt := Some(now), lastError := Some(error)) else q[k]
    case ClearDeadLetter(id) =>
      map k | k in q :: if q[k].id == id && q[k].deadLetterAt.Some? then Revived(q[k]) else q[k]
    case Revive(sp) =>
      map k | k in q :: if k.sp == sp && q[k].deadLetterAt.Some? then Revived(q[k]) else q[k]
    case Delete(id) =>
      map k | k in q && q[k].id != id :: q[k]
  }

  /** `gen_random_uuid()` never repeats an id in use. */
  ghost predicate FreshId(q: Queue, op: Op) {
    op.Upsert? ==> forall k :: k in q ==> q[k].id != op.newId
  }

  lemma ApplyKeepsUniqueIds(q: Queue, op: Op, now: Time)
    requires UniqueIds(q) && FreshId(q, op)
    ensures UniqueIds(Apply(q, op, now))
  {
  }

  // ---------------------------------------------------------------- what each statement does, column by column

  /** Every row but those under `ks` is as before, and no other row appears. */
  ghost predicate OthersKept(q: Queue, q': Queue, ks: set<Key>) {
    forall k :: k !in ks ==> (k in q' <==> k in q) && (k in q ==> q'[k] == q[k])
  }

  /** Enqueueing coalesces: a new row, or the old one at the end of the line, its record clean but its mark kept. */
  lemma UpsertEffect(q: Queue, k: Key, tenant: TenantId, newId: RowId, now: Time)
    ensures var q' := Apply(q, Upsert(k, tenant, newId), now);
            && OthersKept(q, q', {k}) && k in q'
            && q'[k].enqueuedAt == now && q'[k].attempts == 0
            && q'[k].nextAttemptAt.None? && q'[k].lastError.None?
            && (k in q ==>
                  q'[k].id == q[k].id && q'[k].tenant == q[k].tenant && q'[k].deadLetterAt == q[k].deadLetterAt)
            && (k !in q ==> q'[k].id == newId && q'[k].tenant == tenant && q'[k].deadLetterAt.None?)
  {
  }

  /** A failed attempt counts, records its error and is not due before the time given. */
  lemma AttemptFailedEffect(q: Queue, k: Key, error: string, next: Time, now: Time)
    requires UniqueIds(q) && k in q
    ensures var q' := Apply(q, AttemptFailed(q[k].id, error, next), now);
            && OthersKept(q, q', {k}) && k in q'
            && q'[k].attempts == q[k].attempts + 1 && q'[k].lastError == Some(error)
            && q'[k].id == q[k].id && q'[k].tenant == q[k].tenant && q'[k].enqueuedAt == q[k].enqueuedAt
            && q'[k].deadLetterAt == q[k].deadLetterAt
            && (forall at :: Ready(q'[k], at) <==> q[k].deadLetterAt.None? && next <= at)
  {
  }

  /** A dead letter is stamped, keeps its record and is never ready. */
  lemma DeadLetterEffect(q: Queue, k: Key, error: string, now: Time)
    requires UniqueIds(q) && k in q
    ensures var q' := Apply(q, DeadLetter(q[k].id, error), now);
            && OthersKept(q, q', {k}) && k in q'
            && q'[k].deadLetterAt == Some(now) && q'[k].lastError == Some(error)
            && q'[k].id == q[k].id && q'[k].tenant == q[k].tenant && q'[k].enqueuedAt == q[k].enqueuedAt
            && q'[k].attempts == q[k].attempts && q'[k].nextAttemptAt == q[k].nextAttemptAt
            && (forall at :: !Ready(q'[k], at))
  {
  }

  /** What bringing a dead letter back leaves: no mark, no attempts, ready at once, its place and last error kept. */
  ghost predicate BroughtBack(r: Row, r': Row) {
    && r'.deadLetterAt.None? && r'.attempts == 0 && r'.nextAttemptAt.None?
    && r'.id == r.id && r'.tenant == r.tenant && r'.enqueuedAt == r.enqueuedAt && r'.lastError == r.lastError
    && (forall at :: Ready(r', at))
  }

  /** Clearing brings back the named row if it is dead, and changes nothing else. */
  lemma ClearEffect(q: Queue, id: RowId, now: Time)
    ensures var q' := Apply(q, ClearDeadLetter(id), now);
            && q'.Keys == q.Keys
            && (forall k :: k in q && q[k].id == id && q[k].deadLetterAt.Some? ==> BroughtBack(q[k], q'[k]))
            && (forall k :: k in q && !(q[k].id == id && q[k].deadLetterAt.Some?) ==> q'[k] == q[k])
  {
  }

  /** Reviving brings back every dead row of the provider, and changes nothing else. */
  lemma ReviveEffect(q: Queue, sp: AppId, now: Time)
    ensures var q' := Apply(q, Revive(sp), now);
            && q'.Keys == q.Keys
            && (forall k :: k in q && k.sp == sp && q[k].deadLetterAt.Some? ==> BroughtBack(q[k], q'[k]))
            && (forall k :: k in q && !(k.sp == sp && q[k].deadLetterAt.Some?) ==> q'[k] == q[k])
  {
  }

  /** Deleting takes exactly the named row. */
  lemma DeleteEffect(q: Queue, id: RowId, now: Time)
    ensures var q' := Apply(q, Delete(id), now);
            && (forall k :: k in q' <==> k in q && q[k].id != id)
            && (forall k :: k in q' ==> q'[k] == q[k])
  {
  }

  // ---------------------------------------------------------------- runs

  function Run(q: Queue, ops: seq<(Op, Time)>): (q': Queue)
    decreases |ops|
  {
    if ops == [] then q else Run(Apply(q, ops[0].0, ops[0].1), ops[1..])
  }

  /** A run is its statements one after the other. */
  lemma {:induction false} RunOneMore(q: Queue, ops: seq<(Op, Time)>, op: Op, now: Time)
    ensures Run(q, ops + [(op, now)]) == Apply(Run(q, ops), op, now)
    decreases |ops|
  {
    if ops == [] {
      assert ops + [(op, now)] == [(op, now)] && [(op, now)][1..] == [];
    } else {
      assert (ops + [(op, now)])[1..] == ops[1..] + [(op, now)];
      RunOneMore(Apply(q, ops[0].0, ops[0].1), ops[1..], op, now);
    }
  }

  predicate NonDecreasing(start: Time, ops: seq<(Op, Time)>)
    decreases |ops|
  {
    ops == [] || (start <= ops[0].1 && NonDecreasing(ops[0].1, ops[1..]))
  }

  /** No statement of the run deletes row `id` or refreshes key `k`. */
  predicate LeavesInPlace(ops: seq<(Op, Time)>, k: Key, id: RowId) {
    forall o :: o in ops ==> !(o.0.Upsert? && o.0.key == k) && o.0 != Delete(id)
  }

  ghost function Ahead(q: Queue, k: Key): set<Key>
    requires k in q
  {
    set j | j in q && q[j].enqueuedAt < q[k].enqueuedAt
  }

  ghost predicate EnqueuedBy(q: Queue, now: Time) {
    forall k :: k in q ==> q[k].enqueuedAt <= now
  }

  lemma StepDoesNotOvertake(q: Queue, op: Op, now: Time, k: Key)
    requires k in q && EnqueuedBy(q, now)
    requires !(op.Upsert? && op.key == k) && op != Delete(q[k].id)
    ensures var q' := Apply(q, op, now);
            && EnqueuedBy(q', now)
            && k in q' && q'[k].id == q[k].id && q'[k].enqueuedAt == q[k].enqueuedAt
            && Ahead(q', k) <= Ahead(q, k)
  {
  }

  /**
   Fairness. While a row is neither refreshed nor deleted, no run of queue statements with a
   non-decreasing clock ever puts another row ahead of it in drain order.
   */
  lemma {:induction false} NoOvertaking(q: Queue, ops: seq<(Op, Time)>, start: Time, k: Key)
    requires k in q && EnqueuedBy(q, start) && NonDecreasing(start, ops)
    requires LeavesInPlace(ops, k, q[k].id)
    ensures k in Run(q, ops) && Run(q, ops)[k].enqueuedAt == q[k].enqueuedAt
    ensures Ahead(Run(q, ops), k) <= Ahead(q, k)
    decreases |ops|
  {
    if ops != [] {
      var (op, now) := ops[0];
      assert ops[0] in ops;
      StepDoesNotOvertake(q, op, now, k);
      assert forall o :: o in ops[1..] ==> o in ops;
      NoOvertaking(Apply(q, op, now), ops[1..], now, k);
    }
  }

  /** No statement of the run clears row `id` or revives its provider. */
  predicate LeavesDead(ops: seq<(Op, Time)>, sp: AppId, id: RowId) {
    forall o :: o in ops ==> o.0 != ClearDeadLetter(id) && o.0 != Revive(sp) && o.0 != Delete(id)
  }

  predicate Ready(r: Row, now: Time) {
    r.deadLetterAt.None? && (r.nextAttemptAt.None? || r.nextAttemptAt.value <= now)
  }

  /** A dead-lettered row stays unready through any run that does not clear it, however often it is re-enqueued. */
  lemma {:induction false} DeadStaysUnready(q: Queue, ops: seq<(Op, Time)>, k: Key, now: Time)
    requires k in q && q[k].deadLetterAt.Some?
    requires LeavesDead(ops, k.sp, q[k].id)
    ensures k in Run(q, ops) && Run(q, ops)[k].id == q[k].id
    ensures Run(q, ops)[k].deadLetterAt.Some? && !Ready(Run(q, ops)[k], now)
    decreases |ops|
  {
    if ops != [] {
      var (op, at) := ops[0];
      assert ops[0] in ops;
      var q' := Apply(q, op, at);
      assert k in q' && q'[k].id == q[k].id && q'[k].deadLetterAt.Some?;
      assert forall o :: o in ops[1..] ==> o in ops;
      DeadStaysUnready(q', ops[1..], k, now);
    }
  }

  /** It stays so until it is cleared by its id or with its provider, and is then ready at once, with a clean record. */
  lemma DeadUntilCleared(q: Queue, ops: seq<(Op, Time)>, k: Key, op: Op, now: Time)
    requires k in q && q[k].deadLetterAt.Some? && LeavesDead(ops, k.sp, q[k].id)
    requires op == ClearDeadLetter(q[k].id) || op == Revive(k.sp)
    ensures var q' := Run(q, ops + [(op, now)]);
            k in q' && q'[k].id == q[k].id && q'[k].attempts == 0 && forall at :: Ready(q'[k], at)
  {
    DeadStaysUnready(q, ops, k, now);
    RunOneMore(q, ops, op, now);
    ClearEffect(Run(q, ops), q[k].id, now);
    ReviveEffect(Run(q, ops), k.sp, now);
  }

  // ---------------------------------------------------------------- bulk upsert

  /** Number of statements; `_BULK_UPSERT_CHUNK_SIZE` is 1000. */
  function ChunkCount(us: seq<UserId>): nat {
    (|us| + 999) / 1000
  }

  /** `user_ids[start : start + _BULK_UPSERT_CHUNK_SIZE]` for the n-th start. */
  function Chunk(us: seq<UserId>, n: nat): (chunk: seq<UserId>)
    requires n < ChunkCount(us)
  {
    var start := n * 1000;
    us[start..if start + 1000 <= |us| then start + 1000 else |us|]
  }

  /** How many ids the first `n` chunks cover. */
  function CoveredCount(us: seq<UserId>, n: nat): (c: nat)
    ensures c <= |us|
  {
    if n * 1000 <= |us| then n * 1000 else |us|
  }

  lemma ChunkExtends(us: seq<UserId>, n: nat)
    requires n < ChunkCount(us)
    ensures n * 1000 < |us| && CoveredCount(us, n) == n * 1000
    ensures us[..CoveredCount(us, n)] + Chunk(us, n) == us[..CoveredCount(us, n + 1)]
    ensures CoveredCount(us, n + 1) == CoveredCount(us, n) + |Chunk(us, n)|
  {
  }

  lemma AllCovered(us: seq<UserId>, n: nat)
    requires n <= ChunkCount(us) && n * 1000 >= |us|
    ensures n == ChunkCount(us) && CoveredCount(us, n) == |us|
  {
  }

  predicate Distinct<T(==)>(s: seq<T>) {
    forall i, j :: 0 <= i < j < |s| ==> s[i] != s[j]
  }

  /** The n-th chunk exists and names no user twice. */
  predicate CleanChunk(us: seq<UserId>, n: nat) {
    n < ChunkCount(us) && Distinct(Chunk(us, n))
  }

  /** The first `n` chunks name no user twice. */
  predicate AllDistinct(us: seq<UserId>, n: nat) {
    forall m: nat :: m < n ==> CleanChunk(us, m)
  }

  function UserKeys(sp: AppId, us: seq<UserId>): (ks: set<Key>)
    ensures forall k :: k in ks <==> k.sp == sp && k.kind.UserResource? && k.resource in us
  {
    set u | u in us :: Key(sp, UserResource, u)
  }

  /** One multi-row `insert ... on conflict do update`: all rows against the same starting table. */
  function Statement(q: Queue, tenant: TenantId, sp: AppId, us: seq<UserId>, newId: UserId -> RowId,
                     now: Time): (q': Queue) {
    q + map k | k in UserKeys(sp, us) :: Upserted(q, k, tenant, newId(k.resource), now)
  }

  /** The table after the first `n` chunks, each its own statement at its own time. */
  ghost function AfterChunks(q: Queue, tenant: TenantId, sp: AppId, us: seq<UserId>, newId: UserId -> RowId,
                             clock: nat -> Time, n: nat): Queue
    requires n <= ChunkCount(us)
  {
    if n == 0 then q
    else Statement(AfterChunks(q, tenant, sp, us, newId, clock, n - 1), tenant, sp, Chunk(us, n - 1), newId,
        clock(n - 1))
  }

  /** `upsert_entry` once per id, in list order. */
  ghost function OneByOne(q: Queue, tenant: TenantId, sp: AppId, us: seq<UserId>, newId: UserId -> RowId,
                          clock: nat -> Time): Queue
    decreases |us|
  {
    if us == [] then q
    else
      var last := |us| - 1;
      Apply(OneByOne(q, tenant, sp, us[..last], newId, clock),
          Upsert(Key(sp, UserResource, us[last]), tenant, newId(us[last])), clock(last))
  }

  /** The table with enqueue times blanked out. */
  ghost function Undated(q: Queue): Queue {
    map k | k in q :: q[k].(enqueuedAt := 0)
  }

  /** What a list of upserts leaves, whatever the grouping: every listed key refreshed or new, all else alone. */
  ghost predicate Refreshed(q: Queue, q': Queue, tenant: TenantId, sp: AppId, us: seq<UserId>, newId: UserId -> RowId) {
    && q'.Keys == q.Keys + UserKeys(sp, us)
    && (forall k :: k in q && k !in UserKeys(sp, us) ==> q'[k] == q[k])
    && (forall k :: k in UserKeys(sp, us) ==>
          q'[k].(enqueuedAt := 0) == Upserted(q, k, tenant, newId(k.resource), 0))
  }

  lemma RefreshedCompose(q: Queue, mid: Queue, q': Queue, tenant: TenantId, sp: AppId, us: seq<UserId>,
                         vs: seq<UserId>, newId: UserId -> RowId)
    requires Refreshed(q, mid, tenant, sp, us, newId) && Refreshed(mid, q', tenant, sp, vs, newId)
    ensures Refreshed(q, q', tenant, sp, us + vs, newId)
  {
  }

  lemma {:induction false} OneByOneRefreshes(q: Queue, tenant: TenantId, sp: AppId, us: seq<UserId>,
                                             newId: UserId -> RowId, clock: nat -> Time)
    ensures Refreshed(q, OneByOne(q, tenant, sp, us, newId, clock), tenant, sp, us, newId)
    decreases |us|
  {
    if us != [] {
      var last := |us| - 1;
      var mid := OneByOne(q, tenant, sp, us[..last], newId, clock);
      OneByOneRefreshes(q, tenant, sp, us[..last], newId, clock);
      assert UserKeys(sp, [us[last]]) == {Key(sp, UserResource, us[last])};
      assert Refreshed(mid, OneByOne(q, tenant, sp, us, newId, clock), tenant, sp, [us[last]], newId);
      RefreshedCompose(q, mid, OneByOne(q, tenant, sp, us, newId, clock), tenant, sp, us[..last], [us[last]], newId);
      assert us[..last] + [us[last]] == us;
    }
  }

  lemma StatementRefreshes(q: Queue, tenant: TenantId, sp: AppId, us: seq<UserId>, newId: UserId -> RowId, now: Time)
    ensures Refreshed(q, Statement(q, tenant, sp, us, newId, now), tenant, sp, us, newId)
  {
  }

  lemma ChunkRefreshes(q: Queue, tenant: TenantId, sp: AppId, us: seq<UserId>, newId: UserId -> RowId,
                       clock: nat -> Time, n: nat)
    requires 1 <= n <= ChunkCount(us)
    requires Refreshed(q, AfterChunks(q, tenant, sp, us, newId, clock, n - 1), tenant, sp,
             us[..CoveredCount(us, n - 1)], newId)
    ensures Refreshed(q, AfterChunks(q, tenant, sp, us, newId, clock, n), tenant, sp, us[..CoveredCount(us, n)], newId)
  {
    var mid, chunk := AfterChunks(q, tenant, sp, us, newId, clock, n - 1), Chunk(us, n - 1);
    StatementRefreshes(mid, tenant, sp, chunk, newId, clock(n - 1));
    ChunkExtends(us, n - 1);
    RefreshedCompose(q, mid, AfterChunks(q, tenant, sp, us, newId, clock, n), tenant, sp,
        us[..CoveredCount(us, n - 1)], chunk, newId);
  }

  lemma NothingRefreshed(q: Queue, tenant: TenantId, sp: AppId, newId: UserId -> RowId)
    ensures Refreshed(q, q, tenant, sp, [], newId)
  {
  }

  lemma {:induction false} ChunksRefresh(q: Queue, tenant: TenantId, sp: AppId, us: seq<UserId>,
                                         newId: UserId -> RowId, clock: nat -> Time, n: nat)
    requires n <= ChunkCount(us)
    ensures Refreshed(q, AfterChunks(q, tenant, sp, us, newId, clock, n), tenant, sp, us[..CoveredCount(us, n)], newId)
    decreases n
  {
    if n == 0 {
      NothingRefreshed(q, tenant, sp, newId);
      assert us[..0] == [];
    } else {
      ChunksRefresh(q, tenant, sp, us, newId, clock, n - 1);
      ChunkRefreshes(q, tenant, sp, us, newId, clock, n);
    }
  }

  lemma RefreshedUnique(q: Queue, a: Queue, b: Queue, tenant: TenantId, sp: AppId, us: seq<UserId>,
                        newId: UserId -> RowId)
    requires Refreshed(q, a, tenant, sp, us, newId) && Refreshed(q, b, tenant, sp, us, newId)
    ensures Undated(a) == Undated(b)
  {
  }

  /** The chunked bulk upsert leaves the same table as one upsert per id, up to enqueue times. */
  lemma BulkEqualsOneByOne(q: Queue, tenant: TenantId, sp: AppId, us: seq<UserId>, newId: UserId -> RowId,
                           chunkClock: nat -> Time, rowClock: nat -> Time)
    ensures Undated(AfterChunks(q, tenant, sp, us, newId, chunkClock, ChunkCount(us))) ==
            Undated(OneByOne(q, tenant, sp, us, newId, rowClock))
  {
    ChunksRefresh(q, tenant, sp, us, newId, chunkClock, ChunkCount(us));
    assert us[..|us|] == us;
    OneByOneRefreshes(q, tenant, sp, us, newId, rowClock);
    RefreshedUnique(q, AfterChunks(q, tenant, sp, us, newId, chunkClock, ChunkCount(us)),
        OneByOne(q, tenant, sp, us, newId, rowClock), tenant, sp, us, newId);
  }

  /** A bulk upsert keeps every dead-letter mark, touches no other key and leaves no listed user without a row. */
  lemma BulkKeepsDeadLetters(q: Queue, tenant: TenantId, sp: AppId, us: seq<UserId>, newId: UserId -> RowId,
                             clock: nat -> Time)
    ensures var q' := AfterChunks(q, tenant, sp, us, newId, clock, ChunkCount(us));
            && (forall k :: k in q ==> k in q' && q'[k].deadLetterAt == q[k].deadLetterAt)
            && (forall k :: k in q && !(k.sp == sp && k.kind.UserResource? && k.resource in us) ==> q'[k] == q[k])
            && (forall k :: k in q' <==> k in q || (k.sp == sp && k.kind.UserResource? && k.resource in us))
  {
    ChunksRefresh(q, tenant, sp, us, newId, clock, ChunkCount(us));
    assert us[..|us|] == us;
    var q' := AfterChunks(q, tenant, sp, us, newId, clock, ChunkCount(us));
    forall k | k in q
      ensures q'[k].deadLetterAt == q[k].deadLetterAt
    {
      if k in UserKeys(sp, us) {
        assert q'[k].(enqueuedAt := 0).deadLetterAt == q[k].deadLetterAt;
      }
    }
  }

  // ---------------------------------------------------------------- listings

  predicate Eligible(q: Queue, tenant: TenantId, sp: Option<AppId>, now: Time, locked: set<Key>, k: Key) {
    k in q && q[k].tenant == tenant && Ready(q[k], now) && (sp.None? || k.sp == sp.value) && k !in locked
  }

  /** What `order by enqueued_at limit :limit for update skip locked` may return; ties come in any order. */
  ghost predicate IsListing(q: Queue, tenant: TenantId, sp: Option<AppId>, limit: nat, now: Time, locked: set<Key>,
                            out: seq<Key>) {
    && |out| <= limit
    && Distinct(out)
    && (forall i :: 0 <= i < |out| ==> Eligible(q, tenant, sp, now, locked, out[i]))
    && (forall i, j :: 0 <= i < j < |out| ==> q[out[i]].enqueuedAt <= q[out[j]].enqueuedAt)
    && (forall k :: Eligible(q, tenant, sp, now, locked, k) && k !in out ==>
          |out| == limit && forall j :: j in out ==> q[j].enqueuedAt <= q[k].enqueuedAt)
  }

  lemma DistinctSize<T>(s: seq<T>, elements: set<T>)
    requires Distinct(s) && elements == set x | x in s
    ensures |elements| == |s|
    decreases |s|
  {
    if s == [] {
      assert elements == {};
    } else {
      var last := |s| - 1;
      var rest := set x | x in s[..last];
      DistinctSize(s[..last], rest);
      assert s[last] !in rest;
      assert elements == rest + {s[last]};
    }
  }

  /** A ready row with at most `limit` rows no younger than it is in every listing. */
  lemma OldEnoughIsListed(q: Queue, tenant: TenantId, sp: Option<AppId>, limit: nat, now: Time, locked: set<Key>,
                          out: seq<Key>, k: Key)
    requires IsListing(q, tenant, sp, limit, now, locked, out) && Eligible(q, tenant, sp, now, locked, k)
    requires |set j | j in q && Eligible(q, tenant, sp, now, locked, j) && q[j].enqueuedAt <= q[k].enqueuedAt| <= limit
    ensures k in out
  {
    if k !in out {
      var older := set j | j in q && Eligible(q, tenant, sp, now, locked, j) && q[j].enqueuedAt <= q[k].enqueuedAt;
      var listed := set x | x in out;
      DistinctSize(out, listed);
      SubsetSize(listed + {k}, older);
    }
  }

  function TenantsWithReadyEntries(q: Queue, now: Time): (ts: set<TenantId>) {
    set k | k in q && Ready(q[k], now) :: q[k].tenant
  }

  /** With no row locked, a tenant is discovered exactly when its own listing is non-empty. */
  lemma TenantListedIffWork(q: Queue, tenant: TenantId, limit: nat, now: Time, out: seq<Key>)
    requires limit > 0 && IsListing(q, tenant, None, limit, now, {}, out)
    ensures tenant in TenantsWithReadyEntries(q, now) <==> out != []
  {
    if tenant in TenantsWithReadyEntries(q, now) {
      var k :| k in q && Ready(q[k], now) && q[k].tenant == tenant;
      assert Eligible(q, tenant, None, now, {}, k);
    }
    if out != [] {
      assert out[0] in out;
      assert Eligible(q, tenant, None, now, {}, out[0]);
    }
  }

  function RowsOf(q: Queue, sp: AppId): set<Key> {
    set k | k in q && k.sp == sp
  }

  function CountPendingForSp(q: Queue, sp: AppId): (r: (nat, nat)) {
    (|set k | k in q && k.sp == sp && q[k].deadLetterAt.None?|, |set k | k in q && k.sp == sp &&
        q[k].deadLetterAt.Some?|)
  }

  /**
   Pending and dead-lettered rows partition the provider's rows; reviving the provider moves all of the
   second into the first.
   */
  lemma CountsPartition(q: Queue, sp: AppId, now: Time)
    ensures CountPendingForSp(q, sp).0 + CountPendingForSp(q, sp).1 == |RowsOf(q, sp)|
    ensures CountPendingForSp(Apply(q, Revive(sp), now), sp) == (|RowsOf(q, sp)|, 0)
  {
    var pending := set k | k in q && k.sp == sp && q[k].deadLetterAt.None?;
    var dead := set k | k in q && k.sp == sp && q[k].deadLetterAt.Some?;
    assert pending !! dead && pending + dead == RowsOf(q, sp);
    var q' := Apply(q, Revive(sp), now);
    assert (set k | k in q' && k.sp == sp && q'[k].deadLetterAt.None?) == RowsOf(q, sp);
    assert (set k | k in q' && k.sp == sp && q'[k].deadLetterAt.Some?) == {};
  }

  // ---------------------------------------------------------------- the table in place

  datatype BulkOutcome = Affected(total: nat) | RowAffectedTwice(chunk: nat)

  /** The placeholders of one statement, built row by row: none dropped, none repeated, in order. */
  method ValuesList(chunk: seq<UserId>) returns (values: seq<UserId>)
    ensures values == chunk
  {
    values := [];
    for i := 0 to |chunk|
      invariant values == chunk[..i]
    {
      values := values + [chunk[i]];
    }
  }

  /**
   The chunk loop of `bulk_upsert_users`. Each chunk is one committed statement; a chunk naming
   a user twice is rejected by the database, with the earlier chunks already in the table.
   */
  method UpsertInChunks(q: Queue, tenant: TenantId, sp: AppId, us: seq<UserId>, newId: UserId -> RowId,
                        clock: nat -> Time)
    returns (r: BulkOutcome, table: Queue)
    ensures r.Affected? ==> r.total == |us| && AllDistinct(us, ChunkCount(us))
    ensures r.Affected? ==> table == AfterChunks(q, tenant, sp, us, newId, clock, ChunkCount(us))
    ensures r.RowAffectedTwice? ==>
              r.chunk < ChunkCount(us) && !Distinct(Chunk(us, r.chunk)) && AllDistinct(us, r.chunk)
    ensures r.RowAffectedTwice? ==> table == AfterChunks(q, tenant, sp, us, newId, clock, r.chunk)
  {
    table := q;
    if us == [] {
      assert ChunkCount(us) == 0;
      return Affected(0), table;
    }
    var total, n := 0, 0;
    while n * 1000 < |us|
      invariant n <= ChunkCount(us)
      invariant total == CoveredCount(us, n)
      invariant table == AfterChunks(q, tenant, sp, us, newId, clock, n)
      invariant AllDistinct(us, n)
      decreases ChunkCount(us) - n
    {
      var values := ValuesList(Chunk(us, n));
      ChunkExtends(us, n);
      if !Distinct(values) {
        return RowAffectedTwice(n), table;
      }
      assert CleanChunk(us, n);
      table := Statement(table, tenant, sp, values, newId, clock(n));
      total := total + |values|;
      n := n + 1;
    }
    AllCovered(us, n);
    r := Affected(total);
  }

  class Table {
    var rows: Queue

    constructor ()
      ensures rows == map[]
    {
      rows := map[];
    }

    /** Runs one single-row or by-predicate statement; returns the number of rows it matched. */
    method Execute(op: Op, now: Time) returns (matched: nat)
      requires UniqueIds(rows) && FreshId(rows, op)
      modifies this
      ensures UniqueIds(rows) && rows == Apply(old(rows), op, now)
      ensures op.Delete? ==> |rows| == |old(rows)| - matched
      ensures op.Upsert? ==> matched == 1 && op.key in rows && rows[op.key].enqueuedAt == now
      ensures op.Delete? || op.AttemptFailed? || op.DeadLetter? || op.ClearDeadLetter? ==> matched <= 1
      ensures op.ClearDeadLetter? ==>
                matched == |set k | k in old(rows) && old(rows)[k].id == op.id && old(rows)[k].deadLetterAt.Some?|
      ensures op.Revive? ==>
                matched == |set k | k in old(rows) && k.sp == op.sp && old(rows)[k].deadLetterAt.Some?|
      ensures op.AttemptFailed? || op.DeadLetter? || op.Delete? ==>
                matched == |set k | k in old(rows) && old(rows)[k].id == op.id|
    {
      ApplyKeepsUniqueIds(rows, op, now);
      var hit := match op {
        case Upsert(k, _, _) => {k}
        case ClearDeadLetter(id) => set k | k in rows && rows[k].id == id && rows[k].deadLetterAt.Some?
        case Revive(sp) => set k | k in rows && k.sp == sp && rows[k].deadLetterAt.Some?
        case AttemptFailed(id, _, _) => set k | k in rows && rows[k].id == id
        case DeadLetter(id, _) => set k | k in rows && rows[k].id == id
        case Delete(id) => set k | k in rows && rows[k].id == id
      };
      matched := |hit|;
      if !op.Revive? {
        if k :| k in hit {
          assert hit == {k};
        }
      }
      var next := Apply(rows, op, now);
      if op.Delete? {
        assert next.Keys == rows.Keys - hit;
      }
      rows := next;
    }

    /** `bulk_upsert_users` on the stored table: what `UpsertInChunks` computes is what stays committed. */
    method BulkUpsertUsers(tenant: TenantId, sp: AppId, us: seq<UserId>, newId: UserId -> RowId, clock: nat -> Time)
      returns (r: BulkOutcome)
      modifies this
      ensures r.Affected? <==> AllDistinct(us, ChunkCount(us))
      ensures r.Affected? ==> r.total == |us|
      ensures r.Affected? ==> rows == AfterChunks(old(rows), tenant, sp, us, newId, clock, ChunkCount(us))
      ensures r.RowAffectedTwice? ==> r.chunk < ChunkCount(us) && !Distinct(Chunk(us, r.chunk))
      ensures r.RowAffectedTwice? ==> rows == AfterChunks(old(rows), tenant, sp, us, newId, clock, r.chunk)
    {
      r, rows := UpsertInChunks(rows, tenant, sp, us, newId, clock);
      assert r.RowAffectedTwice? ==> !CleanChunk(us, r.chunk);
    }

    /** `list_ready_entries`: take the oldest eligible row until the limit is reached or none is left. */
    method ListReadyEntries(tenant: TenantId, sp: Option<AppId>, limit: nat, now: Time, locked: set<Key>)
      returns (out: seq<Key>)
      ensures IsListing(rows, tenant, sp, limit, now, locked, out)
      ensures |out| <= limit
      ensures forall i, j :: 0 <= i < j < |out| ==>
                out[i] in rows && out[j] in rows && rows[out[i]].enqueuedAt <= rows[out[j]].enqueuedAt
      ensures forall k :: k in out ==>
                && k in rows && rows[k].tenant == tenant && rows[k].deadLetterAt.None?
                && (rows[k].nextAttemptAt.None? || rows[k].nextAttemptAt.value <= now)
                && (sp.None? || k.sp == sp.value) && k !in locked
      ensures forall k ::
                (&& |out| < limit && k in rows && rows[k].tenant == tenant && rows[k].deadLetterAt.None?
                 && (rows[k].nextAttemptAt.None? || rows[k].nextAttemptAt.value <= now)
                 && (sp.None? || k.sp == sp.value) && k !in locked) ==> k in out
    {
      out := [];
      var rest := set k | k in rows && Eligible(rows, tenant, sp, now, locked, k);
      while |out| < limit && rest != {}
        invariant |out| <= limit && Distinct(out)
        invariant forall k :: k in rest ==> Eligible(rows, tenant, sp, now, locked, k) && k !in out
        invariant forall k :: Eligible(rows, tenant, sp, now, locked, k) ==> k in rest || k in out
        invariant forall i :: 0 <= i < |out| ==> Eligible(rows, tenant, sp, now, locked, out[i])
        invariant forall j, k :: j in out && k in rest ==> rows[j].enqueuedAt <= rows[k].enqueuedAt
        invariant forall i, j :: 0 <= i < j < |out| ==> rows[out[i]].enqueuedAt <= rows[out[j]].enqueuedAt
        decreases |rest|
      {
        var k := Oldest(rest);
        out := out + [k];
        rest := rest - {k};
      }
    }

    method Oldest(ks: set<Key>) returns (k: Key)
      requires ks != {} && ks <= rows.Keys
      ensures k in ks && forall j :: j in ks ==> rows[k].enqueuedAt <= rows[j].enqueuedAt
    {
      k :| k in ks;
      var rest := ks - {k};
      while rest != {}
        invariant rest <= ks && k in ks
        invariant forall j :: j in ks && j !in rest ==> rows[k].enqueuedAt <= rows[j].enqueuedAt
        decreases |rest|
      {
        var j :| j in rest;
        if rows[j].enqueuedAt < rows[k].enqueuedAt {
          k := j;
        }
        rest := rest - {j};
      }
    }
  }
}
