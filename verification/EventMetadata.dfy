/**
 Event log rows and their content-addressed metadata. Creating an event and swapping its
 metadata are two statements each, in separate transactions: first the metadata row (kept if
 its hash is already there), then the event row that refers to it by hash. Orphan deletion may
 come between them; the foreign key then refuses the second statement.
 */
module EventMetadata {
  import opened Basics

  type EventId = int
  type Hash = int
  type Metadata = map<string, string>

  datatype Event = Event(kind: string, createdAt: Time, hash: Hash)
  datatype Store = Store(metadata: map<Hash, Metadata>, events: map<EventId, Event>)

  const PII_MARK := "pii_redacted_at"
  const ASSERTION := "saml_assertion_received"

  // ---------------------------------------------------------------- statements

  datatype Statement =
    | InsertMetadata(m: Metadata)
    | InsertEvent(id: EventId, kind: string, createdAt: Time, m: Metadata)
    | PointEvent(id: EventId, m: Metadata)
    | DeleteOrphans(hashes: set<Hash>)

  /** The foreign key and the primary key let the statement through. */
  predicate Accepted(s: Store, st: Statement, hash: Metadata -> Hash) {
    match st
    case InsertMetadata(_) => true
    case InsertEvent(id, _, _, m) => id !in s.events && hash(m) in s.metadata
    case PointEvent(id, m) => id in s.events ==> hash(m) in s.metadata
    case DeleteOrphans(_) => true
  }

  predicate Referenced(s: Store, h: Hash) {
    exists id :: id in s.events && s.events[id].hash == h
  }

  /** The table after a statement; a refused statement changes nothing. */
  function Apply(s: Store, st: Statement, hash: Metadata -> Hash): (s': Store) {
    if !Accepted(s, st, hash) then s
    else
      match st
      case InsertMetadata(m) => if hash(m) in s.metadata then s else s.(metadata := s.metadata[hash(m) := m])
      case InsertEvent(id, kind, createdAt, m) => s.(events := s.events[id := Event(kind, createdAt, hash(m))])
      case PointEvent(id, m) => if id in s.events
          then s.(events := s.events[id := s.events[id].(hash := hash(m))]) else s
      case DeleteOrphans(hashes) => s.(metadata := map h | h in s.metadata &&
          !(h in hashes && !Referenced(s, h)) :: s.metadata[h])
  }

  /** Every event's hash resolves, and every metadata row sits under its own hash. */
  ghost predicate Valid(s: Store, hash: Metadata -> Hash) {
    && (forall id :: id in s.events ==> s.events[id].hash in s.metadata)
    && (forall h :: h in s.metadata ==> hash(s.metadata[h]) == h)
  }

  /** What `get_event_by_id` and the listings join in. */
  function Read(s: Store, id: EventId): (m: Option<Metadata>) {
    if id in s.events && s.events[id].hash in s.metadata then Some(s.metadata[s.events[id].hash]) else None
  }

  lemma ApplyKeepsValid(s: Store, st: Statement, hash: Metadata -> Hash)
    requires Valid(s, hash)
    ensures Valid(Apply(s, st, hash), hash)
  {
  }

  /** Creating an event stores its columns under a hash that resolves; a taken id or an unresolved hash is refused. */
  lemma InsertEventEffect(s: Store, id: EventId, kind: string, createdAt: Time, m: Metadata, hash: Metadata -> Hash)
    ensures var s' := Apply(s, InsertEvent(id, kind, createdAt, m), hash);
            if id in s.events || hash(m) !in s.metadata then s' == s
            else s' == s.(events := s.events[id := s'.events[id]]) && id in s'.events &&
                 s'.events[id].kind == kind && s'.events[id].createdAt == createdAt && s'.events[id].hash == hash(m)
  {
  }

  /** Pointing an event elsewhere changes only its hash, and nothing if event or metadata is missing. */
  lemma PointEventEffect(s: Store, id: EventId, m: Metadata, hash: Metadata -> Hash)
    ensures var s' := Apply(s, PointEvent(id, m), hash);
            if id !in s.events || hash(m) !in s.metadata then s' == s
            else s'.metadata == s.metadata && s'.events == s.events[id := s.events[id].(hash := hash(m))]
  {
  }

  /** Inserting metadata keeps what is there under the hash. */
  lemma InsertMetadataEffect(s: Store, m: Metadata, hash: Metadata -> Hash)
    ensures var s' := Apply(s, InsertMetadata(m), hash);
            && hash(m) in s'.metadata && s'.events == s.events
            && (hash(m) !in s.metadata ==> s'.metadata[hash(m)] == m)
            && (forall h :: h in s.metadata ==> h in s'.metadata && s'.metadata[h] == s.metadata[h])
            && (forall h :: h in s'.metadata ==> h in s.metadata || h == hash(m))
  {
  }

  /** Orphan deletion takes exactly the given hashes that no event refers to. */
  lemma DeleteOrphansEffect(s: Store, hashes: set<Hash>, hash: Metadata -> Hash)
    ensures var s' := Apply(s, DeleteOrphans(hashes), hash);
            && s'.events == s.events
            && (forall h :: h in s'.metadata <==>
                  h in s.metadata && (h !in hashes || exists id :: id in s.events && s.events[id].hash == h))
            && (forall h :: h in s'.metadata ==> s'.metadata[h] == s.metadata[h])
  {
  }

  // ---------------------------------------------------------------- whole histories

  /** The metadata last written to each event by a statement that was accepted. */
  function Written(s: Store, written: map<EventId, Metadata>, sts: seq<Statement>,
                   hash: Metadata -> Hash): (w: map<EventId, Metadata>)
    decreases |sts|
  {
    if sts == [] then written
    else
      var st := sts[0];
      var now :=
        if Accepted(s, st, hash) && (st.InsertEvent? || (st.PointEvent? && st.id in s.events))
            then written[st.id := st.m] else written;
      Written(Apply(s, st, hash), now, sts[1..], hash)
  }

  function Run(s: Store, sts: seq<Statement>, hash: Metadata -> Hash): (s': Store)
    decreases |sts|
  {
    if sts == [] then s else Run(Apply(s, sts[0], hash), sts[1..], hash)
  }

  ghost predicate Injective(hash: Metadata -> Hash) {
    forall a, b :: hash(a) == hash(b) ==> a == b
  }

  ghost predicate ReadsAre(s: Store, written: map<EventId, Metadata>) {
    written.Keys == s.events.Keys && forall id :: id in s.events ==> Read(s, id) == Some(written[id])
  }

  /**
   A point at which the metadata written is the metadata read back: exactly when no other metadata sits
   under its hash.
   */
  lemma WriteReadsBackIff(s: Store, id: EventId, m: Metadata, hash: Metadata -> Hash)
    requires Valid(s, hash) && id in s.events
    ensures var s' := Apply(Apply(s, InsertMetadata(m), hash), PointEvent(id, m), hash);
            Read(s', id) == Some(m) <==> (hash(m) in s.metadata ==> s.metadata[hash(m)] == m)
  {
  }

  lemma StepKeepsReads(s: Store, written: map<EventId, Metadata>, st: Statement, hash: Metadata -> Hash)
    requires Valid(s, hash) && Injective(hash) && ReadsAre(s, written)
    ensures var now := if Accepted(s, st, hash) &&
            (st.InsertEvent? || (st.PointEvent? && st.id in s.events)) then written[st.id := st.m] else written;
            ReadsAre(Apply(s, st, hash), now)
  {
  }

  /**
   In every interleaving of the statements of any number of creates, swaps and orphan
   deletions, reading an event returns the metadata last written to it.
   */
  lemma {:induction false} ReadsReturnLastWrite(s: Store, written: map<EventId, Metadata>, sts: seq<Statement>,
                                                hash: Metadata -> Hash)
    requires Valid(s, hash) && Injective(hash) && ReadsAre(s, written)
    ensures Valid(Run(s, sts, hash), hash)
    ensures ReadsAre(Run(s, sts, hash), Written(s, written, sts, hash))
    decreases |sts|
  {
    if sts != [] {
      var st := sts[0];
      var now := if Accepted(s, st, hash) && (st.InsertEvent? || (st.PointEvent? && st.id in s.events))
          then written[st.id := st.m] else written;
      ApplyKeepsValid(s, st, hash);
      StepKeepsReads(s, written, st, hash);
      ReadsReturnLastWrite(Apply(s, st, hash), now, sts[1..], hash);
    }
  }

  /** Orphan deletion changes no read, whatever hashes it is given, and leaves none of the given hashes unreferenced. */
  lemma OrphanDeletionIsInvisible(s: Store, hashes: set<Hash>, hash: Metadata -> Hash, id: EventId)
    requires Valid(s, hash)
    ensures var s' := Apply(s, DeleteOrphans(hashes), hash);
            && Read(s', id) == Read(s, id)
            && (forall h :: h in hashes && h in s'.metadata ==> Referenced(s', h))
  {
  }

  // ---------------------------------------------------------------- redaction

  /** `get_unredacted_verbose_events` without its limit. */
  function Unredacted(s: Store, now: Time): (ids: set<EventId>) {
    set id | id in s.events && s.events[id].kind == ASSERTION && s.events[id].createdAt < now - 86400 &&
             s.events[id].hash in s.metadata && PII_MARK !in s.metadata[s.events[id].hash]
  }

  /** One day, in seconds. */
  const DAY: Time := 86400

  /** An event is due exactly if it records an assertion, is more than a day old and its metadata bears no mark. */
  lemma DueIff(s: Store, now: Time, id: EventId)
    ensures id in Unredacted(s, now) <==>
            && id in s.events && s.events[id].kind == "saml_assertion_received" && s.events[id].createdAt + DAY < now
            && Read(s, id).Some? && "pii_redacted_at" !in Read(s, id).value
  {
  }

  function Swapped(s: Store, id: EventId, m: Metadata, hash: Metadata -> Hash): Store {
    Apply(Apply(s, InsertMetadata(m), hash), PointEvent(id, m), hash)
  }

  /**
   Swapping in marked metadata takes exactly that event out of the unredacted set and leaves every
   other read alone.
   */
  lemma SwapShrinksUnredacted(s: Store, id: EventId, m: Metadata, hash: Metadata -> Hash, now: Time)
    requires Valid(s, hash) && Injective(hash) && id in Unredacted(s, now) && PII_MARK in m
    ensures var s' := Swapped(s, id, m, hash);
            && Valid(s', hash) && s'.events.Keys == s.events.Keys
            && Unredacted(s', now) == Unredacted(s, now) - {id}
            && Read(s', id) == Some(m)
            && (forall j :: j != id ==> Read(s', j) == Read(s, j))
  {
  }

  /** Events a redaction run may have to rewrite, whatever their age. */
  ghost function Unmarked(s: Store): (ids: set<EventId>) {
    set id | id in s.events && s.events[id].kind == ASSERTION && s.events[id].hash in s.metadata &&
        PII_MARK !in s.metadata[s.events[id].hash]
  }

  /** Only the hash of an event row ever changes. */
  ghost predicate SameRows(start: Store, s: Store) {
    && s.events.Keys == start.events.Keys
    && forall id :: id in s.events ==>
        s.events[id].kind == start.events[id].kind && s.events[id].createdAt == start.events[id].createdAt
  }

  /** `s` is `start` with the events in `done` redacted, each once, and nothing else read differently. */
  ghost predicate Redacting(start: Store, s: Store, done: set<EventId>, redact: (EventId, Metadata) -> Metadata,
                            hash: Metadata -> Hash) {
    && Valid(s, hash) && SameRows(start, s) && done <= Unmarked(start)
    && (forall id :: Read(s, id) == if id in done then Some(redact(id, Read(start, id).value)) else Read(start, id))
  }

  lemma RedactingUnredacted(start: Store, s: Store, done: set<EventId>, redact: (EventId, Metadata) -> Metadata,
                            hash: Metadata -> Hash, now: Time)
    requires Redacting(start, s, done, redact, hash) && forall id, m :: PII_MARK in redact(id, m)
    ensures Unredacted(s, now) == Unredacted(start, now) - done && Unmarked(s) == Unmarked(start) - done
  {
    forall id
      ensures id in Unredacted(s, now) <==> id in Unredacted(start, now) - done
      ensures id in Unmarked(s) <==> id in Unmarked(start) - done
    {
      assert Read(s, id) == if id in done then Some(redact(id, Read(start, id).value)) else Read(start, id);
    }
  }

  /** A swap rewrites what its event reads and nothing else. */
  lemma SwapReads(s: Store, id: EventId, m: Metadata, hash: Metadata -> Hash, j: EventId)
    requires Valid(s, hash) && Injective(hash) && id in s.events
    ensures var s' := Swapped(s, id, m, hash);
            Valid(s', hash) && SameRows(s, s') && Read(s', j) == if j == id then Some(m) else Read(s, j)
  {
    var s' := Swapped(s, id, m, hash);
    assert s'.metadata[hash(m)] == m;
  }

  lemma RedactOne(start: Store, s: Store, done: set<EventId>, redact: (EventId, Metadata) -> Metadata,
                  hash: Metadata -> Hash, id: EventId)
    requires Redacting(start, s, done, redact, hash) && Injective(hash) && id in Unmarked(start) - done
    ensures id in s.events && Read(s, id) == Read(start, id)
    ensures Redacting(start, Swapped(s, id, redact(id, Read(start, id).value), hash), done + {id}, redact, hash)
  {
    assert Read(s, id) == Read(start, id);
    var s' := Swapped(s, id, redact(id, Read(start, id).value), hash);
    forall j
      ensures Read(s', j) == if j in done + {id} then Some(redact(j, Read(start, j).value)) else Read(start, j)
    {
      SwapReads(s, id, redact(id, Read(start, id).value), hash, j);
    }
    SwapReads(s, id, redact(id, Read(start, id).value), hash, id);
  }

  lemma OrphansKeepRedacting(start: Store, s: Store, done: set<EventId>, redact: (EventId, Metadata) -> Metadata,
                             hash: Metadata -> Hash, hashes: set<Hash>)
    requires Redacting(start, s, done, redact, hash)
    ensures Redacting(start, Apply(s, DeleteOrphans(hashes), hash), done, redact, hash)
  {
    var s' := Apply(s, DeleteOrphans(hashes), hash);
    forall id
      ensures Read(s', id) == Read(s, id)
    {
      OrphanDeletionIsInvisible(s, hashes, hash, id);
    }
    ApplyKeepsValid(s, DeleteOrphans(hashes), hash);
  }

  /** Every metadata row without an event was without one at the start, or is among those to be deleted. */
  ghost predicate OrphansKnown(start: Store, s: Store, known: set<Hash>) {
    forall h :: h in s.metadata && !Referenced(s, h) ==> h in known || (h in start.metadata && !Referenced(start, h))
  }

  lemma SwapOrphans(start: Store, s: Store, known: set<Hash>, id: EventId, m: Metadata, hash: Metadata -> Hash)
    requires OrphansKnown(start, s, known) && Valid(s, hash) && id in s.events
    ensures OrphansKnown(start, Swapped(s, id, m, hash), known + {s.events[id].hash})
  {
    var s' := Swapped(s, id, m, hash);
    assert s'.events[id].hash == hash(m) && Referenced(s', hash(m));
    forall h | Referenced(s, h) && h != s.events[id].hash
      ensures Referenced(s', h)
    {
      var j :| j in s.events && s.events[j].hash == h;
      assert s'.events[j].hash == h;
    }
  }

  /** Deleting the known orphans leaves only those that were there at the start. */
  lemma OrphansDeleted(start: Store, s: Store, known: set<Hash>, hash: Metadata -> Hash)
    requires OrphansKnown(start, s, known)
    ensures OrphansKnown(start, Apply(s, DeleteOrphans(known), hash), {})
  {
    var s' := Apply(s, DeleteOrphans(known), hash);
    assert forall h :: Referenced(s', h) <==> Referenced(s, h);
  }

  /** An event at most a day old reads as it did. */
  lemma YoungIsKept(start: Store, s: Store, redact: (EventId, Metadata) -> Metadata, hash: Metadata -> Hash, now: Time)
    requires Redacting(start, s, Unredacted(start, now), redact, hash)
    ensures forall id :: id in start.events && now <= start.events[id].createdAt + DAY ==>
              Read(s, id) == Read(start, id)
  {
    forall id | id in start.events && now <= start.events[id].createdAt + DAY
      ensures Read(s, id) == Read(start, id)
    {
      DueIff(start, now, id);
    }
  }

  lemma OlderLater(s: Store, now: Time, later: Time)
    requires now <= later
    ensures Unredacted(s, now) <= Unredacted(s, later) <= Unmarked(s)
  {
  }

  lemma OnlyDue<T>(all: set<T>, before: set<T>, due: set<T>, done: set<T>)
    requires due == all - before && forall x :: x in done - before ==> x in due
    ensures done <= before + all && (due == {} ==> all <= before)
  {
    if due == {} {
      forall x | x in all
        ensures x in before
      {
        assert x !in due;
      }
    }
    forall x | x in done
      ensures x in before + all
    {
      assert x in before || x in done - before;
    }
  }

  class EventLog {
    var store: Store

    constructor ()
      ensures store == Store(map[], map[])
    {
      store := Store(map[], map[]);
    }

    /** `swap_event_metadata`: the two statements, one after the other. */
    method SwapEventMetadata(id: EventId, m: Metadata, hash: Metadata -> Hash)
      requires Valid(store, hash)
      modifies this
      ensures Valid(store, hash) && store == Swapped(old(store), id, m, hash)
    {
      ApplyKeepsValid(store, InsertMetadata(m), hash);
      store := Apply(store, InsertMetadata(m), hash);
      ApplyKeepsValid(store, PointEvent(id, m), hash);
      store := Apply(store, PointEvent(id, m), hash);
    }

    /** A non-empty batch of at most `size` unredacted events, when there are any. */
    method Batch(now: Time, size: nat) returns (ids: seq<EventId>)
      requires size > 0
      ensures forall i :: 0 <= i < |ids| ==> ids[i] in Unredacted(store, now)
      ensures forall i, j :: 0 <= i < j < |ids| ==> ids[i] != ids[j]
      ensures |ids| <= size && (ids == [] <==> Unredacted(store, now) == {})
    {
      ids := [];
      var all := Unredacted(store, now);
      var rest := all;
      while |ids| < size && rest != {}
        invariant rest <= all && |ids| <= size
        invariant forall i :: 0 <= i < |ids| ==> ids[i] in all - rest
        invariant forall i, j :: 0 <= i < j < |ids| ==> ids[i] != ids[j]
        invariant ids == [] ==> rest == all
        decreases |rest|
      {
        ghost var some := Element(rest);
        var id :| id in rest;
        ids := ids + [id];
        rest := rest - {id};
      }
      assert ids != [] ==> ids[0] in all;
    }

    /** One event of a batch. Its stamp is its own, so `redact` depends on the event. */
    method RedactEvent(ghost start: Store, ghost done: set<EventId>, id: EventId,
                       redact: (EventId, Metadata) -> Metadata, hash: Metadata -> Hash, ghost known: set<Hash>)
      returns (oldHash: Hash)
      requires Redacting(start, store, done, redact, hash) && Injective(hash) && id in Unmarked(start) - done
      requires OrphansKnown(start, store, known)
      modifies this
      ensures Redacting(start, store, done + {id}, redact, hash)
      ensures OrphansKnown(start, store, known + {oldHash})
    {
      RedactOne(start, store, done, redact, hash, id);
      oldHash := store.events[id].hash;
      SwapOrphans(start, store, known, id, redact(id, store.metadata[oldHash]), hash);
      SwapEventMetadata(id, redact(id, store.metadata[oldHash]), hash);
    }

    /** The loop over one batch. */
    method RedactBatch(ghost start: Store, ghost before: set<EventId>, batch: seq<EventId>,
                       redact: (EventId, Metadata) -> Metadata, hash: Metadata -> Hash, ghost known: set<Hash>)
      returns (oldHashes: set<Hash>, ghost done: set<EventId>)
      requires Redacting(start, store, before, redact, hash) && Injective(hash)
      requires forall i :: 0 <= i < |batch| ==> batch[i] in Unmarked(start) - before
      requires forall i, j :: 0 <= i < j < |batch| ==> batch[i] != batch[j]
      requires OrphansKnown(start, store, known)
      modifies this
      ensures Redacting(start, store, done, redact, hash) && OrphansKnown(start, store, known + oldHashes)
      ensures before <= done && |done| == |before| + |batch| && forall id :: id in done - before ==> id in batch
      ensures batch == [] ==> oldHashes == {}
    {
      oldHashes, done := {}, before;
      assert known + oldHashes == known;
      for n := 0 to |batch|
        invariant Redacting(start, store, done, redact, hash) && OrphansKnown(start, store, known + oldHashes)
        invariant n == 0 ==> oldHashes == {}
        invariant before <= done && |done| == |before| + n && forall id :: id in done - before ==> id in batch[..n]
      {
        assert batch[n] !in batch[..n] && batch[..n + 1] == batch[..n] + [batch[n]];
        var oldHash := RedactEvent(start, done, batch[n], redact, hash, known + oldHashes);
        assert known + oldHashes + {oldHash} == known + (oldHashes + {oldHash});
        oldHashes := oldHashes + {oldHash};
        done := done + {batch[n]};
      }
    }

    /** One query and its batch; nothing is done exactly when everything old enough is. */
    method RedactRound(ghost start: Store, ghost before: set<EventId>, now: Time,
                       redact: (EventId, Metadata) -> Metadata, hash: Metadata -> Hash, ghost known: set<Hash>)
      returns (count: nat, oldHashes: set<Hash>, ghost done: set<EventId>)
      requires Redacting(start, store, before, redact, hash) && Injective(hash) &&
               forall id, m :: PII_MARK in redact(id, m)
      requires OrphansKnown(start, store, known)
      modifies this
      ensures Redacting(start, store, done, redact, hash) && OrphansKnown(start, store, known + oldHashes)
      ensures before <= done <= before + Unredacted(start, now) && |done| == |before| + count && count <= 100
      ensures count == 0 ==> Unredacted(start, now) <= before && oldHashes == {}
    {
      RedactingUnredacted(start, store, before, redact, hash, now);
      OlderLater(start, now, now);
      ghost var due := Unredacted(store, now);
      var batch := Batch(now, 100);
      count := |batch|;
      assert due == Unredacted(start, now) - before && forall id :: id in batch ==> id in due;
      assert count == 0 <==> due == {};
      oldHashes, done := RedactBatch(start, before, batch, redact, hash, known);
      forall id | id in done - before
        ensures id in due
      {
        assert id in batch;
      }
      OnlyDue(Unredacted(start, now), before, due, done);
    }

    /** The loop of rounds, each query reading the clock again, until one comes back empty. */
    method RedactAll(clock: nat -> Time, redact: (EventId, Metadata) -> Metadata, hash: Metadata -> Hash)
      returns (total: nat, queries: nat, oldHashes: set<Hash>)
      requires Valid(store, hash) && Injective(hash) && forall id, m :: PII_MARK in redact(id, m)
      requires forall i: nat, j: nat :: i <= j ==> clock(i) <= clock(j)
      modifies this
      ensures Redacting(old(store), store, Unredacted(old(store), clock(queries)), redact, hash)
      ensures OrphansKnown(old(store), store, oldHashes)
      ensures total == |Unredacted(old(store), clock(queries))| && queries <= total <= 100 * queries
    {
      total, queries, oldHashes := 0, 0, {};
      ghost var start, done := store, {};
      while true
        invariant Redacting(start, store, done, redact, hash) && OrphansKnown(start, store, oldHashes)
        invariant total == |done| && done <= Unredacted(start, clock(queries)) && queries <= total <= 100 * queries
        decreases |Unmarked(start)| - |done|
      {
        var count, hashes;
        count, hashes, done := RedactRound(start, done, clock(queries), redact, hash, oldHashes);
        SubsetSize(done, Unmarked(start));
        if count == 0 {
          assert oldHashes + hashes == oldHashes && done == Unredacted(start, clock(queries));
          break;
        }
        total := total + count;
        oldHashes := oldHashes + hashes;
        OlderLater(start, clock(queries), clock(queries + 1));
        queries := queries + 1;
      }
    }

    /**
     `redact_verbose_event_pii`: it ends, and has then rewritten exactly the events that were old enough at
     its last query, each once, and changed no other read; of the metadata it replaced, none is left without
     an event.
     */
    method RedactVerboseEventPii(clock: nat -> Time, redact: (EventId, Metadata) -> Metadata, hash: Metadata -> Hash)
      returns (total: nat, queries: nat)
      requires Valid(store, hash) && Injective(hash) && forall id, m :: PII_MARK in redact(id, m)
      requires forall i: nat, j: nat :: i <= j ==> clock(i) <= clock(j)
      modifies this
      ensures Redacting(old(store), store, Unredacted(old(store), clock(queries)), redact, hash)
      ensures Unredacted(store, clock(queries)) == {} && total == |Unredacted(old(store), clock(queries))|
      ensures forall id :: id in old(store).events && clock(queries) <= old(store).events[id].createdAt + DAY ==>
                Read(store, id) == Read(old(store), id)
      ensures forall h :: h in store.metadata && !Referenced(store, h) ==>
                h in old(store).metadata && !Referenced(old(store), h)
      ensures queries <= total <= 100 * queries
    {
      ghost var start := store;
      var oldHashes;
      total, queries, oldHashes := RedactAll(clock, redact, hash);
      ghost var done := Unredacted(start, clock(queries));
      OrphansKeepRedacting(start, store, done, redact, hash, oldHashes);
      OrphansDeleted(start, store, oldHashes, hash);
      store := Apply(store, DeleteOrphans(oldHashes), hash);
      RedactingUnredacted(start, store, done, redact, hash, clock(queries));
      YoungIsKept(start, store, redact, hash, clock(queries));
    }
  }
}
