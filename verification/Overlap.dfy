/**
 Overlapping push workers. Nothing holds a lock from listing a queue row to deleting it, so listing
 the row, evaluating scope, calling the receiver and deleting the row are separate steps that
 interleave with every change, every trigger and any number of other workers.
 */
module Overlap {
  import opened Basics
  import opened GroupGraph
  import opened Access
  import opened PushQueue
  import opened Provisioning
  import opened Untriggered
  import opened PushWorker

  /** How far an entry is: listed, its scope evaluated, or the receiver called with that decision. */
  datatype Stage = Listed | Evaluated(wanted: bool) | Landed(wanted: bool)

  /** An entry some worker has at hand: the row it read, and how far it is. A worker lists many at once. */
  datatype Flight = Flight(key: Key, rowId: RowId, stage: Stage)
  datatype System = System(w: World, flights: map<nat, Flight>)

  datatype Move =
    | Environment(s: Step)
    | List(entry: nat, k: Key)
    | Evaluate(entry: nat)
    | Drop(entry: nat)
    | Land(entry: nat)
    | Finish(entry: nat)
    | Abandon(entry: nat, error: string, retryAt: Option<Time>)

  function Delivered(remote: set<(AppId, UserId)>, k: Key, wanted: bool): set<(AppId, UserId)> {
    if k.kind.GroupResource? then remote
    else if wanted then remote + {(k.sp, k.resource)}
    else remote - {(k.sp, k.resource)}
  }

  ghost predicate CanMove(y: System, m: Move, now: Time) {
    match m
    case Environment(s) =>
      && !s.Processed? && Enabled(y.w, s, now)
      && (s.Fires? ==> forall i, k :: i in y.flights ==> y.flights[i].rowId != s.newId(k))
    case List(i, k) => i !in y.flights && k in y.w.q && Ready(y.w.q[k], now)
    case Evaluate(i) => i in y.flights && y.flights[i].stage.Listed? && Served(y.w, y.flights[i].key)
    case Drop(i) => i in y.flights && y.flights[i].stage.Listed? && !Served(y.w, y.flights[i].key)
    case Land(i) => i in y.flights && y.flights[i].stage.Evaluated?
    case Finish(i) => i in y.flights && y.flights[i].stage.Landed?
    case Abandon(i, _, _) => i in y.flights
  }

  /** The row is not looked at again between listing and the statement that deletes or updates it by id. */
  function Moved(y: System, m: Move, now: Time): (y': System)
    requires m.Environment? ==> !m.s.Processed? && (m.s.Fires? ==> m.s.i in y.w.jobs)
    requires m.List? ==> m.k in y.w.q
    requires !m.Environment? && !m.List? ==> m.entry in y.flights
    requires m.Land? ==> y.flights[m.entry].stage.Evaluated?
  {
    match m
    case Environment(s) => y.(w := Next(y.w, s, now))
    case List(i, k) => y.(flights := y.flights[i := Flight(k, y.w.q[k].id, Listed)])
    case Evaluate(i) =>
      var f := y.flights[i];
      y.(flights := y.flights[i := f.(stage := Evaluated(Wanted(y.w.t, f.key.resource, f.key.sp)))])
    case Drop(i) => System(y.w.(q := Apply(y.w.q, Delete(y.flights[i].rowId), now)), y.flights - {i})
    case Land(i) =>
      var f := y.flights[i];
      System(y.w.(remote := Delivered(y.w.remote, f.key, f.stage.wanted)),
          y.flights[i := f.(stage := Landed(f.stage.wanted))])
    case Finish(i) => System(y.w.(q := Apply(y.w.q, Delete(y.flights[i].rowId), now)), y.flights - {i})
    case Abandon(i, error, retryAt) =>
      var id := y.flights[i].rowId;
      var op := if retryAt.Some? then AttemptFailed(id, error, retryAt.value) else DeadLetter(id, error);
      System(y.w.(q := Apply(y.w.q, op, now)), y.flights - {i})
  }

  // ---------------------------------------------------------------- undisturbed, the moves are the worker's one step

  /** An entry taken from listing to deletion without anything in between is the worker's one accepted step. */
  lemma UndisturbedEntry(y: System, i: nat, k: Key, now: Time)
    requires i !in y.flights && k in y.w.q && Ready(y.w.q[k], now) && Served(y.w, k)
    ensures CanMove(y, List(i, k), now)
    ensures var y1 := Moved(y, List(i, k), now);
            && CanMove(y1, Evaluate(i), now)
            && var y2 := Moved(y1, Evaluate(i), now);
               && CanMove(y2, Land(i), now)
               && var y3 := Moved(y2, Land(i), now);
                  && CanMove(y3, Finish(i), now)
                  && Moved(y3, Finish(i), now) == System(Process(y.w, k, ACCEPTED, now), y.flights)
  {
    var y1 := Moved(y, List(i, k), now);
    var y2 := Moved(y1, Evaluate(i), now);
    var y3 := Moved(y2, Land(i), now);
    assert y3.flights - {i} == y.flights;
    assert y3.w.remote == Established(y.w, k);
  }

  /** An orphaned entry listed and dropped is the one step of dropping it. */
  lemma UndisturbedDrop(y: System, i: nat, k: Key, x: Weather, now: Time)
    requires i !in y.flights && k in y.w.q && Ready(y.w.q[k], now) && !Served(y.w, k)
    ensures CanMove(y, List(i, k), now)
    ensures var y1 := Moved(y, List(i, k), now);
            CanMove(y1, Drop(i), now) && Moved(y1, Drop(i), now) == System(Process(y.w, k, x, now), y.flights)
  {
    assert Moved(y, List(i, k), now).flights - {i} == y.flights;
  }

  /** An entry given up is put off to the time given, or dead-lettered if there is none; the receiver is untouched. */
  lemma AbandonEffect(y: System, i: nat, error: string, retryAt: Option<Time>, now: Time)
    requires UniqueIds(y.w.q) && i in y.flights && RowThere(y.w.q, y.flights[i])
    ensures var y', k := Moved(y, Abandon(i, error, retryAt), now), y.flights[i].key;
            && y'.flights == y.flights - {i} && y'.w == y.w.(q := y'.w.q)
            && OthersKept(y.w.q, y'.w.q, {k}) && k in y'.w.q && y'.w.q[k].lastError == Some(error)
            && (retryAt.None? ==> y'.w.q[k].deadLetterAt == Some(now) && y'.w.q[k].attempts == y.w.q[k].attempts)
            && (retryAt.Some? ==>
                  && y'.w.q[k].attempts == y.w.q[k].attempts + 1 && y'.w.q[k].nextAttemptAt == retryAt
                  && y'.w.q[k].deadLetterAt == y.w.q[k].deadLetterAt)
  {
  }

  /** How many moves an entry is past its listing. */
  function Progress(stage: Stage): nat {
    match stage
    case Listed => 0
    case Evaluated(_) => 1
    case Landed(_) => 2
  }

  /**
   A move leaves an entry alone, or moves it on by one stage for the same row, or ends it: after its call, or
   dropped right after its listing, or abandoned.
   */
  lemma FlightAdvances(y: System, m: Move, now: Time, i: nat)
    requires CanMove(y, m, now) && i in y.flights
    ensures var y', f := Moved(y, m, now), y.flights[i];
            if i in y'.flights
            then
              || y'.flights[i] == f
              || (y'.flights[i] == f.(stage := y'.flights[i].stage) &&
                  Progress(y'.flights[i].stage) == Progress(f.stage) + 1)
            else
              || (m == Finish(i) && Progress(f.stage) == 2)
              || (m == Drop(i) && Progress(f.stage) == 0)
              || m.Abandon?
  {
  }

  // ---------------------------------------------------------------- rows and flights

  /** A row id a worker remembers names no other key. */
  ghost predicate NamesOwnKey(q: Queue, f: Flight) {
    forall k :: k in q && q[k].id == f.rowId ==> k == f.key
  }

  ghost predicate Named(y: System) {
    UniqueIds(y.w.q) && forall i :: i in y.flights ==> NamesOwnKey(y.w.q, y.flights[i])
  }

  lemma FireKeepsName(y: System, s: Step, now: Time, i: nat)
    requires i in y.flights && NamesOwnKey(y.w.q, y.flights[i]) && s.Fires? && CanMove(y, Environment(s), now)
    ensures NamesOwnKey(Next(y.w, s, now).q, y.flights[i])
  {
  }

  lemma OpKeepsName(q: Queue, op: Op, now: Time, f: Flight)
    requires !op.Upsert? && NamesOwnKey(q, f)
    ensures NamesOwnKey(Apply(q, op, now), f)
  {
  }

  lemma EnvironmentNamed(y: System, s: Step, now: Time)
    requires Named(y) && CanMove(y, Environment(s), now)
    ensures Named(Moved(y, Environment(s), now))
  {
    match s {
      case Changes(_, _) =>
      case Fires(i, newId, failed) => EnqueueKeepsIds(y.w, KeysNow(y.w, y.w.jobs[i]) - failed, newId, now);
      case Cleared(id) => ApplyKeepsUniqueIds(y.w.q, ClearDeadLetter(id), now);
      case RevivedSp(sp) => ApplyKeepsUniqueIds(y.w.q, Revive(sp), now);
    }
    forall i | i in y.flights
      ensures NamesOwnKey(Next(y.w, s, now).q, y.flights[i])
    {
      match s
      case Changes(_, _) =>
      case Fires(_, _, _) => FireKeepsName(y, s, now, i);
      case Cleared(id) => OpKeepsName(y.w.q, ClearDeadLetter(id), now, y.flights[i]);
      case RevivedSp(sp) => OpKeepsName(y.w.q, Revive(sp), now, y.flights[i]);
    }
  }

  lemma OpNamed(y: System, op: Op, now: Time, flights: map<nat, Flight>)
    requires Named(y) && !op.Upsert? && forall i :: i in flights ==> i in y.flights && flights[i] == y.flights[i]
    ensures Named(System(y.w.(q := Apply(y.w.q, op, now)), flights))
  {
    ApplyKeepsUniqueIds(y.w.q, op, now);
    forall i | i in flights
      ensures NamesOwnKey(Apply(y.w.q, op, now), flights[i])
    {
      OpKeepsName(y.w.q, op, now, y.flights[i]);
    }
  }

  /** Moves that change no row keep the names, if every entry keeps its row and key or has just listed it. */
  lemma SameRowsNamed(y: System, y': System)
    requires Named(y) && y'.w.q == y.w.q
    requires forall i :: i in y'.flights ==>
               || (i in y.flights && y'.flights[i].key == y.flights[i].key && y'.flights[i].rowId == y.flights[i].rowId)
               || (y'.flights[i].key in y.w.q && y.w.q[y'.flights[i].key].id == y'.flights[i].rowId)
    ensures Named(y')
  {
    forall i | i in y'.flights
      ensures NamesOwnKey(y'.w.q, y'.flights[i])
    {
      assert i in y.flights ==> NamesOwnKey(y.w.q, y.flights[i]);
    }
  }

  lemma MoveNamed(y: System, m: Move, now: Time)
    requires Named(y) && CanMove(y, m, now)
    ensures Named(Moved(y, m, now))
  {
    match m
    case Environment(s) => EnvironmentNamed(y, s, now);
    case List(_, _) => SameRowsNamed(y, Moved(y, m, now));
    case Evaluate(_) => SameRowsNamed(y, Moved(y, m, now));
    case Drop(i) => OpNamed(y, Delete(y.flights[i].rowId), now, y.flights - {i});
    case Land(_) => SameRowsNamed(y, Moved(y, m, now));
    case Finish(i) => OpNamed(y, Delete(y.flights[i].rowId), now, y.flights - {i});
    case Abandon(i, error, retryAt) =>
      var id := y.flights[i].rowId;
      OpNamed(y, if retryAt.Some? then AttemptFailed(id, error, retryAt.value)
          else DeadLetter(id, error), now, y.flights - {i});
  }

  // ---------------------------------------------------------------- exactly when a move is safe

  /** The entry speaks for a user the receiver is told about. */
  predicate Speaks(y: System, f: Flight) {
    f.key.kind.UserResource? && Managed(y.w, f.key.sp, f.key.resource)
  }

  /** The decision the worker evaluated, if it has one, is still the current one. */
  predicate Current(y: System, f: Flight) {
    f.stage.Listed? || f.stage.wanted == Wanted(y.w.t, f.key.resource, f.key.sp)
  }

  predicate RowThere(q: Queue, f: Flight) {
    f.key in q && q[f.key].id == f.rowId
  }

  /**
   A trigger must be safe when it runs. A call may land when its decision is current or a row, queued
   or owed, will bring the matter up again. A row may be deleted when the receiver holds what is
   currently wanted or a new row is owed.
   */
  ghost predicate SafeMove(y: System, m: Move) {
    match m
    case Environment(s) => Safe(y.w, s)
    case Land(i) => i in y.flights && (Speaks(y, y.flights[i]) ==>
        Current(y, y.flights[i]) || Promised(y.w, y.flights[i].key))
    case Finish(i) =>
      && i in y.flights
      && (var f := y.flights[i];
          Speaks(y, f) && RowThere(y.w.q, f) ==> Agrees(y.w, f.key.sp, f.key.resource) || Owed(y.w, f.key))
    case _ => true
  }

  lemma LandTracksOthers(y: System, i: nat, now: Time, sp: AppId, u: UserId)
    requires CanMove(y, Land(i), now) && Tracked(y.w, sp, u) && y.flights[i].key != UserKey(sp, u)
    ensures Tracked(Moved(y, Land(i), now).w, sp, u)
  {
    var f := y.flights[i];
    assert (sp, u) in Delivered(y.w.remote, f.key, f.stage.wanted) <==> (sp, u) in y.w.remote;
  }

  lemma LandSafeIff(y: System, i: nat, now: Time)
    requires Converging(y.w) && CanMove(y, Land(i), now)
    ensures Converging(Moved(y, Land(i), now).w) <==> SafeMove(y, Land(i))
  {
    var y', f := Moved(y, Land(i), now), y.flights[i];
    assert forall k :: Promised(y'.w, k) <==> Promised(y.w, k);
    if SafeMove(y, Land(i)) {
      forall sp, u
        ensures Tracked(y'.w, sp, u)
      {
        assert Tracked(y.w, sp, u);
        if f.key != UserKey(sp, u) {
          LandTracksOthers(y, i, now, sp, u);
        }
      }
    } else {
      assert f.key == UserKey(f.key.sp, f.key.resource);
      assert !Tracked(y'.w, f.key.sp, f.key.resource);
    }
  }

  /** Deleting by the remembered id takes the entry's own row or nothing. */
  lemma DeleteTakesOwnRow(y: System, i: nat, now: Time, y': System)
    requires i in y.flights && Named(y) && y'.w == y.w.(q := Apply(y.w.q, Delete(y.flights[i].rowId), now))
    ensures var f := y.flights[i];
            y'.w.q.Keys == if RowThere(y.w.q, f) then y.w.q.Keys - {f.key} else y.w.q.Keys
  {
    assert NamesOwnKey(y.w.q, y.flights[i]);
  }

  lemma DeleteSafeIff(y: System, i: nat, now: Time, y': System)
    requires Converging(y.w) && i in y.flights && Named(y) &&
             y'.w == y.w.(q := Apply(y.w.q, Delete(y.flights[i].rowId), now))
    ensures var f := y.flights[i];
            Converging(y'.w) <==>
            (Speaks(y, f) && RowThere(y.w.q, f) ==> Agrees(y.w, f.key.sp, f.key.resource) || Owed(y.w, f.key))
  {
    var f := y.flights[i];
    DeleteTakesOwnRow(y, i, now, y');
    assert forall k :: Owed(y'.w, k) <==> Owed(y.w, k);
    if Speaks(y, f) && RowThere(y.w.q, f) ==> Agrees(y.w, f.key.sp, f.key.resource) || Owed(y.w, f.key) {
      forall sp, u
        ensures Tracked(y'.w, sp, u)
      {
        assert Tracked(y.w, sp, u);
      }
    } else {
      assert f.key == UserKey(f.key.sp, f.key.resource);
      assert !Tracked(y'.w, f.key.sp, f.key.resource);
    }
  }

  /**
   While the receiver still holds what the worker delivered and no new row is owed, deleting the row is
   safe exactly when that decision is current.
   */
  lemma FinishSafeIffCurrent(y: System, i: nat, now: Time)
    requires Converging(y.w) && Named(y) && CanMove(y, Finish(i), now)
    requires var f := y.flights[i];
             && Speaks(y, f) && RowThere(y.w.q, f) && !Owed(y.w, f.key)
             && ((f.key.sp, f.key.resource) in y.w.remote <==> f.stage.wanted)
    ensures Converging(Moved(y, Finish(i), now).w) <==> Current(y, y.flights[i])
  {
    DeleteSafeIff(y, i, now, Moved(y, Finish(i), now));
  }

  lemma EnvironmentSafeIff(y: System, s: Step, now: Time)
    requires Converging(y.w) && CanMove(y, Environment(s), now)
    ensures Converging(Moved(y, Environment(s), now).w) <==> SafeMove(y, Environment(s))
  {
    match s
    case Changes(i, c) => ChangedConverges(y.w, i, c);
    case Fires(i, newId, failed) => FireConvergesIff(y.w, i, newId, failed, now);
    case Cleared(id) => SameKeysConverging(y.w, Next(y.w, s, now));
    case RevivedSp(sp) => SameKeysConverging(y.w, Next(y.w, s, now));
  }

  /** Every move of every worker and of the environment keeps convergence if and only if it is safe. */
  lemma MoveSafeIff(y: System, m: Move, now: Time)
    requires Converging(y.w) && Named(y) && CanMove(y, m, now)
    ensures Converging(Moved(y, m, now).w) <==> SafeMove(y, m)
  {
    match m
    case Environment(s) => EnvironmentSafeIff(y, s, now);
    case List(_, _) =>
    case Evaluate(_) =>
    case Drop(i) => DeleteSafeIff(y, i, now, Moved(y, m, now));
    case Land(i) => LandSafeIff(y, i, now);
    case Finish(i) => DeleteSafeIff(y, i, now, Moved(y, m, now));
    case Abandon(i, error, retryAt) => SameKeysConverging(y.w, Moved(y, m, now).w);
  }

  // ---------------------------------------------------------------- interleavings

  ghost predicate Possible(y: System, ms: seq<(Move, Time)>)
    decreases |ms|
  {
    ms == [] || (CanMove(y, ms[0].0, ms[0].1) && Possible(Moved(y, ms[0].0, ms[0].1), ms[1..]))
  }

  ghost function Run(y: System, ms: seq<(Move, Time)>): (y': System)
    requires Possible(y, ms)
    decreases |ms|
  {
    if ms == [] then y else Run(Moved(y, ms[0].0, ms[0].1), ms[1..])
  }

  ghost predicate AlwaysConverging(y: System, ms: seq<(Move, Time)>)
    requires Possible(y, ms)
    decreases |ms|
  {
    Converging(y.w) && (ms == [] || AlwaysConverging(Moved(y, ms[0].0, ms[0].1), ms[1..]))
  }

  ghost predicate AlwaysSafe(y: System, ms: seq<(Move, Time)>)
    requires Possible(y, ms)
    decreases |ms|
  {
    ms == [] || (SafeMove(y, ms[0].0) && AlwaysSafe(Moved(y, ms[0].0, ms[0].1), ms[1..]))
  }

  lemma NotConvergingAtOnce(y: System, ms: seq<(Move, Time)>)
    requires Possible(y, ms) && !Converging(y.w)
    ensures !AlwaysConverging(y, ms)
  {
  }

  /**
   For any number of overlapping workers and any interleaving, every disagreement has a row at every
   moment if and only if every move is safe where it is made.
   */
  lemma {:induction false} InterleavingsConvergeIff(y: System, ms: seq<(Move, Time)>)
    requires Converging(y.w) && Named(y) && Possible(y, ms)
    ensures AlwaysConverging(y, ms) <==> AlwaysSafe(y, ms)
    decreases |ms|
  {
    if ms != [] {
      var (m, now) := ms[0];
      MoveNamed(y, m, now);
      MoveSafeIff(y, m, now);
      if SafeMove(y, m) {
        InterleavingsConvergeIff(Moved(y, m, now), ms[1..]);
      } else {
        NotConvergingAtOnce(Moved(y, m, now), ms[1..]);
      }
    }
  }

  // ---------------------------------------------------------------- settled interleavings

  /** No decision has changed under an entry in flight. */
  ghost predicate Settled(y: System) {
    forall i :: i in y.flights && y.flights[i].key.kind.UserResource? ==> Current(y, y.flights[i])
  }

  /** What a worker has delivered is what the receiver holds. */
  ghost predicate LandedAgree(y: System) {
    forall i :: i in y.flights && y.flights[i].stage.Landed? && Speaks(y, y.flights[i]) ==>
      Agrees(y.w, y.flights[i].key.sp, y.flights[i].key.resource)
  }

  /** Triggers are safe, and no decision changes under an entry in flight. */
  ghost predicate AlwaysSettled(y: System, ms: seq<(Move, Time)>)
    requires Possible(y, ms)
    decreases |ms|
  {
    Settled(y) && (ms != [] ==>
      && (ms[0].0.Environment? ==> SafeMove(y, ms[0].0))
      && AlwaysSettled(Moved(y, ms[0].0, ms[0].1), ms[1..]))
  }

  lemma SettledMoveSafe(y: System, m: Move, now: Time)
    requires Settled(y) && LandedAgree(y) && CanMove(y, m, now) && (m.Environment? ==> SafeMove(y, m))
    ensures SafeMove(y, m)
  {
  }

  lemma SettledMoveLanded(y: System, m: Move, now: Time)
    requires Settled(y) && LandedAgree(y) && CanMove(y, m, now) && Settled(Moved(y, m, now))
    ensures LandedAgree(Moved(y, m, now))
  {
    var y' := Moved(y, m, now);
    forall i | i in y'.flights && y'.flights[i].stage.Landed? && Speaks(y', y'.flights[i])
      ensures Agrees(y'.w, y'.flights[i].key.sp, y'.flights[i].key.resource)
    {
      var f := y'.flights[i];
      assert Current(y', f);
      if m.Environment? {
        assert Current(y, y.flights[i]);
        EnvironmentKeepsSpeech(y, m.s, now, f);
      }
    }
  }

  lemma EnvironmentKeepsSpeech(y: System, s: Step, now: Time, f: Flight)
    requires CanMove(y, Environment(s), now) && Speaks(Moved(y, Environment(s), now), f)
    ensures Speaks(y, f) && Moved(y, Environment(s), now).w.remote == y.w.remote
  {
    if s.Changes? {
      ChangeKeepsManaged(y.w, s.c, f.key.sp, f.key.resource);
    }
  }

  lemma {:induction false} SettledIsSafe(y: System, ms: seq<(Move, Time)>)
    requires Possible(y, ms) && AlwaysSettled(y, ms) && LandedAgree(y)
    ensures AlwaysSafe(y, ms)
    decreases |ms|
  {
    if ms != [] {
      var (m, now) := ms[0];
      SettledMoveSafe(y, m, now);
      assert Settled(Moved(y, m, now));
      SettledMoveLanded(y, m, now);
      SettledIsSafe(Moved(y, m, now), ms[1..]);
    }
  }

  /** As long as no decision changes under an entry in flight, overlapping workers converge. */
  lemma SettledInterleavingsConverge(y: System, ms: seq<(Move, Time)>)
    requires Converging(y.w) && Named(y) && LandedAgree(y) && Possible(y, ms) && AlwaysSettled(y, ms)
    ensures AlwaysConverging(y, ms)
  {
    SettledIsSafe(y, ms);
    InterleavingsConvergeIff(y, ms);
  }

  // ---------------------------------------------------------------- two runs that fail

  /** Row `id` for user 5 at provider 1. */
  function SmallQueue(id: RowId): Queue {
    map[UserKey(1, 5) := Row(id, 0, 0, 0, None, None, None)]
  }

  /** User 5's memberships, what the queue and the receiver hold, and who is at work. */
  function Small(members: set<(UserId, GroupId)>, q: Queue, present: bool, flights: map<nat, Flight>): System {
    System(World(SmallTables(members), q, if present then {(1, 5)} else {}, {1}, 0, map[]), flights)
  }

  function SmallFlight(id: RowId, stage: Stage): Flight {
    Flight(UserKey(1, 5), id, stage)
  }

  lemma SmallWanted(members: set<(UserId, GroupId)>)
    ensures Wanted(SmallTables(members), 5, 1) <==> (5, 10) in members
  {
    SmallScope(members, 5, 1);
  }

  lemma SmallConverges(members: set<(UserId, GroupId)>, q: Queue, present: bool, flights: map<nat, Flight>)
    ensures Converging(Small(members, q, present, flights).w) <==>
            UserKey(1, 5) in q || (present <==> (5, 10) in members)
  {
    var w := Small(members, q, present, flights).w;
    SmallWanted(members);
    forall sp, u | !(sp == 1 && u == 5)
      ensures Tracked(w, sp, u)
    {
    }
    assert Tracked(w, 1, 5) <==> UserKey(1, 5) in q || (present <==> (5, 10) in members);
  }

  lemma {:induction false} RunOneMore(y: System, ms: seq<(Move, Time)>, m: Move, now: Time)
    requires Possible(y, ms) && CanMove(Run(y, ms), m, now)
    ensures Possible(y, ms + [(m, now)]) && Run(y, ms + [(m, now)]) == Moved(Run(y, ms), m, now)
    ensures AlwaysConverging(y, ms) && Converging(Moved(Run(y, ms), m, now).w) ==> AlwaysConverging(y, ms + [(m, now)])
    decreases |ms|
  {
    if ms == [] {
      assert ms + [(m, now)] == [(m, now)] && [(m, now)][1..] == [];
    } else {
      assert (ms + [(m, now)])[1..] == ms[1..] + [(m, now)];
      RunOneMore(Moved(y, ms[0].0, ms[0].1), ms[1..], m, now);
    }
  }

  /** `ms` is a run from `start` to `y` that has converged throughout. */
  ghost predicate Reaches(start: System, ms: seq<(Move, Time)>, y: System) {
    Possible(start, ms) && Run(start, ms) == y && AlwaysConverging(start, ms)
  }

  lemma Then(start: System, ms: seq<(Move, Time)>, y: System, m: Move, y': System) returns (ms': seq<(Move, Time)>)
    requires Reaches(start, ms, y) && CanMove(y, m, 0) && y' == Moved(y, m, 0) && Converging(y'.w)
    ensures Reaches(start, ms', y')
  {
    RunOneMore(start, ms, m, 0);
    ms' := ms + [(m, 0)];
  }

  lemma ThenLists(start: System, ms: seq<(Move, Time)>, members: set<(UserId, GroupId)>, id: RowId, present: bool,
                  flights: map<nat, Flight>, i: nat) returns (ms': seq<(Move, Time)>)
    requires Reaches(start, ms, Small(members, SmallQueue(id), present, flights)) && i !in flights
    ensures Reaches(start, ms', Small(members, SmallQueue(id), present, flights[i := SmallFlight(id, Listed)]))
  {
    var y' := Small(members, SmallQueue(id), present, flights[i := SmallFlight(id, Listed)]);
    SmallConverges(members, SmallQueue(id), present, y'.flights);
    ms' := Then(start, ms, Small(members, SmallQueue(id), present, flights), List(i, UserKey(1, 5)), y');
  }

  lemma ThenEvaluates(start: System, ms: seq<(Move, Time)>, members: set<(UserId, GroupId)>, q: Queue, present: bool,
                      flights: map<nat, Flight>, i: nat, id: RowId) returns (ms': seq<(Move, Time)>)
    requires Reaches(start, ms, Small(members, q, present, flights)) && UserKey(1, 5) in q
    requires i in flights && flights[i] == SmallFlight(id, Listed)
    ensures Reaches(start, ms', Small(members, q, present,
            flights[i := SmallFlight(id, Evaluated((5, 10) in members))]))
  {
    var y' := Small(members, q, present, flights[i := SmallFlight(id, Evaluated((5, 10) in members))]);
    SmallWanted(members);
    SmallConverges(members, q, present, y'.flights);
    ms' := Then(start, ms, Small(members, q, present, flights), Evaluate(i), y');
  }

  lemma ThenBegins(start: System, ms: seq<(Move, Time)>, members: set<(UserId, GroupId)>, id: RowId, present: bool,
                   flights: map<nat, Flight>, i: nat) returns (ms': seq<(Move, Time)>)
    requires Reaches(start, ms, Small(members, SmallQueue(id), present, flights)) && i !in flights
    ensures Reaches(start, ms', Small(members, SmallQueue(id), present,
            flights[i := SmallFlight(id, Evaluated((5, 10) in members))]))
  {
    ms' := ThenLists(start, ms, members, id, present, flights, i);
    var listed := flights[i := SmallFlight(id, Listed)];
    ms' := ThenEvaluates(start, ms', members, SmallQueue(id), present, listed, i, id);
    assert listed[i := SmallFlight(id, Evaluated((5, 10) in members))] ==
        flights[i := SmallFlight(id, Evaluated((5, 10) in members))];
  }

  lemma SmallLands(members: set<(UserId, GroupId)>, q: Queue, present: bool, flights: map<nat, Flight>, i: nat,
                   id: RowId, wanted: bool)
    requires i in flights && flights[i] == SmallFlight(id, Evaluated(wanted))
    ensures CanMove(Small(members, q, present, flights), Land(i), 0)
    ensures Moved(Small(members, q, present, flights), Land(i), 0) ==
            Small(members, q, wanted, flights[i := SmallFlight(id, Landed(wanted))])
  {
  }

  lemma ThenLands(start: System, ms: seq<(Move, Time)>, members: set<(UserId, GroupId)>, q: Queue, present: bool,
                  flights: map<nat, Flight>, i: nat, id: RowId, wanted: bool) returns (ms': seq<(Move, Time)>)
    requires Reaches(start, ms, Small(members, q, present, flights)) && UserKey(1, 5) in q
    requires i in flights && flights[i] == SmallFlight(id, Evaluated(wanted))
    ensures Reaches(start, ms', Small(members, q, wanted, flights[i := SmallFlight(id, Landed(wanted))]))
  {
    SmallLands(members, q, present, flights, i, id, wanted);
    SmallConverges(members, q, wanted, flights[i := SmallFlight(id, Landed(wanted))]);
    ms' := Then(start, ms, Small(members, q, present, flights), Land(i),
        Small(members, q, wanted, flights[i := SmallFlight(id, Landed(wanted))]));
  }

  lemma SmallFinishes(members: set<(UserId, GroupId)>, present: bool, flights: map<nat, Flight>, i: nat, id: RowId,
                      wanted: bool)
    requires i in flights && flights[i] == SmallFlight(id, Landed(wanted))
    ensures CanMove(Small(members, SmallQueue(id), present, flights), Finish(i), 0)
    ensures Moved(Small(members, SmallQueue(id), present, flights), Finish(i), 0) ==
            Small(members, map[], present, flights - {i})
  {
    assert Apply(SmallQueue(id), Delete(id), 0) == map[];
  }

  lemma ThenFinishes(start: System, ms: seq<(Move, Time)>, members: set<(UserId, GroupId)>, present: bool,
                     flights: map<nat, Flight>, i: nat, id: RowId, wanted: bool) returns (ms': seq<(Move, Time)>)
    requires Reaches(start, ms, Small(members, SmallQueue(id), present, flights)) && (present <==> (5, 10) in members)
    requires i in flights && flights[i] == SmallFlight(id, Landed(wanted))
    ensures Reaches(start, ms', Small(members, map[], present, flights - {i}))
  {
    SmallFinishes(members, present, flights, i, id, wanted);
    SmallConverges(members, map[], present, flights - {i});
    ms' := Then(start, ms, Small(members, SmallQueue(id), present, flights), Finish(i),
        Small(members, map[], present, flights - {i}));
  }

  /** The user is taken out of the group. */
  const LEAVES := RemoveMembers(10, {5})

  function LeftUnfired(q: Queue, present: bool, flights: map<nat, Flight>): System {
    var y := Small({(5, 10)}, q, present, flights);
    y.(w := Changed(y.w, 0, LEAVES))
  }

  lemma SmallFanOut(members: set<(UserId, GroupId)>)
    ensures MembershipKeys(SmallTables(members), 10, {5}) == {UserKey(1, 5)}
  {
    SmallScope(members, 5, 1);
    var t := SmallTables(members);
    forall k | k in MembershipKeys(t, 10, {5})
      ensures k == UserKey(1, 5)
    {
    }
    assert 5 in {5} && UserKey(1, 5) in MembershipKeys(t, 10, {5});
  }

  /** New ids differ from the row id in the examples and from one another. */
  ghost predicate NewIds(newId: Key -> RowId) {
    (forall k :: newId(k) != 100) && forall k, j :: newId(k) == newId(j) ==> k == j
  }

  lemma SmallFires(q: Queue, present: bool, flights: map<nat, Flight>, newId: Key -> RowId, id: RowId)
    requires (q == SmallQueue(100) && id == 100) || (q == map[] && id == newId(UserKey(1, 5)))
    ensures LeftUnfired(q, present, flights).w.jobs.Keys == {0}
    ensures Fire(LeftUnfired(q, present, flights).w, 0, newId, {}, 0) == Small({}, SmallQueue(id), present, flights).w
  {
    var w := Small({(5, 10)}, q, present, flights).w;
    PromptFireIsCommit(w, 0, LEAVES, newId, {}, 0);
    LeavesTables();
    LeavesFires();
    assert {UserKey(1, 5)} - {} == {UserKey(1, 5)};
    LeavesQueue(w, newId, id);
  }

  lemma SmallCanFire(q: Queue, present: bool, flights: map<nat, Flight>, newId: Key -> RowId)
    requires NewIds(newId) && (forall i :: i in flights ==> flights[i].rowId == 100) &&
             (q == SmallQueue(100) || q == map[])
    ensures CanMove(LeftUnfired(q, present, flights), Environment(Fires(0, newId, {})), 0)
  {
  }

  lemma LeavesTables()
    ensures Change(SmallTables({(5, 10)}), LEAVES) == SmallTables({})
  {
    CrossedTables();
  }

  lemma LeavesFires()
    ensures Fired(SmallTables({(5, 10)}), LEAVES) == {UserKey(1, 5)}
  {
    LeavesTables();
    SmallFanOut({});
    assert (5, 10) in SmallTables({(5, 10)}).members && (5, 10) !in SmallTables({}).members;
  }

  lemma LeavesQueue(w: World, newId: Key -> RowId, id: RowId)
    requires w.tenant == 0 && ((w.q == SmallQueue(100) && id == 100) || (w.q == map[] && id == newId(UserKey(1, 5))))
    ensures Enqueue(w, {UserKey(1, 5)}, newId, 0) == SmallQueue(id)
  {
  }

  lemma ThenLeaves(start: System, ms: seq<(Move, Time)>, q: Queue, present: bool, flights: map<nat, Flight>,
                   newId: Key -> RowId, id: RowId)
    returns (ms': seq<(Move, Time)>)
    requires Reaches(start, ms, Small({(5, 10)}, q, present, flights))
    requires NewIds(newId) && forall i :: i in flights ==> flights[i].rowId == 100
    requires (q == SmallQueue(100) && id == 100) || (q == map[] && id == newId(UserKey(1, 5)))
    ensures Reaches(start, ms', Small({}, SmallQueue(id), present, flights))
  {
    var y, left, y' := Small({(5, 10)}, q, present, flights), LeftUnfired(q, present, flights),
        Small({}, SmallQueue(id), present, flights);
    AlwaysConvergingAtEnd(start, ms);
    ChangedConverges(y.w, 0, LEAVES);
    ms' := Then(start, ms, y, Environment(Changes(0, LEAVES)), left);
    SmallFires(q, present, flights, newId, id);
    SmallCanFire(q, present, flights, newId);
    SmallConverges({}, SmallQueue(id), present, flights);
    ms' := Then(start, ms', left, Environment(Fires(0, newId, {})), y');
  }

  /** The row is queued, the user is a member and not yet at the receiver, and no worker is busy. */
  function SmallStart(): System {
    Small({(5, 10)}, SmallQueue(100), false, map[])
  }

  lemma SmallStarts()
    ensures Named(SmallStart()) && Reaches(SmallStart(), [], SmallStart())
  {
    SmallConverges({(5, 10)}, SmallQueue(100), false, map[]);
  }

  /**
   An unsafe last move: the run before it is safe, and it leaves user 5 at the receiver with neither
   access nor a row.
   */
  ghost predicate FailsAt(ms: seq<(Move, Time)>, m: Move) {
    && Possible(SmallStart(), ms) && AlwaysSafe(SmallStart(), ms)
    && var y := Run(SmallStart(), ms);
       CanMove(y, m, 0) && !SafeMove(y, m) && Moved(y, m, 0).w.q == map[] && Managed(Moved(y, m, 0).w, 1, 5) &&
           !Agrees(Moved(y, m, 0).w, 1, 5)
  }

  lemma EndsBadly(ms: seq<(Move, Time)>, y: System, m: Move, flights: map<nat, Flight>)
    requires Reaches(SmallStart(), ms, y) && Named(y) && CanMove(y, m, 0) &&
             Moved(y, m, 0) == Small({}, map[], true, flights)
    ensures FailsAt(ms, m)
  {
    SmallStarts();
    InterleavingsConvergeIff(SmallStart(), ms);
    SmallConverges({}, map[], true, flights);
    SmallWanted({});
    AlwaysConvergingAtEnd(SmallStart(), ms);
    MoveSafeIff(y, m, 0);
  }

  lemma {:induction false} AlwaysConvergingAtEnd(y: System, ms: seq<(Move, Time)>)
    requires Possible(y, ms) && AlwaysConverging(y, ms)
    ensures Converging(Run(y, ms).w)
    decreases |ms|
  {
    if ms != [] {
      AlwaysConvergingAtEnd(Moved(y, ms[0].0, ms[0].1), ms[1..]);
    }
  }

  /**
   The worker reads scope, the user is removed from the group (which refreshes the same row), and the
   worker delivers: deleting the row is the unsafe move.
   */
  lemma LostUpdate(newId: Key -> RowId) returns (ms: seq<(Move, Time)>)
    requires NewIds(newId)
    ensures FailsAt(ms, Finish(0))
  {
    SmallStarts();
    var f0: map<nat, Flight> := map[];
    ms := ThenBegins(SmallStart(), [], {(5, 10)}, 100, false, f0, 0);
    var f1 := f0[0 := SmallFlight(100, Evaluated(true))];
    ms := ThenLeaves(SmallStart(), ms, SmallQueue(100), false, f1, newId, 100);
    ms := ThenLands(SmallStart(), ms, {}, SmallQueue(100), false, f1, 0, 100, true);
    var f2 := f1[0 := SmallFlight(100, Landed(true))];
    SmallFinishes({}, true, f2, 0, 100, true);
    EndsBadly(ms, Small({}, SmallQueue(100), true, f2), Finish(0), f2 - {0});
  }

  /**
   Two workers read the same row; one delivers and deletes it; the user is removed, and a third worker
   delivers that and deletes the new row. All of it is safe. Then the first worker's call lands.
   */
  lemma LateLanding(newId: Key -> RowId) returns (ms: seq<(Move, Time)>)
    requires NewIds(newId)
    ensures FailsAt(ms, Land(0))
  {
    SmallStarts();
    var id := newId(UserKey(1, 5));
    var f0: map<nat, Flight> := map[];
    ms := ThenBegins(SmallStart(), [], {(5, 10)}, 100, false, f0, 0);
    var f1 := f0[0 := SmallFlight(100, Evaluated(true))];
    ms := ThenBegins(SmallStart(), ms, {(5, 10)}, 100, false, f1, 1);
    var f2 := f1[1 := SmallFlight(100, Evaluated(true))];
    ms := ThenLands(SmallStart(), ms, {(5, 10)}, SmallQueue(100), false, f2, 1, 100, true);
    var f3 := f2[1 := SmallFlight(100, Landed(true))];
    ms := ThenFinishes(SmallStart(), ms, {(5, 10)}, true, f3, 1, 100, true);
    var f4 := f3 - {1};
    ms := ThenLeaves(SmallStart(), ms, map[], true, f4, newId, id);
    ms := ThenBegins(SmallStart(), ms, {}, id, true, f4, 2);
    var f5 := f4[2 := SmallFlight(id, Evaluated(false))];
    ms := ThenLands(SmallStart(), ms, {}, SmallQueue(id), true, f5, 2, id, false);
    var f6 := f5[2 := SmallFlight(id, Landed(false))];
    ms := ThenFinishes(SmallStart(), ms, {}, false, f6, 2, id, false);
    var f7 := f6 - {2};
    SmallLands({}, map[], false, f7, 0, 100, true);
    EndsBadly(ms, Small({}, map[], false, f7), Land(0), f7[0 := SmallFlight(100, Landed(true))]);
  }
}
