/**
 The push worker and whole runs of the provisioning system, each queue entry handled in one step.
 Module Overlap splits that step into the worker's separate effects.
 */
module PushWorker {
  import opened Basics
  import opened Access
  import opened PushQueue
  import opened Provisioning

  // ---------------------------------------------------------------- one entry

  /** What comes back: a status, no answer at all, or an exception in the worker before or after the call. */
  datatype Response = Http(status: nat) | NetworkError | WorkerError
  datatype Disposition = Success | Absent | Permanent | Retryable

  /** The generic quirk's `interpret_error`, with 2xx answered by the client. */
  function Classify(r: Response, isDelete: bool): Disposition {
    match r
    case NetworkError => Retryable
    case WorkerError => Retryable
    case Http(status) =>
      if 200 <= status < 300 then Success
      else if status == 429 then Retryable
      else if 500 <= status < 600 then Retryable
      else if status == 404 && isDelete then Absent
      else Permanent
  }

  /** `_handle_404_invalidation`: a 404 against a recorded remote id is retried with a fresh POST. */
  function After404(d: Disposition, r: Response, hadMapping: bool): Disposition {
    if hadMapping && r == Http(404) && d.Permanent? then Retryable else d
  }

  const MAX_ATTEMPTS := 5

  /** `_BACKOFF_SCHEDULE` in seconds: the wait after the n-th failed attempt. */
  function Backoff(n: nat): Time
    requires 1 <= n <= 4
  {
    if n == 1 then 60 else if n == 2 then 300 else if n == 3 then 1800 else 7200
  }

  /** `_record_retry_or_dead_letter`. */
  function FailureOp(r: Row, error: string, now: Time): (op: Op) {
    if r.attempts + 1 >= MAX_ATTEMPTS then DeadLetter(r.id, error)
    else AttemptFailed(r.id, error, now + Backoff(r.attempts + 1))
  }

  /** The receiver after it has done what the entry asks for. */
  function Established(w: World, k: Key): set<(AppId, UserId)> {
    if k.kind.GroupResource? then w.remote
    else if Wanted(w.t, k.resource, k.sp) then w.remote + {(k.sp, k.resource)}
    else w.remote - {(k.sp, k.resource)}
  }

  /** The call is a DELETE: of a user gone or out of scope, or of a group gone, whose own lineage row goes with it. */
  predicate IsDelete(w: World, k: Key) {
    if k.kind.UserResource? then !Wanted(w.t, k.resource, k.sp) else (k.resource, k.resource) !in w.t.lineage
  }

  /** The entry's provider is still configured for SCIM and has a target. */
  predicate Served(w: World, k: Key) {
    IsScimEnabledSp(w.t, k.sp) && k.sp in w.targets
  }

  /**
   What the outside world contributes to one entry: a credential or not, the answer, and whether a
   failed call took effect anyway.
   */
  datatype Weather = Weather(token: bool, response: Response, hadMapping: bool, tookEffect: bool, error: string)

  /** `_drop_orphaned_entry` or `_process_entry`, as one step. */
  function Process(w: World, k: Key, x: Weather, now: Time): (w': World)
    requires k in w.q
  {
    var row := w.q[k];
    var effect := if x.tookEffect then Established(w, k) else w.remote;
    if !Served(w, k) then w.(q := Apply(w.q, Delete(row.id), now))
    else if !x.token then w.(q := Apply(w.q, DeadLetter(row.id, x.error), now))
    else
      match After404(Classify(x.response, IsDelete(w, k)), x.response, x.hadMapping)
      case Success => w.(q := Apply(w.q, Delete(row.id), now), remote := Established(w, k))
      case Absent => w.(q := Apply(w.q, Delete(row.id), now), remote := Established(w, k))
      case Permanent => w.(q := Apply(w.q, DeadLetter(row.id, x.error), now), remote := effect)
      case Retryable => w.(q := Apply(w.q, FailureOp(row, x.error, now), now), remote := effect)
  }

  // ---------------------------------------------------------------- which answer does what

  /**
   A user's call is a DELETE exactly if the user is gone, the provider is not enabled, or neither the open switch
   nor a chain of groups lets the user in; a group's, exactly if the group's own lineage row is gone.
   */
  lemma DeleteIff(w: World, sp: AppId, r: int)
    ensures IsDelete(w, Key(sp, UserResource, r)) <==>
            || r !in w.t.users || sp !in w.t.sps || !w.t.sps[sp].scimEnabled
            || !(|| App(ServiceProvider, sp) in w.t.availableToAll
                 || GrantedThroughGroup(w.t, r, App(ServiceProvider, sp)))
    ensures IsDelete(w, Key(sp, GroupResource, r)) <==> (r, r) !in w.t.lineage
  {
    ScimListingIsPointwise(w.t, r, sp);
  }

  /** Deleting a group or a user turns their entries into DELETE calls; creating a group turns them back. */
  lemma DeletedIsDelete(w: World, sp: AppId, g: int, u: UserId)
    ensures IsDelete(w.(t := Change(w.t, DeleteGroup(g))), Key(sp, GroupResource, g))
    ensures IsDelete(w.(t := Change(w.t, DeleteUser(u))), UserKey(sp, u))
    ensures !IsDelete(w.(t := Change(w.t, CreateGroup(g))), Key(sp, GroupResource, g))
  {
  }

  /** Answers that settle the entry: any 2xx, and 404 to a DELETE. */
  predicate SettlingAnswer(w: World, k: Key, x: Weather) {
    x.response.Http? && (200 <= x.response.status <= 299 || (x.response.status == 404 && IsDelete(w, k)))
  }

  /** Answers worth another try: 429, 5xx, none at all, an exception, and 404 to an update by a recorded remote id. */
  predicate RetryAnswer(w: World, k: Key, x: Weather) {
    || x.response == NetworkError || x.response == WorkerError || x.response == Http(429)
    || (x.response.Http? && 500 <= x.response.status <= 599)
    || (x.response == Http(404) && x.hadMapping && !IsDelete(w, k))
  }

  /** The wait after a failure, by how many there were before: one, five and thirty minutes, then two hours. */
  function WaitAfter(earlier: nat): Time {
    if earlier == 0 then 60 else if earlier == 1 then 300 else if earlier == 2 then 1800 else 7200
  }

  /** The user the entry speaks for is at the receiver exactly if wanted there now; nobody else is touched. */
  ghost predicate Settles(w: World, w': World, k: Key) {
    forall pair: (AppId, UserId) :: pair in w'.remote <==>
      if k == UserKey(pair.0, pair.1) then Wanted(w.t, pair.1, pair.0) else pair in w.remote
  }

  /** An orphaned entry is dropped without a call. */
  lemma OrphanVerdict(w: World, k: Key, x: Weather, now: Time)
    requires UniqueIds(w.q) && k in w.q && !(k.sp in w.t.sps && w.t.sps[k.sp].scimEnabled && k.sp in w.targets)
    ensures var w' := Process(w, k, x, now);
            OthersKept(w.q, w'.q, {k}) && k !in w'.q && w' == w.(q := w'.q)
  {
    DeleteEffect(w.q, w.q[k].id, now);
  }

  /** Without a credential the entry is dead-lettered at once, without a call. */
  lemma NoTokenVerdict(w: World, k: Key, x: Weather, now: Time)
    requires UniqueIds(w.q) && k in w.q && Served(w, k) && !x.token
    ensures var w' := Process(w, k, x, now);
            OthersKept(w.q, w'.q, {k}) && k in w'.q && w'.q[k].deadLetterAt == Some(now) && w' == w.(q := w'.q)
  {
    DeadLetterEffect(w.q, k, x.error, now);
  }

  /** A settling answer removes the row, and the receiver holds what is wanted. */
  lemma SettledVerdict(w: World, k: Key, x: Weather, now: Time)
    requires UniqueIds(w.q) && k in w.q && Served(w, k) && x.token && SettlingAnswer(w, k, x)
    ensures var w' := Process(w, k, x, now);
            OthersKept(w.q, w'.q, {k}) && k !in w'.q && Settles(w, w', k) && w' == w.(q := w'.q, remote := w'.remote)
  {
    DeleteEffect(w.q, w.q[k].id, now);
  }

  /** Worth another try: counted and put off by the scheduled wait, or dead-lettered after the fifth failure. */
  lemma RetryVerdict(w: World, k: Key, x: Weather, now: Time)
    requires UniqueIds(w.q) && k in w.q && Served(w, k) && x.token && RetryAnswer(w, k, x)
    ensures var w', r := Process(w, k, x, now), w.q[k];
            && OthersKept(w.q, w'.q, {k}) && k in w'.q && w' == w.(q := w'.q, remote := w'.remote)
            && (r.attempts < 4 ==>
                  && w'.q[k].attempts == r.attempts + 1 && w'.q[k].deadLetterAt == r.deadLetterAt
                  && w'.q[k].nextAttemptAt == Some(now + WaitAfter(r.attempts)))
            && (r.attempts >= 4 ==> w'.q[k].deadLetterAt == Some(now) && w'.q[k].attempts == r.attempts)
            && w'.q[k].id == r.id && w'.q[k].lastError == Some(x.error)
  {
    DeadLetterEffect(w.q, k, x.error, now);
    AttemptFailedEffect(w.q, k, x.error, now + WaitAfter(w.q[k].attempts), now);
  }

  /** Any other answer dead-letters the entry at once, however few its attempts. */
  lemma RefusedVerdict(w: World, k: Key, x: Weather, now: Time)
    requires UniqueIds(w.q) && k in w.q && Served(w, k) && x.token
    requires !SettlingAnswer(w, k, x) && !RetryAnswer(w, k, x)
    ensures var w' := Process(w, k, x, now);
            && OthersKept(w.q, w'.q, {k}) && k in w'.q && w' == w.(q := w'.q, remote := w'.remote)
            && w'.q[k].deadLetterAt == Some(now) && w'.q[k].attempts == w.q[k].attempts
            && w'.q[k].lastError == Some(x.error)
  {
    DeadLetterEffect(w.q, k, x.error, now);
  }

  /** A call that is not settled leaves the receiver as it was, or as asked if it took effect anyway. */
  lemma EffectVerdict(w: World, k: Key, x: Weather, now: Time)
    requires k in w.q && Served(w, k) && x.token && !SettlingAnswer(w, k, x)
    ensures var w' := Process(w, k, x, now);
            if x.tookEffect then Settles(w, w', k) else w'.remote == w.remote
  {
  }

  // ---------------------------------------------------------------- whole runs

  datatype Step =
    | Changes(i: nat, c: Cmd)
    | Fires(i: nat, newId: Key -> RowId, failed: set<Key>)
    | Processed(k: Key, x: Weather)
    | Cleared(id: RowId)
    | RevivedSp(sp: AppId)

  ghost predicate FreshIds(q: Queue, newId: Key -> RowId) {
    && (forall k, j :: k in q ==> q[k].id != newId(j))
    && (forall k, j :: newId(k) == newId(j) ==> k == j)
  }

  ghost predicate Enabled(w: World, s: Step, now: Time) {
    match s
    case Changes(i, c) => i !in w.jobs && Allowed(w.t, c)
    case Fires(i, newId, _) => i in w.jobs && FreshIds(w.q, newId)
    case Processed(k, _) => k in w.q && Ready(w.q[k], now)
    case Cleared(_) => true
    case RevivedSp(_) => true
  }

  function Next(w: World, s: Step, now: Time): (w': World)
    requires (s.Processed? ==> s.k in w.q) && (s.Fires? ==> s.i in w.jobs)
  {
    match s
    case Changes(i, c) => Changed(w, i, c)
    case Fires(i, newId, failed) => Fire(w, i, newId, failed, now)
    case Processed(k, x) => Process(w, k, x, now)
    case Cleared(id) => w.(q := Apply(w.q, ClearDeadLetter(id), now))
    case RevivedSp(sp) => w.(q := Apply(w.q, Revive(sp), now))
  }

  /** An administrator's clear and a provider's revival make dead letters ready again and touch nothing else. */
  lemma StepBringsBack(w: World, k: Key, now: Time)
    requires k in w.q && w.q[k].deadLetterAt.Some?
    ensures Enabled(w, Cleared(w.q[k].id), now) && Enabled(w, RevivedSp(k.sp), now)
    ensures var w' := Next(w, Cleared(w.q[k].id), now);
            w' == w.(q := w'.q) && k in w'.q && w'.q[k].attempts == 0 && Ready(w'.q[k], now)
    ensures var w' := Next(w, RevivedSp(k.sp), now);
            w' == w.(q := w'.q) && k in w'.q && w'.q[k].attempts == 0 && Ready(w'.q[k], now)
  {
    ClearEffect(w.q, w.q[k].id, now);
    ReviveEffect(w.q, k.sp, now);
  }

  /** Ids are unique, and attempts never reach the cap: the fifth failure dead-letters instead of counting up. */
  ghost predicate RowsSound(q: Queue) {
    UniqueIds(q) && forall k :: k in q ==> q[k].attempts < MAX_ATTEMPTS
  }

  ghost predicate Sound(w: World) {
    Converging(w) && RowsSound(w.q)
  }

  lemma EnqueueKeepsIds(w: World, ks: set<Key>, newId: Key -> RowId, now: Time)
    requires UniqueIds(w.q) && FreshIds(w.q, newId)
    ensures UniqueIds(Enqueue(w, ks, newId, now))
  {
  }

  lemma DeleteTakesOneRow(q: Queue, k: Key, now: Time)
    requires UniqueIds(q) && k in q
    ensures Apply(q, Delete(q[k].id), now) == map j | j in q && j != k :: q[j]
  {
  }

  lemma SameKeysConverging(w: World, w': World)
    requires Converging(w) && w'.q.Keys == w.q.Keys
    requires w'.t == w.t && w'.targets == w.targets && w'.remote == w.remote && w'.jobs == w.jobs
    ensures Converging(w')
  {
    forall sp, u
      ensures Tracked(w', sp, u)
    {
      assert Tracked(w, sp, u);
    }
  }

  /** Taking effect at the receiver, in part or whole, never hurts while the row is still there. */
  lemma EstablishedTracked(w: World, k: Key, w': World, sp: AppId, u: UserId)
    requires Tracked(w, sp, u) && w'.t == w.t && w'.targets == w.targets && w'.jobs == w.jobs && k in w.q
    requires w'.remote == Established(w, k) || w'.remote == w.remote
    requires w'.q.Keys == w.q.Keys || (w'.q.Keys == w.q.Keys - {k} &&
             (w'.remote == Established(w, k) || !Managed(w, k.sp, k.resource)))
    ensures Tracked(w', sp, u)
  {
  }

  /** Handling an entry takes at most its own row, and only once the receiver agrees or nothing is managed. */
  lemma ProcessShape(w: World, k: Key, x: Weather, now: Time)
    requires UniqueIds(w.q) && k in w.q
    ensures var w' := Process(w, k, x, now);
            && w'.t == w.t && w'.targets == w.targets && w'.jobs == w.jobs
            && (w'.remote == Established(w, k) || w'.remote == w.remote)
            && (w'.q.Keys == w.q.Keys ||
                (w'.q.Keys == w.q.Keys - {k} && (w'.remote == Established(w, k) || !Managed(w, k.sp, k.resource))))
  {
    DeleteTakesOneRow(w.q, k, now);
  }

  lemma ProcessKeepsRows(w: World, k: Key, x: Weather, now: Time)
    requires RowsSound(w.q) && k in w.q
    ensures RowsSound(Process(w, k, x, now).q)
  {
    var row := w.q[k];
    OpKeepsRows(w.q, Delete(row.id), now);
    OpKeepsRows(w.q, DeadLetter(row.id, x.error), now);
    OpKeepsRows(w.q, FailureOp(row, x.error, now), now);
    ProcessOps(w, k, x, now);
  }

  lemma OpKeepsRows(q: Queue, op: Op, now: Time)
    requires RowsSound(q) && (op.Delete? || op.DeadLetter? || op.AttemptFailed?)
    requires op.AttemptFailed? ==> forall k :: k in q && q[k].id == op.id ==> q[k].attempts + 1 < MAX_ATTEMPTS
    ensures RowsSound(Apply(q, op, now))
  {
    ApplyKeepsUniqueIds(q, op, now);
  }

  /** Handling an entry is one statement on its row. */
  lemma ProcessOps(w: World, k: Key, x: Weather, now: Time)
    requires k in w.q
    ensures var q', row := Process(w, k, x, now).q, w.q[k];
            || q' == Apply(w.q, Delete(row.id), now)
            || q' == Apply(w.q, DeadLetter(row.id, x.error), now)
            || q' == Apply(w.q, FailureOp(row, x.error, now), now)
  {
  }

  /**
   Whatever the credential, the answer and the receiver do, handling an entry keeps every disagreement
   in the queue.
   */
  lemma ProcessSound(w: World, k: Key, x: Weather, now: Time)
    requires Sound(w) && k in w.q
    ensures Sound(Process(w, k, x, now))
  {
    var w' := Process(w, k, x, now);
    ProcessShape(w, k, x, now);
    ProcessKeepsRows(w, k, x, now);
    forall sp, u
      ensures Tracked(w', sp, u)
    {
      assert Tracked(w, sp, u);
      EstablishedTracked(w, k, w', sp, u);
    }
  }

  lemma NextKeepsRows(w: World, s: Step, now: Time)
    requires RowsSound(w.q) && Enabled(w, s, now)
    ensures RowsSound(Next(w, s, now).q)
  {
    match s
    case Changes(i, c) =>
    case Fires(i, newId, failed) => EnqueueKeepsIds(w, KeysNow(w, w.jobs[i]) - failed, newId, now);
    case Processed(k, x) => ProcessKeepsRows(w, k, x, now);
    case Cleared(id) => ApplyKeepsUniqueIds(w.q, ClearDeadLetter(id), now);
    case RevivedSp(sp) => ApplyKeepsUniqueIds(w.q, Revive(sp), now);
  }

  /** Only a trigger can be unsafe: when it runs and something its change owes stays without a row. */
  ghost predicate Safe(w: World, s: Step) {
    s.Fires? && s.i in w.jobs ==> FireSafe(w, s.i, s.failed)
  }

  lemma NextSoundIff(w: World, s: Step, now: Time)
    requires Sound(w) && Enabled(w, s, now)
    ensures Sound(Next(w, s, now)) <==> Safe(w, s)
  {
    NextKeepsRows(w, s, now);
    match s
    case Changes(i, c) => ChangedConverges(w, i, c);
    case Fires(i, newId, failed) => FireConvergesIff(w, i, newId, failed, now);
    case Processed(k, x) => ProcessSound(w, k, x, now);
    case Cleared(id) => SameKeysConverging(w, Next(w, s, now));
    case RevivedSp(sp) => SameKeysConverging(w, Next(w, s, now));
  }

  // ---------------------------------------------------------------- runs

  ghost predicate Possible(w: World, run: seq<(Step, Time)>)
    decreases |run|
  {
    run == [] || (Enabled(w, run[0].0, run[0].1) && Possible(Next(w, run[0].0, run[0].1), run[1..]))
  }

  ghost function Run(w: World, run: seq<(Step, Time)>): (w': World)
    requires Possible(w, run)
    decreases |run|
  {
    if run == [] then w else Run(Next(w, run[0].0, run[0].1), run[1..])
  }

  /** Every world the run passes through is sound. */
  ghost predicate AlwaysSound(w: World, run: seq<(Step, Time)>)
    requires Possible(w, run)
    decreases |run|
  {
    Sound(w) && (run == [] || AlwaysSound(Next(w, run[0].0, run[0].1), run[1..]))
  }

  /** Every step of the run is safe where it is taken. */
  ghost predicate AlwaysSafe(w: World, run: seq<(Step, Time)>)
    requires Possible(w, run)
    decreases |run|
  {
    run == [] || (Safe(w, run[0].0) && AlwaysSafe(Next(w, run[0].0, run[0].1), run[1..]))
  }

  /**
   Convergence, exactly: in a run of changes, triggers running when they may, pushes, failures,
   dead-letterings, clearings and revivals, every disagreement is queued or owed at every moment if and
   only if every trigger is safe when it runs.
   */
  lemma {:induction false} RunsConvergeIff(w: World, run: seq<(Step, Time)>)
    requires Sound(w) && Possible(w, run)
    ensures AlwaysSound(w, run) <==> AlwaysSafe(w, run)
    decreases |run|
  {
    if run != [] {
      var (s, now) := run[0];
      NextSoundIff(w, s, now);
      if Safe(w, s) {
        RunsConvergeIff(Next(w, s, now), run[1..]);
      } else {
        NotSoundAtOnce(Next(w, s, now), run[1..]);
      }
    }
  }

  lemma NotSoundAtOnce(w: World, run: seq<(Step, Time)>)
    requires Possible(w, run) && !Sound(w)
    ensures !AlwaysSound(w, run)
  {
  }

  ghost predicate AllWellOwed(w: World) {
    forall i :: i in w.jobs ==> WellOwed(w, i)
  }

  lemma NextWellOwed(w: World, s: Step, now: Time)
    requires AllWellOwed(w) && Enabled(w, s, now)
    ensures AllWellOwed(Next(w, s, now))
  {
    var w' := Next(w, s, now);
    if s.Changes? {
      ChangedWellOwed(w, s.i, s.c);
    }
    forall j | j in w'.jobs
      ensures WellOwed(w', j)
    {
      if !(s.Changes? && s.i == j) {
        assert w'.jobs[j] == w.jobs[j] && WellOwed(w, j);
      }
    }
  }

  /**
   Every trigger of the run names the users of its change, runs before the next change, and enqueues
   without failure.
   */
  ghost predicate AllPrompt(w: World, run: seq<(Step, Time)>)
    requires Possible(w, run)
    decreases |run|
  {
    run != [] ==>
      && (run[0].0.Fires? ==>
            var job := w.jobs[run[0].0.i];
            Triggered(job.c) && w.t == job.after && run[0].0.failed !! KeysNow(w, job))
      && AllPrompt(Next(w, run[0].0, run[0].1), run[1..])
  }

  lemma {:induction false} PromptRunsAreSafe(w: World, run: seq<(Step, Time)>)
    requires AllWellOwed(w) && Possible(w, run) && AllPrompt(w, run)
    ensures AlwaysSafe(w, run)
    decreases |run|
  {
    if run != [] {
      var (s, now) := run[0];
      if s.Fires? {
        PromptFireIsSafe(w, s.i, s.failed);
      }
      NextWellOwed(w, s, now);
      PromptRunsAreSafe(Next(w, s, now), run[1..]);
    }
  }

  lemma {:induction false} AlwaysSoundAtEnd(w: World, run: seq<(Step, Time)>)
    requires Possible(w, run) && AlwaysSound(w, run)
    ensures Sound(Run(w, run))
    decreases |run|
  {
    if run != [] {
      AlwaysSoundAtEnd(Next(w, run[0].0, run[0].1), run[1..]);
    }
  }

  /** Runs in which every trigger is prompt converge. */
  lemma RunsConverge(w: World, run: seq<(Step, Time)>)
    requires Sound(w) && AllWellOwed(w) && Possible(w, run) && AllPrompt(w, run)
    ensures AlwaysSound(w, run) && Sound(Run(w, run))
  {
    PromptRunsAreSafe(w, run);
    RunsConvergeIff(w, run);
    AlwaysSoundAtEnd(w, run);
  }

  /**
   After a safe run, an empty queue with no trigger left to run means every receiver holds exactly the
   users it should.
   */
  lemma EmptyQueueMeansAgreement(w: World, run: seq<(Step, Time)>, sp: AppId, u: UserId)
    requires Sound(w) && Possible(w, run) && AlwaysSafe(w, run)
    requires Run(w, run).q == map[] && Run(w, run).jobs == map[] && Managed(Run(w, run), sp, u)
    ensures Agrees(Run(w, run), sp, u)
  {
    RunsConvergeIff(w, run);
    AlwaysSoundAtEnd(w, run);
    assert Tracked(Run(w, run), sp, u);
  }

  // ---------------------------------------------------------------- draining

  const ACCEPTED := Weather(true, Http(200), false, false, "")

  /** Handle the ready ones of the listed entries in order, the receiver accepting each call. */
  function Drain(w: World, ks: seq<Key>, now: Time): (w': World)
    decreases |ks|
  {
    if ks == [] then w
    else Drain(if ks[0] in w.q && Ready(w.q[ks[0]], now) then Process(w, ks[0], ACCEPTED, now) else w, ks[1..], now)
  }

  /** The rows the worker's listing skips: dead-lettered, or backing off. */
  function Unready(q: Queue, now: Time): Queue {
    map k | k in q && !Ready(q[k], now) :: q[k]
  }

  lemma OneHandled(w: World, k: Key, now: Time)
    requires Sound(w) && k in w.q && Ready(w.q[k], now)
    ensures var w' := Process(w, k, ACCEPTED, now);
            && Sound(w') && w'.t == w.t && w'.targets == w.targets && w'.jobs == w.jobs
            && k !in w'.q && (forall j :: j in w'.q ==> j in w.q) && Unready(w'.q, now) == Unready(w.q, now)
  {
    ProcessSound(w, k, ACCEPTED, now);
    DeleteTakesOneRow(w.q, k, now);
  }

  /**
   With no trigger left to run, one accepted pass over the ready rows, in any order, leaves exactly
   the rows the listing skips, and every pair without such a row agrees.
   */
  lemma {:induction false} DrainAgrees(w: World, ks: seq<Key>, now: Time)
    requires Sound(w) && w.jobs == map[] && forall k :: k in w.q && Ready(w.q[k], now) ==> k in ks
    ensures Drain(w, ks, now).q == Unready(w.q, now)
    ensures forall sp, u :: Managed(w, sp, u) && UserKey(sp, u) !in Unready(w.q, now) ==>
              ((sp, u) in Drain(w, ks, now).remote <==> Wanted(w.t, u, sp))
    decreases |ks|
  {
    if ks == [] {
      assert w.q == Unready(w.q, now);
      forall sp, u | Managed(w, sp, u) && UserKey(sp, u) !in Unready(w.q, now)
        ensures (sp, u) in w.remote <==> Wanted(w.t, u, sp)
      {
        assert Tracked(w, sp, u);
      }
    } else {
      var handled := ks[0] in w.q && Ready(w.q[ks[0]], now);
      var w' := if handled then Process(w, ks[0], ACCEPTED, now) else w;
      if handled {
        OneHandled(w, ks[0], now);
      }
      forall k | k in w'.q && Ready(w'.q[k], now)
        ensures k in ks[1..]
      {
        assert k in ks && k != ks[0];
      }
      DrainAgrees(w', ks[1..], now);
    }
  }

  lemma {:induction false} RunOneMore(w: World, run: seq<(Step, Time)>, s: Step, now: Time)
    requires Possible(w, run) && Enabled(Run(w, run), s, now)
    ensures Possible(w, run + [(s, now)]) && Run(w, run + [(s, now)]) == Next(Run(w, run), s, now)
    decreases |run|
  {
    if run == [] {
      assert run + [(s, now)] == [(s, now)] && [(s, now)][1..] == [];
    } else {
      assert (run + [(s, now)])[1..] == run[1..] + [(s, now)];
      RunOneMore(Next(w, run[0].0, run[0].1), run[1..], s, now);
    }
  }

  lemma {:induction false} DrainFrom(start: World, before: seq<(Step, Time)>, w: World, ks: seq<Key>, now: Time)
    returns (run: seq<(Step, Time)>)
    requires Possible(start, before) && Run(start, before) == w
    ensures Possible(start, run) && Run(start, run) == Drain(w, ks, now)
    decreases |ks|
  {
    run := before;
    if ks != [] {
      if ks[0] in w.q && Ready(w.q[ks[0]], now) {
        RunOneMore(start, before, Processed(ks[0], ACCEPTED), now);
        run := DrainFrom(start, before + [(Processed(ks[0], ACCEPTED), now)], Process(w, ks[0], ACCEPTED, now),
                         ks[1..], now);
      } else {
        run := DrainFrom(start, before, w, ks[1..], now);
      }
    }
  }

  /** The pass is a run of the worker: from every world one leads to the drained world. */
  lemma DrainIsRun(w: World, ks: seq<Key>, now: Time) returns (run: seq<(Step, Time)>)
    ensures Possible(w, run) && Run(w, run) == Drain(w, ks, now)
  {
    run := DrainFrom(w, [], w, ks, now);
  }

  /** Once dead letters are revived and back-offs have elapsed, the pass empties the queue and brings agreement. */
  lemma DrainEmpties(w: World, ks: seq<Key>, now: Time)
    requires Sound(w) && w.jobs == map[] && (forall k :: k in w.q ==> k in ks)
    requires forall k :: k in w.q ==> Ready(w.q[k], now)
    ensures Drain(w, ks, now).q == map[]
    ensures forall sp, u :: Managed(w, sp, u) ==> ((sp, u) in Drain(w, ks, now).remote <==> Wanted(w.t, u, sp))
  {
    DrainAgrees(w, ks, now);
  }

  // ---------------------------------------------------------------- retries

  /** What can happen around one row: an attempt at it, or anything else that leaves the row alone. */
  datatype Event = Attempt(x: Weather, at: Time) | Elsewhere(w: World)

  function Happened(w: World, k: Key, e: Event): (w': World)
    requires k in w.q
  {
    match e
    case Attempt(x, at) => Process(w, k, x, at)
    case Elsewhere(w') => w'
  }

  /** An attempt comes when the row is ready, and its answer is worth another try. */
  ghost predicate CanHappen(w: World, k: Key, e: Event)
    requires k in w.q
  {
    match e
    case Attempt(x, at) => Ready(w.q[k], at) && Served(w, k) && x.token && RetryAnswer(w, k, x)
    case Elsewhere(w') => UniqueIds(w'.q) && k in w'.q && w'.q[k] == w.q[k]
  }

  /**
   Statements that leave a row alone: all that neither re-enqueue it, nor delete it, nor report on it,
   nor bring it back once it is dead-lettered.
   */
  lemma StatementsElsewhere(q: Queue, k: Key, op: Op, now: Time)
    requires k in q
    requires match op
             case Upsert(j, _, _) => j != k
             case AttemptFailed(id, _, _) => id != q[k].id
             case DeadLetter(id, _) => id != q[k].id
             case Delete(id) => id != q[k].id
             case ClearDeadLetter(id) => id != q[k].id || q[k].deadLetterAt.None?
             case Revive(sp) => sp != k.sp || q[k].deadLetterAt.None?
    ensures k in Apply(q, op, now) && Apply(q, op, now)[k] == q[k]
  {
  }

  ghost predicate Plays(w: World, k: Key, es: seq<Event>)
    requires k in w.q
    decreases |es|
  {
    es != [] ==>
      && CanHappen(w, k, es[0]) && k in Happened(w, k, es[0]).q
      && Plays(Happened(w, k, es[0]), k, es[1..])
  }

  ghost function After(w: World, k: Key, es: seq<Event>): (w': World)
    requires k in w.q && Plays(w, k, es)
    ensures k in w'.q
    decreases |es|
  {
    if es == [] then w else After(Happened(w, k, es[0]), k, es[1..])
  }

  function FailureTimes(es: seq<Event>): (ts: seq<Time>) {
    if es == [] then [] else (if es[0].Attempt? then [es[0].at] else []) + FailureTimes(es[1..])
  }

  /** What the row shows after its n-th failure, the last one at `at`. */
  predicate FailedSoFar(r: Row, n: nat, at: Time) {
    && n <= 5
    && (n < 5 ==> r.attempts == n && r.deadLetterAt.None?)
    && (0 < n < 5 ==> r.nextAttemptAt == Some(at + WaitAfter(n - 1)))
    && (n == 5 ==> r.deadLetterAt == Some(at))
  }

  lemma OneEvent(w: World, k: Key, e: Event, n: nat, at: Time)
    requires UniqueIds(w.q) && k in w.q && CanHappen(w, k, e) && FailedSoFar(w.q[k], n, at)
    ensures k in Happened(w, k, e).q && UniqueIds(Happened(w, k, e).q)
    ensures e.Attempt? ==>
              n < 5 && FailedSoFar(Happened(w, k, e).q[k], n + 1, e.at) && (n > 0 ==> e.at >= at + WaitAfter(n - 1))
    ensures e.Elsewhere? ==> FailedSoFar(Happened(w, k, e).q[k], n, at)
  {
    if e.Attempt? {
      RetryVerdict(w, k, e.x, e.at);
      AttemptKeepsIds(w, k, e.x, e.at);
    }
  }

  lemma AttemptKeepsIds(w: World, k: Key, x: Weather, now: Time)
    requires UniqueIds(w.q) && k in w.q
    ensures UniqueIds(Process(w, k, x, now).q)
  {
    var row := w.q[k];
    ProcessOps(w, k, x, now);
    ApplyKeepsUniqueIds(w.q, Delete(row.id), now);
    ApplyKeepsUniqueIds(w.q, DeadLetter(row.id, x.error), now);
    ApplyKeepsUniqueIds(w.q, FailureOp(row, x.error, now), now);
  }

  /** The waits between attempts n + 1, n + 2 and so on: each at least as long as its back-off. */
  ghost predicate Spaced(ts: seq<Time>, n: nat, at: Time)
    decreases |ts|
  {
    ts == [] || (n < 5 && (n > 0 ==> ts[0] >= at + WaitAfter(n - 1)) && Spaced(ts[1..], n + 1, ts[0]))
  }

  lemma TimesHead(es: seq<Event>)
    requires es != []
    ensures es[0].Elsewhere? ==> FailureTimes(es) == FailureTimes(es[1..])
    ensures es[0].Attempt? ==> FailureTimes(es) == [es[0].at] + FailureTimes(es[1..])
  {
  }

  lemma SpacedHead(ts: seq<Time>, n: nat, at: Time, first: Time)
    requires n < 5 && (n > 0 ==> first >= at + WaitAfter(n - 1)) && Spaced(ts, n + 1, first)
    ensures Spaced([first] + ts, n, at)
  {
    assert ([first] + ts)[1..] == ts;
  }

  ghost predicate Counted(row: Row, ts: seq<Time>, n: nat, at: Time) {
    n + |ts| <= 5 && Spaced(ts, n, at) && FailedSoFar(row, n + |ts|, if ts == [] then at else ts[|ts| - 1])
  }

  lemma CountedFailure(row: Row, ts: seq<Time>, n: nat, at: Time, first: Time)
    requires n < 5 && (n > 0 ==> first >= at + WaitAfter(n - 1)) && Counted(row, ts, n + 1, first)
    ensures Counted(row, [first] + ts, n, at)
  {
    SpacedHead(ts, n, at, first);
  }

  /** Whatever else happens in the queue, the row counts its failures, backs off and is dead-lettered at the fifth. */
  lemma {:induction false} FailuresCount(w: World, k: Key, es: seq<Event>, n: nat, at: Time)
    requires UniqueIds(w.q) && k in w.q && Plays(w, k, es) && FailedSoFar(w.q[k], n, at)
    ensures Counted(After(w, k, es).q[k], FailureTimes(es), n, at)
    decreases |es|
  {
    if es != [] {
      var e := es[0];
      OneEvent(w, k, e, n, at);
      TimesHead(es);
      if e.Attempt? {
        FailuresCount(Happened(w, k, e), k, es[1..], n + 1, e.at);
        CountedFailure(After(w, k, es).q[k], FailureTimes(es[1..]), n, at, e.at);
      } else {
        FailuresCount(Happened(w, k, e), k, es[1..], n, at);
      }
    }
  }

  const UNREACHABLE := Weather(true, NetworkError, false, false, "")

  /** From any number of failures, a receiver that cannot be reached takes the row on to the fifth. */
  lemma {:induction false} FailuresGoOn(w: World, k: Key, n: nat, at: Time) returns (es: seq<Event>)
    requires UniqueIds(w.q) && k in w.q && Served(w, k) && FailedSoFar(w.q[k], n, at)
    requires n == 0 ==> w.q[k].nextAttemptAt.None?
    ensures Plays(w, k, es) && n + |FailureTimes(es)| == 5
    decreases 5 - n
  {
    es := [];
    if n < 5 {
      var e := Attempt(UNREACHABLE, if n == 0 then at else at + WaitAfter(n - 1));
      OneEvent(w, k, e, n, at);
      RetryVerdict(w, k, UNREACHABLE, e.at);
      var rest := FailuresGoOn(Happened(w, k, e), k, n + 1, e.at);
      es := [e] + rest;
      assert es[1..] == rest;
      TimesHead(es);
    }
  }

  lemma FiveSpaced(ts: seq<Time>, at: Time)
    requires |ts| == 5 && Spaced(ts, 0, at)
    ensures ts[4] - ts[0] >= 156 * 60
  {
    assert Spaced(ts[1..], 1, ts[0]);
    assert Spaced(ts[1..][1..], 2, ts[1]);
    assert Spaced(ts[1..][1..][1..], 3, ts[2]);
    assert Spaced(ts[1..][1..][1..][1..], 4, ts[3]);
  }

  /**
   A row that keeps failing while anything else happens in the queue is attempted at most five times
   and dead-lettered at the fifth failure, which comes at least 156 minutes after the first; with
   fewer failures it is alive.
   */
  lemma FiveFailuresDeadLetter(w: World, k: Key, es: seq<Event>)
    requires UniqueIds(w.q) && k in w.q && w.q[k].deadLetterAt.None? && w.q[k].attempts == 0 && Plays(w, k, es)
    ensures var ts := FailureTimes(es);
            && |ts| <= 5
            && (After(w, k, es).q[k].deadLetterAt.Some? <==> |ts| == 5)
            && (|ts| == 5 ==> After(w, k, es).q[k].deadLetterAt == Some(ts[4]) && ts[4] - ts[0] >= 156 * 60)
  {
    FailuresCount(w, k, es, 0, 0);
    if |FailureTimes(es)| == 5 {
      FiveSpaced(FailureTimes(es), 0);
    }
  }
}
