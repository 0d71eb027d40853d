/**
 The background task table and the workers that claim from it. A claim is one statement, but it
 selects and locks its row before its update commits, and other workers may select in between;
 a worker may also die at any point. The steps below interleave freely.
 */
module Tasks {
  import opened Basics

  type TaskId = int
  type WorkerId = nat

  datatype Status = Pending | Processing | Completed | Failed
  datatype Task = Task(tenant: int, createdBy: int, createdAt: Time, status: Status)

  /** What a worker is doing: `Selected` holds the row lock, the rest follow the committed claim. */
  datatype Activity =
    | Selected(id: TaskId)
    | Claimed(id: TaskId)
    | Handling(id: TaskId)
    | Handled(id: TaskId, ok: bool)

  /** `handled` counts handler invocations; `used` remembers every id ever created. */
  datatype System = System(tasks: map<TaskId, Task>, workers: map<WorkerId, Activity>, handled: multiset<TaskId>,
      used: set<TaskId>)

  datatype Step =
    | Create(id: TaskId, task: Task)
    | Select(w: WorkerId, id: TaskId)
    | CommitClaim(w: WorkerId)
    | UnknownJobType(w: WorkerId)
    | Invoke(w: WorkerId)
    | Return(w: WorkerId, ok: bool)
    | CompleteRaises(w: WorkerId)
    | Report(w: WorkerId)
    | Die(w: WorkerId)
    | Delete(tenant: int, user: int, ids: set<TaskId>)

  predicate Locked(s: System, id: TaskId) {
    exists w :: w in s.workers && s.workers[w] == Selected(id)
  }

  /** `where status = 'pending' order by created_at limit 1 for update skip locked`. */
  ghost predicate IsNext(s: System, id: TaskId) {
    && id in s.tasks && s.tasks[id].status.Pending? && !Locked(s, id)
    && forall j :: j in s.tasks && s.tasks[j].status.Pending? && !Locked(s, j) ==>
        s.tasks[id].createdAt <= s.tasks[j].createdAt
  }

  ghost predicate Enabled(s: System, t: Step) {
    match t
    case Create(id, task) => id !in s.used && task.status.Pending?
    case Select(w, id) => w !in s.workers && IsNext(s, id)
    case CommitClaim(w) => w in s.workers && s.workers[w].Selected?
    case UnknownJobType(w) => w in s.workers && s.workers[w].Claimed?
    case Invoke(w) => w in s.workers && s.workers[w].Claimed?
    case Return(w, _) => w in s.workers && s.workers[w].Handling?
    case CompleteRaises(w) => w in s.workers && s.workers[w].Handled? && s.workers[w].ok
    case Report(w) => w in s.workers && s.workers[w].Handled?
    case Die(w) => w in s.workers
    case Delete(_, _, _) => true
  }

  /** `update bg_tasks set status = .. where id = ..`: no guard on the current status. */
  function SetStatus(tasks: map<TaskId, Task>, id: TaskId, status: Status): map<TaskId, Task> {
    if id in tasks then tasks[id := tasks[id].(status := status)] else tasks
  }

  predicate Terminal(status: Status) {
    status.Completed? || status.Failed?
  }

  function Next(s: System, t: Step): (s': System)
    requires t.CommitClaim? || t.UnknownJobType? || t.Invoke? || t.Return? || t.CompleteRaises? || t.Report? ==>
             t.w in s.workers
    requires t.CompleteRaises? || t.Report? ==> s.workers[t.w].Handled?
  {
    match t
    case Create(id, task) => s.(tasks := s.tasks[id := task], used := s.used + {id})
    case Select(w, id) => s.(workers := s.workers[w := Selected(id)])
    case CommitClaim(w) =>
      var id := s.workers[w].id;
      s.(tasks := SetStatus(s.tasks, id, Processing), workers := s.workers[w := Claimed(id)])
    case UnknownJobType(w) => s.(tasks := SetStatus(s.tasks, s.workers[w].id, Failed), workers := s.workers - {w})
    case Invoke(w) =>
      var id := s.workers[w].id;
      s.(workers := s.workers[w := Handling(id)], handled := s.handled + multiset{id})
    case Return(w, ok) => s.(workers := s.workers[w := Handled(s.workers[w].id, ok)])
    case CompleteRaises(w) => s.(workers := s.workers[w := Handled(s.workers[w].id, false)])
    case Report(w) =>
      s.(tasks := SetStatus(s.tasks, s.workers[w].id, if s.workers[w].ok then Completed else Failed),
          workers := s.workers - {w})
    case Die(w) => s.(workers := s.workers - {w})
    case Delete(tenant, user, ids) =>
      s.(tasks := map id | id in s.tasks && !(id in ids && s.tasks[id].tenant == tenant &&
          s.tasks[id].createdBy == user && Terminal(s.tasks[id].status)) :: s.tasks[id])
  }

  // ---------------------------------------------------------------- invariant

  /** A worker's task is in the table in the status its activity implies, and a task not yet invoked has never been. */
  ghost predicate ActivityFits(s: System, w: WorkerId)
    requires w in s.workers
  {
    var a := s.workers[w];
    && a.id in s.tasks
    && s.tasks[a.id].status == (if a.Selected? then Pending else Processing)
    && (a.Selected? || a.Claimed? ==> s.handled[a.id] == 0)
  }

  ghost predicate Inv(s: System) {
    && (forall w :: w in s.workers ==> ActivityFits(s, w))
    && (forall v, w :: v in s.workers && w in s.workers && s.workers[v].id == s.workers[w].id ==> v == w)
    && (forall id :: s.handled[id] <= 1)
    && (forall id :: id in s.tasks && s.tasks[id].status.Pending? ==> s.handled[id] == 0)
    && (forall id :: id in s.tasks || s.handled[id] > 0 ==> id in s.used)
  }

  lemma SelectedExclusively(s: System, w: WorkerId, id: TaskId)
    requires Inv(s) && IsNext(s, id) && w in s.workers
    ensures s.workers[w].id != id
  {
  }

  lemma ActivitiesKept(s: System, t: Step)
    requires Inv(s) && Enabled(s, t)
    ensures forall w :: w in Next(s, t).workers ==> ActivityFits(Next(s, t), w)
  {
  }

  lemma InvKept(s: System, t: Step)
    requires Inv(s) && Enabled(s, t)
    ensures Inv(Next(s, t))
  {
    var s' := Next(s, t);
    ActivitiesKept(s, t);
    if t.Select? {
      forall v | v in s.workers
        ensures s.workers[v].id != t.id
      {
        SelectedExclusively(s, v, t.id);
      }
    }
    if t.Invoke? {
      assert ActivityFits(s, t.w);
    }
    if t.CommitClaim? {
      assert ActivityFits(s, t.w);
    }
    forall id
      ensures s'.handled[id] <= 1
    {
      assert s.handled[id] <= 1;
    }
  }

  // ---------------------------------------------------------------- runs

  ghost predicate Possible(s: System, steps: seq<Step>)
    decreases |steps|
  {
    steps == [] || (Enabled(s, steps[0]) && Possible(Next(s, steps[0]), steps[1..]))
  }

  ghost function Run(s: System, steps: seq<Step>): (s': System)
    requires Possible(s, steps)
    decreases |steps|
  {
    if steps == [] then s else Run(Next(s, steps[0]), steps[1..])
  }

  lemma {:induction false} RunKeepsInv(s: System, steps: seq<Step>)
    requires Inv(s) && Possible(s, steps)
    ensures Inv(Run(s, steps))
    decreases |steps|
  {
    if steps != [] {
      InvKept(s, steps[0]);
      RunKeepsInv(Next(s, steps[0]), steps[1..]);
    }
  }

  /** For any number of workers and any interleaving, crashes included, no task's handler is invoked twice. */
  lemma HandledAtMostOnce(steps: seq<Step>, id: TaskId)
    requires Possible(System(map[], map[], multiset{}, {}), steps)
    ensures Run(System(map[], map[], multiset{}, {}), steps).handled[id] <= 1
  {
    RunKeepsInv(System(map[], map[], multiset{}, {}), steps);
  }

  /** How far a status is; both outcomes are final. */
  function Stage(status: Status): nat {
    match status
    case Pending => 0
    case Processing => 1
    case Completed => 2
    case Failed => 2
  }

  lemma StatusAdvances(s: System, t: Step, id: TaskId)
    requires Inv(s) && Enabled(s, t) && id in s.tasks
    ensures id in Next(s, t).tasks ==>
              var a, b := s.tasks[id].status, Next(s, t).tasks[id].status;
              a == b || Stage(b) == Stage(a) + 1
    ensures id !in Next(s, t).tasks ==>
              && Terminal(s.tasks[id].status) && t.Delete?
              && s.tasks[id].createdBy == t.user && s.tasks[id].tenant == t.tenant
  {
  }

  lemma GoneStaysGone(s: System, t: Step, id: TaskId)
    requires Inv(s) && Enabled(s, t) && id !in s.tasks && id in s.used
    ensures id !in Next(s, t).tasks && id in Next(s, t).used
  {
  }

  /** A task never moves backwards, never from one outcome to the other, and never comes back once deleted. */
  lemma {:induction false} StatusOnlyAdvances(s: System, steps: seq<Step>, id: TaskId)
    requires Inv(s) && Possible(s, steps) && id in s.used
    ensures id in Run(s, steps).tasks ==>
              id in s.tasks && var a, b := s.tasks[id].status, Run(s, steps).tasks[id].status;
              a == b || Stage(a) < Stage(b)
    decreases |steps|
  {
    if steps != [] {
      InvKept(s, steps[0]);
      if id in s.tasks {
        StatusAdvances(s, steps[0], id);
      } else {
        GoneStaysGone(s, steps[0], id);
      }
      StatusOnlyAdvances(Next(s, steps[0]), steps[1..], id);
    }
  }

  /** How many steps a worker is past selecting its task. */
  function Progress(a: Activity): nat {
    match a
    case Selected(_) => 0
    case Claimed(_) => 1
    case Handling(_) => 2
    case Handled(_, _) => 3
  }

  /**
   A step leaves a busy worker alone, or moves it on by one for the same task, or turns its success into a
   failure because completing raised, or makes it idle: at the end, at an unknown job type, or by its death.
   */
  lemma ActivityAdvances(s: System, t: Step, w: WorkerId)
    requires Enabled(s, t) && w in s.workers
    ensures var s', a := Next(s, t), s.workers[w];
            if w in s'.workers
            then
              || s'.workers[w] == a
              || (s'.workers[w].id == a.id && Progress(s'.workers[w]) == Progress(a) + 1)
              || (a == Handled(a.id, true) && s'.workers[w] == Handled(a.id, false) && t == CompleteRaises(w))
            else
              || (t == Report(w) && Progress(a) == 3)
              || (t == UnknownJobType(w) && Progress(a) == 1)
              || t == Die(w)
  {
  }

  // ---------------------------------------------------------------- dead workers

  /** A worker that dies leaves every task as it was, and its selection, if it had not committed a claim, to others. */
  lemma DeathFreesSelection(s: System, w: WorkerId)
    requires Inv(s) && w in s.workers
    ensures Enabled(s, Die(w))
    ensures var s' := Next(s, Die(w));
            && s' == s.(workers := s'.workers) && w !in s'.workers
            && (forall v :: v in s.workers && v != w ==> v in s'.workers && s'.workers[v] == s.workers[v])
            && (s.workers[w].Selected? ==> s'.tasks[s.workers[w].id].status.Pending? && !Locked(s', s.workers[w].id))
  {
    assert ActivityFits(s, w);
  }

  /** No worker is on the task. */
  predicate Abandoned(s: System, id: TaskId) {
    id in s.tasks && s.tasks[id].status.Processing? && forall w :: w in s.workers ==> s.workers[w].id != id
  }

  lemma AbandonedStep(s: System, t: Step, id: TaskId)
    requires Inv(s) && Enabled(s, t) && Abandoned(s, id)
    ensures Abandoned(Next(s, t), id) && Next(s, t).handled[id] == s.handled[id]
  {
  }

  /**
   A task whose worker died after its claim is committed stays in processing for good: no run, whatever
   workers do, claims it, handles it, finishes it or deletes it.
   */
  lemma {:induction false} AbandonedStaysAbandoned(s: System, steps: seq<Step>, id: TaskId)
    requires Inv(s) && Possible(s, steps) && Abandoned(s, id)
    ensures Abandoned(Run(s, steps), id) && Run(s, steps).handled[id] == s.handled[id]
    decreases |steps|
  {
    if steps != [] {
      InvKept(s, steps[0]);
      AbandonedStep(s, steps[0], id);
      AbandonedStaysAbandoned(Next(s, steps[0]), steps[1..], id);
    }
  }

  /** Dying anywhere between the committed claim and the report abandons the task. */
  lemma DeathAbandons(s: System, w: WorkerId)
    requires Inv(s) && w in s.workers && !s.workers[w].Selected?
    ensures Abandoned(Next(s, Die(w)), s.workers[w].id)
  {
    assert ActivityFits(s, w);
  }

  // ---------------------------------------------------------------- the claim query

  /** `claim_next_task`'s subquery: the oldest pending row no other claim has locked, if there is one. */
  method SelectNext(s: System) returns (r: Option<TaskId>)
    ensures r.Some? ==> IsNext(s, r.value)
    ensures r.None? ==> forall id :: id in s.tasks && s.tasks[id].status.Pending? ==>
              exists w :: w in s.workers && s.workers[w] == Selected(id)
  {
    r := None;
    var candidates := set id | id in s.tasks && s.tasks[id].status.Pending? && !Locked(s, id);
    var rest := candidates;
    while rest != {}
      invariant rest <= candidates
      invariant r.Some? ==> r.value in candidates
      invariant forall id :: id in candidates - rest ==> r.Some? && s.tasks[r.value].createdAt <= s.tasks[id].createdAt
      decreases |rest|
    {
      var id :| id in rest;
      if r.None? || s.tasks[id].createdAt < s.tasks[r.value].createdAt {
        r := Some(id);
      }
      rest := rest - {id};
    }
    assert r.None? ==> candidates - rest == {};
  }

  // ---------------------------------------------------------------- the table in place

  lemma {:induction false} RunOneMore(s: System, steps: seq<Step>, t: Step)
    requires Possible(s, steps) && Enabled(Run(s, steps), t)
    ensures Possible(s, steps + [t]) && Run(s, steps + [t]) == Next(Run(s, steps), t)
    decreases |steps|
  {
    if steps == [] {
      assert steps + [t] == [t] && [t][1..] == [];
    } else {
      assert (steps + [t])[1..] == steps[1..] + [t];
      RunOneMore(Next(s, steps[0]), steps[1..], t);
    }
  }

  /** One step, added to the history of the calling worker. */
  method Perform(s: System, t: Step, ghost start: System, ghost before: seq<Step>)
    returns (s': System, ghost steps: seq<Step>)
    requires Enabled(s, t) && Possible(start, before) && s == Run(start, before)
    ensures s' == Next(s, t)
    ensures steps == before + [t] && Possible(start, steps) && s' == Run(start, steps)
  {
    RunOneMore(start, before, t);
    s' := Next(s, t);
    steps := before + [t];
  }

  /**
   `_process_task` for a claimed task: the handler is called once or, for an unknown job type,
   not at all, and the task ends completed exactly when handler and completion both succeed.
   */
  method Process(s: System, w: WorkerId, known: bool, raises: bool, completeRaises: bool)
    returns (s': System, ghost steps: seq<Step>)
    requires w in s.workers && s.workers[w].Claimed?
    ensures Possible(s, steps) && s' == Run(s, steps)
    ensures s'.workers == s.workers - {w} && s'.used == s.used
    ensures s'.handled == s.handled + if known then multiset{s.workers[w].id} else multiset{}
    ensures var id := s.workers[w].id;
            var outcome := if known && !raises && !completeRaises then Completed else Failed;
            s'.tasks == if id in s.tasks then s.tasks[id := s.tasks[id].(status := outcome)] else s.tasks
  {
    if !known {
      s', steps := Perform(s, UnknownJobType(w), s, []);
      return;
    }
    s', steps := Perform(s, Invoke(w), s, []);
    s', steps := Perform(s', Return(w, !raises), s, steps);
    if !raises && completeRaises {
      s', steps := Perform(s', CompleteRaises(w), s, steps);
    }
    s', steps := Perform(s', Report(w), s, steps);
    assert s'.workers == s.workers - {w};
  }

  /** What `delete_tasks` promises to remove: the caller's own finished tasks among those named. */
  predicate Deletable(task: Task, id: TaskId, tenant: int, user: int, ids: set<TaskId>) {
    id in ids && task.tenant == tenant && task.createdBy == user && (task.status == Completed || task.status == Failed)
  }

  class TaskTable {
    var s: System

    ghost predicate Valid()
      reads this
    {
      Inv(s)
    }

    constructor ()
      ensures Valid() && s == System(map[], map[], multiset{}, {})
    {
      s := System(map[], map[], multiset{}, {});
    }

    /** `create_task`; the database picks an id never used before. */
    method CreateTask(id: TaskId, tenant: int, createdBy: int, now: Time)
      requires Valid() && id !in s.used
      modifies this
      ensures Valid() && s.tasks == old(s).tasks[id := Task(tenant, createdBy, now, Pending)]
      ensures s.workers == old(s).workers && s.handled == old(s).handled && s.used == old(s).used + {id}
      ensures s == Next(old(s), Create(id, Task(tenant, createdBy, now, Pending)))
    {
      InvKept(s, Create(id, Task(tenant, createdBy, now, Pending)));
      s := s.(tasks := s.tasks[id := Task(tenant, createdBy, now, Pending)], used := s.used + {id});
    }

    /**
     `claim_next_task`: an idle worker takes the oldest pending task no other claim holds, or nothing if
     there is none.
     */
    method ClaimNextTask(w: WorkerId) returns (r: Option<TaskId>)
      requires Valid() && w !in s.workers
      modifies this
      ensures Valid()
      ensures r.Some? ==> IsNext(old(s), r.value) && old(s).handled[r.value] == 0
      ensures r.Some? ==> s == Next(Next(old(s), Select(w, r.value)), CommitClaim(w))
      ensures r.Some? ==>
                && r.value in old(s).tasks && old(s).tasks[r.value].status == Pending
                && (forall id :: id in old(s).tasks && old(s).tasks[id].status == Pending && !Locked(old(s), id) ==>
                      old(s).tasks[r.value].createdAt <= old(s).tasks[id].createdAt)
                && s.tasks == old(s).tasks[r.value := old(s).tasks[r.value].(status := Processing)]
                && s.workers == old(s).workers[w := Claimed(r.value)] && s.handled == old(s).handled
      ensures r.None? ==> s == old(s) && forall id :: id in s.tasks && s.tasks[id].status.Pending? ==> Locked(s, id)
    {
      r := SelectNext(s);
      if r.Some? {
        InvKept(s, Select(w, r.value));
        s := s.(workers := s.workers[w := Selected(r.value)]);
        InvKept(s, CommitClaim(w));
        s := s.(tasks := SetStatus(s.tasks, r.value, Processing), workers := s.workers[w := Claimed(r.value)]);
      }
    }

    method ProcessTask(w: WorkerId, known: bool, raises: bool, completeRaises: bool)
      requires Valid() && w in s.workers && s.workers[w].Claimed?
      modifies this
      ensures Valid() && s.workers == old(s).workers - {w} && s.used == old(s).used
      ensures s.handled == old(s).handled + if known then multiset{old(s).workers[w].id} else multiset{}
      ensures var id := old(s).workers[w].id;
              var outcome := if known && !raises && !completeRaises then Completed else Failed;
              id in old(s).tasks && s.tasks == old(s).tasks[id := old(s).tasks[id].(status := outcome)]
    {
      assert ActivityFits(s, w);
      var s', steps := Process(s, w, known, raises, completeRaises);
      RunKeepsInv(s, steps);
      s := s';
    }

    /** `delete_tasks`: only finished tasks of the caller go, and the count says how many. */
    method DeleteTasks(tenant: int, user: int, ids: set<TaskId>) returns (deleted: nat)
      requires Valid()
      modifies this
      ensures Valid() && s == Next(old(s), Delete(tenant, user, ids))
      ensures forall id :: id in s.tasks <==> id in old(s).tasks && !Deletable(old(s).tasks[id], id, tenant, user, ids)
      ensures forall id :: id in s.tasks ==> s.tasks[id] == old(s).tasks[id]
      ensures s.workers == old(s).workers && s.handled == old(s).handled && s.used == old(s).used
      ensures deleted == |set id | id in old(s).tasks && Deletable(old(s).tasks[id], id, tenant, user, ids)|
    {
      InvKept(s, Delete(tenant, user, ids));
      var next := Next(s, Delete(tenant, user, ids));
      var gone := set id | id in s.tasks && id !in next.tasks;
      assert gone == set id | id in s.tasks && Deletable(s.tasks[id], id, tenant, user, ids);
      deleted := |gone|;
      s := next;
    }
  }
}
