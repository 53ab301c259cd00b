/**
  The living task graph (src/core/plan.ts) and the writes that change it. A run of a job is
  a sequence of writes: those a tick makes, cut short by a crash anywhere, and those of
  a person answering in between. `LegalRun` says which writes may happen when, and what it
  says of a write is only what the code checks before making it.
*/
module PlanGraph {
  import opened Common
  import opened Ordering

  datatype Status = Pending | Running | Blocked | Parked | Done | Failed | Abandoned

  datatype Task = Task(
    id: string,
    dependencies: seq<string>,
    prerequisites: seq<string>,
    status: Status,
    attempts: nat,
    maxAttempts: Option<real>,  // any number the planner wrote
    approach: Option<string>,
    resource: Option<string>,
    deferredUntil: Option<int>,
    createdAt: int)

  datatype Record = Record(tasks: seq<Task>, facts: set<string>, defaultCap: real)

  function Cap(t: Task, r: Record): real {
    t.maxAttempts.GetOr(r.defaultCap)
  }

  /** How often a task with this cap may start: `attempts < cap` is checked before each start. */
  function Limit(cap: real): nat {
    if cap <= 0.0 then 0 else -((-cap).Floor)
  }

  lemma {:induction false} LimitExact(cap: real, attempts: nat)
    ensures attempts as real < cap <==> attempts < Limit(cap)
  {
  }

  /** The cap itself bounds the attempts exactly when it is a whole number or not positive. */
  lemma {:induction false} WholeCaps(cap: real)
    ensures Limit(cap) as real <= (if cap > 0.0 then cap else 0.0)
            <==> cap <= 0.0 || cap.Floor as real == cap
  {
    var f := (-cap).Floor;
    assert f as real <= -cap < (f + 1) as real;
    if cap > 0.0 && f as real == -cap {
      assert cap == (-f) as real;
      assert cap.Floor == -f;
    }
  }

  predicate UniqueIds(r: Record) {
    forall i, j :: 0 <= i < j < |r.tasks| ==> r.tasks[i].id != r.tasks[j].id
  }

  predicate IsDone(r: Record, id: string) {
    exists i :: 0 <= i < |r.tasks| && r.tasks[i].id == id && r.tasks[i].status == Done
  }

  predicate DepsDone(r: Record, t: Task) {
    forall d :: d in t.dependencies ==> IsDone(r, d)
  }

  predicate PrereqsKnown(r: Record, t: Task) {
    forall p :: p in t.prerequisites ==> p in r.facts
  }

  predicate Due(t: Task, now: int) {
    t.deferredUntil.Some? && t.deferredUntil.value <= now
  }

  predicate Eligible(r: Record, t: Task, now: int) {
    && (t.status == Pending || (t.status == Parked && Due(t, now)))
    && t.attempts as real < Cap(t, r)
    && (t.deferredUntil.None? || Due(t, now))
    && DepsDone(r, t)
    && PrereqsKnown(r, t)
  }

  function Filter<T(!new)>(xs: seq<T>, p: T -> bool): (r: seq<T>)
    ensures forall x :: x in r <==> x in xs && p(x)
  {
    if xs == [] then [] else (if p(xs[0]) then [xs[0]] else []) + Filter(xs[1..], p)
  }

  function ReadyTasks(r: Record, now: int): (ready: seq<Task>)
    ensures forall t :: t in ready <==> t in r.tasks && Eligible(r, t, now)
    ensures SortedBy(ready, (t: Task) => t.createdAt)
  {
    var eligible := Filter(r.tasks, (t: Task) => Eligible(r, t, now));
    Sort(eligible, (t: Task) => t.createdAt)
  }

  /** Nothing left that could still run, and whether all of it went well. */
  datatype Terminal = Open | AllDone | SomeFailed

  function TerminalStatus(r: Record): Terminal {
    if r.tasks == [] then Open
    else if exists i :: 0 <= i < |r.tasks| && r.tasks[i].status in {Pending, Running, Blocked, Parked} then Open
    else if exists i :: 0 <= i < |r.tasks| && r.tasks[i].status == Failed then SomeFailed
    else AllDone
  }

  predicate IsComplete(r: Record) {
    r.tasks != [] && forall i :: 0 <= i < |r.tasks| ==> r.tasks[i].status in {Done, Abandoned}
  }

  /** The runner's verdict and the store's agree. */
  lemma {:induction false} CompleteAgrees(r: Record)
    ensures TerminalStatus(r) == AllDone <==> IsComplete(r)
  {
  }

  // ----- writes

  datatype Write =
    | Create(task: Task)
    | Depend(id: string, dependencies: seq<string>)
    | Start(id: string)
    | Finish(id: string)
    | Fail(id: string)
    | Park(id: string, until: int)
    | Requeue(id: string)
    | Interrupt(id: string)
    | Abandon(approach: Option<string>)
    | Answer(id: string)

  /** What a write makes of one task. `updateTask` changes the tasks with the given id, the rest stay. */
  function Effect(t: Task, w: Write): (t': Task)
    ensures t'.id == t.id && t'.maxAttempts == t.maxAttempts
  {
    match w
    case Create(_) => t
    case Depend(id, deps) => if t.id == id then t.(dependencies := deps) else t
    case Start(id) => if t.id == id then t.(status := Running, attempts := t.attempts + 1) else t
    case Finish(id) => if t.id == id then t.(status := Done) else t
    case Fail(id) => if t.id == id then t.(status := Failed) else t
    case Park(id, until) => if t.id == id then t.(status := Parked, deferredUntil := Some(until)) else t
    case Requeue(id) => if t.id == id then t.(status := Pending, deferredUntil := None) else t
    case Interrupt(id) => if t.id == id then t.(status := Pending) else t
    case Abandon(approach) => if GivenUp(t, approach) then t.(status := Abandoned) else t
    case Answer(id) => if t.id == id then t.(status := Pending, deferredUntil := None) else t
  }

  function Apply(r: Record, w: Write): (r': Record)
    ensures r'.facts == r.facts && r'.defaultCap == r.defaultCap
    ensures |r'.tasks| == |r.tasks| + (if w.Create? then 1 else 0)
    ensures forall i :: 0 <= i < |r.tasks| ==> r'.tasks[i] == Effect(r.tasks[i], w)
  {
    var n := |r.tasks|;
    if w.Create? then r.(tasks := r.tasks + [w.task])
    else r.(tasks := seq(n, i requires 0 <= i < n => Effect(r.tasks[i], w)))
  }

  /** An empty approach name is no name. */
  predicate GivenUp(t: Task, approach: Option<string>) {
    approach.Some? && approach.value != "" && t.approach == approach && t.status != Done
  }

  predicate HasStatus(r: Record, id: string, s: set<Status>) {
    exists i :: 0 <= i < |r.tasks| && r.tasks[i].id == id && r.tasks[i].status in s
  }

  predicate Fresh(r: Record, id: string) {
    forall i :: 0 <= i < |r.tasks| ==> r.tasks[i].id != id
  }

  predicate NoneRunning(r: Record) {
    forall i :: 0 <= i < |r.tasks| ==> r.tasks[i].status != Running
  }

  predicate Exhausted(r: Record, id: string) {
    exists i :: 0 <= i < |r.tasks| && r.tasks[i].id == id
                && r.tasks[i].status in {Pending, Parked} && r.tasks[i].attempts as real >= Cap(r.tasks[i], r)
  }

  predicate DueNow(r: Record, id: string, now: int) {
    exists i :: 0 <= i < |r.tasks| && r.tasks[i].id == id && r.tasks[i].status == Parked && Due(r.tasks[i], now)
  }

  /** What is known when a write is made at `now`. */
  predicate Legal(r: Record, now: int, w: Write) {
    match w
    case Create(t) => Fresh(r, t.id) && t.status == Pending && t.attempts == 0
    case Depend(id, deps) => forall i :: 0 <= i < |r.tasks| && r.tasks[i].id == id ==> r.tasks[i].attempts == 0
    case Start(id) => NoneRunning(r) && exists t :: t in ReadyTasks(r, now) && t.id == id
    case Finish(id) => HasStatus(r, id, {Running})
    case Fail(id) => HasStatus(r, id, {Running}) || Exhausted(r, id)
    case Park(id, until) => HasStatus(r, id, {Running})
    case Requeue(id) => HasStatus(r, id, {Running}) || DueNow(r, id, now)
    case Interrupt(id) => HasStatus(r, id, {Running})
    case Abandon(approach) => true
    case Answer(id) => true
  }

  datatype Entry = Entry(now: int, write: Write)

  function Replay(r: Record, log: seq<Entry>): Record {
    if log == [] then r else Apply(Replay(r, log[..|log| - 1]), log[|log| - 1].write)
  }

  ghost predicate LegalRun(r: Record, log: seq<Entry>) {
    forall i :: 0 <= i < |log| ==> Legal(Replay(r, log[..i]), log[i].now, log[i].write)
  }

  lemma {:induction false} RunPrefix(r: Record, log: seq<Entry>)
    requires LegalRun(r, log) && log != []
    ensures var front, e := log[..|log| - 1], log[|log| - 1];
            LegalRun(r, front) && Legal(Replay(r, front), e.now, e.write)
            && Replay(r, log) == Apply(Replay(r, front), e.write)
  {
    var front := log[..|log| - 1];
    forall i | 0 <= i < |front|
      ensures Legal(Replay(r, front[..i]), front[i].now, front[i].write)
    {
      assert front[..i] == log[..i];
    }
  }
}
