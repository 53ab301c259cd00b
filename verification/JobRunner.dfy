/**
  One tick of a job (src/jobs/runner.ts) over the stored graph. The process may die before any
  write: `fuel` is how many writes it still gets to make. What the browser, the model and the
  oracle answer is the `Tick` handed in.
*/
module JobRunner {
  import opened Common
  import opened PlanGraph
  import opened JobSafety
  import opened Sprints

  datatype Verdict = Success | NeedsUser | Replan | Fatal | Unsettled

  /** What the world answers during one tick. */
  datatype Tick = Tick(
    now: int,
    passes: string -> bool,           // the oracle finds an interrupted task already done
    overBudget: bool,
    limit: SprintLimit,               // how many tasks a sprint may take
    blocked: set<string>,             // resources cooling down
    hosted: bool,                     // a model and a browser are attached
    reconciled: bool,                 // the started task's commit turns out to be done
    discovered: seq<Task>,            // tasks the attempt appends
    verdict: Verdict,
    parked: bool,                     // the attempt asked to be parked
    until: int)                       // when a parked task may be retried

  datatype Outcome =
    | OverBudget
    | Complete
    | FailedJob
    | NothingRunnable
    | RuntimeUnavailable(id: string)
    | NotActive
    | Worked(id: string)
    | WaitingHuman(id: string)

  /** What the job's own record says about it. */
  datatype JobStatus = JobDraft | JobActive | JobPaused | JobCompleted | JobCancelled | JobFailed

  // ----- the three sweeps that open a tick

  datatype Sweeping = Recovering(passes: string -> bool) | Waking | Exhausting

  function SweepWrite(s: Sweeping, r: Record, t: Task, now: int): Option<Write> {
    match s
    case Recovering(passes) =>
      if t.status != Running then None else Some(if passes(t.id) then Finish(t.id) else Interrupt(t.id))
    case Waking => if t.status == Parked && Due(t, now) then Some(Requeue(t.id)) else None
    case Exhausting =>
      if t.status in {Pending, Parked} && t.attempts as real >= Cap(t, r) then Some(Fail(t.id)) else None
  }

  function SweptTask(s: Sweeping, r: Record, t: Task, now: int): Task {
    match SweepWrite(s, r, t, now)
    case Some(w) => Effect(t, w)
    case None => t
  }

  /** The sweep once it has passed the first `m` tasks. */
  function SweptTo(s: Sweeping, r: Record, now: int, m: nat): Record {
    var n := |r.tasks|;
    r.(tasks := seq(n, i requires 0 <= i < n => if i < m then SweptTask(s, r, r.tasks[i], now) else r.tasks[i]))
  }

  function Swept(s: Sweeping, r: Record, now: int): Record {
    SweptTo(s, r, now, |r.tasks|)
  }

  lemma {:induction false} SweepStep(s: Sweeping, r: Record, now: int, m: nat)
    requires UniqueIds(r) && m < |r.tasks|
    ensures match SweepWrite(s, r, r.tasks[m], now)
            case None => SweptTo(s, r, now, m + 1) == SweptTo(s, r, now, m)
            case Some(w) =>
              Legal(SweptTo(s, r, now, m), now, w) && Apply(SweptTo(s, r, now, m), w) == SweptTo(s, r, now, m + 1)
  {
    var at := SweptTo(s, r, now, m);
    assert at.tasks[m] == r.tasks[m];
    match SweepWrite(s, r, r.tasks[m], now)
    case None => assert SweptTo(s, r, now, m + 1).tasks == at.tasks;
    case Some(w) => assert Apply(at, w).tasks == SweptTo(s, r, now, m + 1).tasks;
  }

  /** The graph a tick works on once nothing is left running, due or out of attempts. */
  function Opened(r: Record, k: Tick): Record {
    Swept(Exhausting, Swept(Waking, Swept(Recovering(k.passes), r, k.now), k.now), k.now)
  }

  lemma {:induction false} OpenedSettled(r: Record, k: Tick)
    ensures var o := Opened(r, k);
            && |o.tasks| == |r.tasks| && o.defaultCap == r.defaultCap && o.facts == r.facts
            && NoneRunning(o)
            && (forall i :: 0 <= i < |r.tasks| ==> o.tasks[i].id == r.tasks[i].id)
            && (forall i :: 0 <= i < |o.tasks| && o.tasks[i].status in {Pending, Parked} ==>
                  o.tasks[i].attempts as real < Cap(o.tasks[i], o))
  {
  }

  /** The same tasks in the same order, whatever became of them. */
  predicate SameShape(r: Record, r0: Record) {
    && r.defaultCap == r0.defaultCap && |r.tasks| == |r0.tasks|
    && forall i :: 0 <= i < |r.tasks| ==> r.tasks[i].id == r0.tasks[i].id
  }

  lemma {:induction false} SameShapeKept(r: Record, r0: Record, w: Write)
    requires SameShape(r, r0) && !w.Create?
    ensures SameShape(Apply(r, w), r0)
  {
    forall i | 0 <= i < |r.tasks|
      ensures Apply(r, w).tasks[i].id == r0.tasks[i].id
    {
      assert Apply(r, w).tasks[i] == Effect(r.tasks[i], w);
    }
  }

  lemma {:induction false} SweepWriteStable(s: Sweeping, r: Record, r0: Record, t: Task, now: int)
    requires r.defaultCap == r0.defaultCap
    ensures SweepWrite(s, r, t, now) == SweepWrite(s, r0, t, now)
    ensures SweepWrite(s, r, t, now).Some? ==>
              !SweepWrite(s, r, t, now).value.Create? && !SweepWrite(s, r, t, now).value.Start?
  {
  }

  // ----- picking

  /** The task's resource is not cooling down. */
  predicate Free(t: Task, k: Tick) {
    t.resource.None? || t.resource.value == "" || t.resource.value !in k.blocked
  }

  /** `ids` are those an open sprint confines the choice to, if it does. */
  predicate Candidate(t: Task, ids: seq<string>, k: Tick) {
    (ids != [] ==> t.id in ids) && Free(t, k)
  }

  function Pick(ready: seq<Task>, ids: seq<string>, k: Tick): (t: Option<Task>)
    ensures t.None? <==> forall i :: 0 <= i < |ready| ==> !Candidate(ready[i], ids, k)
    ensures t.Some? ==> exists i :: 0 <= i < |ready| && ready[i] == t.value && Candidate(t.value, ids, k)
                         && forall j :: 0 <= j < i ==> !Candidate(ready[j], ids, k)
  {
    if ready == [] then None
    else if Candidate(ready[0], ids, k) then Some(ready[0])
    else
      assert forall j :: 0 < j < |ready| ==> ready[j] == ready[1..][j - 1];
      Pick(ready[1..], ids, k)
  }

  /** What remains of the started task, given the verdict. */
  predicate Settled(r: Record, picked: Task, k: Tick, outcome: Outcome) {
    exists i :: 0 <= i < |r.tasks| && r.tasks[i].id == picked.id && SettledTask(r, r.tasks[i], picked, k, outcome)
  }

  predicate SettledTask(r: Record, t: Task, picked: Task, k: Tick, outcome: Outcome) {
    && t.attempts == picked.attempts + 1
    && if k.reconciled || k.verdict == Success then t.status == Done && outcome == Worked(t.id)
       else if k.verdict == NeedsUser || k.parked then
         t.status == Parked && t.deferredUntil == Some(k.until) && outcome == WaitingHuman(t.id)
       else if k.verdict == Replan then
         t.status == (if picked.approach.GetOr("") != "" then Abandoned else Running) && outcome == Worked(t.id)
       else if k.verdict == Fatal || t.attempts as real >= Cap(t, r) then
         t.status == Failed && outcome == if TerminalStatus(r) == SomeFailed then FailedJob else Worked(t.id)
       else t.status == Pending && outcome == Worked(t.id)
  }

  /** The one write a verdict leads to. */
  function VerdictWrite(r: Record, picked: Task, k: Tick): Write {
    if k.verdict == Success then Finish(picked.id)
    else if k.verdict == NeedsUser || k.parked then Park(picked.id, k.until)
    else if k.verdict == Replan then Abandon(picked.approach)
    else if (picked.attempts + 1) as real >= picked.maxAttempts.GetOr(r.defaultCap) || k.verdict == Fatal then
      Fail(picked.id)
    else Requeue(picked.id)
  }

  /** The whole graph after the picked task was started, ran and was judged. */
  function Ended(r: Record, picked: Task, k: Tick): Record {
    var s := Apply(r, Start(picked.id));
    if k.reconciled then Apply(s, Finish(picked.id))
    else
      var d := s.(tasks := s.tasks + k.discovered);
      Apply(d, VerdictWrite(d, picked, k))
  }

  /** A tick leaves every other task as it was, but for those it gives up with an approach. */
  lemma {:induction false} OthersKept(r: Record, picked: Task, k: Tick, i: nat)
    requires i < |r.tasks| && r.tasks[i].id != picked.id
    ensures |Ended(r, picked, k).tasks| >= |r.tasks|
    ensures var t, t' := r.tasks[i], Ended(r, picked, k).tasks[i];
            if !k.reconciled && k.verdict == Replan && !k.parked && GivenUp(t, picked.approach)
            then t' == t.(status := Abandoned) else t' == t
  {
    var s := Apply(r, Start(picked.id));
    assert s.tasks[i] == Effect(r.tasks[i], Start(picked.id));
    if k.reconciled {
      assert Apply(s, Finish(picked.id)).tasks[i] == Effect(s.tasks[i], Finish(picked.id));
    } else {
      var d := s.(tasks := s.tasks + k.discovered);
      assert Apply(d, VerdictWrite(d, picked, k)).tasks[i] == Effect(d.tasks[i], VerdictWrite(d, picked, k));
    }
  }

  /** An approach with no name cannot be given up: the task stays running until the next tick recovers it. */
  lemma {:induction false} NamelessReplanStaysRunning(r: Record, picked: Task, k: Tick, i: nat)
    requires i < |r.tasks| && r.tasks[i] == picked && picked.status != Done
    requires !k.reconciled && k.verdict == Replan && !k.parked
    ensures Ended(r, picked, k).tasks[i].status == Running <==> picked.approach.GetOr("") == ""
  {
    var s := Apply(r, Start(picked.id));
    assert s.tasks[i] == Effect(picked, Start(picked.id));
    var d := s.(tasks := s.tasks + k.discovered);
    assert Apply(d, VerdictWrite(d, picked, k)).tasks[i] == Effect(d.tasks[i], Abandon(picked.approach));
  }

  ghost predicate Appendable(r: Record, ts: seq<Task>) {
    && (forall i :: 0 <= i < |ts| ==> Fresh(r, ts[i].id) && ts[i].status == Pending && ts[i].attempts == 0)
    && (forall i, j :: 0 <= i < j < |ts| ==> ts[i].id != ts[j].id)
  }

  /** A task once it is started. */
  function StartedTask(t: Task): Task {
    t.(status := Running, attempts := t.attempts + 1)
  }

  lemma {:induction false} StartWrite(r: Record, picked: Task, now: int)
    requires NoneRunning(r) && picked in ReadyTasks(r, now)
    ensures Legal(r, now, Start(picked.id))
  {}

  lemma {:induction false} AfterStart(r: Record, picked: Task, i: nat, now: int, ts: seq<Task>)
    requires i < |r.tasks| && r.tasks[i] == picked && Appendable(r, ts)
    ensures var r' := Apply(r, Start(picked.id));
            && i < |r'.tasks| && r'.tasks[i] == StartedTask(picked)
            && Legal(r', now, Finish(picked.id)) && Appendable(r', ts)
  {
    var r' := Apply(r, Start(picked.id));
    assert r'.tasks[i] == Effect(picked, Start(picked.id));
    assert HasStatus(r', picked.id, {Running});
    forall k | 0 <= k < |ts|
      ensures Fresh(r', ts[k].id)
    {
      assert Fresh(r, ts[k].id);
    }
  }

  lemma {:induction false} IndexOf(r: Record, t: Task, now: int) returns (i: nat)
    requires t in ReadyTasks(r, now)
    ensures i < |r.tasks| && r.tasks[i] == t
  {
    assert t in r.tasks;
    i :| 0 <= i < |r.tasks| && r.tasks[i] == t;
  }

  lemma {:induction false} ReconciledSettles(r: Record, picked: Task, i: nat, k: Tick)
    requires i < |r.tasks| && r.tasks[i] == StartedTask(picked) && k.reconciled
    ensures Settled(Apply(r, Finish(picked.id)), picked, k, Worked(picked.id))
  {
    var r' := Apply(r, Finish(picked.id));
    assert r'.tasks[i] == Effect(r.tasks[i], Finish(picked.id));
    assert SettledTask(r', r'.tasks[i], picked, k, Worked(picked.id));
  }

  // ----- a whole tick

  /** What a tick finds and leaves: the graph, the sprint the job points to, and the job's status. */
  datatype Job = Job(record: Record, sprint: Option<Sprint>, status: JobStatus)

  /** The sprint is refreshed once more when the attempt succeeded, was parked or led to a new plan. */
  predicate Refreshes(k: Tick) {
    !k.reconciled && (k.verdict == Success || k.verdict == NeedsUser || k.parked || k.verdict == Replan)
  }

  /** The attempt ends with the task failed. */
  predicate Fails(r: Record, picked: Task, k: Tick) {
    !k.reconciled && VerdictWrite(r, picked, k).Fail?
  }

  lemma {:induction false} FailedIsNotRefreshed(r: Record, picked: Task, k: Tick)
    ensures Fails(r, picked, k) ==> !Refreshes(k)
  {}

  function PickedBy(o: Record, sprint: Option<Sprint>, k: Tick): Option<Task> {
    Pick(ReadyTasks(o, k.now), PickIds(Current(o, sprint, k.now, k.limit)), k)
  }

  /** What an attempt at the picked task leaves, if the process lives through it. */
  function AfterAttempt(o: Record, sprint: Sprint, picked: Task, k: Tick): Job {
    var e := Ended(o, picked, k);
    Job(e, Some(if Refreshes(k) then Refreshed(e, sprint) else sprint),
        if Fails(e, picked, k) && TerminalStatus(e) == SomeFailed then JobFailed else JobActive)
  }

  /** What a tick of an active job leaves. One that picks nothing puts the job's record back as it found it. */
  function AfterOpened(o: Record, sprint: Option<Sprint>, k: Tick): Job {
    if k.overBudget then Job(o, sprint, JobFailed)
    else if TerminalStatus(o) == AllDone then Job(o, sprint, JobCompleted)
    else if TerminalStatus(o) == SomeFailed then Job(o, sprint, JobFailed)
    else
      var picked := PickedBy(o, sprint, k);
      if picked.None? then Job(o, Behind(o, sprint, k.now), JobActive)
      else
        var current := Current(o, sprint, k.now, k.limit);
        if !k.hosted then Job(o, Some(current), JobActive) else AfterAttempt(o, current, picked.value, k)
  }

  function AfterTick(j: Job, k: Tick): Job {
    if j.status != JobActive then j else AfterOpened(Opened(j.record, k), j.sprint, k)
  }

  function AfterTicks(j: Job, ks: seq<Tick>): Job
    decreases |ks|
  {
    if ks == [] then j else AfterTicks(AfterTick(j, ks[0]), ks[1..])
  }

  /** What each tick discovers can be appended when it comes. */
  ghost predicate AllAppendable(j: Job, ks: seq<Tick>)
    decreases |ks|
  {
    ks != [] ==> Appendable(j.record, ks[0].discovered) && AllAppendable(AfterTick(j, ks[0]), ks[1..])
  }

  /** What a tick of an active job tells its caller. */
  ghost predicate Told(o: Record, sprint: Option<Sprint>, r': Record, k: Tick, outcome: Outcome) {
    var picked := PickedBy(o, sprint, k);
    if k.overBudget then outcome == OverBudget
    else if TerminalStatus(o) == AllDone then outcome == Complete
    else if TerminalStatus(o) == SomeFailed then outcome == FailedJob
    else if picked.None? then outcome == NothingRunnable
    else if !k.hosted then outcome == RuntimeUnavailable(picked.value.id)
    else Settled(r', picked.value, k, outcome)
  }

  /** One legal write more. */
  lemma {:induction false} LoggedNext(r: Record, log: seq<Entry>, e: Entry)
    requires LegalRun(r, log) && Legal(Replay(r, log), e.now, e.write)
    ensures LegalRun(r, log + [e]) && Replay(r, log + [e]) == Apply(Replay(r, log), e.write)
    ensures Starts(log + [e]) == Starts(log) + if e.write.Start? then 1 else 0
  {
    hide Legal, Apply;
    var more := log + [e];
    assert more[..|more| - 1] == log;
    forall i | 0 <= i < |more|
      ensures Legal(Replay(r, more[..i]), more[i].now, more[i].write)
    {
      assert i < |log| ==> more[..i] == log[..i] && more[i] == log[i];
    }
  }

  class PlanStore {
    var record: Record
    var status: JobStatus
    var sprints: seq<Sprint>      // every sprint ever written, by number
    var current: Option<nat>      // the one the job points to
    var fuel: nat
    ghost var origin: Record
    ghost var log: seq<Entry>

    ghost predicate Valid()
      reads this
    {
      && Sound(origin) && LegalRun(origin, log) && record == Replay(origin, log) && Sound(record)
      && (current.Some? ==> current.value < |sprints|)
    }

    /** The sprint behind a pointer. */
    ghost function At(c: Option<nat>): Option<Sprint>
      reads this
    {
      if c.Some? && c.value < |sprints| then Some(sprints[c.value]) else None
    }

    ghost function Now(): Job
      reads this
    {
      Job(record, At(current), status)
    }

    constructor (facts: set<string>, defaultCap: real)
      ensures Valid() && record == origin == Record([], facts, defaultCap) && log == []
      ensures status == JobActive && current == None
    {
      record, origin := Record([], facts, defaultCap), Record([], facts, defaultCap);
      status, sprints, current := JobActive, [], None;
      fuel, log := 0, [];
    }

    /** A process picks up the stored graph and will make at most `n` writes before it dies. */
    method Attach(n: nat)
      requires Valid()
      modifies this`fuel
      ensures Valid() && fuel == n
    {
      fuel := n;
    }

    /** One atomic replacement of the stored record. A dead process writes nothing. */
    method Commit(now: int, w: Write)
      requires Valid()
      requires fuel > 0 ==> Legal(record, now, w)
      modifies this`record, this`fuel, this`log
      ensures Valid() && origin == old(origin)
      ensures old(fuel) == 0 ==> record == old(record) && log == old(log) && fuel == 0
      ensures old(fuel) > 0 ==>
                record == Apply(old(record), w) && log == old(log) + [Entry(now, w)] && fuel == old(fuel) - 1
      ensures old(log) <= log && Starts(log) <= Starts(old(log)) + (if w.Start? then 1 else 0)
      ensures !w.Start? ==> Starts(log) == Starts(old(log))
      ensures fuel > 0 ==> Starts(log) == Starts(old(log)) + (if w.Start? then 1 else 0)
    {
      hide Apply, Legal, Sound, LegalRun, Replay, Starts;
      if fuel > 0 {
        SoundKept(record, now, w);
        LoggedNext(origin, log, Entry(now, w));
        record := Apply(record, w);
        log := log + [Entry(now, w)];
        fuel := fuel - 1;
      }
    }

    /** A person's answer returns the task to the queue, whatever its status. */
    method AnswerHuman(now: int, id: string)
      requires Valid()
      modifies this`record, this`fuel, this`log
      ensures Valid() && origin == old(origin)
      ensures old(fuel) > 0 ==> record == Apply(old(record), Answer(id)) && log == old(log) + [Entry(now, Answer(id))]
    {
      Commit(now, Answer(id));
    }

    method Sweep(s: Sweeping, now: int)
      requires Valid()
      modifies this`record, this`fuel, this`log
      ensures Valid() && origin == old(origin) && old(log) <= log
      ensures Starts(log) == Starts(old(log))
      ensures fuel > 0 ==> old(fuel) > 0 && record == Swept(s, old(record), now)
      ensures SameShape(record, old(record))
    {
      hide Starts, LegalRun, Replay, Legal, Apply, SweepWrite, SweptTask;
      var tasks := record.tasks;
      assert SweptTo(s, record, now, 0) == record by {
        assert SweptTo(s, record, now, 0).tasks == record.tasks;
      }
      for i := 0 to |tasks|
        invariant Valid() && origin == old(origin) && old(log) <= log && Starts(log) == Starts(old(log))
        invariant fuel > 0 ==> old(fuel) > 0 && record == SweptTo(s, old(record), now, i)
        invariant SameShape(record, old(record))
      {
        SweepStep(s, old(record), now, i);
        var write := SweepWrite(s, record, tasks[i], now);
        SweepWriteStable(s, record, old(record), tasks[i], now);
        if write.Some? {
          SameShapeKept(record, old(record), write.value);
          Commit(now, write.value);
        }
      }
    }

    /** `recoverRunning`, `wakeDue` and `failExhausted`, in this order. */
    method OpenTick(k: Tick)
      requires Valid()
      modifies this`record, this`fuel, this`log
      ensures Valid() && origin == old(origin) && old(log) <= log
      ensures Starts(log) == Starts(old(log))
      ensures fuel > 0 ==> old(fuel) > 0 && record == Opened(old(record), k)
      ensures SameShape(record, old(record))
    {
      hide Swept;
      Sweep(Recovering(k.passes), k.now);
      Sweep(Waking, k.now);
      Sweep(Exhausting, k.now);
    }

    /** The tasks an attempt discovers are appended one by one. */
    method Discover(now: int, ts: seq<Task>)
      requires Valid() && (fuel > 0 ==> Appendable(record, ts))
      modifies this`record, this`fuel, this`log
      ensures Valid() && origin == old(origin) && old(log) <= log
      ensures Starts(log) == Starts(old(log))
      ensures fuel > 0 ==> old(fuel) > 0 && record == old(record).(tasks := old(record).tasks + ts)
    {
      hide Starts, LegalRun, Replay, Sound;
      for i := 0 to |ts|
        invariant Valid() && origin == old(origin) && old(log) <= log && Starts(log) == Starts(old(log))
        invariant fuel > 0 ==> old(fuel) > 0 && record == old(record).(tasks := old(record).tasks + ts[..i])
      {
        Commit(now, Create(ts[i]));
        assert old(record).tasks + ts[..i] + [ts[i]] == old(record).tasks + ts[..i + 1];
      }
      assert ts[..|ts|] == ts;
    }

    /** What the runner does with the verdict on the task it started. */
    method Conclude(k: Tick, picked: Task, ghost i: nat) returns (outcome: Outcome)
      requires Valid() && !k.reconciled
      requires fuel > 0 ==> i < |record.tasks| && record.tasks[i] == StartedTask(picked)
      modifies this`record, this`fuel, this`log
      ensures Valid() && origin == old(origin) && old(log) <= log
      ensures Starts(log) == Starts(old(log))
      ensures fuel > 0 ==> old(fuel) > 0 && Settled(record, picked, k, outcome)
      ensures outcome.FailedJob? ==> VerdictWrite(record, picked, k).Fail?
      ensures fuel > 0 && VerdictWrite(record, picked, k).Fail? ==>
                (outcome.FailedJob? <==> TerminalStatus(record) == SomeFailed)
      ensures fuel > 0 ==> record == Apply(old(record), VerdictWrite(old(record), picked, k))
    {
      hide Starts, LegalRun, Replay, Sound;
      if k.verdict == Success {
        Commit(k.now, Finish(picked.id));
        assert fuel > 0 ==> SettledTask(record, record.tasks[i], picked, k, Worked(picked.id));
        return Worked(picked.id);
      }
      if k.verdict == NeedsUser || k.parked {
        Commit(k.now, Park(picked.id, k.until));
        assert fuel > 0 ==> SettledTask(record, record.tasks[i], picked, k, WaitingHuman(picked.id));
        return WaitingHuman(picked.id);
      }
      if k.verdict == Replan {
        Commit(k.now, Abandon(picked.approach));
        assert fuel > 0 ==> SettledTask(record, record.tasks[i], picked, k, Worked(picked.id));
        return Worked(picked.id);
      }
      var cap := picked.maxAttempts.GetOr(record.defaultCap);
      if (picked.attempts + 1) as real >= cap || k.verdict == Fatal {
        Commit(k.now, Fail(picked.id));
        outcome := if TerminalStatus(record) == SomeFailed then FailedJob else Worked(picked.id);
        assert fuel > 0 ==> SettledTask(record, record.tasks[i], picked, k, outcome);
        return;
      }
      Commit(k.now, Requeue(picked.id));
      assert fuel > 0 ==> SettledTask(record, record.tasks[i], picked, k, Worked(picked.id));
      return Worked(picked.id);
    }

    /** Start, reconcile or run, and settle one task. */
    method RunTask(k: Tick, picked: Task) returns (outcome: Outcome)
      requires Valid()
      requires fuel > 0 ==> NoneRunning(record) && Appendable(record, k.discovered)
      requires fuel > 0 ==> picked in ReadyTasks(record, k.now)
      modifies this`record, this`fuel, this`log
      ensures Valid() && origin == old(origin) && old(log) <= log
      ensures Starts(log) <= Starts(old(log)) + 1
      ensures fuel > 0 ==> old(fuel) > 0 && Starts(log) == Starts(old(log)) + 1 && Settled(record, picked, k, outcome)
      ensures fuel > 0 ==> record == Ended(old(record), picked, k)
      ensures fuel > 0 ==> (outcome.FailedJob? <==> Fails(record, picked, k) && TerminalStatus(record) == SomeFailed)
    {
      hide Starts, LegalRun, Replay, Sound, Apply, Legal, ReadyTasks, Appendable, Settled, NoneRunning;
      ghost var before := record;
      ghost var i: nat := 0;
      if fuel > 0 {
        i := IndexOf(record, picked, k.now);
        StartWrite(record, picked, k.now);
        AfterStart(record, picked, i, k.now, k.discovered);
      }
      Commit(k.now, Start(picked.id));
      if k.reconciled {
        if fuel > 0 {
          ReconciledSettles(record, picked, i, k);
        }
        Commit(k.now, Finish(picked.id));
        return Worked(picked.id);
      }
      Discover(k.now, k.discovered);
      outcome := Conclude(k, picked, i);
    }

    // ----- the sprint and the job's own record

    method WriteSprint(id: nat, sprint: Sprint)
      requires fuel > 0 ==> id <= |sprints|
      modifies this`sprints, this`fuel
      ensures old(fuel) == 0 ==> sprints == old(sprints) && fuel == 0
      ensures old(fuel) > 0 ==> fuel == old(fuel) - 1 && id < |sprints| && |old(sprints)| <= |sprints|
      ensures old(fuel) > 0 ==> sprints[id] == sprint
      ensures old(fuel) > 0 ==> forall i :: 0 <= i < |old(sprints)| && i != id ==> sprints[i] == old(sprints)[i]
    {
      if fuel > 0 {
        sprints := if id == |sprints| then sprints + [sprint] else sprints[id := sprint];
        fuel := fuel - 1;
      }
    }

    /** Rewrites the job's record with this sprint as its current one. */
    method PointTo(c: Option<nat>)
      requires fuel > 0 && c.Some? ==> c.value < |sprints|
      modifies this`current, this`fuel
      ensures old(fuel) == 0 ==> current == old(current) && fuel == 0
      ensures old(fuel) > 0 ==> current == c && fuel == old(fuel) - 1
    {
      if fuel > 0 {
        current := c;
        fuel := fuel - 1;
      }
    }

    method SetStatus(to: JobStatus)
      modifies this`status, this`fuel
      ensures old(fuel) == 0 ==> status == old(status) && fuel == 0
      ensures old(fuel) > 0 ==> status == to && fuel == old(fuel) - 1
    {
      if fuel > 0 {
        status := to;
        fuel := fuel - 1;
      }
    }

    /** `ensureSprint`: the sprint at hand, or a new one of the first ready tasks. */
    method EnsureSprint(k: Tick, rolled: bool) returns (id: nat, sprint: Sprint)
      requires Valid()
      modifies this`sprints, this`current, this`fuel
      ensures Valid() && |old(sprints)| <= |sprints|
      ensures forall i :: 0 <= i < |old(sprints)| ==> sprints[i] == old(sprints)[i]
      ensures fuel > 0 ==>
                && old(fuel) > 0 && current == Some(id) && At(current) == Some(sprint)
                && sprint == Ensured(old(At(current)), ReadyTasks(record, k.now), k.limit, rolled)
                && (id < |old(sprints)| <==> GoesOn(old(At(current)), ReadyTasks(record, k.now), rolled))
                && (id < |old(sprints)| ==> current == old(current))
    {
      hide LegalRun, Replay, Sound, Created, Upcoming, ReadyTasks;
      var ready := ReadyTasks(record, k.now);
      if current.Some? {
        var existing := sprints[current.value];
        if existing.status == SprintOpen || (existing.status == Holding && ready == [] && !rolled) {
          return current.value, existing;
        }
      }
      id, sprint := |sprints|, Created(Upcoming(ready, k.limit));
      WriteSprint(id, sprint);
      PointTo(Some(id));
    }

    /** The sprint this tick works by; one whose members are settled is closed and followed by another. */
    method TakeSprint(k: Tick) returns (id: nat, sprint: Sprint)
      requires Valid()
      modifies this`sprints, this`current, this`fuel
      ensures Valid() && |old(sprints)| <= |sprints|
      ensures fuel > 0 ==>
                && old(fuel) > 0 && current == Some(id) && At(current) == Some(sprint)
                && sprint == Current(record, old(At(current)), k.now, k.limit)
                && At(old(current)) == Behind(record, old(At(current)), k.now)
    {
      hide LegalRun, Replay, Sound, ReadyTasks, Ensured, GoesOn, Refreshed, NeedsRollover;
      id, sprint := EnsureSprint(k, false);
      sprint := Refreshed(record, sprint);
      WriteSprint(id, sprint);
      if NeedsRollover(sprint) {
        WriteSprint(id, sprint.(status := SprintClosed));
        id, sprint := EnsureSprint(k, true);
      }
    }

    /** The part of a tick that works: from the sprint to the settled attempt. */
    method Work(k: Tick) returns (outcome: Outcome)
      requires Valid() && status == JobActive && !k.overBudget && TerminalStatus(record) == Open
      requires fuel > 0 ==> NoneRunning(record) && Appendable(record, k.discovered)
      modifies this
      ensures Valid() && origin == old(origin) && old(log) <= log
      ensures Starts(log) <= Starts(old(log)) + 1
      ensures fuel > 0 ==> old(fuel) > 0 && Now() == AfterOpened(old(record), old(At(current)), k)
      ensures fuel > 0 ==> Told(old(record), old(At(current)), record, k, outcome)
      ensures fuel > 0 && (outcome.Worked? || outcome.WaitingHuman?) ==> Starts(log) == Starts(old(log)) + 1
    {
      hide Starts, LegalRun, Replay, Sound, ReadyTasks, Settled, Candidate, Ended, Current, Behind, Refreshed,
           Fails, Appendable, NoneRunning, PickIds;
      var pointed := current;
      var id, sprint := TakeSprint(k);
      var ready := ReadyTasks(record, k.now);
      var picked := Pick(ready, PickIds(sprint), k);
      if picked.None? {
        PointTo(pointed);
        return NothingRunnable;
      }
      if !k.hosted { return RuntimeUnavailable(picked.value.id); }
      outcome := RunTask(k, picked.value);
      FailedIsNotRefreshed(record, picked.value, k);
      if outcome.FailedJob? {
        SetStatus(JobFailed);
      } else if Refreshes(k) {
        WriteSprint(id, Refreshed(record, sprint));
      }
    }

    /**
      One tick. Whenever the process dies, what is stored is the result of a legal run with
      at most one more start; if it survives, the graph, the sprint and the status are as specified.
    */
    method RunLocked(k: Tick) returns (outcome: Outcome)
      requires Valid() && status == JobActive && (fuel > 0 ==> Appendable(record, k.discovered))
      modifies this
      ensures Valid() && origin == old(origin) && old(log) <= log
      ensures Starts(log) <= Starts(old(log)) + 1
      ensures fuel > 0 ==> old(fuel) > 0 && Now() == AfterTick(old(Now()), k)
      ensures fuel > 0 ==> Told(Opened(old(record), k), old(At(current)), record, k, outcome)
      ensures fuel > 0 && (outcome.Worked? || outcome.WaitingHuman?) ==> Starts(log) == Starts(old(log)) + 1
    {
      hide Starts, LegalRun, Replay, Sound, Opened, PickedBy, Settled, AfterAttempt, Current, Behind, Appendable;
      ghost var found := record;
      OpenTick(k);
      OpenedSettled(found, k);
      if fuel > 0 { AppendableOpened(found, k); }
      if k.overBudget { SetStatus(JobFailed); return OverBudget; }
      var settled := TerminalStatus(record);
      if settled == AllDone { SetStatus(JobCompleted); return Complete; }
      if settled == SomeFailed { SetStatus(JobFailed); return FailedJob; }
      outcome := Work(k);
    }

    /** Every start since place `from` of the log found all dependencies of the task it started done. */
    ghost predicate StartsGrounded(from: nat)
      reads this
    {
      forall i :: from <= i < |log| && log[i].write.Start? ==> GroundedTaskOf(Replay(origin, log[..i]), log[i].write.id)
    }

    lemma {:induction false} ValidStartsGrounded(from: nat)
      requires Valid()
      ensures StartsGrounded(from)
    {
      hide Replay, GroundedTaskOf, Sound;
      forall i | from <= i < |log| && log[i].write.Start?
        ensures GroundedTaskOf(Replay(origin, log[..i]), log[i].write.id)
      {
        StartsAfterDependencies(origin, log, i);
      }
    }

    /**
      `tick`: a job that is not active is left alone; an active one is advanced, and wherever the
      process dies, whatever was started had its dependencies done.
    */
    method TickJob(k: Tick) returns (outcome: Outcome)
      requires Valid() && (fuel > 0 ==> Appendable(record, k.discovered))
      modifies this
      ensures Valid() && origin == old(origin) && old(log) <= log
      ensures StartsGrounded(|old(log)|) && Starts(log) <= Starts(old(log)) + 1
      ensures old(status) != JobActive ==> Now() == old(Now()) && log == old(log)
      ensures old(status) == JobCompleted ==> outcome == Complete
      ensures old(status) == JobCancelled || old(status) == JobFailed ==> outcome == FailedJob
      ensures old(status) == JobPaused || old(status) == JobDraft ==> outcome == NotActive
      ensures fuel > 0 ==> old(fuel) > 0 && Now() == AfterTick(old(Now()), k)
      ensures fuel > 0 && old(status) == JobActive ==>
                Told(Opened(old(record), k), old(At(current)), record, k, outcome)
    {
      hide Starts, LegalRun, Replay, Sound, StartsGrounded, Told, AfterOpened, Opened;
      ValidStartsGrounded(|log|);
      match status
      case JobPaused => return NotActive;
      case JobCompleted => return Complete;
      case JobCancelled => return FailedJob;
      case JobFailed => return FailedJob;
      case JobDraft => return NotActive;
      case JobActive =>
        outcome := RunLocked(k);
        ValidStartsGrounded(|old(log)|);
    }

    /** Any sequence of ticks. */
    method TickAll(ks: seq<Tick>)
      requires Valid() && (fuel > 0 ==> AllAppendable(Now(), ks))
      modifies this
      ensures Valid() && origin == old(origin) && old(log) <= log
      ensures StartsGrounded(|old(log)|) && Starts(log) <= Starts(old(log)) + |ks|
      ensures fuel > 0 ==> Now() == AfterTicks(old(Now()), ks)
    {
      hide Starts, LegalRun, Replay, Sound, AfterTick, Appendable, StartsGrounded;
      for i := 0 to |ks|
        invariant Valid() && origin == old(origin) && old(log) <= log
        invariant Starts(log) <= Starts(old(log)) + i
        invariant fuel > 0 ==> old(fuel) > 0 && AllAppendable(Now(), ks[i..])
        invariant fuel > 0 ==> AfterTicks(old(Now()), ks) == AfterTicks(Now(), ks[i..])
      {
        assert ks[i..][0] == ks[i] && ks[i..][1..] == ks[i + 1..];
        var outcome := TickJob(ks[i]);
      }
      ValidStartsGrounded(|old(log)|);
    }
  }

  /** Opening a tick makes no task and gives none a new id. */
  lemma {:induction false} AppendableOpened(r: Record, k: Tick)
    requires Appendable(r, k.discovered)
    ensures Appendable(Opened(r, k), k.discovered)
  {
    OpenedSettled(r, k);
    hide Opened;
    forall i | 0 <= i < |k.discovered|
      ensures Fresh(Opened(r, k), k.discovered[i].id)
    {
      assert Fresh(r, k.discovered[i].id);
    }
  }

  /** The task a tick picks is the oldest that is ready and allowed. */
  lemma {:induction false} PicksOldest(r: Record, ids: seq<string>, k: Tick, t: Task)
    requires Pick(ReadyTasks(r, k.now), ids, k).Some?
    requires t in ReadyTasks(r, k.now) && Candidate(t, ids, k)
    ensures Pick(ReadyTasks(r, k.now), ids, k).value.createdAt <= t.createdAt
  {
    hide Pick, Eligible, Candidate;
    var ready := ReadyTasks(r, k.now);
    var i :| 0 <= i < |ready| && ready[i] == Pick(ready, ids, k).value
             && forall j :: 0 <= j < i ==> !Candidate(ready[j], ids, k);
    var j :| 0 <= j < |ready| && ready[j] == t;
  }
}
