/** What every run of a job keeps, however ticks, crashes, discoveries and answers interleave. */
module JobSafety {
  import opened Common
  import opened PlanGraph

  // ----- attempts

  function TotalAttempts(ts: seq<Task>): nat {
    if ts == [] then 0 else TotalAttempts(ts[..|ts| - 1]) + ts[|ts| - 1].attempts
  }

  function TotalLimit(ts: seq<Task>, defaultCap: real): nat {
    if ts == [] then 0
    else TotalLimit(ts[..|ts| - 1], defaultCap) + Limit(ts[|ts| - 1].maxAttempts.GetOr(defaultCap))
  }

  function Starts(log: seq<Entry>): nat {
    if log == [] then 0 else Starts(log[..|log| - 1]) + (if log[|log| - 1].write.Start? then 1 else 0)
  }

  predicate WithinCaps(r: Record) {
    forall i :: 0 <= i < |r.tasks| ==> r.tasks[i].attempts <= Limit(Cap(r.tasks[i], r))
  }

  /** What holds of a graph before and after every write. */
  predicate Sound(r: Record) {
    UniqueIds(r) && WithinCaps(r)
  }

  lemma {:induction false} ReadyIndex(r: Record, now: int, id: string) returns (k: nat)
    requires exists t :: t in ReadyTasks(r, now) && t.id == id
    ensures k < |r.tasks| && r.tasks[k].id == id && Eligible(r, r.tasks[k], now)
  {
    var t :| t in ReadyTasks(r, now) && t.id == id;
    k :| 0 <= k < |r.tasks| && r.tasks[k] == t;
  }

  lemma {:induction false} UniqueKept(r: Record, now: int, w: Write)
    requires UniqueIds(r) && Legal(r, now, w)
    ensures UniqueIds(Apply(r, w))
  {
    hide ReadyTasks, Exhausted, DueNow, HasStatus;
    var r' := Apply(r, w);
    forall i | 0 <= i < |r.tasks|
      ensures r'.tasks[i].id == r.tasks[i].id
    {
      assert r'.tasks[i] == Effect(r.tasks[i], w);
    }
  }

  /** Only a start adds an attempt, and only to the task it names. */
  lemma {:induction false} EffectAttempts(t: Task, w: Write)
    ensures Effect(t, w).attempts == t.attempts + if w.Start? && t.id == w.id then 1 else 0
  {}

  lemma {:induction false} CapsKept(r: Record, now: int, w: Write)
    requires Sound(r) && Legal(r, now, w)
    ensures WithinCaps(Apply(r, w))
  {
    hide ReadyTasks, Eligible, Exhausted, DueNow, HasStatus, Effect, Limit;
    var r' := Apply(r, w);
    forall i | 0 <= i < |r'.tasks|
      ensures r'.tasks[i].attempts <= Limit(Cap(r'.tasks[i], r'))
    {
      if i < |r.tasks| {
        EffectAttempts(r.tasks[i], w);
        if w.Start? && r.tasks[i].id == w.id {
          var k := ReadyIndex(r, now, w.id);
          assert k == i;
          EligibleBelow(r, r.tasks[k], now);
          LimitExact(Cap(r.tasks[k], r), r.tasks[k].attempts);
        }
      }
    }
  }

  lemma {:induction false} EligibleBelow(r: Record, t: Task, now: int)
    requires Eligible(r, t, now)
    ensures t.attempts as real < Cap(t, r)
  {}

  lemma {:induction false} SoundKept(r: Record, now: int, w: Write)
    requires Sound(r) && Legal(r, now, w)
    ensures Sound(Apply(r, w))
  {
    hide Legal, Apply, UniqueIds, WithinCaps;
    UniqueKept(r, now, w);
    CapsKept(r, now, w);
  }

  lemma {:induction false} SoundRun(r: Record, log: seq<Entry>)
    requires Sound(r) && LegalRun(r, log)
    ensures Sound(Replay(r, log))
  {
    if log != [] {
      RunPrefix(r, log);
      var front := log[..|log| - 1];
      SoundRun(r, front);
      SoundKept(Replay(r, front), log[|log| - 1].now, log[|log| - 1].write);
    }
  }

  lemma {:induction false} TotalsWithin(ts: seq<Task>, defaultCap: real)
    requires forall i :: 0 <= i < |ts| ==> ts[i].attempts <= Limit(ts[i].maxAttempts.GetOr(defaultCap))
    ensures TotalAttempts(ts) <= TotalLimit(ts, defaultCap)
  {
    if ts != [] {
      TotalsWithin(ts[..|ts| - 1], defaultCap);
    }
  }

  predicate HasId(ts: seq<Task>, id: string) {
    exists i :: 0 <= i < |ts| && ts[i].id == id
  }

  lemma {:induction false} HasIdStep(ts: seq<Task>, id: string)
    requires ts != []
    ensures HasId(ts, id) <==> ts[|ts| - 1].id == id || HasId(ts[..|ts| - 1], id)
  {
    var front := ts[..|ts| - 1];
    if HasId(front, id) {
      var i :| 0 <= i < |front| && front[i].id == id;
      assert ts[i].id == id;
    }
    if HasId(ts, id) && ts[|ts| - 1].id != id {
      var i :| 0 <= i < |ts| && ts[i].id == id;
      assert front[i].id == id;
    }
  }

  lemma {:induction false} TotalEffect(ts: seq<Task>, ts': seq<Task>, w: Write)
    requires |ts'| == |ts| && forall i :: 0 <= i < |ts| ==> ts'[i] == Effect(ts[i], w)
    requires forall i, j :: 0 <= i < j < |ts| ==> ts[i].id != ts[j].id
    ensures TotalAttempts(ts') == TotalAttempts(ts)
            + (if w.Start? && HasId(ts, w.id) then 1 else 0)
  {
    if ts != [] {
      hide HasId;
      var n := |ts| - 1;
      TotalEffect(ts[..n], ts'[..n], w);
      assert ts'[n] == Effect(ts[n], w);
      if w.Start? {
        HasIdStep(ts, w.id);
        if ts[n].id == w.id {
          OnlyLast(ts, w.id);
        }
      }
    } else if w.Start? {
      assert !HasId(ts, w.id);
    }
  }

  lemma {:induction false} OnlyLast(ts: seq<Task>, id: string)
    requires forall i, j :: 0 <= i < j < |ts| ==> ts[i].id != ts[j].id
    requires ts != [] && ts[|ts| - 1].id == id
    ensures !HasId(ts[..|ts| - 1], id)
  {}

  lemma {:induction false} LimitEffect(ts: seq<Task>, ts': seq<Task>, w: Write, defaultCap: real)
    requires |ts'| == |ts| && forall i :: 0 <= i < |ts| ==> ts'[i] == Effect(ts[i], w)
    ensures TotalLimit(ts', defaultCap) == TotalLimit(ts, defaultCap)
  {
    if ts != [] {
      var n := |ts| - 1;
      LimitEffect(ts[..n], ts'[..n], w, defaultCap);
      assert ts'[n] == Effect(ts[n], w);
    }
  }

  lemma {:induction false} WriteTotals(r: Record, now: int, w: Write)
    requires Sound(r) && Legal(r, now, w)
    ensures TotalAttempts(Apply(r, w).tasks) == TotalAttempts(r.tasks) + (if w.Start? then 1 else 0)
    ensures !w.Create? ==> TotalLimit(Apply(r, w).tasks, r.defaultCap) == TotalLimit(r.tasks, r.defaultCap)
    ensures w.Create? ==> TotalLimit(Apply(r, w).tasks, r.defaultCap)
                          == TotalLimit(r.tasks, r.defaultCap) + Limit(Cap(w.task, r))
  {
    var ts' := Apply(r, w).tasks;
    if w.Create? {
      assert ts'[..|ts'| - 1] == r.tasks;
    } else {
      TotalEffect(r.tasks, ts', w);
      LimitEffect(r.tasks, ts', w, r.defaultCap);
      if w.Start? {
        var k := ReadyIndex(r, now, w.id);
      }
    }
  }

  /**
    Attempt conservation: over any run the attempts on record are those there were plus one for
    each start, no task exceeds its limit, and so the starts ever made are at most the
    limits of all tasks ever created.
  */
  lemma {:induction false} Conservation(r: Record, log: seq<Entry>)
    requires Sound(r) && LegalRun(r, log)
    ensures var end := Replay(r, log);
            && WithinCaps(end) && UniqueIds(end)
            && TotalAttempts(end.tasks) == TotalAttempts(r.tasks) + Starts(log)
            && TotalAttempts(r.tasks) + Starts(log) <= TotalLimit(end.tasks, r.defaultCap)
            && end.defaultCap == r.defaultCap
  {
    SoundRun(r, log);
    if log != [] {
      RunPrefix(r, log);
      var front := log[..|log| - 1];
      Conservation(r, front);
      SoundRun(r, front);
      WriteTotals(Replay(r, front), log[|log| - 1].now, log[|log| - 1].write);
    }
    TotalsWithin(Replay(r, log).tasks, r.defaultCap);
  }

  /** The attempts still to be had: each start takes one, only new tasks add any. */
  function Remaining(r: Record): int {
    TotalLimit(r.tasks, r.defaultCap) - TotalAttempts(r.tasks)
  }

  lemma {:induction false} RemainingDrops(r: Record, now: int, w: Write)
    requires Sound(r) && Legal(r, now, w)
    ensures Remaining(r) >= 0
    ensures w.Start? ==> Remaining(Apply(r, w)) == Remaining(r) - 1
    ensures !w.Start? && !w.Create? ==> Remaining(Apply(r, w)) == Remaining(r)
  {
    WriteTotals(r, now, w);
    TotalsWithin(r.tasks, r.defaultCap);
  }

  // ----- dependencies

  predicate GroundedTaskOf(r: Record, id: string) {
    exists k :: 0 <= k < |r.tasks| && r.tasks[k].id == id && DepsDone(r, r.tasks[k])
  }

  /** Every start of a run finds every dependency of the task it starts done. */
  lemma {:induction false} StartsAfterDependencies(r: Record, log: seq<Entry>, i: nat)
    requires LegalRun(r, log) && i < |log| && log[i].write.Start?
    ensures GroundedTaskOf(Replay(r, log[..i]), log[i].write.id)
  {
    var at := Replay(r, log[..i]);
    assert Legal(at, log[i].now, log[i].write);
    var k := ReadyIndex(at, log[i].now, log[i].write.id);
  }

  /** A task that has been attempted has only done dependencies. */
  predicate Grounded(r: Record) {
    forall i :: 0 <= i < |r.tasks| && r.tasks[i].attempts > 0 ==> DepsDone(r, r.tasks[i])
  }

  predicate DoneKept(r: Record, r': Record) {
    forall i :: 0 <= i < |r.tasks| && r.tasks[i].status == Done ==>
      i < |r'.tasks| && r'.tasks[i].id == r.tasks[i].id && r'.tasks[i].status == Done
  }

  lemma {:induction false} DoneStays(r: Record, r': Record, id: string)
    requires DoneKept(r, r') && IsDone(r, id)
    ensures IsDone(r', id)
  {
    var i :| 0 <= i < |r.tasks| && r.tasks[i].id == id && r.tasks[i].status == Done;
    assert r'.tasks[i].id == id && r'.tasks[i].status == Done;
  }

  /** No write of a tick, and no crash, takes a task out of done. */
  lemma {:induction false} TickKeepsDone(r: Record, now: int, w: Write)
    requires Sound(r) && Legal(r, now, w) && !w.Answer?
    ensures DoneKept(r, Apply(r, w))
  {
    forall i | 0 <= i < |r.tasks| && r.tasks[i].status == Done
      ensures Effect(r.tasks[i], w).status == Done
    {
      match w
      case Start(id) => var k := ReadyIndex(r, now, id); assert r.tasks[i].id == id ==> i == k;
      case Fail(id) => NotDone(r, now, w, id, i);
      case Park(id, _) => NotDone(r, now, w, id, i);
      case Requeue(id) => NotDone(r, now, w, id, i);
      case Interrupt(id) => NotDone(r, now, w, id, i);
      case _ =>
    }
  }

  lemma {:induction false} NotDone(r: Record, now: int, w: Write, id: string, i: nat)
    requires Sound(r) && Legal(r, now, w) && i < |r.tasks| && r.tasks[i].status == Done
    requires w == Fail(id) || w == Requeue(id) || w == Interrupt(id) || (w.Park? && w.id == id)
    ensures r.tasks[i].id != id
  {
    var k :| 0 <= k < |r.tasks| && r.tasks[k].id == id && r.tasks[k].status != Done;
  }

  /** An answer keeps what is done done exactly when the task it answers for is not done itself. */
  lemma {:induction false} AnswerKeepsDoneIff(r: Record, id: string)
    ensures DoneKept(r, Apply(r, Answer(id))) <==> !IsDone(r, id)
  {
    var r' := Apply(r, Answer(id));
    if IsDone(r, id) {
      var i :| 0 <= i < |r.tasks| && r.tasks[i].id == id && r.tasks[i].status == Done;
      assert r'.tasks[i] == Effect(r.tasks[i], Answer(id));
    }
  }

  lemma {:induction false} GroundedKept(r: Record, now: int, w: Write)
    requires Sound(r) && Grounded(r) && Legal(r, now, w)
    requires w.Answer? ==> !IsDone(r, w.id)
    ensures Grounded(Apply(r, w)) && DoneKept(r, Apply(r, w))
  {
    var r' := Apply(r, w);
    if w.Answer? {
      AnswerKeepsDoneIff(r, w.id);
    } else {
      TickKeepsDone(r, now, w);
    }
    forall i | 0 <= i < |r'.tasks| && r'.tasks[i].attempts > 0
      ensures DepsDone(r', r'.tasks[i])
    {
      if i < |r.tasks| {
        GroundedTask(r, now, w, i);
      }
    }
  }

  lemma {:induction false} GroundedTask(r: Record, now: int, w: Write, i: nat)
    requires Sound(r) && Grounded(r) && Legal(r, now, w) && DoneKept(r, Apply(r, w))
    requires i < |r.tasks| && Apply(r, w).tasks[i].attempts > 0
    ensures DepsDone(Apply(r, w), Apply(r, w).tasks[i])
  {
    var r' := Apply(r, w);
    assert r'.tasks[i] == Effect(r.tasks[i], w);
    assert r'.tasks[i].dependencies == r.tasks[i].dependencies;
    if w.Start? && r.tasks[i].id == w.id {
      var k := ReadyIndex(r, now, w.id);
      assert k == i;
    }
    assert DepsDone(r, r.tasks[i]);
    forall d | d in r'.tasks[i].dependencies
      ensures IsDone(r', d)
    {
      DoneStays(r, r', d);
    }
  }

  /** The answers of a run find their task not done. */
  ghost predicate AnswersOpen(r: Record, log: seq<Entry>) {
    forall i :: 0 <= i < |log| && log[i].write.Answer? ==> !IsDone(Replay(r, log[..i]), log[i].write.id)
  }

  /**
    Over any run whose answers come before their task is done (in particular over ticks and
    crashes alone) done is final, and every task ever attempted has only done dependencies.
  */
  lemma {:induction false} DependencySafety(r: Record, log: seq<Entry>)
    requires Sound(r) && Grounded(r) && LegalRun(r, log) && AnswersOpen(r, log)
    ensures Grounded(Replay(r, log)) && DoneKept(r, Replay(r, log))
  {
    if log != [] {
      RunPrefix(r, log);
      var front, e := log[..|log| - 1], log[|log| - 1];
      assert AnswersOpen(r, front) by {
        forall i | 0 <= i < |front| && front[i].write.Answer?
          ensures !IsDone(Replay(r, front[..i]), front[i].write.id)
        {
          assert front[..i] == log[..i];
        }
      }
      DependencySafety(r, front);
      SoundRun(r, front);
      GroundedKept(Replay(r, front), e.now, e.write);
    }
  }

  // ----- at most one task runs

  predicate OneRunning(r: Record) {
    forall i, j :: 0 <= i < j < |r.tasks| ==> r.tasks[i].status != Running || r.tasks[j].status != Running
  }

  lemma {:induction false} OneRunningKept(r: Record, now: int, w: Write)
    requires Sound(r) && OneRunning(r) && Legal(r, now, w)
    ensures OneRunning(Apply(r, w))
  {
    hide WithinCaps, ReadyTasks, Exhausted, DueNow;
    var r' := Apply(r, w);
    forall i | 0 <= i < |r.tasks|
      ensures r'.tasks[i].status == Running ==> r.tasks[i].status == Running || (w.Start? && r.tasks[i].id == w.id)
    {
      assert r'.tasks[i] == Effect(r.tasks[i], w);
    }
  }

  lemma {:induction false} OneAtATime(r: Record, log: seq<Entry>)
    requires Sound(r) && OneRunning(r) && LegalRun(r, log)
    ensures OneRunning(Replay(r, log))
  {
    if log != [] {
      RunPrefix(r, log);
      var front, e := log[..|log| - 1], log[|log| - 1];
      OneAtATime(r, front);
      SoundRun(r, front);
      OneRunningKept(Replay(r, front), e.now, e.write);
    }
  }

  // ----- progress

  predicate Unfinished(t: Task) {
    t.status != Done
  }

  /** Nothing but dependencies can hold an unfinished task back. */
  predicate Unhindered(r: Record) {
    forall i :: 0 <= i < |r.tasks| && Unfinished(r.tasks[i]) ==>
      && r.tasks[i].status == Pending && r.tasks[i].attempts as real < Cap(r.tasks[i], r)
      && r.tasks[i].prerequisites == [] && r.tasks[i].deferredUntil == None
  }

  /** Dependencies name tasks of the graph, each of lower rank. */
  ghost predicate Acyclic(r: Record, rank: string -> nat) {
    forall i, d :: 0 <= i < |r.tasks| && d in r.tasks[i].dependencies ==>
      !Fresh(r, d) && rank(d) < rank(r.tasks[i].id)
  }

  /** In an acyclic graph that nothing else hinders there is always a task to run, until all are done. */
  lemma {:induction false} SomethingReady(r: Record, now: int, rank: string -> nat, i: nat)
    requires Unhindered(r) && Acyclic(r, rank) && i < |r.tasks| && Unfinished(r.tasks[i])
    ensures ReadyTasks(r, now) != []
    decreases rank(r.tasks[i].id)
  {
    var t := r.tasks[i];
    if DepsDone(r, t) {
      assert t in ReadyTasks(r, now);
    } else {
      var d :| d in t.dependencies && !IsDone(r, d);
      assert !Fresh(r, d);
      var j :| 0 <= j < |r.tasks| && r.tasks[j].id == d;
      SomethingReady(r, now, rank, j);
    }
  }
}
