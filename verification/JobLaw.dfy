/**
  What ticks make of each task, in its own fields (src/jobs/runner.ts, src/core/plan.ts): which tasks are
  ready, what opening a tick does to every task, and how a task becomes done.
*/
module JobLaw {
  import opened Common
  import opened PlanGraph
  import opened Sprints
  import opened JobRunner

  /** Its attempts are used up. */
  predicate UsedUp(t: Task, r: Record) {
    t.attempts as real >= if t.maxAttempts.None? then r.defaultCap else t.maxAttempts.value
  }

  /** The moment it was put off to has come. */
  predicate HasCome(t: Task, now: int) {
    t.deferredUntil.Some? && t.deferredUntil.value <= now
  }

  /** Ready is what is pending, or parked until now at the latest; attempts left, dependencies done, facts known. */
  lemma {:induction false} ReadyExactly(r: Record, t: Task, now: int)
    ensures t in ReadyTasks(r, now) <==>
              && t in r.tasks
              && (t.status == Pending || t.status == Parked)
              && (t.status == Parked || t.deferredUntil.Some? ==> HasCome(t, now))
              && !UsedUp(t, r)
              && (forall d :: d in t.dependencies ==> exists u :: u in r.tasks && u.id == d && u.status == Done)
              && (forall p :: p in t.prerequisites ==> p in r.facts)
  {
    forall d | d in t.dependencies
      ensures IsDone(r, d) <==> exists u :: u in r.tasks && u.id == d && u.status == Done
    {
      DoneIff(r, d);
    }
    hide IsDone;
  }

  lemma {:induction false} DoneIff(r: Record, d: string)
    ensures IsDone(r, d) <==> exists u :: u in r.tasks && u.id == d && u.status == Done
  {
    if u :| u in r.tasks && u.id == d && u.status == Done {
      var i :| 0 <= i < |r.tasks| && r.tasks[i] == u;
    }
    if i :| 0 <= i < |r.tasks| && r.tasks[i].id == d && r.tasks[i].status == Done {
      assert r.tasks[i] in r.tasks;
    }
  }

  /** What opening a tick makes of a task. */
  function OpenedTask(t: Task, r: Record, k: Tick): Task {
    if t.status == Running then
      t.(status := if k.passes(t.id) then Done else if UsedUp(t, r) then Failed else Pending)
    else if t.status == Parked && HasCome(t, k.now) then
      t.(status := if UsedUp(t, r) then Failed else Pending, deferredUntil := None)
    else if (t.status == Pending || t.status == Parked) && UsedUp(t, r) then t.(status := Failed)
    else t
  }

  /**
    A task found running is done exactly if the page shows it done; else it is failed if its attempts are
    used up, and queued if not. So is a parked one whose moment has come, and what waits without attempts
    fails. Every other task stays as it was.
  */
  lemma {:induction false} OpensEachTask(r: Record, k: Tick, i: nat)
    requires i < |r.tasks|
    ensures |Opened(r, k).tasks| == |r.tasks|
    ensures Opened(r, k).tasks[i] == OpenedTask(r.tasks[i], r, k)
    ensures Opened(r, k).facts == r.facts && Opened(r, k).defaultCap == r.defaultCap
  {
    var a := Swept(Recovering(k.passes), r, k.now);
    var b := Swept(Waking, a, k.now);
    assert a.tasks[i] == SweptTask(Recovering(k.passes), r, r.tasks[i], k.now);
    assert b.tasks[i] == SweptTask(Waking, a, a.tasks[i], k.now);
    assert Opened(r, k).tasks[i] == SweptTask(Exhausting, b, b.tasks[i], k.now);
  }

  /** What an attempt that is not reconciled makes of the picked task. */
  function JudgedStatus(t: Task, r: Record, k: Tick): Status {
    if k.verdict == Success then Done
    else if k.verdict == NeedsUser || k.parked then Parked
    else if k.verdict == Replan then (if t.approach.Some? && |t.approach.value| > 0 then Abandoned else Running)
    else if k.verdict == Fatal || UsedUp(t.(attempts := t.attempts + 1), r) then Failed
    else Pending
  }

  /** An attempt at a task makes one attempt more and leaves the status the verdict calls for. */
  lemma {:induction false} JudgesPicked(o: Record, picked: Task, k: Tick, i: nat)
    requires i < |o.tasks| && o.tasks[i] == picked
    ensures var e := Ended(o, picked, k);
            && |o.tasks| <= |e.tasks|
            && e.tasks[i].id == picked.id && e.tasks[i].attempts == picked.attempts + 1
            && e.tasks[i].status == (if k.reconciled then Done else JudgedStatus(picked, o, k))
            && (!k.reconciled && JudgedStatus(picked, o, k) == Parked ==> e.tasks[i].deferredUntil == Some(k.until))
  {
    var s := Apply(o, Start(picked.id));
    assert s.tasks[i] == Effect(picked, Start(picked.id));
    if k.reconciled {
      assert Apply(s, Finish(picked.id)).tasks[i] == Effect(s.tasks[i], Finish(picked.id));
    } else {
      var d := s.(tasks := s.tasks + k.discovered);
      assert d.tasks[i] == s.tasks[i];
      assert Apply(d, VerdictWrite(d, picked, k)).tasks[i] == Effect(d.tasks[i], VerdictWrite(d, picked, k));
    }
  }

  /** What is done after an attempt was done before it, unless it is the picked task and the attempt did it. */
  lemma {:induction false} AttemptDone(o: Record, picked: Task, k: Tick, i: nat)
    requires picked in o.tasks && i < |o.tasks| && o.tasks[i].status != Done
    ensures var e := Ended(o, picked, k);
            i < |e.tasks| && (e.tasks[i].status == Done ==>
              o.tasks[i].id == picked.id && (k.reconciled || k.verdict == Success))
  {
    if o.tasks[i].id != picked.id {
      OthersKept(o, picked, k, i);
    } else {
      var s := Apply(o, Start(picked.id));
      assert s.tasks[i] == Effect(o.tasks[i], Start(picked.id));
      var d := s.(tasks := s.tasks + k.discovered);
      if !k.reconciled {
        assert d.tasks[i] == s.tasks[i];
        assert Apply(d, VerdictWrite(d, picked, k)).tasks[i] == Effect(d.tasks[i], VerdictWrite(d, picked, k));
      } else {
        assert Apply(s, Finish(picked.id)).tasks[i] == Effect(s.tasks[i], Finish(picked.id));
      }
    }
  }

  /** The job is active and its tick gets as far as an attempt at this task. */
  predicate Attempts(j: Job, k: Tick, t: Task) {
    && j.status == JobActive && !k.overBudget && k.hosted && TerminalStatus(Opened(j.record, k)) == Open
    && PickedBy(Opened(j.record, k), j.sprint, k) == Some(t)
  }

  lemma {:induction false} PickedIn(o: Record, sprint: Option<Sprint>, k: Tick)
    requires PickedBy(o, sprint, k).Some?
    ensures PickedBy(o, sprint, k).value in ReadyTasks(o, k.now) && PickedBy(o, sprint, k).value in o.tasks
  {
    hide Candidate, Current, Eligible;
  }

  lemma {:induction false} AttemptedGraph(j: Job, k: Tick, t: Task)
    requires Attempts(j, k, t)
    ensures t in ReadyTasks(Opened(j.record, k), k.now) && t in Opened(j.record, k).tasks
    ensures AfterTick(j, k).record == Ended(Opened(j.record, k), t, k)
  {
    hide Opened, PickedBy, Current, Behind, Ended, TerminalStatus, ReadyTasks, Fails, Refreshed;
    PickedIn(Opened(j.record, k), j.sprint, k);
  }

  /** Without an attempt a tick leaves the graph as it opened it, and that of a job that is not active as it was. */
  lemma {:induction false} UnattemptedGraph(j: Job, k: Tick)
    requires forall t :: !Attempts(j, k, t)
    ensures AfterTick(j, k).record == if j.status == JobActive then Opened(j.record, k) else j.record
  {
    hide Opened, PickedBy, Current, Behind, Ended, TerminalStatus, Fails, Refreshed;
    var o := Opened(j.record, k);
    if PickedBy(o, j.sprint, k).Some? {
      assert !Attempts(j, k, PickedBy(o, j.sprint, k).value);
    }
  }

  /**
    A tick makes a task done only if it was running and the page shows it done, or if it is the one the
    tick attempts and the attempt finds it done or succeeds.
  */
  lemma {:induction false} DoneOnlyBy(j: Job, k: Tick, i: nat)
    requires i < |j.record.tasks| && j.record.tasks[i].status != Done
    ensures var t, r' := j.record.tasks[i], AfterTick(j, k).record;
            i < |r'.tasks| && (r'.tasks[i].status == Done ==>
              || (t.status == Running && k.passes(t.id))
              || (exists p :: Attempts(j, k, p) && p.id == t.id && (k.reconciled || k.verdict == Success)))
  {
    hide Opened, AfterTick, Attempts, Ended, ReadyTasks;
    var o := Opened(j.record, k);
    OpensEachTask(j.record, k, i);
    if p :| Attempts(j, k, p) {
      AttemptedGraph(j, k, p);
      AttemptKeeps(o, p, k, i);
      if o.tasks[i].status != Done {
        AttemptDone(o, p, k, i);
      }
    } else {
      UnattemptedGraph(j, k);
    }
  }

  lemma {:induction false} AttemptKeeps(o: Record, picked: Task, k: Tick, i: nat)
    requires i < |o.tasks|
    ensures i < |Ended(o, picked, k).tasks|
  {}

  /** A graph is at its end when it has tasks and none is pending, running, blocked or parked: well if none failed. */
  lemma {:induction false} EndsExactly(r: Record)
    ensures TerminalStatus(r) == AllDone <==>
            r.tasks != [] && forall t :: t in r.tasks ==> t.status == Done || t.status == Abandoned
    ensures TerminalStatus(r) == SomeFailed <==>
            && (forall t :: t in r.tasks ==> t.status == Done || t.status == Abandoned || t.status == Failed)
            && exists t :: t in r.tasks && t.status == Failed
  {
    if t :| t in r.tasks && t.status == Failed {
      var i :| 0 <= i < |r.tasks| && r.tasks[i] == t;
    }
    forall i | 0 <= i < |r.tasks|
      ensures r.tasks[i] in r.tasks
    {}
  }

  /** The status a tick gives an active job. */
  lemma {:induction false} StatusAfter(j: Job, k: Tick)
    requires j.status == JobActive
    ensures var o, j' := Opened(j.record, k), AfterTick(j, k);
            && (j'.status == JobCompleted <==> !k.overBudget && TerminalStatus(o) == AllDone)
            && (j'.status == JobFailed <==>
                  || k.overBudget || TerminalStatus(o) == SomeFailed
                  || (exists t :: Attempts(j, k, t) && !k.reconciled && JudgedStatus(t, o, k) == Failed
                                  && TerminalStatus(j'.record) == SomeFailed))
            && j'.status in {JobActive, JobCompleted, JobFailed}
  {
    var o := Opened(j.record, k);
    hide Opened, PickedBy, Current, Behind, TerminalStatus, Ended, Refreshed, JudgedStatus;
    if t :| Attempts(j, k, t) {
      assert forall u :: Attempts(j, k, u) ==> u == t;
      JudgedFails(o, t, k);
    } else if PickedBy(o, j.sprint, k).Some? {
      assert !Attempts(j, k, PickedBy(o, j.sprint, k).value);
    }
  }

  lemma {:induction false} JudgedFails(o: Record, picked: Task, k: Tick)
    ensures Fails(Ended(o, picked, k), picked, k) <==> !k.reconciled && JudgedStatus(picked, o, k) == Failed
  {
    var s := Apply(o, Start(picked.id));
    var d := s.(tasks := s.tasks + k.discovered);
    assert Ended(o, picked, k).defaultCap == o.defaultCap;
  }
}
