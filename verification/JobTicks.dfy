/** Whole sequences of ticks in which every attempt succeeds: which jobs they finish, and how soon. */
module JobTicks {
  import opened Common
  import opened PlanGraph
  import opened JobSafety
  import opened JobProgress
  import opened Sprints
  import opened JobRunner
  import opened Materialize
  import JobSpec

  /** A tick with a model, a browser and budget, whose attempt, if it makes one, succeeds. */
  predicate Succeeds(k: Tick) {
    k.hosted && !k.overBudget && k.discovered == [] && (k.reconciled || k.verdict == Success)
  }

  predicate AllSucceed(ks: seq<Tick>) {
    forall i :: 0 <= i < |ks| ==> Succeeds(ks[i])
  }

  /** If any task is ready, the sprint and the cooling resources let one through. */
  predicate Admits(j: Job, k: Tick) {
    ReadyTasks(j.record, k.now) != [] ==> PickedBy(j.record, j.sprint, k).Some?
  }

  predicate AllAdmit(j: Job, ks: seq<Tick>)
    decreases |ks|
  {
    ks != [] ==> Admits(j, ks[0]) && AllAdmit(AfterTick(j, ks[0]), ks[1..])
  }

  // ----- one successful tick

  lemma {:induction false} SweepsNothing(s: Sweeping, r: Record, now: int)
    requires Unhindered(r)
    ensures Swept(s, r, now) == r
  {
    assert Swept(s, r, now).tasks == r.tasks;
  }

  lemma {:induction false} OpensUnchanged(r: Record, k: Tick)
    requires Unhindered(r)
    ensures Opened(r, k) == r
  {
    hide Unhindered, Swept;
    SweepsNothing(Recovering(k.passes), r, k.now);
    SweepsNothing(Waking, r, k.now);
    SweepsNothing(Exhausting, r, k.now);
  }

  lemma {:induction false} EndedIsCompleted(r: Record, picked: Task, k: Tick)
    requires Succeeds(k)
    ensures Ended(r, picked, k) == Completed(r, picked.id) && !Fails(Ended(r, picked, k), picked, k)
  {
    var s := Apply(r, Start(picked.id));
    assert s.tasks + [] == s.tasks;
  }

  lemma {:induction false} WhenSettled(r: Record)
    requires Unhindered(r)
    ensures TerminalStatus(r) != SomeFailed
    ensures TerminalStatus(r) == AllDone <==> r.tasks != [] && AllFinished(r)
    ensures AllFinished(r) <==> forall i :: 0 <= i < |r.tasks| ==> !Unfinished(r.tasks[i])
  {}

  /** The picked task is a ready one of the graph. */
  lemma {:induction false} PickedPlace(r: Record, sprint: Option<Sprint>, k: Tick) returns (i: nat)
    requires Unhindered(r) && PickedBy(r, sprint, k).Some?
    ensures i < |r.tasks| && r.tasks[i] == PickedBy(r, sprint, k).value
    ensures r.tasks[i] in ReadyTasks(r, k.now) && Unfinished(r.tasks[i])
  {
    hide Current, PickIds, Candidate;
    var t := PickedBy(r, sprint, k).value;
    assert t in ReadyTasks(r, k.now);
    i :| 0 <= i < |r.tasks| && r.tasks[i] == t;
  }

  /** What a successful tick of an active job does: it ends the job if all is done, or else completes what it picks. */
  lemma {:induction false} TickCompletes(j: Job, k: Tick)
    requires j.status == JobActive && Unhindered(j.record) && Succeeds(k)
    ensures var j', picked := AfterTick(j, k), PickedBy(j.record, j.sprint, k);
            if j.record.tasks != [] && AllFinished(j.record) then j' == j.(status := JobCompleted)
            else
              && j'.status == JobActive
              && j'.record == if picked.None? then j.record else Completed(j.record, picked.value.id)
    ensures AllFinished(j.record) ==> ReadyTasks(j.record, k.now) == []
  {
    OpensUnchanged(j.record, k);
    WhenSettled(j.record);
    NoneReady(j.record, k.now);
    hide Opened, PickedBy, Ended, Completed, TerminalStatus, Eligible, Unhindered, Current, Behind, Fails, AllFinished,
         ReadyTasks, Refreshed;
    var picked := PickedBy(j.record, j.sprint, k);
    if picked.Some? {
      EndedIsCompleted(j.record, picked.value, k);
    }
  }

  lemma {:induction false} NoneReady(r: Record, now: int)
    ensures AllFinished(r) ==> ReadyTasks(r, now) == []
  {
    if ReadyTasks(r, now) != [] {
      var t := ReadyTasks(r, now)[0];
      assert t in r.tasks && t.status != Done;
    }
  }

  // ----- sequences of them

  /** A job that is under way, or ended with everything done. */
  predicate UnderWay(j: Job) {
    && UniqueIds(j.record) && Unhindered(j.record)
    && (j.status == JobActive || (j.status == JobCompleted && j.record.tasks != [] && AllFinished(j.record)))
  }

  lemma {:induction false} UnderWayKept(j: Job, k: Tick)
    requires UnderWay(j) && Succeeds(k)
    ensures UnderWay(AfterTick(j, k)) && |AfterTick(j, k).record.tasks| == |j.record.tasks|
  {
    hide UniqueIds, Unhindered, AllFinished, Completed, PickedBy, Eligible, ReadyTasks;
    if j.status == JobActive {
      hide AfterTick;
      TickCompletes(j, k);
      if PickedBy(j.record, j.sprint, k).Some? {
        var i := PickedPlace(j.record, j.sprint, k);
        CompletedOne(j.record, i);
        CompletedTask(j.record, j.record.tasks[i].id, i);
      }
    }
  }

  /** A tick that is let through completes one task of a layered job, until all are done. */
  lemma {:induction false} TickProgress(j: Job, k: Tick, rank: string -> nat)
    requires UnderWay(j) && Succeeds(k) && Admits(j, k) && Acyclic(j.record, rank)
    ensures var j' := AfterTick(j, k);
            && Acyclic(j'.record, rank)
            && Left(j'.record.tasks) == (if Left(j.record.tasks) > 0 then Left(j.record.tasks) - 1 else 0)
            && (Left(j.record.tasks) == 0 && j.record.tasks != [] ==> j'.status == JobCompleted)
  {
    NoneLeft(j.record.tasks);
    AllFinishedIff(j.record);
    hide UniqueIds, Unhindered, AllFinished, PickedBy, ReadyTasks, Acyclic, Left;
    if j.status == JobActive {
      hide AfterTick;
      if AllFinished(j.record) {
        TickAtEnd(j, k);
      } else {
        TickOnward(j, k, rank);
      }
    }
  }

  lemma {:induction false} TickAtEnd(j: Job, k: Tick)
    requires j.status == JobActive && Unhindered(j.record) && Succeeds(k) && AllFinished(j.record)
    ensures AfterTick(j, k).record == j.record
    ensures j.record.tasks != [] ==> AfterTick(j, k).status == JobCompleted
  {
    hide Unhindered, AllFinished, PickedBy, ReadyTasks, AfterTick;
    TickCompletes(j, k);
    if PickedBy(j.record, j.sprint, k).Some? {
      var p := PickedPlace(j.record, j.sprint, k);
      assert false;
    }
  }

  lemma {:induction false} TickOnward(j: Job, k: Tick, rank: string -> nat)
    requires j.status == JobActive && UniqueIds(j.record) && Unhindered(j.record) && Succeeds(k) && Admits(j, k)
    requires Acyclic(j.record, rank) && !AllFinished(j.record)
    ensures Acyclic(AfterTick(j, k).record, rank)
    ensures Left(AfterTick(j, k).record.tasks) == Left(j.record.tasks) - 1
  {
    AllFinishedIff(j.record);
    hide UniqueIds, Unhindered, AllFinished, PickedBy, ReadyTasks, AfterTick, Acyclic, Left, Completed;
    TickCompletes(j, k);
    var i :| 0 <= i < |j.record.tasks| && Unfinished(j.record.tasks[i]);
    SomethingReady(j.record, k.now, rank, i);
    var p := PickedPlace(j.record, j.sprint, k);
    CompletedKeeps(j.record, p, rank);
  }

  lemma {:induction false} AllFinishedIff(r: Record)
    ensures AllFinished(r) <==> forall i :: 0 <= i < |r.tasks| ==> !Unfinished(r.tasks[i])
  {}

  /**
    Ticks that are let through finish a layered job once they are as many as its unfinished tasks,
    and one more ends it.
  */
  lemma {:induction false} TicksFinish(j: Job, ks: seq<Tick>, rank: string -> nat)
    requires UnderWay(j) && Acyclic(j.record, rank) && AllSucceed(ks) && AllAdmit(j, ks)
    ensures |ks| >= Left(j.record.tasks) ==> AllFinished(AfterTicks(j, ks).record)
    ensures |ks| > Left(j.record.tasks) && j.record.tasks != [] ==> AfterTicks(j, ks).status == JobCompleted
    decreases |ks|
  {
    NoneLeft(j.record.tasks);
    hide UnderWay, Acyclic, AfterTick, Admits, Left;
    if ks == [] {
      AllFinishedIff(j.record);
    } else {
      var k := ks[0];
      assert Succeeds(k) && AllSucceed(ks[1..]);
      TickProgress(j, k, rank);
      UnderWayKept(j, k);
      TicksFinish(AfterTick(j, k), ks[1..], rank);
      if j.record.tasks != [] && Left(j.record.tasks) == 0 {
        CompletedStays(AfterTick(j, k), ks[1..]);
      }
    }
  }

  lemma {:induction false} CompletedStays(j: Job, ks: seq<Tick>)
    requires j.status == JobCompleted
    ensures AfterTicks(j, ks) == j
    decreases |ks|
  {
    if ks != [] {
      CompletedStays(j, ks[1..]);
    }
  }

  lemma {:induction false} UnderWayThroughout(j: Job, ks: seq<Tick>)
    requires UnderWay(j) && AllSucceed(ks)
    ensures UnderWay(AfterTicks(j, ks))
    decreases |ks|
  {
    hide UnderWay, AfterTick;
    if ks != [] {
      assert Succeeds(ks[0]) && AllSucceed(ks[1..]);
      UnderWayKept(j, ks[0]);
      UnderWayThroughout(AfterTick(j, ks[0]), ks[1..]);
    }
  }

  /** The ticks as a legal run. */
  lemma {:induction false} TicksLegal(j: Job, ks: seq<Tick>) returns (log: seq<Entry>)
    requires UnderWay(j) && AllSucceed(ks)
    ensures LegalRun(j.record, log) && Wired(log) && Replay(j.record, log) == AfterTicks(j, ks).record
    decreases |ks|
  {
    hide UnderWay, AfterTick, LegalRun, Replay, Legal;
    log := [];
    if ks == [] {
      NothingWritten(j.record);
    } else {
      assert Succeeds(ks[0]) && AllSucceed(ks[1..]);
      var step := TickLegal(j, ks[0]);
      UnderWayKept(j, ks[0]);
      var rest := TicksLegal(AfterTick(j, ks[0]), ks[1..]);
      LegalJoin(j.record, step, rest);
      log := step + rest;
    }
  }

  lemma {:induction false} TickLegal(j: Job, k: Tick) returns (log: seq<Entry>)
    requires UnderWay(j) && Succeeds(k)
    ensures LegalRun(j.record, log) && Wired(log) && Replay(j.record, log) == AfterTick(j, k).record
  {
    hide UniqueIds, Unhindered, AllFinished, Completed, PickedBy, Eligible, ReadyTasks, LegalRun, Replay, Legal;
    log := [];
    NothingWritten(j.record);
    if j.status == JobActive {
      hide AfterTick;
      TickCompletes(j, k);
      if PickedBy(j.record, j.sprint, k).Some? {
        var i := PickedPlace(j.record, j.sprint, k);
        if AllFinished(j.record) {
          assert false;
        }
        CompletedLegal(j.record, k.now, i);
        TwoWrites(j.record, k.now, j.record.tasks[i].id);
        log := [Entry(k.now, Start(j.record.tasks[i].id)), Entry(k.now, Finish(j.record.tasks[i].id))];
      }
    }
  }

  lemma {:induction false} NothingWritten(r: Record)
    ensures LegalRun(r, []) && Replay(r, []) == r
  {}

  lemma {:induction false} LeftWithin(ts: seq<Task>)
    ensures Left(ts) <= |ts|
  {
    if ts != [] {
      LeftWithin(ts[..|ts| - 1]);
    }
  }

  /** A new job, whatever sprint it points to. */
  predicate New(j: Job) {
    j.status == JobActive && UniqueIds(j.record) && Untouched(j.record) && Closed(j.record)
  }

  /**
    Successful ticks that are let through, as many as there are tasks, finish a new job exactly when
    its dependencies are not circular; and one more ends it.
  */
  lemma {:induction false} TicksFinishIff(j: Job, ks: seq<Tick>)
    requires New(j) && AllSucceed(ks) && AllAdmit(j, ks) && |ks| >= |j.record.tasks|
    ensures AllFinished(AfterTicks(j, ks).record) <==> exists rank: string -> nat :: Acyclic(j.record, rank)
    ensures |ks| > |j.record.tasks| > 0 ==>
              (AfterTicks(j, ks).status == JobCompleted <==> exists rank: string -> nat :: Acyclic(j.record, rank))
  {
    assert UnderWay(j);
    UnderWayThroughout(j, ks);
    hide UniqueIds, Unhindered, Closed, AllFinished, Acyclic, AfterTicks, LegalRun, Replay, Wired, Left, AllSucceed,
         AllAdmit;
    if AllFinished(AfterTicks(j, ks).record) {
      var log := TicksLegal(j, ks);
      assert CanFinish(j.record);
      CanFinishIff(j.record);
    }
    if rank: string -> nat :| Acyclic(j.record, rank) {
      LeftWithin(j.record.tasks);
      TicksFinish(j, ks, rank);
    }
  }

  /** The job a spec's templates make in an empty graph. */
  function Made(ts: seq<JobSpec.Template>, ids: seq<string>, facts: set<string>, defaultCap: real, now: int,
                sprint: Option<Sprint>): Job
    requires |ids| >= |Seeds(ts)|
  {
    Job(Planted(Record([], facts, defaultCap), Seeds(ts), ids, |Seeds(ts)|, now), sprint, JobActive)
  }

  /** The same of a materialized job and the templates it was made from. */
  lemma {:induction false} JobTicksFinishIff(
      ts: seq<JobSpec.Template>, ids: seq<string>, facts: set<string>, defaultCap: real, now: int,
                          sprint: Option<Sprint>, ks: seq<Tick>)
    requires JobSpec.DistinctIds(ts) && JobSpec.Materializable(ts) && |ids| >= |Seeds(ts)|
    requires FreshIds(Record([], facts, defaultCap), ids)
    requires forall i :: 0 <= i < |ts| ==> ts[i].maxAttempts.GetOr(defaultCap) > 0.0
    requires AllSucceed(ks) && AllAdmit(Made(ts, ids, facts, defaultCap, now, sprint), ks) && |ks| > |Seeds(ts)| > 0
    ensures AfterTicks(Made(ts, ids, facts, defaultCap, now, sprint), ks).status == JobCompleted
            <==> exists rank: string -> nat :: Layered(ts, rank)
  {
    PlantedSize(Seeds(ts), ids, facts, defaultCap, now);
    hide Planted, Seeds, UniqueIds, Untouched, Closed, JobSpec.Materializable, JobSpec.DistinctIds, AllFinished,
         AfterTicks, AllSucceed, AllAdmit, Succeeds, CanFinish;
    FreshlyPlanted(ts, ids, facts, defaultCap, now);
    JobFinishesIff(ts, ids, facts, defaultCap, now);
    var j := Made(ts, ids, facts, defaultCap, now, sprint);
    CanFinishIff(j.record);
    TicksFinishIff(j, ks);
  }
}
