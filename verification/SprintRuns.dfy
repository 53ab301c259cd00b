/**
  What sprints let through, tick by tick and over whole sequences of ticks (src/jobs/sprint.ts,
  `ensureSprint` and `pickSprintTask` of src/jobs/runner.ts).
*/
module SprintRuns {
  import opened Common
  import opened PlanGraph
  import opened JobSafety
  import opened JobProgress
  import opened Sprints
  import opened JobRunner
  import opened Materialize
  import opened JobTicks
  import JobSpec

  // ----- when a tick picks

  /** An open sprint that does not roll over confines the choice to its members. */
  predicate Confines(o: Record, sprint: Option<Sprint>) {
    && sprint.Some? && sprint.value.status == SprintOpen && sprint.value.taskIds != []
    && !(Peopled(o, sprint.value) && MembersSettled(o, sprint.value))
  }

  /** An open sprint that names no task confines nothing; none such is ever made. */
  predicate OpenToAll(sprint: Option<Sprint>) {
    sprint.Some? && sprint.value.status == SprintOpen && sprint.value.taskIds == []
  }

  lemma {:induction false} SameMembers(o: Record, s: Sprint)
    ensures Refreshed(o, s).taskIds == s.taskIds && Refreshed(o, s).status == s.status
  {}

  /** The ids a tick chooses among: the members of a confining sprint, or those a new sprint takes. */
  lemma {:induction false} ChoiceIs(o: Record, sprint: Option<Sprint>, now: int, limit: SprintLimit)
    ensures var ids, ready := PickIds(Current(o, sprint, now, limit)), ReadyTasks(o, now);
            && (Confines(o, sprint) ==> ids == sprint.value.taskIds)
            && (OpenToAll(sprint) ==> ids == [])
            && (!Confines(o, sprint) && !OpenToAll(sprint) && ready != [] ==> ids == IdsOf(Upcoming(ready, limit)))
            && (Confines(o, sprint) || OpenToAll(sprint) ==>
                  Current(o, sprint, now, limit) == Refreshed(o, sprint.value))
            && (!Confines(o, sprint) && !OpenToAll(sprint) && ready == [] ==>
                  Current(o, sprint, now, limit).status == Holding)
  {
    var ready := ReadyTasks(o, now);
    var e := Ensured(sprint, ready, limit, false);
    RolloverIff(o, e);
    SameMembers(o, e);
    UpcomingNone(limit);
    hide ReadyTasks, Refreshed, Upcoming, NeedsRollover, MembersSettled;
    if ready != [] {
      UpcomingSome(ready, limit);
    }
  }

  lemma {:induction false} UpcomingNone(limit: SprintLimit)
    ensures Upcoming([], limit) == []
  {}

  lemma {:induction false} UpcomingSome(ready: seq<Task>, limit: SprintLimit)
    requires ready != []
    ensures Upcoming(ready, limit) != [] && Upcoming(ready, limit) <= ready && Upcoming(ready, limit)[0] == ready[0]
  {}

  lemma {:induction false} UpcomingIn(ready: seq<Task>, limit: SprintLimit)
    ensures forall t :: t in Upcoming(ready, limit) ==> t in ready
  {}

  lemma {:induction false} SameId(r: Record, t: Task, u: Task)
    requires UniqueIds(r) && t in r.tasks && u in r.tasks && t.id == u.id
    ensures t == u
  {
    var i :| 0 <= i < |r.tasks| && r.tasks[i] == t;
    var j :| 0 <= j < |r.tasks| && r.tasks[j] == u;
    assert i == j;
  }

  lemma {:induction false} IdIn(ts: seq<Task>, id: string)
    ensures id in IdsOf(ts) <==> exists t :: t in ts && t.id == id
  {
    var ids := IdsOf(ts);
    if t :| t in ts && t.id == id {
      var i :| 0 <= i < |ts| && ts[i] == t;
      assert ids[i] == id;
    }
    if id in ids {
      var i :| 0 <= i < |ids| && ids[i] == id;
      assert ts[i] in ts;
    }
  }

  lemma {:induction false} InFirst(o: Record, now: int, limit: SprintLimit, t: Task)
    requires UniqueIds(o) && t in ReadyTasks(o, now)
    ensures t.id in IdsOf(Upcoming(ReadyTasks(o, now), limit)) <==> t in Upcoming(ReadyTasks(o, now), limit)
  {
    hide Eligible, ReadyTasks, Upcoming, IdsOf, UniqueIds;
    var ready := ReadyTasks(o, now);
    UpcomingIn(ready, limit);
    IdIn(Upcoming(ready, limit), t.id);
    if u :| u in Upcoming(ready, limit) && u.id == t.id {
      assert u in ready && u in o.tasks;
      SameId(o, t, u);
    }
  }

  /** Exactly when a tick picks: of the sprint's members, or else of the first ready tasks, one is ready and free. */
  lemma {:induction false} PicksIff(o: Record, sprint: Option<Sprint>, k: Tick)
    requires UniqueIds(o)
    ensures PickedBy(o, sprint, k).Some? <==>
            if Confines(o, sprint) then
              exists t :: t in ReadyTasks(o, k.now) && t.id in sprint.value.taskIds && Free(t, k)
            else if OpenToAll(sprint) then exists t :: t in ReadyTasks(o, k.now) && Free(t, k)
            else exists t :: t in Upcoming(ReadyTasks(o, k.now), k.limit) && Free(t, k)
  {
    ChoiceIs(o, sprint, k.now, k.limit);
    var ids, ready := PickIds(Current(o, sprint, k.now, k.limit)), ReadyTasks(o, k.now);
    PickIff(ready, ids, k);
    if ready != [] {
      UpcomingSome(ready, k.limit);
    }
    forall t | t in ready
      ensures t.id in IdsOf(Upcoming(ready, k.limit)) <==> t in Upcoming(ready, k.limit)
    {
      InFirst(o, k.now, k.limit, t);
    }
    hide ReadyTasks, Current, PickIds, Pick, Free, Confines, OpenToAll, UniqueIds;
    assert forall t :: t in Upcoming(ready, k.limit) ==> t in ready;
  }

  lemma {:induction false} PickIff(ready: seq<Task>, ids: seq<string>, k: Tick)
    ensures Pick(ready, ids, k).Some? <==> exists t :: t in ready && (ids == [] || t.id in ids) && Free(t, k)
  {
    hide Free;
    if t :| t in ready && (ids == [] || t.id in ids) && Free(t, k) {
      assert Candidate(t, ids, k);
    }
  }

  /** No resource of a ready task is cooling down. */
  predicate NothingCools(o: Record, k: Tick) {
    forall t :: t in ReadyTasks(o, k.now) ==> Free(t, k)
  }

  /**
    With nothing cooling down, ready work is passed over exactly when the sprint confines the choice
    and none of the ready tasks is a member.
  */
  lemma {:induction false} PassedOverIff(o: Record, sprint: Option<Sprint>, k: Tick)
    requires UniqueIds(o) && NothingCools(o, k) && ReadyTasks(o, k.now) != []
    ensures PickedBy(o, sprint, k).None?
            <==> Confines(o, sprint) && forall t :: t in ReadyTasks(o, k.now) ==> t.id !in sprint.value.taskIds
  {
    PicksIff(o, sprint, k);
    UpcomingSome(ReadyTasks(o, k.now), k.limit);
    hide ReadyTasks, PickedBy, Free, Upcoming, Confines, UniqueIds;
    var t := ReadyTasks(o, k.now)[0];
    assert t in ReadyTasks(o, k.now) && t in Upcoming(ReadyTasks(o, k.now), k.limit);
  }

  // ----- a sprint that never ends

  /** An open sprint with a failed member, all of whose members have come to an end. */
  predicate Stuck(j: Job) {
    && j.status == JobActive && j.sprint.Some? && j.sprint.value.status == SprintOpen
    && (exists t :: t in j.record.tasks && t.id in j.sprint.value.taskIds && t.status == Failed)
    && AllOver(j.record, j.sprint.value.taskIds)
  }

  /** These tasks are done, failed or given up. */
  predicate AllOver(r: Record, ids: seq<string>) {
    forall t :: t in r.tasks && t.id in ids ==> t.status in {Done, Abandoned, Failed}
  }

  /** The same tasks, as often attempted. */
  predicate NothingTried(r: Record, r': Record) {
    && |r'.tasks| == |r.tasks|
    && forall i :: 0 <= i < |r.tasks| ==>
         r'.tasks[i].id == r.tasks[i].id && r'.tasks[i].attempts == r.tasks[i].attempts
  }

  lemma {:induction false} OpensEnded(r: Record, k: Tick, i: nat)
    requires i < |r.tasks|
    ensures |Opened(r, k).tasks| == |r.tasks|
    ensures var t, t' := r.tasks[i], Opened(r, k).tasks[i];
            && t'.id == t.id && t'.attempts == t.attempts
            && (t.status in {Done, Abandoned, Failed} ==> t' == t)
            && (t.status == Pending && t.attempts as real < Cap(t, r) ==> t' == t && Cap(t', Opened(r, k)) == Cap(t, r))
  {
    var a := Swept(Recovering(k.passes), r, k.now);
    var b := Swept(Waking, a, k.now);
    assert a.tasks[i] == SweptTask(Recovering(k.passes), r, r.tasks[i], k.now);
    assert b.tasks[i] == SweptTask(Waking, a, a.tasks[i], k.now);
    assert Opened(r, k).tasks[i] == SweptTask(Exhausting, b, b.tasks[i], k.now);
  }

  lemma {:induction false} OpensStuck(j: Job, k: Tick)
    requires Stuck(j)
    ensures NothingTried(j.record, Opened(j.record, k)) && Stuck(j.(record := Opened(j.record, k)))
  {
    hide Opened;
    var r, o, ids := j.record, Opened(j.record, k), j.sprint.value.taskIds;
    forall i | 0 <= i < |r.tasks|
      ensures |o.tasks| == |r.tasks| && o.tasks[i].id == r.tasks[i].id && o.tasks[i].attempts == r.tasks[i].attempts
      ensures r.tasks[i].status in {Done, Abandoned, Failed} ==> o.tasks[i] == r.tasks[i]
    {
      OpensEnded(r, k, i);
    }
    var t :| t in r.tasks && t.id in ids && t.status == Failed;
    var i :| 0 <= i < |r.tasks| && r.tasks[i] == t;
    assert o.tasks[i] == t && o.tasks[i] in o.tasks;
    OpenedSettled(r, k);
    forall u | u in o.tasks && u.id in ids
      ensures u.status in {Done, Abandoned, Failed}
    {
      var m :| 0 <= m < |o.tasks| && o.tasks[m] == u;
      assert r.tasks[m] in r.tasks;
    }
  }

  lemma {:induction false} StuckConfines(j: Job)
    requires Stuck(j)
    ensures Confines(j.record, j.sprint) && !NeedsRollover(Refreshed(j.record, j.sprint.value))
  {
    var s := j.sprint.value;
    RolloverIff(j.record, s);
    var t :| t in j.record.tasks && t.id in s.taskIds && t.status == Failed;
    assert !SettledMember(t) && !MembersSettled(j.record, s);
    hide Refreshed, NeedsRollover;
  }

  lemma {:induction false} StuckMembers(j: Job, now: int)
    requires Stuck(j)
    ensures forall t :: t in ReadyTasks(j.record, now) ==> t.id !in j.sprint.value.taskIds
  {
    forall t | t in ReadyTasks(j.record, now)
      ensures t.id !in j.sprint.value.taskIds
    {
      assert t in j.record.tasks && t.status in {Pending, Parked};
    }
  }

  lemma {:induction false} StuckBehind(j: Job, now: int)
    requires Stuck(j)
    ensures Behind(j.record, j.sprint, now) == Some(Refreshed(j.record, j.sprint.value))
  {
    StuckConfines(j);
    hide Refreshed, NeedsRollover, Confines, ReadyTasks;
  }

  lemma {:induction false} StuckPicksNothing(j: Job, k: Tick)
    requires Stuck(j)
    ensures PickedBy(j.record, j.sprint, k).None?
    ensures Behind(j.record, j.sprint, k.now) == Some(Refreshed(j.record, j.sprint.value))
  {
    StuckBehind(j, k.now);
    StuckConfines(j);
    StuckMembers(j, k.now);
    NotEmpty(j);
    hide Stuck, Confines, Refreshed, NeedsRollover, Behind, ReadyTasks, Current, PickIds;
    ChoiceIs(j.record, j.sprint, k.now, k.limit);
    PickIff(ReadyTasks(j.record, k.now), j.sprint.value.taskIds, k);
    hide Pick;
  }

  lemma {:induction false} NotEmpty(j: Job)
    requires Stuck(j)
    ensures j.sprint.value.taskIds != []
  {}

  lemma {:induction false} StuckTick(j: Job, k: Tick)
    requires Stuck(j)
    ensures var j' := AfterTick(j, k);
            && NothingTried(j.record, j'.record) && j'.record == Opened(j.record, k)
            && (Stuck(j') || j'.status == JobFailed)
            && (!k.overBudget && TerminalStatus(j'.record) == Open ==> Stuck(j'))
  {
    OpensStuck(j, k);
    hide Opened;
    var o := Opened(j.record, k);
    StuckPicksNothing(j.(record := o), k);
    NotAllDone(j.(record := o));
    hide PickedBy, Behind, TerminalStatus;
    SameMembers(o, j.sprint.value);
  }

  lemma {:induction false} NotAllDone(j: Job)
    requires Stuck(j)
    ensures TerminalStatus(j.record) != AllDone
  {
    var t :| t in j.record.tasks && t.id in j.sprint.value.taskIds && t.status == Failed;
  }

  lemma {:induction false} TriedTwice(a: Record, b: Record, c: Record)
    requires NothingTried(a, b) && NothingTried(b, c)
    ensures NothingTried(a, c)
  {}

  /** A task that could still be attempted. */
  predicate Lasting(r: Record, i: nat) {
    i < |r.tasks| && r.tasks[i].status == Pending && r.tasks[i].attempts as real < Cap(r.tasks[i], r)
  }

  lemma {:induction false} LastingOpen(r: Record, k: Tick, i: nat)
    requires Lasting(r, i)
    ensures Lasting(Opened(r, k), i) && TerminalStatus(Opened(r, k)) == Open
  {
    OpensEnded(r, k, i);
    hide Opened;
    assert Opened(r, k).tasks[i].status == Pending;
  }

  /**
    Once stuck a job is never worked on again: over every sequence of ticks, whatever happens in them,
    nothing is attempted and the job is never completed; and while there is budget and a task that could
    still be attempted, it is not failed either.
  */
  lemma {:induction false} StuckForever(j: Job, ks: seq<Tick>)
    requires Stuck(j)
    ensures NothingTried(j.record, AfterTicks(j, ks).record)
    ensures AfterTicks(j, ks).status in {JobActive, JobFailed}
    ensures (forall m :: 0 <= m < |ks| ==> !ks[m].overBudget) && (exists i :: Lasting(j.record, i)) ==>
              AfterTicks(j, ks).status == JobActive
    decreases |ks|
  {
    StuckActive(j);
    hide Opened, TerminalStatus, AfterTick, Stuck, Lasting, NothingTried;
    TriedRefl(j.record);
    if ks != [] {
      var j' := AfterTick(j, ks[0]);
      StuckTick(j, ks[0]);
      if i :| Lasting(j.record, i) {
        LastingOpen(j.record, ks[0], i);
        assert !ks[0].overBudget ==> Stuck(j');
      }
      if Stuck(j') {
        StuckForever(j', ks[1..]);
      } else {
        FailedStays(j', ks[1..]);
      }
      TriedTwice(j.record, j'.record, AfterTicks(j, ks).record);
    }
  }

  lemma {:induction false} StuckActive(j: Job)
    ensures Stuck(j) ==> j.status == JobActive
  {}

  lemma {:induction false} TriedRefl(r: Record)
    ensures NothingTried(r, r)
  {}

  lemma {:induction false} FailedStays(j: Job, ks: seq<Tick>)
    requires j.status == JobFailed
    ensures AfterTicks(j, ks) == j
    decreases |ks|
  {
    if ks != [] {
      FailedStays(j, ks[1..]);
    }
  }

  // ----- how a sprint gets stuck

  lemma {:induction false} PickedMember(o: Record, sprint: Option<Sprint>, k: Tick)
    requires PickedBy(o, sprint, k).Some? && !OpenToAll(sprint)
    ensures var s := Current(o, sprint, k.now, k.limit);
            s.status == SprintOpen && PickedBy(o, sprint, k).value.id in s.taskIds
  {
    ChoiceIs(o, sprint, k.now, k.limit);
    var ready := ReadyTasks(o, k.now);
    hide ReadyTasks, Current, Free, Upcoming, Peopled, MembersSettled;
    if ready != [] {
      UpcomingSome(ready, k.limit);
    }
  }

  lemma {:induction false} AfterFailure(o: Record, picked: Task, k: Tick, i: nat)
    requires i < |o.tasks| && !k.reconciled && VerdictWrite(Ended(o, picked, k), picked, k).Fail?
    ensures i < |Ended(o, picked, k).tasks| == |o.tasks| + |k.discovered|
    ensures Ended(o, picked, k).tasks[i].id == o.tasks[i].id
    ensures o.tasks[i].id != picked.id ==> Ended(o, picked, k).tasks[i] == o.tasks[i]
    ensures o.tasks[i].id == picked.id ==> Ended(o, picked, k).tasks[i].status == Failed
  {
    var s := Apply(o, Start(picked.id));
    assert s.tasks[i] == Effect(o.tasks[i], Start(picked.id));
    var d := s.(tasks := s.tasks + k.discovered);
    assert d.tasks[i] == s.tasks[i];
    assert VerdictWrite(d, picked, k) == Fail(picked.id);
    assert Apply(d, Fail(picked.id)).tasks[i] == Effect(d.tasks[i], Fail(picked.id));
  }

  lemma {:induction false} DiscoveredAfter(o: Record, picked: Task, k: Tick, m: nat)
    requires m < |k.discovered| && !k.reconciled && VerdictWrite(Ended(o, picked, k), picked, k).Fail?
    ensures |Ended(o, picked, k).tasks| == |o.tasks| + |k.discovered|
    ensures Ended(o, picked, k).tasks[|o.tasks| + m].id == k.discovered[m].id
  {
    var s := Apply(o, Start(picked.id));
    var d := s.(tasks := s.tasks + k.discovered);
    assert d.tasks[|o.tasks| + m] == k.discovered[m];
    assert Apply(d, Fail(picked.id)).tasks[|o.tasks| + m] == Effect(k.discovered[m], Fail(picked.id));
  }

  /** Every member but this task has come to an end. */
  predicate OthersOver(o: Record, ids: seq<string>, id: string) {
    forall t :: t in o.tasks && t.id in ids && t.id != id ==> t.status in {Done, Abandoned, Failed}
  }

  lemma {:induction false} OverAfterFailure(o: Record, picked: Task, k: Tick, ids: seq<string>)
    requires !k.reconciled && VerdictWrite(Ended(o, picked, k), picked, k).Fail?
    requires forall m :: 0 <= m < |k.discovered| ==> k.discovered[m].id !in ids
    ensures AllOver(Ended(o, picked, k), ids) <==> OthersOver(o, ids, picked.id)
  {
    hide Ended, VerdictWrite;
    var e := Ended(o, picked, k);
    forall i: nat | i < |o.tasks|
      ensures |e.tasks| == |o.tasks| + |k.discovered| && e.tasks[i].id == o.tasks[i].id && e.tasks[i] in e.tasks
      ensures o.tasks[i].id != picked.id ==> e.tasks[i] == o.tasks[i]
      ensures o.tasks[i].id == picked.id ==> e.tasks[i].status == Failed
    {
      AfterFailure(o, picked, k, i);
    }
    if OthersOver(o, ids, picked.id) {
      forall t | t in e.tasks && t.id in ids
        ensures t.status in {Done, Abandoned, Failed}
      {
        var i :| 0 <= i < |e.tasks| && e.tasks[i] == t;
        EndedSize(o, picked, k);
        if i >= |o.tasks| {
          DiscoveredAfter(o, picked, k, i - |o.tasks|);
        } else {
          assert o.tasks[i] in o.tasks;
        }
      }
    }
    if AllOver(e, ids) {
      forall t | t in o.tasks && t.id in ids && t.id != picked.id
        ensures t.status in {Done, Abandoned, Failed}
      {
        var i :| 0 <= i < |o.tasks| && o.tasks[i] == t;
        assert e.tasks[i] == t;
      }
    }
  }

  lemma {:induction false} EndedSize(o: Record, picked: Task, k: Tick)
    requires !k.reconciled
    ensures |Ended(o, picked, k).tasks| == |o.tasks| + |k.discovered|
  {}

  /**
    An attempt that ends with its task failed leaves the job stuck exactly when every other member of
    the sprint has come to an end and some task outside it has not.
  */
  lemma {:induction false} FailureSticksIff(j: Job, k: Tick)
    requires j.status == JobActive && !OpenToAll(j.sprint) && k.hosted && !k.overBudget
    requires TerminalStatus(Opened(j.record, k)) == Open && PickedBy(Opened(j.record, k), j.sprint, k).Some?
    requires var o := Opened(j.record, k);
             var picked := PickedBy(o, j.sprint, k).value;
             Fails(Ended(o, picked, k), picked, k)
    requires forall m :: 0 <= m < |k.discovered| ==>
               k.discovered[m].id !in Current(Opened(j.record, k), j.sprint, k.now, k.limit).taskIds
    ensures var o := Opened(j.record, k);
            var picked, s := PickedBy(o, j.sprint, k).value, Current(o, j.sprint, k.now, k.limit);
            Stuck(AfterTick(j, k))
            <==> OthersOver(o, s.taskIds, picked.id) && TerminalStatus(Ended(o, picked, k)) == Open
  {
    var o := Opened(j.record, k);
    PickedMember(o, j.sprint, k);
    PickedAt(o, j.sprint, k);
    FailedTick(j, k);
    hide Opened, Current, PickedBy, Ended, OthersOver, AllOver, VerdictWrite, Stuck, TerminalStatus, AfterTick;
    var picked, s := PickedBy(o, j.sprint, k).value, Current(o, j.sprint, k.now, k.limit);
    var e := Ended(o, picked, k);
    OverAfterFailure(o, picked, k, s.taskIds);
    FailedMember(o, picked, k);
    StuckAfterFailure(e, s, picked.id);
    FailedNotDone(e, picked.id);
  }

  lemma {:induction false} FailedTick(j: Job, k: Tick)
    requires j.status == JobActive && k.hosted && !k.overBudget
    requires TerminalStatus(Opened(j.record, k)) == Open && PickedBy(Opened(j.record, k), j.sprint, k).Some?
    requires var o := Opened(j.record, k);
             var picked := PickedBy(o, j.sprint, k).value;
             Fails(Ended(o, picked, k), picked, k)
    ensures var o := Opened(j.record, k);
            var e := Ended(o, PickedBy(o, j.sprint, k).value, k);
            AfterTick(j, k) == Job(e, Some(Current(o, j.sprint, k.now, k.limit)),
                                   if TerminalStatus(e) == SomeFailed then JobFailed else JobActive)
  {
    hide Opened, Current, PickedBy, Ended, Fails, Refreshes, TerminalStatus;
    var o := Opened(j.record, k);
    var picked := PickedBy(o, j.sprint, k).value;
    FailedIsNotRefreshed(Ended(o, picked, k), picked, k);
  }

  lemma {:induction false} PickedAt(o: Record, sprint: Option<Sprint>, k: Tick)
    requires PickedBy(o, sprint, k).Some?
    ensures PickedBy(o, sprint, k).value in o.tasks
  {
    hide Candidate, Current, Eligible;
    assert PickedBy(o, sprint, k).value in ReadyTasks(o, k.now);
  }

  lemma {:induction false} FailedMember(o: Record, picked: Task, k: Tick)
    requires picked in o.tasks && !k.reconciled && VerdictWrite(Ended(o, picked, k), picked, k).Fail?
    ensures HasStatus(Ended(o, picked, k), picked.id, {Failed})
  {
    hide Ended, VerdictWrite;
    var i :| 0 <= i < |o.tasks| && o.tasks[i] == picked;
    AfterFailure(o, picked, k, i);
  }

  lemma {:induction false} FailedNotDone(e: Record, id: string)
    requires HasStatus(e, id, {Failed})
    ensures TerminalStatus(e) != AllDone
  {}

  lemma {:induction false} StuckAfterFailure(e: Record, s: Sprint, id: string)
    requires s.status == SprintOpen && id in s.taskIds && HasStatus(e, id, {Failed})
    ensures Stuck(Job(e, Some(s), JobActive)) <==> AllOver(e, s.taskIds)
    ensures !Stuck(Job(e, Some(s), JobFailed))
  {
    hide AllOver;
    var i :| 0 <= i < |e.tasks| && e.tasks[i].id == id && e.tasks[i].status in {Failed};
    assert e.tasks[i] in e.tasks;
  }

  // ----- sprints hold up no job whose attempts succeed

  /** The members of an open sprint are done or wait for nothing. */
  predicate Fits(r: Record, sprint: Option<Sprint>) {
    sprint.Some? && sprint.value.status == SprintOpen && sprint.value.taskIds != [] ==>
      Peopled(r, sprint.value) && MembersFit(r, sprint.value.taskIds)
  }

  predicate MembersFit(r: Record, ids: seq<string>) {
    forall t :: t in r.tasks && t.id in ids ==> DepsDone(r, t)
  }

  lemma {:induction false} EligibleMember(r: Record, t: Task, now: int)
    requires Unhindered(r) && t in r.tasks && !SettledMember(t) && DepsDone(r, t)
    ensures t in ReadyTasks(r, now)
  {
    var i :| 0 <= i < |r.tasks| && r.tasks[i] == t;
    assert Unfinished(r.tasks[i]);
  }

  lemma {:induction false} FitsAdmits(j: Job, k: Tick)
    requires UniqueIds(j.record) && Unhindered(j.record) && Fits(j.record, j.sprint) && k.blocked == {}
    ensures Admits(j, k)
  {
    hide ReadyTasks, PickedBy, UniqueIds, Unhindered, SettledMember, DepsDone;
    var r := j.record;
    if ReadyTasks(r, k.now) != [] {
      PassedOverIff(r, j.sprint, k);
      if Confines(r, j.sprint) {
        var t :| t in r.tasks && t.id in j.sprint.value.taskIds && !SettledMember(t);
        EligibleMember(r, t, k.now);
      }
    }
  }

  lemma {:induction false} CurrentFits(r: Record, sprint: Option<Sprint>, now: int, limit: SprintLimit)
    requires UniqueIds(r) && Fits(r, sprint)
    ensures Fits(r, Some(Current(r, sprint, now, limit)))
  {
    ChoiceIs(r, sprint, now, limit);
    var s, ready := Current(r, sprint, now, limit), ReadyTasks(r, now);
    hide Current, Upcoming;
    if Confines(r, sprint) || OpenToAll(sprint) {
      SameMembers(r, sprint.value);
    } else if s.status == SprintOpen {
      NewSprintFits(r, s, now, limit);
    }
  }

  lemma {:induction false} NewSprintFits(r: Record, s: Sprint, now: int, limit: SprintLimit)
    requires UniqueIds(r) && ReadyTasks(r, now) != [] && s.taskIds == IdsOf(Upcoming(ReadyTasks(r, now), limit))
    ensures Peopled(r, s) && MembersFit(r, s.taskIds)
  {
    var ready := ReadyTasks(r, now);
    var first := Upcoming(ready, limit);
    UpcomingSome(ready, limit);
    UpcomingIn(ready, limit);
    hide ReadyTasks, Upcoming, IdsOf, UniqueIds, DepsDone;
    IdIn(first, first[0].id);
    assert first[0] in ready && first[0] in r.tasks;
    forall t | t in r.tasks && t.id in s.taskIds
      ensures DepsDone(r, t)
    {
      IdIn(first, t.id);
      var u :| u in first && u.id == t.id;
      assert u in ready && u in r.tasks && Eligible(r, u, now);
      SameId(r, t, u);
    }
  }

  lemma {:induction false} BehindFits(r: Record, sprint: Option<Sprint>, now: int)
    requires Fits(r, sprint)
    ensures Fits(r, Behind(r, sprint, now))
  {
    if sprint.Some? {
      SameMembers(r, sprint.value);
    }
    hide Refreshed, MembersFit, ReadyTasks, NeedsRollover;
  }

  lemma {:induction false} CompletedDone(r: Record, id: string, d: string)
    requires IsDone(r, d)
    ensures IsDone(Completed(r, id), d)
  {
    var i :| 0 <= i < |r.tasks| && r.tasks[i].id == d && r.tasks[i].status == Done;
    CompletedTask(r, id, i);
  }

  lemma {:induction false} CompletedDeps(r: Record, id: string, i: nat)
    requires i < |r.tasks| && DepsDone(r, r.tasks[i])
    ensures |Completed(r, id).tasks| == |r.tasks| && Completed(r, id).tasks[i].id == r.tasks[i].id
    ensures DepsDone(Completed(r, id), Completed(r, id).tasks[i])
  {
    CompletedTask(r, id, i);
    hide Completed, IsDone;
    forall d | d in r.tasks[i].dependencies
      ensures IsDone(Completed(r, id), d)
    {
      CompletedDone(r, id, d);
    }
  }

  lemma {:induction false} CompletedPlace(r: Record, id: string, i: nat)
    requires i < |r.tasks|
    ensures |Completed(r, id).tasks| == |r.tasks| && Completed(r, id).tasks[i].id == r.tasks[i].id
    ensures Completed(r, id).tasks[i] in Completed(r, id).tasks
  {
    CompletedTask(r, id, i);
  }

  lemma {:induction false} CompletedPeopled(r: Record, id: string, s: Sprint)
    requires Peopled(r, s)
    ensures Peopled(Completed(r, id), s)
  {
    hide Completed;
    var u :| u in r.tasks && u.id in s.taskIds;
    var m :| 0 <= m < |r.tasks| && r.tasks[m] == u;
    CompletedPlace(r, id, m);
  }

  lemma {:induction false} CompletedMembers(r: Record, id: string, ids: seq<string>)
    requires MembersFit(r, ids)
    ensures MembersFit(Completed(r, id), ids)
  {
    hide Completed, DepsDone;
    var r' := Completed(r, id);
    forall t | t in r'.tasks && t.id in ids
      ensures DepsDone(r', t)
    {
      var i :| 0 <= i < |r'.tasks| && r'.tasks[i] == t;
      CompletedSize(r, id);
      CompletedPlace(r, id, i);
      assert r.tasks[i] in r.tasks;
      CompletedDeps(r, id, i);
    }
  }

  lemma {:induction false} CompletedSize(r: Record, id: string)
    ensures |Completed(r, id).tasks| == |r.tasks|
  {}

  lemma {:induction false} CompletedFits(r: Record, id: string, sprint: Option<Sprint>)
    requires Fits(r, sprint)
    ensures Fits(Completed(r, id), sprint)
  {
    hide Completed, MembersFit, Peopled;
    if sprint.Some? && sprint.value.status == SprintOpen && sprint.value.taskIds != [] {
      CompletedPeopled(r, id, sprint.value);
      CompletedMembers(r, id, sprint.value.taskIds);
    }
  }

  /** What an active job's tick leaves of the sprint. */
  predicate SprintLeft(o: Record, sprint: Option<Sprint>, k: Tick, j: Job) {
    var picked, s := PickedBy(o, sprint, k), Current(o, sprint, k.now, k.limit);
    || j.sprint == sprint
    || (picked.None? && j.sprint == Behind(o, sprint, k.now))
    || (picked.Some? && (j.sprint == Some(s) || j.sprint == Some(Refreshed(j.record, s))))
  }

  lemma {:induction false} SprintIsLeft(o: Record, sprint: Option<Sprint>, k: Tick)
    ensures SprintLeft(o, sprint, k, AfterOpened(o, sprint, k))
  {
    hide PickedBy, Current, Behind, Refreshed, Ended, TerminalStatus, Fails, Refreshes;
  }

  lemma {:induction false} TickSprint(j: Job, k: Tick)
    requires j.status == JobActive && Unhindered(j.record)
    ensures SprintLeft(j.record, j.sprint, k, AfterTick(j, k))
  {
    OpensUnchanged(j.record, k);
    hide Opened, AfterOpened, SprintLeft, Unhindered;
    SprintIsLeft(j.record, j.sprint, k);
  }

  lemma {:induction false} RefreshedFits(r: Record, s: Sprint)
    ensures Fits(r, Some(Refreshed(r, s))) <==> Fits(r, Some(s))
  {
    SameMembers(r, s);
    hide Refreshed, MembersFit;
  }

  lemma {:induction false} LeftFits(r: Record, sprint: Option<Sprint>, k: Tick, j: Job)
    requires UniqueIds(r) && Fits(r, sprint) && SprintLeft(r, sprint, k, j)
    requires j.record == r
             || (PickedBy(r, sprint, k).Some? && j.record == Completed(r, PickedBy(r, sprint, k).value.id))
    ensures Fits(j.record, j.sprint)
  {
    hide PickedBy, Current, Refreshed, Behind, Fits, UniqueIds, Completed;
    var picked, s := PickedBy(r, sprint, k), Current(r, sprint, k.now, k.limit);
    CurrentFits(r, sprint, k.now, k.limit);
    BehindFits(r, sprint, k.now);
    if picked.Some? {
      CompletedFits(r, picked.value.id, sprint);
      CompletedFits(r, picked.value.id, Some(s));
    }
    RefreshedFits(j.record, s);
  }

  lemma {:induction false} FitsKept(j: Job, k: Tick)
    requires UnderWay(j) && Succeeds(k) && Fits(j.record, j.sprint)
    ensures Fits(AfterTick(j, k).record, AfterTick(j, k).sprint)
  {
    hide PickedBy, Fits, Unhindered, UniqueIds, AllFinished, Completed, SprintLeft, AfterOpened, Opened;
    if j.status == JobActive {
      hide AfterTick;
      TickSprint(j, k);
      TickCompletes(j, k);
      LeftFits(j.record, j.sprint, k, AfterTick(j, k));
    }
  }

  /** No resource is cooling down at any of these ticks. */
  predicate NoneBlocked(ks: seq<Tick>) {
    forall i :: 0 <= i < |ks| ==> ks[i].blocked == {}
  }

  /** As long as attempts succeed, the sprint always lets some ready task through. */
  lemma {:induction false} SprintsAdmit(j: Job, ks: seq<Tick>)
    requires UnderWay(j) && AllSucceed(ks) && NoneBlocked(ks) && Fits(j.record, j.sprint)
    ensures AllAdmit(j, ks)
    decreases |ks|
  {
    hide AfterTick, Fits, Admits, UniqueIds, Unhindered, AllFinished;
    if ks != [] {
      assert Succeeds(ks[0]) && AllSucceed(ks[1..]);
      FitsAdmits(j, ks[0]);
      UnderWayKept(j, ks[0]);
      FitsKept(j, ks[0]);
      SprintsAdmit(AfterTick(j, ks[0]), ks[1..]);
    }
  }

  /**
    A new job without a sprint is finished by any successful ticks that are as many as its tasks,
    exactly when its dependencies are not circular.
  */
  lemma {:induction false} SprintsFinishIff(j: Job, ks: seq<Tick>)
    requires New(j) && j.sprint.None? && AllSucceed(ks) && NoneBlocked(ks) && |ks| >= |j.record.tasks|
    ensures AllFinished(AfterTicks(j, ks).record) <==> exists rank: string -> nat :: Acyclic(j.record, rank)
    ensures |ks| > |j.record.tasks| > 0 ==>
              (AfterTicks(j, ks).status == JobCompleted <==> exists rank: string -> nat :: Acyclic(j.record, rank))
  {
    assert UnderWay(j) && Fits(j.record, j.sprint);
    SprintsAdmit(j, ks);
    hide AfterTicks, UniqueIds, Untouched, AllFinished, Acyclic, Unhindered, AllAdmit;
    TicksFinishIff(j, ks);
  }

  /** So is a job made from templates, exactly when these can be layered. */
  lemma {:induction false} MadeFinishesIff(
      ts: seq<JobSpec.Template>, ids: seq<string>, facts: set<string>, defaultCap: real, now: int,
                        ks: seq<Tick>)
    requires JobSpec.DistinctIds(ts) && JobSpec.Materializable(ts) && |ids| >= |Seeds(ts)|
    requires FreshIds(Record([], facts, defaultCap), ids)
    requires forall i :: 0 <= i < |ts| ==> ts[i].maxAttempts.GetOr(defaultCap) > 0.0
    requires AllSucceed(ks) && NoneBlocked(ks) && |ks| > |Seeds(ts)| > 0
    ensures AfterTicks(Made(ts, ids, facts, defaultCap, now, None), ks).status == JobCompleted
            <==> exists rank: string -> nat :: Layered(ts, rank)
  {
    var j := Made(ts, ids, facts, defaultCap, now, None);
    FreshlyPlanted(ts, ids, facts, defaultCap, now);
    assert UnderWay(j) && Fits(j.record, j.sprint);
    SprintsAdmit(j, ks);
    hide AfterTicks, Planted, Seeds, FreshIds, UniqueIds, Untouched, Unhindered, AllAdmit, Layered,
         JobSpec.DistinctIds, JobSpec.Materializable;
    JobTicksFinishIff(ts, ids, facts, defaultCap, now, None, ks);
  }
}
