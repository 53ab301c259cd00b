/**
  Sprints (src/jobs/sprint.ts, and `ensureSprint` of src/jobs/runner.ts): the tasks a job works on
  next. A sprint takes the first tasks that are ready and stays until its members are settled.
*/
module Sprints {
  import opened Common
  import opened PlanGraph

  datatype SprintStatus = SprintOpen | Holding | SprintClosed

  datatype Sprint = Sprint(taskIds: seq<string>, status: SprintStatus, done: nat, parked: nat, total: nat)

  /** How many tasks a sprint may take. A normalized spec allows at least one. */
  type SprintLimit = x: real | x >= 1.0 witness 1.0

  function IdsOf(ts: seq<Task>): (ids: seq<string>)
    ensures |ids| == |ts| && forall i :: 0 <= i < |ts| ==> ids[i] == ts[i].id
  {
    seq(|ts|, i requires 0 <= i < |ts| => ts[i].id)
  }

  /** The tasks of a new sprint. */
  function Upcoming(ready: seq<Task>, limit: SprintLimit): seq<Task> {
    if limit.Floor <= |ready| then ready[..limit.Floor] else ready
  }

  function Created(ts: seq<Task>): Sprint {
    Sprint(IdsOf(ts), if ts == [] then Holding else SprintOpen, 0, 0, |ts|)
  }

  function Members(r: Record, s: Sprint): seq<Task> {
    Filter(r.tasks, (t: Task) => t.id in s.taskIds)
  }

  function CountIn(ts: seq<Task>, statuses: set<Status>): nat {
    if ts == [] then 0 else CountIn(ts[..|ts| - 1], statuses) + if ts[|ts| - 1].status in statuses then 1 else 0
  }

  const FINISHED: set<Status> := {Done, Abandoned}
  const WAITING: set<Status> := {Parked, Blocked}

  function Refreshed(r: Record, s: Sprint): Sprint {
    var members := Members(r, s);
    s.(done := CountIn(members, FINISHED), parked := CountIn(members, WAITING), total := |members|)
  }

  predicate NeedsRollover(s: Sprint) {
    s.status != Holding && s.total > 0 && s.done + s.parked >= s.total
  }

  /** The sprint at hand is worked on further. */
  predicate GoesOn(sprint: Option<Sprint>, ready: seq<Task>, rolled: bool) {
    && sprint.Some?
    && (sprint.value.status == SprintOpen || (sprint.value.status == Holding && ready == [] && !rolled))
  }

  function Ensured(sprint: Option<Sprint>, ready: seq<Task>, limit: SprintLimit, rolled: bool): Sprint {
    if GoesOn(sprint, ready, rolled) then sprint.value else Created(Upcoming(ready, limit))
  }

  /** The sprint a tick works by, given the one it found. */
  function Current(r: Record, sprint: Option<Sprint>, now: int, limit: SprintLimit): Sprint {
    var ready := ReadyTasks(r, now);
    var s := Refreshed(r, Ensured(sprint, ready, limit, false));
    if NeedsRollover(s) then Ensured(Some(s.(status := SprintClosed)), ready, limit, true) else s
  }

  /** What becomes of the sprint a tick found, whichever it works by. */
  function Behind(r: Record, sprint: Option<Sprint>, now: int): Option<Sprint> {
    if !GoesOn(sprint, ReadyTasks(r, now), false) then sprint
    else
      var s := Refreshed(r, sprint.value);
      Some(if NeedsRollover(s) then s.(status := SprintClosed) else s)
  }

  /** The ids an open sprint confines the choice to; none if it does not. */
  function PickIds(s: Sprint): seq<string> {
    if s.status == SprintOpen then s.taskIds else []
  }

  // ----- when a sprint rolls over

  predicate SettledMember(t: Task) {
    t.status in FINISHED + WAITING
  }

  predicate AllSettled(ts: seq<Task>) {
    forall i :: 0 <= i < |ts| ==> SettledMember(ts[i])
  }

  lemma {:induction false} CountsSplit(ts: seq<Task>)
    ensures CountIn(ts, FINISHED) + CountIn(ts, WAITING) <= |ts|
    ensures CountIn(ts, FINISHED) + CountIn(ts, WAITING) == |ts| <==> AllSettled(ts)
  {
    if ts != [] {
      var n := |ts| - 1;
      CountsSplit(ts[..n]);
      assert AllSettled(ts) <==> AllSettled(ts[..n]) && SettledMember(ts[n]);
    }
  }

  /** Some task of the graph is in the sprint. */
  predicate Peopled(r: Record, s: Sprint) {
    exists t :: t in r.tasks && t.id in s.taskIds
  }

  predicate MembersSettled(r: Record, s: Sprint) {
    forall t :: t in r.tasks && t.id in s.taskIds ==> SettledMember(t)
  }

  /** A sprint rolls over exactly when every member is done, abandoned, parked or blocked; a failed one is not. */
  lemma {:induction false} RolloverIff(r: Record, s: Sprint)
    ensures NeedsRollover(Refreshed(r, s)) <==> s.status != Holding && Peopled(r, s) && MembersSettled(r, s)
  {
    var members := Members(r, s);
    assert forall t :: t in members <==> t in r.tasks && t.id in s.taskIds;
    CountsSplit(members);
    hide Members, CountIn, SettledMember;
    if |members| > 0 {
      assert members[0] in members;
    }
    if MembersSettled(r, s) {
      forall i | 0 <= i < |members|
        ensures SettledMember(members[i])
      {
        assert members[i] in members;
      }
    }
  }
}
