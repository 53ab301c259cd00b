/** Which jobs can be finished: what circular dependencies hold back for good, and that nothing else does. */
module JobProgress {
  import opened PlanGraph
  import opened JobSafety

  // ----- tasks that wait for each other

  /** The tasks named, each known and neither done nor running, each wait for another of them. */
  predicate Deadlocked(r: Record, names: set<string>) {
    && (forall id :: id in names ==> !Fresh(r, id))
    && forall i :: 0 <= i < |r.tasks| && r.tasks[i].id in names ==> HeldBack(r.tasks[i], names)
  }

  predicate HeldBack(t: Task, names: set<string>) {
    t.status !in {Done, Running} && exists d :: d in t.dependencies && d in names
  }

  predicate Rewires(w: Write, names: set<string>) {
    w.Depend? && w.id in names
  }

  /** A write that starts or finishes a task finds it ready or running. */
  lemma {:induction false} StartedOrRunning(r: Record, now: int, w: Write, names: set<string>)
    requires Deadlocked(r, names) && Legal(r, now, w)
    requires w.Start? || w.Finish?
    ensures w.id !in names
  {
    hide Cap;
    if w.Start? {
      var k := ReadyIndex(r, now, w.id);
      if w.id in names {
        assert false;
      }
    }
  }

  lemma {:induction false} DeadlockKept(r: Record, now: int, w: Write, names: set<string>)
    requires Deadlocked(r, names) && Legal(r, now, w) && !Rewires(w, names)
    ensures Deadlocked(Apply(r, w), names)
  {
    if w.Start? || w.Finish? {
      StartedOrRunning(r, now, w, names);
    }
    NotAmong(r, now, w, names);
    hide HeldBack, Legal, Fresh;
    var r' := Apply(r, w);
    KnownKept(r, w);
    forall i | 0 <= i < |r'.tasks| && r'.tasks[i].id in names
      ensures HeldBack(r'.tasks[i], names)
    {
      if i < |r.tasks| {
        HeldBackKept(r.tasks[i], w, names);
      }
    }
  }

  lemma {:induction false} NotAmong(r: Record, now: int, w: Write, names: set<string>)
    requires Deadlocked(r, names) && Legal(r, now, w)
    ensures w.Create? ==> w.task.id !in names
  {
    hide HeldBack;
  }

  lemma {:induction false} KnownKept(r: Record, w: Write)
    ensures forall id :: !Fresh(r, id) ==> !Fresh(Apply(r, w), id)
  {
    forall id | !Fresh(r, id)
      ensures !Fresh(Apply(r, w), id)
    {
      var i :| 0 <= i < |r.tasks| && r.tasks[i].id == id;
      assert Apply(r, w).tasks[i] == Effect(r.tasks[i], w);
    }
  }

  lemma {:induction false} HeldBackKept(t: Task, w: Write, names: set<string>)
    requires HeldBack(t, names) && t.id in names && !Rewires(w, names)
    requires w.Start? || w.Finish? ==> w.id !in names
    ensures HeldBack(Effect(t, w), names)
  {
    var d :| d in t.dependencies && d in names;
    assert d in Effect(t, w).dependencies;
  }

  /** The run leaves alone what these tasks depend on. */
  predicate Sparing(log: seq<Entry>, names: set<string>) {
    forall i :: 0 <= i < |log| ==> !Rewires(log[i].write, names)
  }

  lemma {:induction false} DeadlockStays(r: Record, log: seq<Entry>, names: set<string>)
    requires Deadlocked(r, names) && LegalRun(r, log) && Sparing(log, names)
    ensures Deadlocked(Replay(r, log), names)
  {
    if log == [] {
      assert Replay(r, log) == r;
    } else {
      hide Deadlocked, LegalRun, Legal, Apply;
      RunPrefix(r, log);
      var front, e := log[..|log| - 1], log[|log| - 1];
      DeadlockStays(r, front, names);
      assert !Rewires(log[|log| - 1].write, names);
      DeadlockKept(Replay(r, front), e.now, e.write, names);
    }
  }

  /** Over every run that leaves their dependencies alone, tasks that wait for each other are never started. */
  lemma {:induction false} NeverStarted(r: Record, log: seq<Entry>, names: set<string>, i: nat)
    requires Deadlocked(r, names) && LegalRun(r, log) && Sparing(log, names)
    requires i < |log| && log[i].write.Start?
    ensures log[i].write.id !in names
  {
    hide Deadlocked, Replay;
    assert Legal(Replay(r, log[..i]), log[i].now, log[i].write);
    LegalPrefix(r, log, i);
    DeadlockStays(r, log[..i], names);
    StartedOrRunning(Replay(r, log[..i]), log[i].now, log[i].write, names);
  }

  // ----- layers

  /** A new task depends on tasks that are there, each of lower rank. */
  ghost predicate Grows(r: Record, w: Write, rank: string -> nat) {
    w.Create? ==> forall d :: d in w.task.dependencies ==> !Fresh(r, d) && rank(d) < rank(w.task.id)
  }

  lemma {:induction false} AcyclicKept(r: Record, w: Write, rank: string -> nat)
    requires Acyclic(r, rank) && !w.Depend? && Grows(r, w, rank)
    ensures Acyclic(Apply(r, w), rank)
  {
    hide Fresh;
    var r' := Apply(r, w);
    KnownKept(r, w);
    forall i, d | 0 <= i < |r'.tasks| && d in r'.tasks[i].dependencies
      ensures !Fresh(r', d) && rank(d) < rank(r'.tasks[i].id)
    {
      if i < |r.tasks| {
        SameWiring(r.tasks[i], w);
      }
    }
  }

  lemma {:induction false} SameWiring(t: Task, w: Write)
    requires !w.Depend?
    ensures Effect(t, w).id == t.id && Effect(t, w).dependencies == t.dependencies
  {}

  ghost predicate GrowsBy(r: Record, log: seq<Entry>, i: nat, rank: string -> nat)
    requires i < |log|
  {
    !log[i].write.Depend? && Grows(Replay(r, log[..i]), log[i].write, rank)
  }

  /** A layered graph stays layered over every run whose new tasks join the layers. */
  lemma {:induction false} LayersKept(r: Record, log: seq<Entry>, rank: string -> nat)
    requires Acyclic(r, rank) && forall i :: 0 <= i < |log| ==> GrowsBy(r, log, i, rank)
    ensures Acyclic(Replay(r, log), rank)
  {
    if log != [] {
      var n := |log| - 1;
      forall i | 0 <= i < n
        ensures GrowsBy(r, log[..n], i, rank)
      {
        assert GrowsBy(r, log, i, rank);
        assert log[..n][..i] == log[..i];
      }
      LayersKept(r, log[..n], rank);
      assert GrowsBy(r, log, n, rank);
      AcyclicKept(Replay(r, log[..n]), log[n].write, rank);
    }
  }

  /** So at every point of such a run that nothing else hinders there is a task to run, until all are done. */
  lemma {:induction false} AlwaysSomethingReady(r: Record, log: seq<Entry>, rank: string -> nat, now: int, i: nat)
    requires Acyclic(r, rank) && forall k :: 0 <= k < |log| ==> GrowsBy(r, log, k, rank)
    requires Unhindered(Replay(r, log)) && i < |Replay(r, log).tasks| && Unfinished(Replay(r, log).tasks[i])
    ensures ReadyTasks(Replay(r, log), now) != []
  {
    LayersKept(r, log, rank);
    SomethingReady(Replay(r, log), now, rank, i);
  }

  // ----- exactly which jobs can be finished

  predicate AllFinished(r: Record) {
    forall i :: 0 <= i < |r.tasks| ==> r.tasks[i].status == Done
  }

  /** The dependencies of a graph are tasks of the graph. */
  predicate Closed(r: Record) {
    forall i, d :: 0 <= i < |r.tasks| && d in r.tasks[i].dependencies ==> !Fresh(r, d)
  }

  predicate Untouched(r: Record) {
    Unhindered(r) && forall i :: 0 <= i < |r.tasks| ==> r.tasks[i].status == Pending
  }

  function Left(ts: seq<Task>): nat {
    if ts == [] then 0 else Left(ts[..|ts| - 1]) + if Unfinished(ts[|ts| - 1]) then 1 else 0
  }

  lemma {:induction false} LeftDrops(ts: seq<Task>, ts': seq<Task>, k: nat)
    requires |ts'| == |ts| && k < |ts| && Unfinished(ts[k]) && !Unfinished(ts'[k])
    requires forall i :: 0 <= i < |ts| && i != k ==> ts'[i] == ts[i]
    ensures Left(ts') == Left(ts) - 1
  {
    var n := |ts| - 1;
    if k < n {
      LeftDrops(ts[..n], ts'[..n], k);
    } else {
      assert ts[..n] == ts'[..n];
    }
  }

  lemma {:induction false} NoneLeft(ts: seq<Task>)
    ensures Left(ts) == 0 <==> forall i :: 0 <= i < |ts| ==> !Unfinished(ts[i])
  {
    if ts != [] {
      NoneLeft(ts[..|ts| - 1]);
    }
  }

  /** A ready task started and finished: the rest is as it was. */
  function Completed(r: Record, id: string): Record {
    Apply(Apply(r, Start(id)), Finish(id))
  }

  lemma {:induction false} CompletedTask(r: Record, id: string, i: nat)
    requires i < |r.tasks|
    ensures |Completed(r, id).tasks| == |r.tasks| && Completed(r, id).defaultCap == r.defaultCap
    ensures var t, t' := r.tasks[i], Completed(r, id).tasks[i];
            if t.id == id then t' == t.(status := Done, attempts := t.attempts + 1) else t' == t
  {
    var s := Apply(r, Start(id));
    assert s.tasks[i] == Effect(r.tasks[i], Start(id));
    assert Apply(s, Finish(id)).tasks[i] == Effect(s.tasks[i], Finish(id));
  }

  lemma {:induction false} CompletedOne(r: Record, k: nat)
    requires UniqueIds(r) && Unhindered(r) && k < |r.tasks| && Unfinished(r.tasks[k])
    ensures var r' := Completed(r, r.tasks[k].id);
            UniqueIds(r') && Unhindered(r') && Left(r'.tasks) == Left(r.tasks) - 1
  {
    var id := r.tasks[k].id;
    var r' := Completed(r, id);
    forall i | 0 <= i < |r.tasks|
      ensures if i == k then r'.tasks[i] == r.tasks[i].(status := Done, attempts := r.tasks[i].attempts + 1)
              else r'.tasks[i] == r.tasks[i]
    {
      CompletedTask(r, id, i);
    }
    CompletedTask(r, id, k);
    hide Completed;
    LeftDrops(r.tasks, r'.tasks, k);
  }

  lemma {:induction false} CompletedKeeps(r: Record, k: nat, rank: string -> nat)
    requires UniqueIds(r) && Unhindered(r) && Acyclic(r, rank) && k < |r.tasks| && Unfinished(r.tasks[k])
    ensures var r' := Completed(r, r.tasks[k].id);
            UniqueIds(r') && Unhindered(r') && Acyclic(r', rank) && Left(r'.tasks) == Left(r.tasks) - 1
  {
    var id := r.tasks[k].id;
    hide UniqueIds, Unhindered, Acyclic, Apply;
    CompletedOne(r, k);
    AcyclicKept(r, Start(id), rank);
    AcyclicKept(Apply(r, Start(id)), Finish(id), rank);
  }

  lemma {:induction false} CompletedLegal(r: Record, now: int, k: nat)
    requires Unhindered(r) && k < |r.tasks| && r.tasks[k] in ReadyTasks(r, now)
    ensures Legal(r, now, Start(r.tasks[k].id)) && Legal(Apply(r, Start(r.tasks[k].id)), now, Finish(r.tasks[k].id))
  {
    hide ReadyTasks;
    var id := r.tasks[k].id;
    assert Apply(r, Start(id)).tasks[k] == Effect(r.tasks[k], Start(id));
  }

  lemma {:induction false} RunJoin(r: Record, a: seq<Entry>, b: seq<Entry>)
    ensures Replay(r, a + b) == Replay(Replay(r, a), b)
  {
    if b == [] {
      assert a + b == a;
    } else {
      assert (a + b)[..|a + b| - 1] == a + b[..|b| - 1];
      RunJoin(r, a, b[..|b| - 1]);
    }
  }

  lemma {:induction false} LegalJoin(r: Record, a: seq<Entry>, b: seq<Entry>)
    requires LegalRun(r, a) && LegalRun(Replay(r, a), b)
    ensures LegalRun(r, a + b) && Replay(r, a + b) == Replay(Replay(r, a), b)
  {
    hide Legal, Replay;
    var all := a + b;
    RunJoin(r, a, b);
    forall i | 0 <= i < |all|
      ensures Legal(Replay(r, all[..i]), all[i].now, all[i].write)
    {
      if i < |a| {
        assert all[..i] == a[..i];
      } else {
        assert all[..i] == a + b[..i - |a|];
        RunJoin(r, a, b[..i - |a|]);
      }
    }
  }

  lemma {:induction false} TwoWrites(r: Record, now: int, id: string)
    requires Legal(r, now, Start(id)) && Legal(Apply(r, Start(id)), now, Finish(id))
    ensures var log := [Entry(now, Start(id)), Entry(now, Finish(id))];
            LegalRun(r, log) && Replay(r, log) == Completed(r, id)
  {
    hide Legal, Apply;
    var log := [Entry(now, Start(id)), Entry(now, Finish(id))];
    assert log[..0] == [] && log[..1] == [Entry(now, Start(id))] && log[..1][..0] == [];
    assert Replay(r, log[..1]) == Apply(r, Start(id));
  }

  /** A layered graph that nothing else hinders can be run to the end, a start and a finish at a time. */
  lemma {:induction false} FinishAll(r: Record, now: int, rank: string -> nat) returns (log: seq<Entry>)
    requires UniqueIds(r) && Unhindered(r) && Acyclic(r, rank)
    ensures LegalRun(r, log) && AllFinished(Replay(r, log)) && Wired(log)
    decreases Left(r.tasks)
  {
    NoneLeft(r.tasks);
    if Left(r.tasks) == 0 {
      log := [];
    } else {
      hide LegalRun, Replay, Acyclic, Unhindered, UniqueIds, Left, AllFinished;
      var step := FinishOne(r, now, rank);
      var rest := FinishAll(Replay(r, step), now, rank);
      LegalJoin(r, step, rest);
      log := step + rest;
    }
  }

  lemma {:induction false} FinishOne(r: Record, now: int, rank: string -> nat) returns (step: seq<Entry>)
    requires UniqueIds(r) && Unhindered(r) && Acyclic(r, rank) && Left(r.tasks) > 0
    ensures LegalRun(r, step) && Wired(step)
    ensures var r' := Replay(r, step);
            UniqueIds(r') && Unhindered(r') && Acyclic(r', rank) && Left(r'.tasks) < Left(r.tasks)
  {
    NoneLeft(r.tasks);
    hide Legal, LegalRun, Replay, Completed, Eligible, Acyclic, Unhindered, UniqueIds, Left;
    var i :| 0 <= i < |r.tasks| && Unfinished(r.tasks[i]);
    SomethingReady(r, now, rank, i);
    var k := FirstReady(r, now);
    CompletedKeeps(r, k, rank);
    CompletedLegal(r, now, k);
    TwoWrites(r, now, r.tasks[k].id);
    step := [Entry(now, Start(r.tasks[k].id)), Entry(now, Finish(r.tasks[k].id))];
  }

  lemma {:induction false} FirstReady(r: Record, now: int) returns (k: nat)
    requires Unhindered(r) && ReadyTasks(r, now) != []
    ensures k < |r.tasks| && r.tasks[k] in ReadyTasks(r, now) && Unfinished(r.tasks[k])
  {
    var t := ReadyTasks(r, now)[0];
    assert t in ReadyTasks(r, now);
    k :| 0 <= k < |r.tasks| && r.tasks[k] == t;
  }

  /** No write of the run changes what a task depends on. */
  predicate Wired(log: seq<Entry>) {
    forall i :: 0 <= i < |log| ==> !log[i].write.Depend?
  }

  /** The place of the first start of a task in a run, or the length of the run. */
  function FirstStart(log: seq<Entry>, id: string): (n: nat)
    ensures n <= |log|
    ensures n < |log| ==> log[n].write == Start(id)
  {
    if log == [] then 0
    else
      var front := log[..|log| - 1];
      var n := FirstStart(front, id);
      if n < |front| then n else if log[|front|].write == Start(id) then |front| else |log|
  }

  lemma {:induction false} FirstStartPrefix(log: seq<Entry>, id: string, n: nat)
    requires n <= |log| && FirstStart(log[..n], id) < n
    ensures FirstStart(log, id) == FirstStart(log[..n], id)
  {
    if n < |log| {
      var front := log[..|log| - 1];
      assert front[..n] == log[..n];
      FirstStartPrefix(front, id, n);
    } else {
      assert log[..n] == log;
    }
  }

  predicate NothingBegun(r: Record) {
    forall i :: 0 <= i < |r.tasks| ==> r.tasks[i].status !in {Done, Running}
  }

  lemma {:induction false} BegunBy(r: Record, now: int, w: Write, id: string)
    requires Legal(r, now, w) && HasStatus(Apply(r, w), id, {Done, Running}) && !HasStatus(r, id, {Done, Running})
    ensures w == Start(id)
  {
    hide ReadyTasks, Exhausted, DueNow;
    var r' := Apply(r, w);
    var i :| 0 <= i < |r'.tasks| && r'.tasks[i].id == id && r'.tasks[i].status in {Done, Running};
    if i < |r.tasks| {
      assert r'.tasks[i] == Effect(r.tasks[i], w);
      assert r.tasks[i].status !in {Done, Running};
    }
  }

  /** What is running or done was started. */
  lemma {:induction false} BegunWasStarted(r: Record, log: seq<Entry>, id: string)
    requires NothingBegun(r) && LegalRun(r, log) && HasStatus(Replay(r, log), id, {Done, Running})
    ensures FirstStart(log, id) < |log|
  {
    if log != [] {
      RunPrefix(r, log);
      var front, e := log[..|log| - 1], log[|log| - 1];
      hide LegalRun, Legal, HasStatus, Apply;
      if HasStatus(Replay(r, front), id, {Done, Running}) {
        BegunWasStarted(r, front, id);
      } else {
        BegunBy(Replay(r, front), e.now, e.write, id);
      }
    }
  }

  lemma {:induction false} WiringKept(r: Record, log: seq<Entry>, i: nat)
    requires Wired(log) && i < |r.tasks|
    ensures var r' := Replay(r, log);
            i < |r'.tasks| && r'.tasks[i].id == r.tasks[i].id && r'.tasks[i].dependencies == r.tasks[i].dependencies
  {
    if log != [] {
      var n := |log| - 1;
      WiringKept(r, log[..n], i);
      SameWiring(Replay(r, log[..n]).tasks[i], log[n].write);
    }
  }

  lemma {:induction false} UniqueRun(r: Record, log: seq<Entry>)
    requires UniqueIds(r) && LegalRun(r, log)
    ensures UniqueIds(Replay(r, log))
  {
    if log != [] {
      RunPrefix(r, log);
      UniqueRun(r, log[..|log| - 1]);
      UniqueKept(Replay(r, log[..|log| - 1]), log[|log| - 1].now, log[|log| - 1].write);
    }
  }

  lemma {:induction false} LegalPrefix(r: Record, log: seq<Entry>, n: nat)
    requires LegalRun(r, log) && n <= |log|
    ensures LegalRun(r, log[..n])
  {
    forall i | 0 <= i < n
      ensures Legal(Replay(r, log[..n][..i]), log[..n][i].now, log[..n][i].write)
    {
      assert log[..n][..i] == log[..i];
    }
  }

  /** In a run a dependency is started before the task that waits for it. */
  lemma {:induction false} StartedInOrder(r: Record, log: seq<Entry>, i: nat, d: string)
    requires UniqueIds(r) && NothingBegun(r) && LegalRun(r, log) && Wired(log)
    requires i < |r.tasks| && d in r.tasks[i].dependencies
    requires FirstStart(log, r.tasks[i].id) < |log|
    ensures FirstStart(log, d) < FirstStart(log, r.tasks[i].id)
  {
    var id := r.tasks[i].id;
    var n := FirstStart(log, id);
    var before := log[..n];
    var at := Replay(r, before);
    LegalPrefix(r, log, n);
    assert Legal(at, log[n].now, log[n].write);
    var k := ReadyIndex(at, log[n].now, id);
    assert Wired(before);
    WiringKept(r, before, i);
    UniqueRun(r, before);
    assert k == i;
    hide LegalRun, Legal, Replay;
    assert IsDone(at, d);
    assert HasStatus(at, d, {Done, Running});
    BegunWasStarted(r, before, d);
    FirstStartPrefix(log, d, n);
  }

  /** A run that finishes every task of an untouched graph reads off its layers. */
  lemma {:induction false} FinishedIsLayered(r: Record, log: seq<Entry>)
    requires UniqueIds(r) && Untouched(r) && Closed(r)
    requires LegalRun(r, log) && Wired(log) && AllFinished(Replay(r, log))
    ensures Acyclic(r, (id: string) => FirstStart(log, id))
  {
    var rank := (id: string) => FirstStart(log, id);
    forall i, d | 0 <= i < |r.tasks| && d in r.tasks[i].dependencies
      ensures !Fresh(r, d) && rank(d) < rank(r.tasks[i].id)
    {
      WiringKept(r, log, i);
      assert HasStatus(Replay(r, log), r.tasks[i].id, {Done, Running});
      BegunWasStarted(r, log, r.tasks[i].id);
      StartedInOrder(r, log, i, d);
    }
  }

  ghost predicate CanFinish(r: Record) {
    exists log :: LegalRun(r, log) && Wired(log) && AllFinished(Replay(r, log))
  }

  /** A new job in which only dependencies hold tasks back can be finished exactly when these are not circular. */
  lemma {:induction false} CanFinishIff(r: Record)
    requires UniqueIds(r) && Untouched(r) && Closed(r)
    ensures CanFinish(r) <==> exists rank: string -> nat :: Acyclic(r, rank)
  {
    if CanFinish(r) {
      var log :| LegalRun(r, log) && Wired(log) && AllFinished(Replay(r, log));
      FinishedIsLayered(r, log);
    }
    if rank: string -> nat :| Acyclic(r, rank) {
      var log := FinishAll(r, 0, rank);
    }
  }
}
