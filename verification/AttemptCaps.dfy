/**
  The attempt cap over runs (src/core/plan.ts). A cap may be any number the planner wrote, and a
  start only asks whether the attempts so far are fewer: a fractional cap lets one start too many.
*/
module AttemptCaps {
  import opened Common
  import opened PlanGraph
  import opened JobSafety
  import opened JobProgress

  predicate Whole(cap: real) {
    cap.Floor as real == cap
  }

  /** The task has been started more often than its cap. */
  predicate Overshoots(r: Record, i: nat) {
    i < |r.tasks| && r.tasks[i].attempts as real > Cap(r.tasks[i], r)
  }

  lemma {:induction false} SameCap(r: Record, log: seq<Entry>, i: nat)
    requires i < |r.tasks|
    ensures var r' := Replay(r, log);
            i < |r'.tasks| && r'.tasks[i].id == r.tasks[i].id && Cap(r'.tasks[i], r') == Cap(r.tasks[i], r)
  {
    if log != [] {
      SameCap(r, log[..|log| - 1], i);
    }
  }

  /** What the limit allows is within a whole cap, and is beyond any other. */
  lemma {:induction false} WholeWithin(cap: real, attempts: nat)
    requires cap > 0.0 && attempts <= Limit(cap)
    ensures Whole(cap) ==> attempts as real <= cap
    ensures !Whole(cap) && attempts == Limit(cap) ==> attempts as real > cap
  {
    WholeCaps(cap);
  }

  lemma {:induction false} OneWrite(r: Record, now: int, w: Write)
    requires Legal(r, now, w)
    ensures LegalRun(r, [Entry(now, w)]) && Replay(r, [Entry(now, w)]) == Apply(r, w)
  {
    hide Legal, Apply;
    var log := [Entry(now, w)];
    assert log[..0] == [] && Replay(r, log[..0]) == r;
  }

  lemma {:induction false} StartedTask(r: Record, i: nat, now: int)
    requires Sound(r) && NoneRunning(r) && i < |r.tasks| && Eligible(r, r.tasks[i], now)
    ensures var id := r.tasks[i].id;
            && Legal(r, now, Start(id)) && Sound(Apply(r, Start(id)))
            && Legal(Apply(r, Start(id)), now, Requeue(id))
            && Sound(Apply(Apply(r, Start(id)), Requeue(id)))
  {
    var id := r.tasks[i].id;
    assert r.tasks[i] in ReadyTasks(r, now);
    SoundKept(r, now, Start(id));
    var s := Apply(r, Start(id));
    assert s.tasks[i] == Effect(r.tasks[i], Start(id));
    SoundKept(s, now, Requeue(id));
  }

  /** A task started and sent back to the queue: one attempt more, everything else as before. */
  function Retried(r: Record, id: string): Record {
    Apply(Apply(r, Start(id)), Requeue(id))
  }

  lemma {:induction false} RetriedTask(r: Record, i: nat, j: nat)
    requires UniqueIds(r) && i < |r.tasks| && j < |r.tasks|
    ensures var r' := Retried(r, r.tasks[i].id);
            && |r'.tasks| == |r.tasks| && r'.facts == r.facts && r'.defaultCap == r.defaultCap
            && r'.tasks[j] == if j != i then r.tasks[j]
                              else r.tasks[i].(status := Pending, attempts := r.tasks[i].attempts + 1,
                                               deferredUntil := None)
  {
    var id := r.tasks[i].id;
    var s := Apply(r, Start(id));
    assert s.tasks[j] == Effect(r.tasks[j], Start(id));
    assert Apply(s, Requeue(id)).tasks[j] == Effect(s.tasks[j], Requeue(id));
  }

  lemma {:induction false} RetriedEligible(r: Record, i: nat, now: int)
    requires Sound(r) && NoneRunning(r) && i < |r.tasks| && Eligible(r, r.tasks[i], now)
    requires r.tasks[i].attempts + 1 < Limit(Cap(r.tasks[i], r))
    ensures var r' := Retried(r, r.tasks[i].id);
            && i < |r'.tasks| && NoneRunning(r') && Eligible(r', r'.tasks[i], now)
            && r'.tasks[i].attempts == r.tasks[i].attempts + 1 && Cap(r'.tasks[i], r') == Cap(r.tasks[i], r)
  {
    hide Retried, Limit;
    var r' := Retried(r, r.tasks[i].id);
    forall j | 0 <= j < |r.tasks|
      ensures |r'.tasks| == |r.tasks| && (j != i ==> r'.tasks[j] == r.tasks[j]) && r'.tasks[j].status != Running
    {
      RetriedTask(r, i, j);
    }
    RetriedTask(r, i, i);
    LimitExact(Cap(r.tasks[i], r), r.tasks[i].attempts + 1);
    forall d | d in r.tasks[i].dependencies
      ensures IsDone(r', d)
    {
      var k :| 0 <= k < |r.tasks| && r.tasks[k].id == d && r.tasks[k].status == Done;
      assert r'.tasks[k] == r.tasks[k];
    }
  }

  /** A task that keeps being retried is started until its limit is reached. */
  lemma {:induction false} StartedToLimit(r: Record, i: nat, now: int) returns (log: seq<Entry>)
    requires Sound(r) && NoneRunning(r) && i < |r.tasks| && Eligible(r, r.tasks[i], now)
    ensures LegalRun(r, log) && i < |Replay(r, log).tasks|
    ensures Replay(r, log).tasks[i].attempts == Limit(Cap(r.tasks[i], r))
    decreases Limit(Cap(r.tasks[i], r)) - r.tasks[i].attempts
  {
    hide Sound, Eligible, Legal, Limit, LegalRun, Replay, NoneRunning;
    var id, cap := r.tasks[i].id, Cap(r.tasks[i], r);
    BelowLimit(r, i, now);
    StartedTask(r, i, now);
    OneWrite(r, now, Start(id));
    var s := Apply(r, Start(id));
    log := [Entry(now, Start(id))];
    assert s.tasks[i] == Effect(r.tasks[i], Start(id));
    if r.tasks[i].attempts + 1 < Limit(cap) {
      OneWrite(s, now, Requeue(id));
      LegalJoin(r, log, [Entry(now, Requeue(id))]);
      RetriedEligible(r, i, now);
      var rest := StartedToLimit(Retried(r, id), i, now);
      LegalJoin(r, log + [Entry(now, Requeue(id))], rest);
      log := log + [Entry(now, Requeue(id))] + rest;
    }
  }

  lemma {:induction false} BelowLimit(r: Record, i: nat, now: int)
    requires i < |r.tasks| && Eligible(r, r.tasks[i], now)
    ensures r.tasks[i].attempts < Limit(Cap(r.tasks[i], r)) && Cap(r.tasks[i], r) > 0.0
  {
    LimitExact(Cap(r.tasks[i], r), r.tasks[i].attempts);
  }

  /** Within a whole cap every run keeps to it. */
  lemma {:induction false} WholeCapKept(r: Record, log: seq<Entry>, i: nat)
    requires Sound(r) && LegalRun(r, log) && i < |r.tasks|
    requires Whole(Cap(r.tasks[i], r)) && Cap(r.tasks[i], r) > 0.0
    ensures !Overshoots(Replay(r, log), i)
  {
    hide LegalRun, Limit, Whole;
    SoundRun(r, log);
    SameCap(r, log, i);
    var end := Replay(r, log);
    WholeWithin(Cap(end.tasks[i], end), end.tasks[i].attempts);
  }

  /** A task that may be started keeps to its cap in every run exactly when the cap is a whole number. */
  lemma {:induction false} CapKeptIff(r: Record, i: nat, now: int)
    requires Sound(r) && NoneRunning(r) && i < |r.tasks| && Eligible(r, r.tasks[i], now)
    ensures (forall log :: LegalRun(r, log) ==> !Overshoots(Replay(r, log), i)) <==> Whole(Cap(r.tasks[i], r))
  {
    hide Sound, LegalRun, Replay, Eligible, Limit, NoneRunning, Whole;
    BelowLimit(r, i, now);
    if Whole(Cap(r.tasks[i], r)) {
      forall log | LegalRun(r, log)
        ensures !Overshoots(Replay(r, log), i)
      {
        WholeCapKept(r, log, i);
      }
    } else {
      var log := StartedToLimit(r, i, now);
      SameCap(r, log, i);
      WholeWithin(Cap(r.tasks[i], r), Replay(r, log).tasks[i].attempts);
    }
  }

  // ----- whole jobs

  lemma {:induction false} UntouchedSound(r: Record)
    requires UniqueIds(r) && Untouched(r)
    ensures Sound(r) && forall i :: 0 <= i < |r.tasks| ==> Cap(r.tasks[i], r) > 0.0
  {
    forall i | 0 <= i < |r.tasks|
      ensures r.tasks[i].attempts <= Limit(Cap(r.tasks[i], r)) && Cap(r.tasks[i], r) > 0.0
    {
      LimitExact(Cap(r.tasks[i], r), r.tasks[i].attempts);
    }
  }

  /** In a layered job every task can be brought to where it may be started. */
  lemma {:induction false} BroughtToStart(r: Record, rank: string -> nat, i: nat) returns (log: seq<Entry>, now: int)
    requires UniqueIds(r) && Untouched(r) && Acyclic(r, rank) && i < |r.tasks|
    ensures LegalRun(r, log)
    ensures var at := Replay(r, log); i < |at.tasks| && NoneRunning(at) && Eligible(at, at.tasks[i], now)
  {
    var whole := FinishAll(r, 0, rank);
    var id := r.tasks[i].id;
    WiringKept(r, whole, i);
    assert HasStatus(Replay(r, whole), id, {Done, Running});
    BegunWasStarted(r, whole, id);
    var n := FirstStart(whole, id);
    log, now := whole[..n], whole[n].now;
    LegalPrefix(r, whole, n);
    assert Legal(Replay(r, log), now, whole[n].write);
    var k := ReadyIndex(Replay(r, log), now, id);
    assert Wired(log);
    WiringKept(r, log, i);
    UniqueRun(r, log);
    assert k == i;
  }

  ghost predicate KeepsCap(r: Record, i: nat) {
    forall log :: LegalRun(r, log) ==> !Overshoots(Replay(r, log), i)
  }

  lemma {:induction false} KeptFromStart(r: Record, log: seq<Entry>, i: nat)
    requires LegalRun(r, log) && KeepsCap(r, i)
    ensures KeepsCap(Replay(r, log), i)
  {
    hide LegalRun, Replay, Overshoots;
    var at := Replay(r, log);
    forall rest | LegalRun(at, rest)
      ensures !Overshoots(Replay(at, rest), i)
    {
      LegalJoin(r, log, rest);
    }
  }

  /** In a new layered job no run starts any task more often than its cap, exactly when all caps are whole. */
  lemma {:induction false} JobCapsIff(r: Record, rank: string -> nat)
    requires UniqueIds(r) && Untouched(r) && Acyclic(r, rank)
    ensures (forall i :: 0 <= i < |r.tasks| ==> KeepsCap(r, i))
            <==> forall i :: 0 <= i < |r.tasks| ==> Whole(Cap(r.tasks[i], r))
  {
    UntouchedSound(r);
    hide UniqueIds, Untouched, Acyclic, Sound, LegalRun, Replay, Whole, Overshoots, Eligible, NoneRunning;
    forall i | 0 <= i < |r.tasks|
      ensures KeepsCap(r, i) <==> Whole(Cap(r.tasks[i], r))
    {
      if Whole(Cap(r.tasks[i], r)) {
        forall log | LegalRun(r, log)
          ensures !Overshoots(Replay(r, log), i)
        {
          WholeCapKept(r, log, i);
        }
      } else if KeepsCap(r, i) {
        var log, now := BroughtToStart(r, rank, i);
        SoundRun(r, log);
        SameCap(r, log, i);
        KeptFromStart(r, log, i);
        CapKeptIff(Replay(r, log), i, now);
        assert false;
      }
    }
  }
}
