/**
  What every run of the interpreter looks like, whatever the page does. The grammar of a
  progress trace is an automaton that reads events one by one, knowing only the plan.
*/
module PlanTrace {
  import opened Common
  import opened PagePlan
  import opened Interpreter
  import opened PlanValidate

  /** Where in the plan a trace stands: action `k`, attempt `j`, stage, and `n` steps of that stage. */
  datatype Phase =
    | Fresh
    | Between(k: nat)
    | Trying(k: nat, j: nat, ran: bool)
    | Inside(k: nat, j: nat, ran: bool, stage: nat, n: nat, alive: bool)
    | Won(k: nat, j: nat)
    | Lost(k: nat)
    | Over(k: nat, done: bool)
    | Bad

  /** `n` steps of a stage done, none failed. A finished setup is the same as a stage yet to start. */
  function Standing(action: PlanAction, k: nat, j: nat, ran: bool, stage: nat, n: nat): Phase
    requires j < |action.attempts|
  {
    if stage == 0 && n == |action.setup.GetOr([])| then Inside(k, j, true, 1, 0, true)
    else if stage == 2 && n == 0 then Inside(k, j, ran, 1, |action.attempts[j].steps|, true)
    else Inside(k, j, ran, stage, n, true)
  }

  function AfterStep(action: PlanAction, p: Phase, stage: nat, n: nat, ok: bool): Phase
    requires p.Inside? && p.j < |action.attempts|
  {
    if ok then Standing(action, p.k, p.j, p.ran, stage, n + 1) else Inside(p.k, p.j, p.ran, stage, n + 1, false)
  }

  predicate TellsStep(action: PlanAction, a: Attempt, stage: nat, n: nat, e: Event) {
    && e.StepDone? && e.id == action.id && e.attempt == Tag(a, stage)
    && n < |StageSteps(action, a, stage)| && e.op == OpName(StageSteps(action, a, stage)[n])
  }

  predicate StageComplete(action: PlanAction, a: Attempt, p: Phase) {
    p.Inside? && p.alive && p.n == |StageSteps(action, a, p.stage)|
  }

  predicate MayAccept(action: PlanAction, a: Attempt, p: Phase) {
    StageComplete(action, a, p) && (p.stage == 2 || (p.stage == 1 && a.thenSteps.GetOr([]) == []))
  }

  predicate MayReject(action: PlanAction, a: Attempt, p: Phase) {
    p.Inside? && (!p.alive || (StageComplete(action, a, p) && (p.stage == 1 || (p.stage == 2 && a.doneWhen.Some?))))
  }

  function AdvanceInside(action: PlanAction, p: Phase, e: Event): Phase
    requires p.Inside?
  {
    if p.j >= |action.attempts| then Bad
    else
      var a := action.attempts[p.j];
      if p.alive && TellsStep(action, a, p.stage, p.n, e) then AfterStep(action, p, p.stage, p.n, e.ok)
      else if p.stage == 1 && StageComplete(action, a, p) && TellsStep(action, a, 2, 0, e) then
        AfterStep(action, p, 2, 0, e.ok)
      else if e == AttemptResult(action.id, a.name, true) && MayAccept(action, a, p) then Won(p.k, p.j)
      else if e == AttemptResult(action.id, a.name, false) && MayReject(action, a, p) then
        Trying(p.k, p.j + 1, p.ran)
      else Bad
  }

  function AdvanceBetween(plan: Plan, k: nat, e: Event): Phase {
    if k < |plan.actions| && e == ActionStart(plan.actions[k].id, plan.actions[k].intent) then Trying(k, 0, false)
    else if k == |plan.actions| && e == PlanDone(Ids(plan)) then Over(k, true)
    else Bad
  }

  function Advance(plan: Plan, p: Phase, e: Event): Phase {
    match p
    case Fresh => if e == Escalate then Over(0, false) else AdvanceBetween(plan, 0, e)
    case Between(k) => AdvanceBetween(plan, k, e)
    case Trying(k, j, ran) =>
      if k >= |plan.actions| then Bad
      else
        var action := plan.actions[k];
        if j < |action.attempts| then
          if e == AttemptStart(action.id, action.attempts[j].name) then
            Standing(action, k, j, ran, if RunsSetup(action, ran) then 0 else 1, 0)
          else Bad
        else if e == ActionFailed(action.id) then Lost(k)
        else if e == Escalate then Over(k, false)
        else Bad
    case Inside(k, _, _, _, _, _) =>
      if k >= |plan.actions| then Bad else AdvanceInside(plan.actions[k], p, e)
    case Won(k, j) =>
      if e == Escalate then Over(k, false)
      else if && k < |plan.actions| && j < |plan.actions[k].attempts|
              && e == ActionDone(plan.actions[k].id, plan.actions[k].attempts[j].name) then Between(k + 1)
      else Bad
    case Lost(k) => if e == Escalate then Over(k, false) else Bad
    case Over(_, _) => Bad
    case Bad => Bad
  }

  /** Reads a whole trace. */
  function Read(plan: Plan, log: seq<Event>): Phase {
    if log == [] then Fresh else Advance(plan, Read(plan, log[..|log| - 1]), log[|log| - 1])
  }

  lemma {:induction false} ReadEmitted(plan: Plan, s: State, e: Event)
    ensures Read(plan, s.Emitted(e).log) == Advance(plan, Read(plan, s.log), e)
  {
    var log := s.Emitted(e).log;
    assert log[..|log| - 1] == s.log;
  }

  lemma {:induction false} ScrollSilent(step: Step, i: nat, b: Page, s: State)
    requires step.ScrollUntil? && i <= Max(ScrollLimit(step.maxScrolls), 0)
    ensures ScrollRun(step, i, b, s).s.log == s.log
    ensures ScrollRun(step, i, b, s).s.acts <= s.acts + Max(ScrollLimit(step.maxScrolls), 0) - i
    decreases ScrollLimit(step.maxScrolls) - i
  {
    if i < ScrollLimit(step.maxScrolls) {
      ScrollSilent(step, i + 1, b, s.Later(1).Acted());
    }
  }

  lemma {:induction false} WaitSilent(p: Predicate, deadline: int, b: Page, s: State)
    ensures WaitRun(p, deadline, b, s).s.log == s.log && WaitRun(p, deadline, b, s).s.acts == s.acts
    decreases deadline - b.clock(s.t)
  {
    assert Ticks(b, s.t);
    if b.clock(s.t) < deadline {
      WaitSilent(p, deadline, b, s.Later(2));
    }
  }

  /** One step emits nothing itself and acts at most `MAX_SCROLLS` times. */
  lemma {:induction false} StepSilent(step: Step, b: Page, s: State)
    ensures StepRun(step, b, s).s.log == s.log
    ensures StepRun(step, b, s).s.acts <= s.acts + MAX_SCROLLS
  {
    match step
    case ScrollUntil(_, _, _, _) => ScrollSilent(step, 0, b, s);
    case Wait(_, waitFor, timeoutMs) =>
      if waitFor.Some? {
        WaitSilent(waitFor.value, b.clock(s.t) + timeoutMs.GetOr(3000), b, s);
      }
    case _ =>
  }

  // ----- every run obeys the grammar

  /** The steps of a stage from the n-th on. */
  lemma {:induction false} StageReads(plan: Plan, k: nat, j: nat, ran: bool, stage: nat, n: nat, b: Page, s: State)
    requires k < |plan.actions| && j < |plan.actions[k].attempts| && stage <= 2
    requires var a := plan.actions[k].attempts[j]; n <= |StageSteps(plan.actions[k], a, stage)|
    requires stage == 0 ==> plan.actions[k].setup.Some?
    requires Read(plan, s.log) == Standing(plan.actions[k], k, j, ran, stage, n)
    ensures var action := plan.actions[k];
            var a := action.attempts[j];
            var steps := StageSteps(action, a, stage);
            var r := StepsRun(steps[n..], action.id, Tag(a, stage), b, s);
            var p := Read(plan, r.s.log);
            if r.ok then p == Standing(action, k, j, ran, stage, |steps|)
            else p.Inside? && p == Inside(k, j, ran, stage, p.n, false)
    decreases |StageSteps(plan.actions[k], plan.actions[k].attempts[j], stage)| - n
  {
    hide Advance, Read, StepRun;
    var action := plan.actions[k];
    var a := action.attempts[j];
    var steps := StageSteps(action, a, stage);
    if n < |steps| {
      assert steps[n..][0] == steps[n] && steps[n..][1..] == steps[n + 1..];
      var r := StepRun(steps[n], b, s);
      var e := StepDone(action.id, Tag(a, stage), OpName(steps[n]), r.ok);
      StepSilent(steps[n], b, s);
      ReadEmitted(plan, r.s, e);
      StepAdvances(plan, k, j, ran, stage, n, e);
      if r.ok {
        StageReads(plan, k, j, ran, stage, n + 1, b, r.s.Emitted(e).Later(1));
      }
    }
  }

  lemma {:induction false} StepAdvances(plan: Plan, k: nat, j: nat, ran: bool, stage: nat, n: nat, e: Event)
    requires k < |plan.actions| && j < |plan.actions[k].attempts| && stage <= 2
    requires TellsStep(plan.actions[k], plan.actions[k].attempts[j], stage, n, e)
    ensures var action := plan.actions[k];
            Advance(plan, Standing(action, k, j, ran, stage, n), e)
            == if e.ok then Standing(action, k, j, ran, stage, n + 1) else Inside(k, j, ran, stage, n + 1, false)
  {
    var a := plan.actions[k].attempts[j];
    if stage == 2 && n == 0 {
      assert |Tag(a, 2)| == |a.name| + 5;
    }
  }

  lemma {:induction false} BodyReads(plan: Plan, k: nat, j: nat, ran: bool, b: Page, s: State)
    requires k < |plan.actions| && j < |plan.actions[k].attempts|
    requires Read(plan, s.log) == Standing(plan.actions[k], k, j, ran, 1, 0)
    ensures var action := plan.actions[k];
            var a := action.attempts[j];
            var r := BodyRun(action, a, b, s);
            var p := Read(plan, r.s.log);
            p.Inside? && p.k == k && p.j == j && p.ran == ran
            && if r.ok then MayAccept(action, a, p) else MayReject(action, a, p)
  {
    var action := plan.actions[k];
    var a := action.attempts[j];
    var steps, rest := a.steps, a.thenSteps.GetOr([]);
    StageReads(plan, k, j, ran, 1, 0, b, s);
    assert steps[0..] == steps && rest[0..] == rest;
    var body := StageRun(action, a, 1, b, s);
    if body.ok && rest != [] {
      StageReads(plan, k, j, ran, 2, 0, b, body.s);
    }
  }

  lemma {:induction false} AttemptAdvances(plan: Plan, k: nat, j: nat, ran: bool, p: Phase)
    requires k < |plan.actions| && j < |plan.actions[k].attempts|
    requires p.Inside? && p.k == k && p.j == j
    ensures var action := plan.actions[k];
            var a := action.attempts[j];
            && Advance(plan, Trying(k, j, ran), AttemptStart(action.id, a.name))
               == Standing(action, k, j, ran, if RunsSetup(action, ran) then 0 else 1, 0)
            && (MayAccept(action, a, p) ==> Advance(plan, p, AttemptResult(action.id, a.name, true)) == Won(k, j))
            && (MayReject(action, a, p) ==>
                  Advance(plan, p, AttemptResult(action.id, a.name, false)) == Trying(k, j + 1, p.ran))
  {
  }

  lemma {:induction false} AttemptReads(plan: Plan, k: nat, j: nat, ran: bool, b: Page, s: State)
    requires k < |plan.actions| && j < |plan.actions[k].attempts|
    requires Read(plan, s.log) == Trying(k, j, ran)
    ensures var (r, ran') := AttemptRun(plan.actions[k], plan.actions[k].attempts[j], ran, b, s);
            Read(plan, r.s.log) == if r.ok then Won(k, j) else Trying(k, j + 1, ran')
  {
    hide Advance, Read, StepsRun, BodyRun, MayAccept;
    var action := plan.actions[k];
    var a := action.attempts[j];
    var s0 := s.Emitted(AttemptStart(action.id, a.name));
    AttemptAdvances(plan, k, j, ran, Inside(k, j, ran, 0, 0, true));
    ReadEmitted(plan, s, AttemptStart(action.id, a.name));
    var setup := if RunsSetup(action, ran) then StageRun(action, a, 0, b, s0) else Run(true, s0);
    if RunsSetup(action, ran) {
      assert action.setup.GetOr([])[0..] == action.setup.GetOr([]);
      StageReads(plan, k, j, ran, 0, 0, b, s0);
    }
    var ran' := ran || (action.setup.Some? && setup.ok);
    var r := if setup.ok then BodyRun(action, a, b, setup.s) else setup;
    if setup.ok {
      BodyReads(plan, k, j, ran', b, setup.s);
    }
    AttemptAdvances(plan, k, j, ran, Read(plan, r.s.log));
    ReadEmitted(plan, r.s, AttemptResult(action.id, a.name, r.ok));
  }

  lemma {:induction false} AttemptsRead(plan: Plan, k: nat, j: nat, ran: bool, b: Page, s: State)
    requires k < |plan.actions| && j <= |plan.actions[k].attempts|
    requires Read(plan, s.log) == Trying(k, j, ran)
    ensures var action := plan.actions[k];
            var r := AttemptsRun(action, j, ran, b, s);
            var p := Read(plan, r.s.log);
            if r.ok then p.Won? && p.k == k && j <= p.j < |action.attempts| && r.via == Some(action.attempts[p.j].name)
            else p.Trying? && p.k == k && p.j == |action.attempts| && r.via == None
    decreases |plan.actions[k].attempts| - j
  {
    hide Advance, Read, AttemptRun;
    var action := plan.actions[k];
    if j < |action.attempts| {
      AttemptReads(plan, k, j, ran, b, s);
      var (r, ran') := AttemptRun(action, action.attempts[j], ran, b, s);
      if !r.ok {
        AttemptsRead(plan, k, j + 1, ran', b, r.s);
      }
    }
  }

  lemma {:induction false} ActionAdvances(plan: Plan, k: nat, j: nat, ran: bool)
    requires k < |plan.actions|
    ensures var action := plan.actions[k];
            && Advance(plan, Between(k), ActionStart(action.id, action.intent)) == Trying(k, 0, false)
            && (k == 0 ==> Advance(plan, Fresh, ActionStart(action.id, action.intent)) == Trying(k, 0, false))
            && (j < |action.attempts| ==>
                  Advance(plan, Won(k, j), ActionDone(action.id, action.attempts[j].name)) == Between(k + 1))
            && Advance(plan, Won(k, j), Escalate) == Over(k, false)
            && Advance(plan, Trying(k, |action.attempts|, ran), Escalate) == Over(k, false)
            && Advance(plan, Trying(k, |action.attempts|, ran), ActionFailed(action.id)) == Lost(k)
            && Advance(plan, Lost(k), Escalate) == Over(k, false)
  {
  }

  /** How one action leaves the trace: escalated off the page, handed to the next action, or failed. */
  lemma {:induction false} ActionReads(plan: Plan, k: nat, b: Page, s: State)
    requires k < |plan.actions|
    requires Read(plan, s.log) == Between(k) || (k == 0 && Read(plan, s.log) == Fresh)
    ensures var action := plan.actions[k];
            var r := AttemptsRun(action, 0, false, b, s.Emitted(ActionStart(action.id, action.intent)));
            && Read(plan, r.s.Emitted(Escalate).log) == Over(k, false)
            && (r.ok ==> Read(plan, r.s.Emitted(ActionDone(action.id, r.via.GetOr("unknown"))).log) == Between(k + 1))
            && (!r.ok ==> Read(plan, r.s.Emitted(ActionFailed(action.id)).Emitted(Escalate).log) == Over(k, false))
  {
    hide Advance, Read, AttemptsRun;
    var action := plan.actions[k];
    ActionAdvances(plan, k, 0, false);
    var s0 := s.Emitted(ActionStart(action.id, action.intent));
    ReadEmitted(plan, s, ActionStart(action.id, action.intent));
    AttemptsRead(plan, k, 0, false, b, s0);
    var r := AttemptsRun(action, 0, false, b, s0);
    var p := Read(plan, r.s.log);
    ActionAdvances(plan, k, p.j, if p.Trying? then p.ran else false);
    ReadEmitted(plan, r.s, Escalate);
    ReadEmitted(plan, r.s, ActionDone(action.id, r.via.GetOr("unknown")));
    ReadEmitted(plan, r.s, ActionFailed(action.id));
    ReadEmitted(plan, r.s.Emitted(ActionFailed(action.id)), Escalate);
  }

  lemma {:induction false} PlanEndReads(plan: Plan, b: Page, s: State)
    requires Read(plan, s.log) == Between(|plan.actions|) || (|plan.actions| == 0 && Read(plan, s.log) == Fresh)
    ensures var r := ActionsRun(plan, |plan.actions|, b, s);
            Read(plan, r.s.log) == Over(r.completed, r.ok)
  {
    assert Ids(plan)[..|plan.actions|] == Ids(plan);
    ReadEmitted(plan, s, PlanDone(Ids(plan)));
  }

  /** One unfolding of the run over the actions. */
  lemma {:induction false} ActionsStep(plan: Plan, k: nat, b: Page, s: State, r: ActionRun)
    requires k < |plan.actions|
    requires var a := plan.actions[k]; r == AttemptsRun(a, 0, false, b, s.Emitted(ActionStart(a.id, a.intent)))
    ensures ActionsRun(plan, k, b, s)
            == if !OnPage(plan.hint, b, r.s.t) then PlanRun(false, k, true, r.s.Emitted(Escalate))
               else if r.ok then
                 ActionsRun(plan, k + 1, b, r.s.Emitted(ActionDone(plan.actions[k].id, r.via.GetOr("unknown"))))
               else PlanRun(false, k, true, r.s.Emitted(ActionFailed(plan.actions[k].id)).Emitted(Escalate))
  {
    hide AttemptsRun, OnPage, Ids;
  }

  lemma {:induction false} ActionsRead(plan: Plan, k: nat, b: Page, s: State)
    requires k <= |plan.actions|
    requires Read(plan, s.log) == Between(k) || (k == 0 && Read(plan, s.log) == Fresh)
    ensures var r := ActionsRun(plan, k, b, s);
            Read(plan, r.s.log) == Over(r.completed, r.ok)
    decreases |plan.actions| - k
  {
    hide Advance, Read, AttemptsRun, ActionsRun, OnPage;
    if k == |plan.actions| {
      PlanEndReads(plan, b, s);
    } else {
      ActionReads(plan, k, b, s);
      var action := plan.actions[k];
      var r := AttemptsRun(action, 0, false, b, s.Emitted(ActionStart(action.id, action.intent)));
      ActionsStep(plan, k, b, s, r);
      if OnPage(plan.hint, b, r.s.t) && r.ok {
        ActionsRead(plan, k + 1, b, r.s.Emitted(ActionDone(action.id, r.via.GetOr("unknown"))));
      }
    }
  }

  /**
    Whatever the page does, the trace is a sentence of the grammar, and how it ends tells how
    many actions were completed and whether the plan was.
  */
  lemma {:induction false} EveryRunReads(plan: Plan, b: Page, t: nat)
    ensures var r := WholeRun(plan, b, State(t, 0, []));
            Read(plan, r.s.log) == Over(r.completed, r.ok && r.completed == |plan.actions|)
  {
    hide OnPage, ActionsRun;
    var s := State(t, 0, []).Later(1);
    assert Read(plan, s.log) == Fresh;
    if OnPage(plan.hint, b, t + 1) {
      ActionsRead(plan, 0, b, s);
    } else {
      ReadEmitted(plan, s, Escalate);
    }
  }

  // ----- what the grammar entails

  predicate Terminal(e: Event) {
    e.PlanDone? || e.Escalate?
  }

  function Tally(log: seq<Event>, p: Event -> bool): nat {
    if log == [] then 0 else Tally(log[..|log| - 1], p) + (if p(log[|log| - 1]) then 1 else 0)
  }

  const Starts: Event -> bool := (e: Event) => e.AttemptStart?
  const Results: Event -> bool := (e: Event) => e.AttemptResult?

  lemma {:induction false} DeadEnds(plan: Plan, p: Phase, e: Event)
    requires p == Bad || p.Over?
    ensures Advance(plan, p, e) == Bad
  {}

  lemma {:induction false} PrefixReads(plan: Plan, log: seq<Event>, i: nat)
    requires Read(plan, log) != Bad && i < |log|
    ensures Read(plan, log[..i]) != Bad && !Read(plan, log[..i]).Over?
    ensures Advance(plan, Read(plan, log[..i]), log[i]) == Read(plan, log[..i + 1]) != Bad
  {
    hide Advance;
    var front := log[..|log| - 1];
    if Read(plan, front) == Bad || Read(plan, front).Over? {
      DeadEnds(plan, Read(plan, front), log[|log| - 1]);
    }
    if i < |log| - 1 {
      PrefixReads(plan, front, i);
      assert front[..i] == log[..i] && front[..i + 1] == log[..i + 1];
    } else {
      assert log[..i + 1] == log;
    }
  }

  /** Only the two ending events end a trace. */
  lemma {:induction false} EndingAdvances(plan: Plan, p: Phase, e: Event)
    ensures var q := Advance(plan, p, e);
            && (Terminal(e) ==> q.Over? || q == Bad)
            && (q.Over? ==> Terminal(e) && (q.done <==> e.PlanDone?))
            && (q.Over? && q.done ==> e == PlanDone(Ids(plan)) && q.k == |plan.actions|)
  {
  }

  /** Exactly one `plan_done` or `escalate`, and it is the last event. */
  lemma {:induction false} OneEnding(plan: Plan, log: seq<Event>)
    requires Read(plan, log).Over?
    ensures log != [] && Terminal(log[|log| - 1])
    ensures forall i :: 0 <= i < |log| - 1 ==> !Terminal(log[i])
    ensures Read(plan, log).done <==> log[|log| - 1].PlanDone?
    ensures Read(plan, log).done ==> log[|log| - 1] == PlanDone(Ids(plan)) && Read(plan, log).k == |plan.actions|
  {
    assert log != [];
    hide Advance, Read;
    var last := |log| - 1;
    PrefixReads(plan, log, last);
    EndingAdvances(plan, Read(plan, log[..last]), log[last]);
    assert log[..last + 1] == log;
    forall i | 0 <= i < last
      ensures !Terminal(log[i])
    {
      PrefixReads(plan, log, i);
      PrefixReads(plan, log, i + 1);
      EndingAdvances(plan, Read(plan, log[..i]), log[i]);
    }
  }

  /** A start opens an attempt, a result closes it, nothing else does either. */
  lemma {:induction false} OpensOrCloses(plan: Plan, p: Phase, e: Event)
    requires Advance(plan, p, e) != Bad
    ensures var q := Advance(plan, p, e);
            && (e.AttemptStart? <==> !p.Inside? && q.Inside?)
            && (e.AttemptResult? <==> p.Inside? && !q.Inside?)
  {
    hide StageSteps, MayAccept, MayReject, StageComplete, Ids;
  }

  /** Starts and results of attempts alternate: at any point at most one attempt is open, and none at the end. */
  lemma {:induction false} AttemptsPaired(plan: Plan, log: seq<Event>)
    requires Read(plan, log) != Bad
    ensures Tally(log, Starts) == Tally(log, Results) + (if Read(plan, log).Inside? then 1 else 0)
  {
    hide Advance;
    if log != [] {
      var n := |log| - 1;
      PrefixReads(plan, log, n);
      AttemptsPaired(plan, log[..n]);
      OpensOrCloses(plan, Read(plan, log[..n]), log[n]);
    }
  }

  lemma {:induction false} AcceptedWins(plan: Plan, p: Phase, e: Event)
    requires e.AttemptResult? && e.ok && Advance(plan, p, e) != Bad
    ensures var q := Advance(plan, p, e);
            && q.Won? && q.k < |plan.actions| && q.j < |plan.actions[q.k].attempts|
            && e.id == plan.actions[q.k].id && e.attempt == plan.actions[q.k].attempts[q.j].name
  {
    hide Standing, AfterStep, MayAccept, MayReject, StageComplete, Ids;
  }

  lemma {:induction false} AfterAccepted(plan: Plan, p: Phase, e: Event, f: Event)
    requires e.AttemptResult? && e.ok
    requires Advance(plan, Advance(plan, p, e), f) != Bad
    ensures f == ActionDone(e.id, e.attempt) || f == Escalate
  {
    hide AdvanceInside, AdvanceBetween, Standing, Ids;
    AcceptedWins(plan, p, e);
  }

  lemma {:induction false} FailedStepCloses(plan: Plan, p: Phase, e: Event)
    requires e.StepDone? && !e.ok && Advance(plan, p, e) != Bad
    ensures var q := Advance(plan, p, e);
            q.Inside? && !q.alive && q.k < |plan.actions| && plan.actions[q.k].id == e.id
  {
    hide Standing, MayAccept, MayReject, StageComplete, Ids;
  }

  lemma {:induction false} AfterFailedStep(plan: Plan, p: Phase, e: Event, f: Event)
    requires e.StepDone? && !e.ok
    requires Advance(plan, Advance(plan, p, e), f) != Bad
    ensures f.AttemptResult? && !f.ok && f.id == e.id
  {
    hide Standing, TellsStep, AfterStep, MayReject, Ids;
    FailedStepCloses(plan, p, e);
  }

  /** An accepted attempt is the last of its action, and a failed step is the last of its attempt. */
  lemma {:induction false} NothingAfter(plan: Plan, log: seq<Event>, i: nat)
    requires Read(plan, log) != Bad && i + 1 < |log|
    ensures log[i].AttemptResult? && log[i].ok ==>
              log[i + 1] == ActionDone(log[i].id, log[i].attempt) || log[i + 1] == Escalate
    ensures log[i].StepDone? && !log[i].ok ==>
              log[i + 1].AttemptResult? && !log[i + 1].ok && log[i + 1].id == log[i].id
  {
    hide Advance, Read;
    PrefixReads(plan, log, i);
    PrefixReads(plan, log, i + 1);
    var p := Read(plan, log[..i]);
    if log[i].AttemptResult? && log[i].ok {
      AfterAccepted(plan, p, log[i], log[i + 1]);
    }
    if log[i].StepDone? && !log[i].ok {
      AfterFailedStep(plan, p, log[i], log[i + 1]);
    }
  }

  // ----- bounds

  lemma {:induction false} StepsBound(steps: seq<Step>, id: string, tag: string, b: Page, s: State)
    ensures StepsRun(steps, id, tag, b, s).s.acts <= s.acts + MAX_SCROLLS * |steps|
  {
    if steps != [] {
      StepSilent(steps[0], b, s);
      var r := StepRun(steps[0], b, s);
      StepsBound(steps[1..], id, tag, b, r.s.Emitted(StepDone(id, tag, OpName(steps[0]), r.ok)).Later(1));
    }
  }

  const ATTEMPT_BOUND := 224
  const ACTION_BOUND := 1344
  const PLAN_BOUND := 10752

  lemma {:induction false} BoundsMultiply()
    ensures ATTEMPT_BOUND == MAX_SCROLLS * (MAX_SETUP + MAX_STEPS + MAX_STEPS)
    ensures ACTION_BOUND == MAX_ATTEMPTS * ATTEMPT_BOUND
    ensures PLAN_BOUND == MAX_ACTIONS * ACTION_BOUND
  {
  }

  lemma {:induction false} BodyBound(action: PlanAction, a: Attempt, b: Page, s: State)
    requires AttemptWithin(a)
    ensures BodyRun(action, a, b, s).s.acts <= s.acts + MAX_SCROLLS * (MAX_STEPS + MAX_STEPS)
  {
    StepsBound(a.steps, action.id, Tag(a, 1), b, s);
    var body := StageRun(action, a, 1, b, s);
    StepsBound(a.thenSteps.GetOr([]), action.id, Tag(a, 2), b, body.s);
  }

  lemma {:induction false} AttemptBound(action: PlanAction, a: Attempt, ran: bool, b: Page, s: State)
    requires ActionWithin(action) && AttemptWithin(a)
    ensures AttemptRun(action, a, ran, b, s).0.s.acts <= s.acts + ATTEMPT_BOUND
  {
    var s0 := s.Emitted(AttemptStart(action.id, a.name));
    StepsBound(action.setup.GetOr([]), action.id, Tag(a, 0), b, s0);
    var setup := if RunsSetup(action, ran) then StageRun(action, a, 0, b, s0) else Run(true, s0);
    BodyBound(action, a, b, setup.s);
  }

  lemma {:induction false} AttemptsBound(action: PlanAction, j: nat, ran: bool, b: Page, s: State)
    requires ActionWithin(action) && j <= |action.attempts|
    ensures AttemptsRun(action, j, ran, b, s).s.acts <= s.acts + (|action.attempts| - j) * ATTEMPT_BOUND
    decreases |action.attempts| - j
  {
    if j < |action.attempts| {
      AttemptBound(action, action.attempts[j], ran, b, s);
      var (r, ran') := AttemptRun(action, action.attempts[j], ran, b, s);
      AttemptsBound(action, j + 1, ran', b, r.s);
    }
  }

  lemma {:induction false} ActionsBound(plan: Plan, k: nat, b: Page, s: State)
    requires PlanWithin(plan) && k <= |plan.actions|
    ensures ActionsRun(plan, k, b, s).s.acts <= s.acts + (|plan.actions| - k) * ACTION_BOUND
    decreases |plan.actions| - k
  {
    if k < |plan.actions| {
      var action := plan.actions[k];
      assert ActionWithin(action);
      var s0 := s.Emitted(ActionStart(action.id, action.intent));
      AttemptsBound(action, 0, false, b, s0);
      var r := AttemptsRun(action, 0, false, b, s0);
      if OnPage(plan.hint, b, r.s.t) && r.ok {
        ActionsBound(plan, k + 1, b, r.s.Emitted(ActionDone(action.id, r.via.GetOr("unknown"))));
      }
    }
  }

  /** A plan within the limits acts at most 10752 times, whatever the page does. */
  lemma {:induction false} ActBound(plan: Plan, b: Page, t: nat)
    requires PlanWithin(plan)
    ensures WholeRun(plan, b, State(t, 0, [])).s.acts <= PLAN_BOUND == 10752
    ensures PLAN_BOUND == MAX_ACTIONS * (MAX_ATTEMPTS * (MAX_SCROLLS * (MAX_SETUP + MAX_STEPS + MAX_STEPS)))
  {
    BoundsMultiply();
    ActionsBound(plan, 0, b, State(t, 0, []).Later(1));
  }

  // ----- what acceptance means

  /** A completed plan ends on the page its hint describes. */
  lemma {:induction false} CompletedOnPage(plan: Plan, k: nat, b: Page, s: State)
    requires k <= |plan.actions| && OnPage(plan.hint, b, s.t)
    ensures ActionsRun(plan, k, b, s).ok ==> OnPage(plan.hint, b, ActionsRun(plan, k, b, s).s.t)
    decreases |plan.actions| - k
  {
    if k < |plan.actions| {
      var action := plan.actions[k];
      var r := AttemptsRun(action, 0, false, b, s.Emitted(ActionStart(action.id, action.intent)));
      if OnPage(plan.hint, b, r.s.t) && r.ok {
        CompletedOnPage(plan, k + 1, b, r.s.Emitted(ActionDone(action.id, r.via.GetOr("unknown"))));
      }
    }
  }

  /** The attempt's steps ran from `start`, its gate held after them, and with its result the action ended at `end`. */
  predicate AcceptedFrom(action: PlanAction, a: Attempt, b: Page, start: State, end: State) {
    var body, r := StageRun(action, a, 1, b, start), BodyRun(action, a, b, start);
    && body.ok && Holds(a.successWhen, b, body.s.t)
    && r.ok && end == r.s.Emitted(AttemptResult(action.id, a.name, true))
  }

  /**
    A successful action names the attempt that was accepted. That attempt's gate held after its
    steps, and if it had something to do after its gate, its `doneWhen` holds when the action ends.
  */
  lemma {:induction false} AcceptedDone(action: PlanAction, j: nat, ran: bool, b: Page, s: State)
    requires j <= |action.attempts| && AttemptsRun(action, j, ran, b, s).ok
    ensures var r := AttemptsRun(action, j, ran, b, s);
            exists i, start :: j <= i < |action.attempts| && r.via == Some(action.attempts[i].name)
                               && AcceptedFrom(action, action.attempts[i], b, start, r.s)
                               && DoneHolds(action.attempts[i], b, r.s.t)
    decreases |action.attempts| - j
  {
    hide BodyRun, StepsRun, AcceptedFrom, DoneHolds;
    var a := action.attempts[j];
    var (r, ran') := AttemptRun(action, a, ran, b, s);
    if r.ok {
      var start := AcceptedAt(action, a, ran, b, s);
    } else {
      AcceptedDone(action, j + 1, ran', b, r.s);
    }
  }

  lemma {:induction false} AcceptedAt(
      action: PlanAction, a: Attempt, ran: bool, b: Page, s: State) returns (start: State)
    requires AttemptRun(action, a, ran, b, s).0.ok
    ensures AcceptedFrom(action, a, b, start, AttemptRun(action, a, ran, b, s).0.s)
    ensures DoneHolds(a, b, AttemptRun(action, a, ran, b, s).0.s.t)
  {
    hide StepsRun;
    var s0 := s.Emitted(AttemptStart(action.id, a.name));
    start := if RunsSetup(action, ran) then StageRun(action, a, 0, b, s0).s else s0;
  }

  predicate DoneHolds(a: Attempt, b: Page, t: nat) {
    a.doneWhen.Some? && a.thenSteps.GetOr([]) != [] ==> Holds(a.doneWhen.value, b, t)
  }

  /** An attempt that ends with its gate is accepted on the very page on which its `doneWhen` is false. */
  lemma {:induction false} AcceptedUndone(action: PlanAction, a: Attempt, b: Page, s: State)
    requires a.thenSteps.GetOr([]) == [] && BodyRun(action, a, b, s).ok
    ensures var r := BodyRun(action, a.(doneWhen := Some(Not(a.successWhen))), b, s);
            r.ok && !Holds(Not(a.successWhen), b, r.s.t)
  {
    hide StepsRun;
  }

  /** Acceptance promises `doneWhen`, whatever it says, exactly of attempts with something to do after their gate. */
  lemma {:induction false} DoneWhenKeptIff(action: PlanAction, a: Attempt, b: Page, s: State)
    requires BodyRun(action, a.(doneWhen := None), b, s).ok
    ensures (forall d :: var r := BodyRun(action, a.(doneWhen := Some(d)), b, s); r.ok ==> Holds(d, b, r.s.t))
            <==> a.thenSteps.GetOr([]) != []
  {
    if a.thenSteps.GetOr([]) == [] {
      AcceptedUndone(action, a.(doneWhen := None), b, s);
      assert a.(doneWhen := None).(doneWhen := Some(Not(a.successWhen))) == a.(doneWhen := Some(Not(a.successWhen)));
      var r := BodyRun(action, a.(doneWhen := Some(Not(a.successWhen))), b, s);
      assert r.ok && !Holds(Not(a.successWhen), b, r.s.t);
    }
  }

  /** The plan without the `doneWhen` of every attempt that has nothing to do after its gate. */
  function IdleAttempt(a: Attempt): Attempt {
    if a.thenSteps.GetOr([]) == [] then a.(doneWhen := None) else a
  }

  function IdleAction(action: PlanAction): PlanAction {
    var n := |action.attempts|;
    action.(attempts := seq(n, i requires 0 <= i < n => IdleAttempt(action.attempts[i])))
  }

  function IdlePlan(plan: Plan): Plan {
    var n := |plan.actions|;
    plan.(actions := seq(n, i requires 0 <= i < n => IdleAction(plan.actions[i])))
  }

  lemma {:induction false} IdleAttemptRun(action: PlanAction, a: Attempt, ran: bool, b: Page, s: State)
    ensures AttemptRun(IdleAction(action), IdleAttempt(a), ran, b, s) == AttemptRun(action, a, ran, b, s)
  {
    hide StepsRun, Holds;
  }

  lemma {:induction false} IdleAttemptsRun(action: PlanAction, j: nat, ran: bool, b: Page, s: State)
    requires j <= |action.attempts|
    ensures AttemptsRun(IdleAction(action), j, ran, b, s) == AttemptsRun(action, j, ran, b, s)
    decreases |action.attempts| - j
  {
    hide AttemptRun;
    if j < |action.attempts| {
      IdleAttemptRun(action, action.attempts[j], ran, b, s);
      var (r, ran') := AttemptRun(action, action.attempts[j], ran, b, s);
      IdleAttemptsRun(action, j + 1, ran', b, r.s);
    }
  }

  lemma {:induction false} IdleActionsRun(plan: Plan, k: nat, b: Page, s: State)
    requires k <= |plan.actions|
    ensures ActionsRun(IdlePlan(plan), k, b, s) == ActionsRun(plan, k, b, s)
    decreases |plan.actions| - k
  {
    hide AttemptsRun;
    assert Ids(IdlePlan(plan)) == Ids(plan);
    if k < |plan.actions| {
      var action := plan.actions[k];
      var s0 := s.Emitted(ActionStart(action.id, action.intent));
      IdleAttemptsRun(action, 0, false, b, s0);
      var r := AttemptsRun(action, 0, false, b, s0);
      IdleActionsRun(plan, k + 1, b, r.s.Emitted(ActionDone(action.id, r.via.GetOr("unknown"))));
    }
  }

  /** On every page, a `doneWhen` with nothing to do before it changes nothing about a run. */
  lemma {:induction false} DoneWhenIgnored(plan: Plan, b: Page, t: nat)
    ensures WholeRun(IdlePlan(plan), b, State(t, 0, [])) == WholeRun(plan, b, State(t, 0, []))
  {
    IdleActionsRun(plan, 0, b, State(t, 0, []).Later(1));
  }

  /** Whatever raw value a plan was read from, running it acts at most 10752 times. */
  lemma {:induction false} ValidatedActBound(raw: Raw, blank: string -> bool, b: Page, t: nat)
    requires Validated(raw, blank).Ok?
    ensures WholeRun(Validated(raw, blank).value, b, State(t, 0, [])).s.acts <= 10752
  {
    ValidatedSound(raw, blank);
    ActBound(Validated(raw, blank).value, b, t);
  }
}
