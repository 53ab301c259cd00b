/**
  The page-plan interpreter (src/plan/interpret.ts). `Session` runs a plan as the source does;
  the functions above it say what a run is for a given page. Step details and reasons, which
  are prose, are left out of the events.
*/
module Interpreter {
  import opened Common
  import opened PagePlan

  datatype Event =
    | ActionStart(id: string, intent: string)
    | AttemptStart(id: string, attempt: string)
    | StepDone(id: string, attempt: string, op: string, ok: bool)
    | AttemptResult(id: string, attempt: string, ok: bool)
    | ActionDone(id: string, via: string)
    | ActionFailed(id: string)
    | PlanDone(ids: seq<string>)
    | Escalate

  /** The moment reached, the acts made and the events emitted so far. */
  datatype State = State(t: nat, acts: nat, log: seq<Event>) {
    function Later(n: nat): State { this.(t := t + n) }
    function Acted(): State { this.(t := t + 1, acts := acts + 1) }
    function Emitted(e: Event): State { this.(log := log + [e]) }
  }

  datatype Run = Run(ok: bool, s: State)

  // ----- one step

  function ScrollLimit(maxScrolls: Option<int>): int {
    Min(maxScrolls.GetOr(6), MAX_SCROLLS)
  }

  function ScrollRun(step: Step, i: nat, b: Page, s: State): Run
    requires step.ScrollUntil?
    decreases ScrollLimit(step.maxScrolls) - i
  {
    if Holds(step.until, b, s.t + 1) then Run(true, s.Later(1))
    else if i >= ScrollLimit(step.maxScrolls) then Run(false, s.Later(1))
    else if !b.act(s.t + 1, Scroll(step.at, false, step.dy)) then Run(false, s.Later(1).Acted())
    else ScrollRun(step, i + 1, b, s.Later(1).Acted())
  }

  function WaitRun(p: Predicate, deadline: int, b: Page, s: State): Run
    decreases deadline - b.clock(s.t)
  {
    if b.clock(s.t) >= deadline then Run(false, s)
    else if Holds(p, b, s.t + 1) then Run(true, s.Later(1))
    else
      assert Ticks(b, s.t);
      WaitRun(p, deadline, b, s.Later(2))
  }

  function FirstVisible(targets: seq<Target>, b: Page, t: nat): Option<Target> {
    if targets == [] then None
    else if b.resolve(t, targets[0]).Some? then Some(targets[0])
    else FirstVisible(targets[1..], b, t)
  }

  function StepRun(step: Step, b: Page, s: State): Run {
    match step
    case ScrollUntil(_, _, _, _) => ScrollRun(step, 0, b, s)
    case Wait(_, waitFor, timeoutMs) =>
      if waitFor.Some? then WaitRun(waitFor.value, b.clock(s.t) + timeoutMs.GetOr(3000), b, s)
      else Run(true, s.Later(1))
    case ClickFirst(targets) =>
      (match FirstVisible(targets, b, s.t)
       case Some(target) => Run(b.act(s.t, Click(target)), s.Acted())
       case None => Run(false, s))
    case _ => Run(b.act(s.t, step), s.Acted())
  }

  // ----- a list of steps, an attempt, an action, a plan

  function StepsRun(steps: seq<Step>, id: string, tag: string, b: Page, s: State): Run {
    if steps == [] then Run(true, s)
    else
      var r := StepRun(steps[0], b, s);
      var told := r.s.Emitted(StepDone(id, tag, OpName(steps[0]), r.ok));
      if !r.ok then Run(false, told) else StepsRun(steps[1..], id, tag, b, told.Later(1))
  }

  /** An attempt runs in up to three stages: the shared setup, its own steps, and what follows them. */
  function Tag(a: Attempt, stage: nat): string {
    if stage == 0 then a.name + "/setup" else if stage == 1 then a.name else a.name + "/then"
  }

  function StageSteps(action: PlanAction, a: Attempt, stage: nat): seq<Step> {
    if stage == 0 then action.setup.GetOr([]) else if stage == 1 then a.steps else a.thenSteps.GetOr([])
  }

  function StageRun(action: PlanAction, a: Attempt, stage: nat, b: Page, s: State): Run {
    StepsRun(StageSteps(action, a, stage), action.id, Tag(a, stage), b, s)
  }

  predicate RunsSetup(action: PlanAction, ranSetup: bool) {
    action.setup.Some? && (!ranSetup || action.setupEveryAttempt)
  }

  /** The attempt after its setup; `ok` means accepted. */
  function BodyRun(action: PlanAction, a: Attempt, b: Page, s: State): Run {
    var body := StageRun(action, a, 1, b, s);
    if !body.ok || !Holds(a.successWhen, b, body.s.t) then Run(false, body.s)
    else if a.thenSteps.GetOr([]) == [] then body
    else
      var rest := StageRun(action, a, 2, b, body.s);
      rest.(ok := rest.ok && (a.doneWhen.Some? ==> Holds(a.doneWhen.value, b, rest.s.t)))
  }

  /** One attempt between its framing events; the second result: has the setup now run? */
  function AttemptRun(action: PlanAction, a: Attempt, ranSetup: bool, b: Page, s: State): (Run, bool) {
    var s0 := s.Emitted(AttemptStart(action.id, a.name));
    var setup := if RunsSetup(action, ranSetup) then StageRun(action, a, 0, b, s0) else Run(true, s0);
    var r := if setup.ok then BodyRun(action, a, b, setup.s) else setup;
    (Run(r.ok, r.s.Emitted(AttemptResult(action.id, a.name, r.ok))),
     ranSetup || (action.setup.Some? && setup.ok))
  }

  datatype ActionRun = ActionRun(ok: bool, via: Option<string>, s: State)

  /** The attempts of an action from the j-th on. */
  function AttemptsRun(action: PlanAction, j: nat, ranSetup: bool, b: Page, s: State): ActionRun
    requires j <= |action.attempts|
    decreases |action.attempts| - j
  {
    if j == |action.attempts| then ActionRun(false, None, s)
    else
      var (r, ran) := AttemptRun(action, action.attempts[j], ranSetup, b, s);
      if r.ok then ActionRun(true, Some(action.attempts[j].name), r.s)
      else AttemptsRun(action, j + 1, ran, b, r.s)
  }

  function Ids(plan: Plan): (ids: seq<string>)
    ensures |ids| == |plan.actions|
  {
    seq(|plan.actions|, i requires 0 <= i < |plan.actions| => plan.actions[i].id)
  }

  datatype PlanRun = PlanRun(ok: bool, completed: nat, failed: bool, s: State)

  /** The actions of a plan from the k-th on; `completed` counts from the start of the plan. */
  function ActionsRun(plan: Plan, k: nat, b: Page, s: State): (r: PlanRun)
    requires k <= |plan.actions|
    ensures k <= r.completed <= |plan.actions|
    ensures r.ok <==> r.completed == |plan.actions|
    ensures r.failed <==> !r.ok
    decreases |plan.actions| - k
  {
    if k == |plan.actions| then PlanRun(true, k, false, s.Emitted(PlanDone(Ids(plan)[..k])))
    else
      var action := plan.actions[k];
      var r := AttemptsRun(action, 0, false, b, s.Emitted(ActionStart(action.id, action.intent)));
      if !OnPage(plan.hint, b, r.s.t) then PlanRun(false, k, true, r.s.Emitted(Escalate))
      else if r.ok then ActionsRun(plan, k + 1, b, r.s.Emitted(ActionDone(action.id, r.via.GetOr("unknown"))))
      else PlanRun(false, k, true, r.s.Emitted(ActionFailed(action.id)).Emitted(Escalate))
  }

  function WholeRun(plan: Plan, b: Page, s: State): (r: PlanRun)
    ensures r.completed <= |plan.actions|
    ensures r.failed ==> r.completed < |plan.actions|
  {
    if !OnPage(plan.hint, b, s.t + 1) then PlanRun(false, 0, false, s.Later(1).Emitted(Escalate))
    else ActionsRun(plan, 0, b, s.Later(1))
  }

  // ----- the interpreter itself

  datatype Status = Completed | Escalated

  datatype PlanResult = PlanResult(
    status: Status, completedActionIds: seq<string>, failedActionId: Option<string>, progress: seq<Event>)

  class Session {
    const page: Page
    var moment: nat
    var progress: seq<Event>
    ghost var acts: nat

    ghost function Now(): State
      reads this
    {
      State(moment, acts, progress)
    }

    constructor (page: Page)
      ensures this.page == page && Now() == State(0, 0, [])
    {
      this.page, moment, progress, acts := page, 0, [], 0;
    }

    method Emit(event: Event)
      modifies this
      ensures Now() == old(Now()).Emitted(event)
    {
      progress := progress + [event];
    }

    /** Re-reading the page and sleeping both let a moment pass. */
    method Inspect()
      modifies this
      ensures Now() == old(Now()).Later(1)
    {
      moment := moment + 1;
    }

    method Sleep()
      modifies this
      ensures Now() == old(Now()).Later(1)
    {
      moment := moment + 1;
    }

    method Act(step: Step) returns (ok: bool)
      modifies this
      ensures ok == page.act(old(moment), step) && Now() == old(Now()).Acted()
    {
      ok := page.act(moment, step);
      moment := moment + 1;
      acts := acts + 1;
    }

    method ScrollUntilFound(step: Step) returns (ok: bool)
      requires step.ScrollUntil?
      modifies this
      ensures Run(ok, Now()) == ScrollRun(step, 0, page, old(Now()))
    {
      var max := Min(step.maxScrolls.GetOr(6), MAX_SCROLLS);
      var i := 0;
      while i < max
        invariant 0 <= i <= Max(max, 0)
        invariant ScrollRun(step, i, page, Now()) == ScrollRun(step, 0, page, old(Now()))
      {
        Inspect();
        if Holds(step.until, page, moment) { return true; }
        var scrolled := Act(Scroll(step.at, false, step.dy));
        if !scrolled { return false; }
        i := i + 1;
      }
      Inspect();
      return Holds(step.until, page, moment);
    }

    method WaitUntil(p: Predicate, deadline: int) returns (ok: bool)
      modifies this
      ensures Run(ok, Now()) == WaitRun(p, deadline, page, old(Now()))
    {
      while page.clock(moment) < deadline
        invariant WaitRun(p, deadline, page, Now()) == WaitRun(p, deadline, page, old(Now()))
        decreases deadline - page.clock(moment)
      {
        assert Ticks(page, moment);
        Inspect();
        if Holds(p, page, moment) { return true; }
        Sleep();
      }
      return false;
    }

    method RunStep(step: Step) returns (ok: bool)
      modifies this
      ensures Run(ok, Now()) == StepRun(step, page, old(Now()))
    {
      if step.ScrollUntil? {
        ok := ScrollUntilFound(step);
        return;
      }
      if step.Wait? {
        if step.waitFor.Some? {
          ok := WaitUntil(step.waitFor.value, page.clock(moment) + step.timeoutMs.GetOr(3000));
          return;
        }
        Sleep();
        return true;
      }
      if step.ClickFirst? {
        for i := 0 to |step.targets|
          invariant Now() == old(Now())
          invariant FirstVisible(step.targets[i..], page, moment) == FirstVisible(step.targets, page, moment)
        {
          assert step.targets[i..][1..] == step.targets[i + 1..];
          if page.resolve(moment, step.targets[i]).Some? {
            ok := Act(Click(step.targets[i]));
            return;
          }
        }
        return false;
      }
      ok := Act(step);
    }

    method RunSteps(steps: seq<Step>, id: string, tag: string) returns (ok: bool)
      modifies this
      ensures Run(ok, Now()) == StepsRun(steps, id, tag, page, old(Now()))
    {
      for i := 0 to |steps|
        invariant StepsRun(steps[i..], id, tag, page, Now()) == StepsRun(steps, id, tag, page, old(Now()))
      {
        assert steps[i..][1..] == steps[i + 1..];
        var done := RunStep(steps[i]);
        Emit(StepDone(id, tag, OpName(steps[i]), done));
        if !done { return false; }
        Inspect();
      }
      return true;
    }

    method RunBody(action: PlanAction, attempt: Attempt) returns (ok: bool)
      modifies this
      ensures Run(ok, Now()) == BodyRun(action, attempt, page, old(Now()))
    {
      var body := RunSteps(attempt.steps, action.id, attempt.name);
      if !body || !Holds(attempt.successWhen, page, moment) {
        return false;
      }
      if attempt.thenSteps.Some? && |attempt.thenSteps.value| > 0 {
        var rest := RunSteps(attempt.thenSteps.value, action.id, Tag(attempt, 2));
        if !rest || (attempt.doneWhen.Some? && !Holds(attempt.doneWhen.value, page, moment)) {
          return false;
        }
      }
      return true;
    }

    method RunAction(action: PlanAction) returns (ok: bool, via: Option<string>)
      modifies this
      ensures ActionRun(ok, via, Now()) == AttemptsRun(action, 0, false, page, old(Now()))
    {
      hide StepsRun, BodyRun;
      var ranSetup := false;
      for j := 0 to |action.attempts|
        invariant AttemptsRun(action, j, ranSetup, page, Now())
               == AttemptsRun(action, 0, false, page, old(Now()))
      {
        var attempt := action.attempts[j];
        Emit(AttemptStart(action.id, attempt.name));
        if action.setup.Some? && (!ranSetup || action.setupEveryAttempt) {
          var setup := RunSteps(action.setup.value, action.id, Tag(attempt, 0));
          if !setup {
            Emit(AttemptResult(action.id, attempt.name, false));
            continue;
          }
          ranSetup := true;
        }
        var accepted := RunBody(action, attempt);
        Emit(AttemptResult(action.id, attempt.name, accepted));
        if accepted {
          return true, Some(attempt.name);
        }
      }
      return false, None;
    }

    method InterpretPagePlan(plan: Plan) returns (result: PlanResult)
      modifies this
      ensures Now() == WholeRun(plan, page, old(Now())).s
      ensures Reports(plan, WholeRun(plan, page, old(Now())), result)
    {
      hide OnPage, ActionsRun, Ids;
      Inspect();
      if !OnPage(plan.hint, page, moment) {
        Emit(Escalate);
        return PlanResult(Escalated, [], None, progress);
      }
      result := RunActions(plan);
    }

    method RunActions(plan: Plan) returns (result: PlanResult)
      modifies this
      ensures Now() == ActionsRun(plan, 0, page, old(Now())).s
      ensures Reports(plan, ActionsRun(plan, 0, page, old(Now())), result)
    {
      hide OnPage, AttemptsRun;
      ghost var whole := ActionsRun(plan, 0, page, Now());
      var completedActionIds: seq<string> := [];
      for k := 0 to |plan.actions|
        invariant completedActionIds == Ids(plan)[..k]
        invariant ActionsRun(plan, k, page, Now()) == whole
      {
        var action := plan.actions[k];
        Emit(ActionStart(action.id, action.intent));
        var ok, via := RunAction(action);
        if !OnPage(plan.hint, page, moment) {
          Emit(Escalate);
          return PlanResult(Escalated, completedActionIds, Some(action.id), progress);
        }
        if !ok {
          Emit(ActionFailed(action.id));
          Emit(Escalate);
          return PlanResult(Escalated, completedActionIds, Some(action.id), progress);
        }
        completedActionIds := completedActionIds + [action.id];
        Emit(ActionDone(action.id, via.GetOr("unknown")));
      }
      Emit(PlanDone(completedActionIds));
      return PlanResult(Completed, completedActionIds, None, progress);
    }
  }

  /** The result handed to the caller says what the run was. */
  ghost predicate Reports(plan: Plan, r: PlanRun, result: PlanResult)
    requires r.completed <= |plan.actions| && (r.failed ==> r.completed < |plan.actions|)
  {
    && result.progress == r.s.log
    && result.completedActionIds == Ids(plan)[..r.completed]
    && result.failedActionId == (if r.failed then Some(Ids(plan)[r.completed]) else None)
    && (result.status == Completed <==> r.ok)
  }
}
