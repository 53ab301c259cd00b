/**
  How an attempt of a page plan runs, stage by stage, and what a caller is told of the whole run
  (src/plan/interpret.ts), in the fields of plans and results.
*/
module PlanLaw {
  import opened Common
  import opened PagePlan
  import opened Interpreter

  function StepsOf(steps: Option<seq<Step>>): seq<Step> {
    if steps.None? then [] else steps.value
  }

  /** The attempt's own steps, its gate, and then, if it has any, what follows and whether that is enough. */
  lemma {:induction false} RunsBody(action: PlanAction, a: Attempt, b: Page, s: State)
    ensures var body := StepsRun(a.steps, action.id, a.name, b, s);
            var rest := StepsRun(StepsOf(a.thenSteps), action.id, a.name + "/then", b, body.s);
            BodyRun(action, a, b, s)
            == if !body.ok || !Holds(a.successWhen, b, body.s.t) then Run(false, body.s)
               else if StepsOf(a.thenSteps) == [] then Run(true, body.s)
               else Run(rest.ok && (a.doneWhen.None? || Holds(a.doneWhen.value, b, rest.s.t)), rest.s)
  {
    hide StepsRun, Holds;
    assert StepsOf(a.thenSteps) == a.thenSteps.GetOr([]);
    assert StageRun(action, a, 1, b, s) == StepsRun(a.steps, action.id, a.name, b, s);
    var t := StageRun(action, a, 1, b, s).s;
    assert StageRun(action, a, 2, b, t) == StepsRun(a.thenSteps.GetOr([]), action.id, a.name + "/then", b, t);
  }

  /** What an attempt does once its setup, if it runs one, has gone well or not; framed by its two events. */
  function Framed(action: PlanAction, a: Attempt, b: Page, setup: Run): Run {
    var r := if setup.ok then BodyRun(action, a, b, setup.s) else setup;
    Run(r.ok, State(r.s.t, r.s.acts, r.s.log + [AttemptResult(action.id, a.name, r.ok)]))
  }

  /**
    The shared setup runs before the first attempt, before each while it has not gone well, and before
    every attempt if the action says so; without it, or once it is enough, the attempt starts at once.
  */
  lemma {:induction false} SetsUp(action: PlanAction, a: Attempt, ran: bool, b: Page, s: State)
    ensures var s0 := State(s.t, s.acts, s.log + [AttemptStart(action.id, a.name)]);
            var setup := StepsRun(StepsOf(action.setup), action.id, a.name + "/setup", b, s0);
            var runs := action.setup.Some? && (action.setupEveryAttempt || !ran);
            && AttemptRun(action, a, ran, b, s).0 == Framed(action, a, b, if runs then setup else Run(true, s0))
            && (action.setup.None? ==> AttemptRun(action, a, ran, b, s).1 == ran)
            && (runs ==> AttemptRun(action, a, ran, b, s).1 == (ran || setup.ok))
            && (ran ==> AttemptRun(action, a, ran, b, s).1)
  {
    hide StepsRun, BodyRun;
    var s0 := s.Emitted(AttemptStart(action.id, a.name));
    assert StepsOf(action.setup) == action.setup.GetOr([]);
    assert StageRun(action, a, 0, b, s0) == StepsRun(StepsOf(action.setup), action.id, a.name + "/setup", b, s0);
  }

  /** On a page that the plan is not about nothing is done but telling so. */
  lemma {:induction false} LeavesAlone(plan: Plan, b: Page, s: State)
    ensures !OnPage(plan.hint, b, s.t + 1) ==>
              WholeRun(plan, b, s) == PlanRun(false, 0, false, State(s.t + 1, s.acts, s.log + [Escalate]))
  {}

  /** Steps run one after another, each told as it ends, up to the first that fails. */
  lemma {:induction false} RunsInTurn(step: Step, rest: seq<Step>, id: string, tag: string, b: Page, s: State)
    ensures StepsRun([], id, tag, b, s) == Run(true, s)
    ensures var r := StepRun(step, b, s);
            var log := r.s.log + [StepDone(id, tag, OpName(step), r.ok)];
            StepsRun([step] + rest, id, tag, b, s)
            == if r.ok then StepsRun(rest, id, tag, b, State(r.s.t + 1, r.s.acts, log))
               else Run(false, State(r.s.t, r.s.acts, log))
  {
    hide StepRun;
    assert ([step] + rest)[1..] == rest;
  }

  /** The caller is told the trace, the ids of the actions completed, in order, and the one that failed, if any. */
  lemma {:induction false} TellsPlainly(plan: Plan, r: PlanRun, result: PlanResult)
    requires r.completed <= |plan.actions| && (r.failed ==> r.completed < |plan.actions|)
    ensures Reports(plan, r, result) <==>
              && result.progress == r.s.log
              && |result.completedActionIds| == r.completed
              && (forall i :: 0 <= i < r.completed ==> result.completedActionIds[i] == plan.actions[i].id)
              && (result.failedActionId.Some? <==> r.failed)
              && (r.failed ==> result.failedActionId == Some(plan.actions[r.completed].id))
              && result.status == if r.ok then Completed else Escalated
  {
    if Reports(plan, r, result) {
      forall i | 0 <= i < r.completed
        ensures result.completedActionIds[i] == plan.actions[i].id
      {
        assert Ids(plan)[..r.completed][i] == Ids(plan)[i];
      }
    }
  }
}
