/** The closed page-plan language (src/plan/types.ts) and its predicates (src/plan/evaluate.ts). */
module PagePlan {
  import opened Common

  const MAX_ACTIONS := 8
  const MAX_ATTEMPTS := 6
  const MAX_STEPS := 12
  const MAX_SETUP := 4
  const MAX_SCROLLS := 8
  const MAX_DEPTH := 4
  const MAX_WAIT := 15_000

  datatype Target =
    | ByRef(ref: string)
    | ByRole(role: string, name: string)
    | ByLabel(caption: string)
    | ByPlaceholder(text: string)
    | ByText(text: string, exact: bool)

  datatype Predicate =
    | TextVisible(text: string)
    | OptionVisible(text: string)
    | TargetExists(target: Target)
    | RefExists(ref: string)
    | UrlIncludes(text: string)
    | TitleIncludes(text: string)
    | ValueIncludes(target: Target, text: string)
    | ValueEquals(target: Target, text: string)
    | AnyOf(of: seq<Predicate>)
    | AllOf(of: seq<Predicate>)
    | Not(pred: Predicate)

  datatype Step =
    | Click(target: Target)
    | ClickFirst(targets: seq<Target>)
    | TypeText(target: Target, text: string, clear: bool)
    | Clear(target: Target)
    | Select(target: Target, caption: Option<string>, value: Option<string>)
    | Scroll(at: Option<Target>, up: bool, dy: int)
    | ScrollUntil(at: Option<Target>, until: Predicate, maxScrolls: Option<int>, dy: int)
    | Wait(ms: Option<int>, waitFor: Option<Predicate>, timeoutMs: Option<int>)

  datatype Attempt = Attempt(
    name: string, steps: seq<Step>, successWhen: Predicate,
    thenSteps: Option<seq<Step>>, doneWhen: Option<Predicate>)

  datatype PlanAction = PlanAction(
    id: string, intent: string, setup: Option<seq<Step>>, setupEveryAttempt: bool, attempts: seq<Attempt>)

  datatype Hint = Hint(urlIncludes: Option<string>, titleIncludes: Option<string>)

  datatype Plan = Plan(hint: Option<Hint>, understanding: string, goal: string, actions: seq<PlanAction>)

  // ----- the page

  datatype World = World(url: string, title: string, pageText: string)

  /**
    Everything a page may do, at every moment. A moment passes with each call that touches the
    page or the clock; what the page shows and answers may depend on all that went before, so
    it is an arbitrary function of the moment.
  */
  datatype Behaviour = Behaviour(
    world: nat -> World,
    resolve: (nat, Target) -> Option<string>,
    readValue: (nat, Target) -> Option<string>,
    act: (nat, Step) -> bool,
    clock: nat -> int,
    fold: string -> string)  // the host's lower-casing

  /** One pass of a waiting loop (two moments) takes at least a millisecond. */
  ghost predicate Ticking(b: Behaviour) {
    forall t: nat :: Ticks(b, t)
  }

  predicate Ticks(b: Behaviour, t: nat) {
    b.clock(t) < b.clock(t + 2)
  }

  function StillWorld(t: nat): World { World("", "", "") }

  type Page = b: Behaviour | Ticking(b)
    ghost witness Behaviour(StillWorld, (t, g) => None, (t, g) => None, (t, s) => true, (t: nat) => t, s => s)

  function OpName(s: Step): string {
    match s
    case Click(_) => "click"
    case ClickFirst(_) => "click_first"
    case TypeText(_, _, _) => "type"
    case Clear(_) => "clear"
    case Select(_, _, _) => "select"
    case Scroll(_, _, _) => "scroll"
    case ScrollUntil(_, _, _, _) => "scroll_until"
    case Wait(_, _, _) => "wait"
  }

  predicate IncludesInsensitive(b: Behaviour, hay: string, needle: string) {
    Includes(b.fold(hay), b.fold(needle))
  }

  predicate Holds(p: Predicate, b: Behaviour, t: nat) {
    match p
    case TextVisible(text) => IncludesInsensitive(b, b.world(t).pageText, text)
    case OptionVisible(text) =>
      IncludesInsensitive(b, b.world(t).pageText, text) || b.resolve(t, ByText(text, false)).Some?
    case TargetExists(target) => b.resolve(t, target).Some?
    case RefExists(ref) => b.resolve(t, ByRef(ref)).Some?
    case UrlIncludes(text) => Includes(b.world(t).url, text)
    case TitleIncludes(text) => IncludesInsensitive(b, b.world(t).title, text)
    case ValueIncludes(target, text) => IncludesInsensitive(b, b.readValue(t, target).GetOr(""), text)
    case ValueEquals(target, text) => b.readValue(t, target).GetOr("") == text
    case AnyOf(of) => exists i :: 0 <= i < |of| && Holds(of[i], b, t)
    case AllOf(of) => forall i :: 0 <= i < |of| ==> Holds(of[i], b, t)
    case Not(pred) => !Holds(pred, b, t)
  }

  predicate OnPage(hint: Option<Hint>, b: Behaviour, t: nat) {
    hint.Some? ==>
      && (var u := hint.value.urlIncludes.GetOr(""); u != "" ==> Includes(b.world(t).url, u))
      && (var n := hint.value.titleIncludes.GetOr(""); n != "" ==> IncludesInsensitive(b, b.world(t).title, n))
  }

  // ----- the limits a validated plan respects

  predicate StepsWithin(steps: seq<Step>, max: nat) {
    |steps| <= max
  }

  predicate AttemptWithin(a: Attempt) {
    StepsWithin(a.steps, MAX_STEPS) && StepsWithin(a.thenSteps.GetOr([]), MAX_STEPS)
  }

  predicate ActionWithin(a: PlanAction) {
    && StepsWithin(a.setup.GetOr([]), MAX_SETUP)
    && |a.attempts| <= MAX_ATTEMPTS
    && forall i :: 0 <= i < |a.attempts| ==> AttemptWithin(a.attempts[i])
  }

  predicate PlanWithin(p: Plan) {
    |p.actions| <= MAX_ACTIONS && forall i :: 0 <= i < |p.actions| ==> ActionWithin(p.actions[i])
  }
}
