/**
  Validation of page plans (src/plan/validate.ts): raw values in, plans within the limits out.
  Every refusal carries the same code; the prose of its message is left out.
*/
module PlanValidate {
  import opened Common
  import opened PagePlan

  /** A raw value; an absent field is what the source calls undefined. */
  datatype Raw =
    | RNull
    | RBool(b: bool)
    | RNum(n: real)
    | RStr(s: string)
    | RArr(items: seq<Raw>)
    | RObj(fields: map<string, Raw>)

  const INVALID := "invalid_plan"

  function Invalid<T>(): Result<T> {
    Err(INVALID)
  }

  function Field(raw: Raw, key: string): Option<Raw> {
    if raw.RObj? && key in raw.fields then Some(raw.fields[key]) else None
  }

  function Text(raw: Raw, key: string): Option<string> {
    match Field(raw, key)
    case Some(RStr(s)) => Some(s)
    case _ => None
  }

  function Needed(text: Option<string>): Result<string> {
    if text.Some? then Ok(text.value) else Invalid()
  }

  /** A required name: a string that is not blank. */
  function Named(raw: Raw, key: string, blank: string -> bool): Result<string> {
    if Text(raw, key).Some? && !blank(Text(raw, key).value) then Ok(Text(raw, key).value) else Invalid()
  }

  predicate IsTrue(raw: Raw, key: string) {
    Field(raw, key) == Some(RBool(true))
  }

  function IntIn(value: Option<Raw>, min: int, max: int, fallback: int): Result<int> {
    match value
    case None => Ok(fallback)
    case Some(RNum(n)) =>
      if n.Floor as real == n && min <= n.Floor <= max then Ok(n.Floor) else Invalid()
    case Some(_) => Invalid()
  }

  function RequireTarget(raw: Raw): Result<Target> {
    match Text(raw, "by")
    case None => Invalid()
    case Some(how) =>
      if how == "ref" then
        var ref :- Needed(Text(raw, "ref")); Ok(ByRef(ref))
      else if how == "role" then
        var role :- Needed(Text(raw, "role"));
        var name :- Needed(Text(raw, "name"));
        Ok(ByRole(role, name))
      else if how == "label" then
        var caption :- Needed(Text(raw, "label")); Ok(ByLabel(caption))
      else if how == "placeholder" then
        var text :- Needed(Text(raw, "text")); Ok(ByPlaceholder(text))
      else if how == "text" then
        var text :- Needed(Text(raw, "text")); Ok(ByText(text, IsTrue(raw, "exact")))
      else Invalid()
  }

  function FieldTarget(raw: Raw): Result<Target> {
    match Field(raw, "target")
    case Some(t) => RequireTarget(t)
    case None => Invalid()
  }

  function OptionalTarget(raw: Raw): Result<Option<Target>> {
    match Field(raw, "target")
    case Some(t) => (var target :- RequireTarget(t); Ok(Some(target)))
    case None => Ok(None)
  }

  function NonEmpty(text: Option<string>): Result<string> {
    if text.Some? && text.value != "" then Ok(text.value) else Invalid()
  }

  function RequirePredicate(raw: Raw, depth: nat): Result<Predicate>
    decreases Max(MAX_DEPTH + 1 - depth, 0)
  {
    if depth > MAX_DEPTH then Invalid()
    else match Text(raw, "kind")
      case None => Invalid()
      case Some(kind) =>
        if kind == "text_visible" then
          var text :- NonEmpty(Text(raw, "text")); Ok(TextVisible(text))
        else if kind == "option_visible" then
          var text :- NonEmpty(Text(raw, "text")); Ok(OptionVisible(text))
        else if kind == "url_includes" then
          var text :- NonEmpty(Text(raw, "text")); Ok(UrlIncludes(text))
        else if kind == "title_includes" then
          var text :- NonEmpty(Text(raw, "text")); Ok(TitleIncludes(text))
        else if kind == "ref_exists" then
          var ref :- NonEmpty(Text(raw, "ref")); Ok(RefExists(ref))
        else if kind == "target_exists" then
          var target :- FieldTarget(raw); Ok(TargetExists(target))
        else if kind == "value_includes" || kind == "value_equals" then
          var text :- Needed(Text(raw, "text"));
          var target :- FieldTarget(raw);
          Ok(if kind == "value_includes" then ValueIncludes(target, text) else ValueEquals(target, text))
        else if kind == "any" || kind == "all" then
          (match Field(raw, "of")
           case Some(RArr(items)) =>
             if items == [] then Invalid()
             else
               var of :- Collect(items, (p: Raw) => RequirePredicate(p, depth + 1));
               Ok(if kind == "any" then AnyOf(of) else AllOf(of))
           case _ => Invalid())
        else if kind == "not" then
          (match Field(raw, "pred")
           case Some(p) => (var pred :- RequirePredicate(p, depth + 1); Ok(Not(pred)))
           case None => Invalid())
        else Invalid()
  }

  function FieldPredicate(raw: Raw, key: string): Result<Predicate> {
    match Field(raw, key)
    case Some(p) => RequirePredicate(p, 0)
    case None => Invalid()
  }

  function OptionalPredicate(raw: Raw, key: string): Result<Option<Predicate>> {
    match Field(raw, key)
    case Some(p) => (var pred :- RequirePredicate(p, 0); Ok(Some(pred)))
    case None => Ok(None)
  }

  function OptionalInt(raw: Raw, key: string, min: int, max: int): Result<Option<int>> {
    match Field(raw, key)
    case None => Ok(None)
    case Some(v) => (var n :- IntIn(Some(v), min, max, 0); Ok(Some(n)))
  }

  function RequireStep(raw: Raw): Result<Step> {
    match Text(raw, "op")
    case None => Invalid()
    case Some(op) =>
      if op == "click" then
        var target :- FieldTarget(raw); Ok(Click(target))
      else if op == "click_first" then
        (match Field(raw, "targets")
         case Some(RArr(items)) =>
           if items == [] then Invalid()
           else (var targets :- Collect(items, RequireTarget); Ok(ClickFirst(targets)))
         case _ => Invalid())
      else if op == "type" then
        var text :- Needed(Text(raw, "text"));
        var target :- FieldTarget(raw);
        Ok(TypeText(target, text, IsTrue(raw, "clear")))
      else if op == "clear" then
        var target :- FieldTarget(raw); Ok(Clear(target))
      else if op == "select" then
        if Field(raw, "label") == None && Field(raw, "value") == None then Invalid()
        else
          var target :- FieldTarget(raw);
          Ok(Select(target, Text(raw, "label"), Text(raw, "value")))
      else if op == "scroll" then
        var at :- OptionalTarget(raw);
        var dy :- IntIn(Field(raw, "dy"), 1, 2000, 400);
        Ok(Scroll(at, Text(raw, "direction") == Some("up"), dy))
      else if op == "scroll_until" then
        var maxScrolls :- IntIn(Field(raw, "maxScrolls"), 1, MAX_SCROLLS, 6);
        var at :- OptionalTarget(raw);
        var until :- FieldPredicate(raw, "until");
        var dy :- IntIn(Field(raw, "dy"), 1, 2000, 400);
        Ok(ScrollUntil(at, until, Some(maxScrolls), dy))
      else if op == "wait" then
        var ms :- OptionalInt(raw, "ms", 0, MAX_WAIT);
        var timeoutMs :- OptionalInt(raw, "timeoutMs", 1, MAX_WAIT);
        if ms == None && Field(raw, "until") == None then Invalid()
        else
          var until :- OptionalPredicate(raw, "until");
          Ok(Wait(ms, until, timeoutMs))
      else Invalid()
  }

  function RequireSteps(raw: Option<Raw>, max: nat): Result<seq<Step>> {
    match raw
    case Some(RArr(items)) => if items == [] || |items| > max then Invalid() else Collect(items, RequireStep)
    case _ => Invalid()
  }

  function OptionalSteps(raw: Option<Raw>, max: nat): Result<Option<seq<Step>>> {
    if raw == None then Ok(None)
    else (var steps :- RequireSteps(raw, max); Ok(Some(steps)))
  }

  function RequireAttempt(raw: Raw, blank: string -> bool): Result<Attempt> {
    var name :- Named(raw, "name", blank);
    var steps :- RequireSteps(Field(raw, "steps"), MAX_STEPS);
    var successWhen :- FieldPredicate(raw, "successWhen");
    var thenSteps :- OptionalSteps(Field(raw, "then"), MAX_STEPS);
    var doneWhen :- OptionalPredicate(raw, "doneWhen");
    Ok(Attempt(name, steps, successWhen, thenSteps, doneWhen))
  }

  /** One entry of `actions`, given the ids already taken. */
  function RequireAction(raw: Raw, ids: set<string>, blank: string -> bool): Result<PlanAction> {
    var id :- Named(raw, "id", blank);
    if id in ids then Invalid()
    else
      var intent :- Named(raw, "intent", blank);
      var setup :- OptionalSteps(Field(raw, "setup"), MAX_SETUP);
      if Field(raw, "setupEveryAttempt").Some? && !Field(raw, "setupEveryAttempt").value.RBool? then Invalid()
      else match Field(raw, "try")
        case Some(RArr(items)) =>
          if items == [] || |items| > MAX_ATTEMPTS then Invalid()
          else
            var attempts :- Collect(items, (a: Raw) => RequireAttempt(a, blank));
            Ok(PlanAction(id, intent, setup, IsTrue(raw, "setupEveryAttempt"), attempts))
        case _ => Invalid()
  }

  function RequireActions(raws: seq<Raw>, ids: set<string>, blank: string -> bool): (r: Result<seq<PlanAction>>)
    ensures r.Ok? ==> |r.value| == |raws|
  {
    if raws == [] then Ok([])
    else
      var action :- RequireAction(raws[0], ids, blank);
      var rest :- RequireActions(raws[1..], ids + {action.id}, blank);
      Ok([action] + rest)
  }

  function HintOf(raw: Option<Raw>): Result<Option<Hint>> {
    match raw
    case None => Ok(None)
    case Some(r) =>
      if r.RObj? then Ok(Some(Hint(Text(r, "urlIncludes"), Text(r, "titleIncludes")))) else Invalid()
  }

  /** The whole plan, its actions judged by `RequireActions`. */
  function Validated(raw: Raw, blank: string -> bool): Result<Plan> {
    var goal :- Named(raw, "goal", blank);
    match Field(raw, "context")
    case None => Invalid()
    case Some(context) =>
      var understanding :- Needed(Text(context, "understanding"));
      match Field(raw, "actions")
      case Some(RArr(items)) =>
        if items == [] || |items| > MAX_ACTIONS then Invalid()
        else
          var actions :- RequireActions(items, {}, blank);
          var hint :- HintOf(Field(context, "hint"));
          Ok(Plan(hint, understanding, goal, actions))
      case _ => Invalid()
  }

  // ----- well-formed plans

  predicate PredicateOk(p: Predicate, depth: nat) {
    depth <= MAX_DEPTH &&
    match p
    case TextVisible(text) => text != ""
    case OptionVisible(text) => text != ""
    case UrlIncludes(text) => text != ""
    case TitleIncludes(text) => text != ""
    case RefExists(ref) => ref != ""
    case TargetExists(_) => true
    case ValueIncludes(_, _) => true
    case ValueEquals(_, _) => true
    case AnyOf(of) => of != [] && forall i :: 0 <= i < |of| ==> PredicateOk(of[i], depth + 1)
    case AllOf(of) => of != [] && forall i :: 0 <= i < |of| ==> PredicateOk(of[i], depth + 1)
    case Not(pred) => PredicateOk(pred, depth + 1)
  }

  predicate StepOk(s: Step) {
    match s
    case ClickFirst(targets) => targets != []
    case Scroll(_, _, dy) => 1 <= dy <= 2000
    case ScrollUntil(_, until, maxScrolls, dy) =>
      PredicateOk(until, 0) && maxScrolls.Some? && 1 <= maxScrolls.value <= MAX_SCROLLS && 1 <= dy <= 2000
    case Wait(ms, waitFor, timeoutMs) =>
      && (ms.Some? || waitFor.Some?)
      && (ms.Some? ==> 0 <= ms.value <= MAX_WAIT)
      && (waitFor.Some? ==> PredicateOk(waitFor.value, 0))
      && (timeoutMs.Some? ==> 1 <= timeoutMs.value <= MAX_WAIT)
    case _ => true
  }

  predicate StepsOk(steps: seq<Step>, max: nat) {
    0 < |steps| <= max && forall i :: 0 <= i < |steps| ==> StepOk(steps[i])
  }

  predicate AttemptOk(a: Attempt, blank: string -> bool) {
    && !blank(a.name)
    && StepsOk(a.steps, MAX_STEPS)
    && PredicateOk(a.successWhen, 0)
    && (a.thenSteps.Some? ==> StepsOk(a.thenSteps.value, MAX_STEPS))
    && (a.doneWhen.Some? ==> PredicateOk(a.doneWhen.value, 0))
  }

  predicate ActionOk(a: PlanAction, blank: string -> bool) {
    && !blank(a.id) && !blank(a.intent)
    && (a.setup.Some? ==> StepsOk(a.setup.value, MAX_SETUP))
    && 0 < |a.attempts| <= MAX_ATTEMPTS
    && forall i :: 0 <= i < |a.attempts| ==> AttemptOk(a.attempts[i], blank)
  }

  predicate ActionsOk(actions: seq<PlanAction>, ids: set<string>, blank: string -> bool) {
    && (forall i :: 0 <= i < |actions| ==> ActionOk(actions[i], blank) && actions[i].id !in ids)
    && (forall i, j :: 0 <= i < j < |actions| ==> actions[i].id != actions[j].id)
  }

  predicate PlanOk(p: Plan, blank: string -> bool) {
    !blank(p.goal) && 0 < |p.actions| <= MAX_ACTIONS && ActionsOk(p.actions, {}, blank)
  }

  // ----- validation only lets well-formed plans through

  lemma {:induction false} PredicateSound(raw: Raw, depth: nat)
    ensures var r := RequirePredicate(raw, depth); r.Ok? ==> PredicateOk(r.value, depth)
    decreases Max(MAX_DEPTH + 1 - depth, 0)
  {
    if depth <= MAX_DEPTH {
      var inner := depth + 1;
      forall p: Raw
        ensures RequirePredicate(p, inner).Ok? ==> PredicateOk(RequirePredicate(p, inner).value, inner)
      {
        PredicateSound(p, inner);
      }
      PredicateSoundStep(raw, depth, inner);
    }
  }

  lemma {:induction false} PredicateSoundStep(raw: Raw, depth: nat, inner: nat)
    requires inner == depth + 1 <= MAX_DEPTH + 1
    requires forall p :: RequirePredicate(p, inner).Ok? ==> PredicateOk(RequirePredicate(p, inner).value, inner)
    ensures var r := RequirePredicate(raw, depth); r.Ok? ==> PredicateOk(r.value, depth)
  {
    hide RequireTarget;
  }

  lemma {:induction false} OptionalPredicateSound(raw: Raw, key: string)
    ensures var r := OptionalPredicate(raw, key); r.Ok? && r.value.Some? ==> PredicateOk(r.value.value, 0)
    ensures var r := FieldPredicate(raw, key); r.Ok? ==> PredicateOk(r.value, 0)
  {
    hide RequirePredicate, PredicateOk;
    match Field(raw, key)
    case Some(p) => PredicateSound(p, 0);
    case None =>
  }

  lemma {:induction false} StepSound(raw: Raw)
    ensures var r := RequireStep(raw); r.Ok? ==> StepOk(r.value)
  {
    OptionalPredicateSound(raw, "until");
    hide RequirePredicate, PredicateOk, RequireTarget, FieldPredicate;
  }

  lemma {:induction false} StepsSound(raw: Option<Raw>, max: nat)
    ensures var r := RequireSteps(raw, max); r.Ok? ==> StepsOk(r.value, max)
    ensures var r := OptionalSteps(raw, max); r.Ok? && r.value.Some? ==> StepsOk(r.value.value, max)
  {
    hide RequireStep, StepOk;
    forall step: Raw
      ensures RequireStep(step).Ok? ==> StepOk(RequireStep(step).value)
    {
      StepSound(step);
    }
  }

  lemma {:induction false} AttemptSound(raw: Raw, blank: string -> bool)
    ensures var r := RequireAttempt(raw, blank); r.Ok? ==> AttemptOk(r.value, blank)
  {
    hide RequireSteps, OptionalSteps, StepsOk, FieldPredicate, OptionalPredicate, PredicateOk;
    StepsSound(Field(raw, "steps"), MAX_STEPS);
    StepsSound(Field(raw, "then"), MAX_STEPS);
    OptionalPredicateSound(raw, "successWhen");
    OptionalPredicateSound(raw, "doneWhen");
  }

  lemma {:induction false} ActionSound(raw: Raw, ids: set<string>, blank: string -> bool)
    ensures var r := RequireAction(raw, ids, blank); r.Ok? ==> ActionOk(r.value, blank) && r.value.id !in ids
  {
    hide OptionalSteps, StepsOk, RequireAttempt, AttemptOk;
    StepsSound(Field(raw, "setup"), MAX_SETUP);
    forall a: Raw
      ensures RequireAttempt(a, blank).Ok? ==> AttemptOk(RequireAttempt(a, blank).value, blank)
    {
      AttemptSound(a, blank);
    }
  }

  lemma {:induction false} ActionsSound(raws: seq<Raw>, ids: set<string>, blank: string -> bool)
    ensures var r := RequireActions(raws, ids, blank); r.Ok? ==> ActionsOk(r.value, ids, blank)
  {
    hide RequireAction, ActionOk;
    if raws != [] {
      ActionSound(raws[0], ids, blank);
      var action := RequireAction(raws[0], ids, blank);
      if action.Ok? {
        ActionsSound(raws[1..], ids + {action.value.id}, blank);
      }
    }
  }

  /** Validation is sound; in particular the limits that bound the interpreter hold. */
  lemma {:induction false} ValidatedSound(raw: Raw, blank: string -> bool)
    requires Validated(raw, blank).Ok?
    ensures PlanOk(Validated(raw, blank).value, blank)
    ensures PlanWithin(Validated(raw, blank).value)
  {
    hide RequireActions, ActionOk;
    match Field(raw, "actions") {
      case Some(RArr(items)) => ActionsSound(items, {}, blank);
      case _ =>
    }
    WithinLimits(Validated(raw, blank).value, blank);
  }

  lemma {:induction false} WithinLimits(p: Plan, blank: string -> bool)
    requires PlanOk(p, blank)
    ensures PlanWithin(p)
  {
    hide StepOk, PredicateOk;
  }

  // ----- validation as the source runs it

  /** As the source runs it; in `MapActions` the ids seen so far grow as the actions are mapped. */
  method ValidatePagePlan(raw: Raw, blank: string -> bool) returns (r: Result<Plan>)
    ensures r == Validated(raw, blank)
    ensures r.Ok? ==> PlanOk(r.value, blank) && PlanWithin(r.value)
  {
    hide PlanOk, PlanWithin, HintOf;
    if Validated(raw, blank).Ok? {
      ValidatedSound(raw, blank);
    }
    var goal :- Named(raw, "goal", blank);
    var context := Field(raw, "context");
    if context == None { return Invalid(); }
    var understanding :- Needed(Text(context.value, "understanding"));
    var list := Field(raw, "actions");
    if !(list.Some? && list.value.RArr? && list.value.items != []) { return Invalid(); }
    var items := list.value.items;
    if |items| > MAX_ACTIONS { return Invalid(); }
    var actions :- MapActions(items, blank);
    var hint :- HintOf(Field(context.value, "hint"));
    return Ok(Plan(hint, understanding, goal, actions));
  }

  method MapActions(items: seq<Raw>, blank: string -> bool) returns (r: Result<seq<PlanAction>>)
    ensures r == RequireActions(items, {}, blank)
  {
    hide RequireAction;
    var ids: set<string> := {};
    var actions: seq<PlanAction> := [];
    ghost var all := RequireActions(items, {}, blank);
    assert items[0..] == items && (all.Ok? ==> actions + all.value == all.value);
    for i := 0 to |items|
      invariant var rest := RequireActions(items[i..], ids, blank);
                var whole := RequireActions(items, {}, blank);
                if rest.Ok? then whole == Ok(actions + rest.value) else whole == Err(rest.code)
    {
      assert items[i..][1..] == items[i + 1..];
      var action :- RequireAction(items[i], ids, blank);
      ghost var done := actions;
      ids := ids + {action.id};
      actions := actions + [action];
      ghost var rest := RequireActions(items[i + 1..], ids, blank);
      assert rest.Ok? ==> done + ([action] + rest.value) == actions + rest.value;
    }
    assert actions + [] == actions;
    return Ok(actions);
  }
}
