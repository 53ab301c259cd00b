/**
  Validation guarantees no more than well-formedness: every well-formed plan can be written as a raw
  value that validates to it. Validating a validated plan again gives it back unless a `select`
  step lost both its label and its value.
*/
module PlanRoundTrip {
  import opened Common
  import opened PagePlan
  import opened PlanValidate

  // ----- writing a plan back as a raw value

  function Opt(key: string, value: Option<Raw>): map<string, Raw> {
    if value.Some? then map[key := value.value] else map[]
  }

  function Str(s: Option<string>): Option<Raw> {
    if s.Some? then Some(RStr(s.value)) else None
  }

  function Num(n: Option<int>): Option<Raw> {
    if n.Some? then Some(RNum(n.value as real)) else None
  }

  function RawTarget(t: Target): Raw {
    match t
    case ByRef(ref) => RObj(map["by" := RStr("ref"), "ref" := RStr(ref)])
    case ByRole(role, name) => RObj(map["by" := RStr("role"), "role" := RStr(role), "name" := RStr(name)])
    case ByLabel(caption) => RObj(map["by" := RStr("label"), "label" := RStr(caption)])
    case ByPlaceholder(text) => RObj(map["by" := RStr("placeholder"), "text" := RStr(text)])
    case ByText(text, exact) =>
      RObj(map["by" := RStr("text"), "text" := RStr(text), "exact" := RBool(exact)])
  }

  function RawPredicate(p: Predicate): Raw
  {
    match p
    case TextVisible(text) => RObj(map["kind" := RStr("text_visible"), "text" := RStr(text)])
    case OptionVisible(text) => RObj(map["kind" := RStr("option_visible"), "text" := RStr(text)])
    case UrlIncludes(text) => RObj(map["kind" := RStr("url_includes"), "text" := RStr(text)])
    case TitleIncludes(text) => RObj(map["kind" := RStr("title_includes"), "text" := RStr(text)])
    case RefExists(ref) => RObj(map["kind" := RStr("ref_exists"), "ref" := RStr(ref)])
    case TargetExists(target) => RObj(map["kind" := RStr("target_exists"), "target" := RawTarget(target)])
    case ValueIncludes(target, text) =>
      RObj(map["kind" := RStr("value_includes"), "target" := RawTarget(target), "text" := RStr(text)])
    case ValueEquals(target, text) =>
      RObj(map["kind" := RStr("value_equals"), "target" := RawTarget(target), "text" := RStr(text)])
    case AnyOf(of) =>
      RObj(map["kind" := RStr("any"), "of" := RArr(seq(|of|, i requires 0 <= i < |of| => RawPredicate(of[i])))])
    case AllOf(of) =>
      RObj(map["kind" := RStr("all"), "of" := RArr(seq(|of|, i requires 0 <= i < |of| => RawPredicate(of[i])))])
    case Not(pred) => RObj(map["kind" := RStr("not"), "pred" := RawPredicate(pred)])
  }

  function OptPredicate(p: Option<Predicate>): Option<Raw> {
    if p.Some? then Some(RawPredicate(p.value)) else None
  }

  /** A `select` step with nothing left to select. */
  predicate BlankSelect(s: Step) {
    s.Select? && s.caption == None && s.value == None
  }

  /** `keep` fills the label of a blank `select` with a value that is not a string. */
  function RawStep(s: Step, keep: bool): Raw {
    match s
    case Click(target) => RObj(map["op" := RStr("click"), "target" := RawTarget(target)])
    case ClickFirst(targets) =>
      RObj(map[
        "op" := RStr("click_first"),
        "targets" := RArr(seq(|targets|, i requires 0 <= i < |targets| => RawTarget(targets[i])))])
    case TypeText(target, text, clear) =>
      RObj(map["op" := RStr("type"), "target" := RawTarget(target), "text" := RStr(text), "clear" := RBool(clear)])
    case Clear(target) => RObj(map["op" := RStr("clear"), "target" := RawTarget(target)])
    case Select(target, caption, value) =>
      RObj(map["op" := RStr("select"), "target" := RawTarget(target)]
           + Opt("label", if keep && BlankSelect(s) then Some(RNull) else Str(caption))
           + Opt("value", Str(value)))
    case Scroll(at, up, dy) =>
      RObj(map["op" := RStr("scroll"), "direction" := RStr(if up then "up" else "down"), "dy" := RNum(dy as real)]
           + Opt("target", OptTarget(at)))
    case ScrollUntil(at, until, maxScrolls, dy) =>
      RObj(map["op" := RStr("scroll_until"), "until" := RawPredicate(until), "dy" := RNum(dy as real)]
           + Opt("target", OptTarget(at)) + Opt("maxScrolls", Num(maxScrolls)))
    case Wait(ms, waitFor, timeoutMs) =>
      RObj(map["op" := RStr("wait")]
           + Opt("ms", Num(ms)) + Opt("until", OptPredicate(waitFor)) + Opt("timeoutMs", Num(timeoutMs)))
  }

  function OptTarget(t: Option<Target>): Option<Raw> {
    if t.Some? then Some(RawTarget(t.value)) else None
  }

  function RawSteps(steps: seq<Step>, keep: bool): (r: seq<Raw>)
    ensures |r| == |steps|
  {
    seq(|steps|, i requires 0 <= i < |steps| => RawStep(steps[i], keep))
  }

  function OptSteps(steps: Option<seq<Step>>, keep: bool): Option<Raw> {
    if steps.Some? then Some(RArr(RawSteps(steps.value, keep))) else None
  }

  function RawAttempt(a: Attempt, keep: bool): Raw {
    RObj(map["name" := RStr(a.name), "steps" := RArr(RawSteps(a.steps, keep)),
             "successWhen" := RawPredicate(a.successWhen)]
         + Opt("then", OptSteps(a.thenSteps, keep)) + Opt("doneWhen", OptPredicate(a.doneWhen)))
  }

  function RawAttempts(attempts: seq<Attempt>, keep: bool): (r: seq<Raw>)
    ensures |r| == |attempts|
  {
    seq(|attempts|, i requires 0 <= i < |attempts| => RawAttempt(attempts[i], keep))
  }

  function RawAction(a: PlanAction, keep: bool): Raw {
    RObj(map["id" := RStr(a.id), "intent" := RStr(a.intent),
             "setupEveryAttempt" := RBool(a.setupEveryAttempt),
             "try" := RArr(RawAttempts(a.attempts, keep))]
         + Opt("setup", OptSteps(a.setup, keep)))
  }

  function RawActions(actions: seq<PlanAction>, keep: bool): (r: seq<Raw>)
    ensures |r| == |actions|
  {
    seq(|actions|, i requires 0 <= i < |actions| => RawAction(actions[i], keep))
  }

  function RawHint(hint: Option<Hint>): Option<Raw> {
    if hint.None? then None
    else Some(RObj(Opt("urlIncludes", Str(hint.value.urlIncludes))
                   + Opt("titleIncludes", Str(hint.value.titleIncludes))))
  }

  function RawPlan(p: Plan, keep: bool): Raw {
    RObj(map["goal" := RStr(p.goal),
             "context" := RObj(map["understanding" := RStr(p.understanding)] + Opt("hint", RawHint(p.hint))),
             "actions" := RArr(RawActions(p.actions, keep))])
  }

  // ----- blank selects anywhere in a plan

  predicate Lossless(steps: seq<Step>) {
    forall i :: 0 <= i < |steps| ==> !BlankSelect(steps[i])
  }

  predicate AttemptLossless(a: Attempt) {
    Lossless(a.steps) && Lossless(a.thenSteps.GetOr([]))
  }

  predicate ActionLossless(a: PlanAction) {
    Lossless(a.setup.GetOr([])) && forall i :: 0 <= i < |a.attempts| ==> AttemptLossless(a.attempts[i])
  }

  predicate PlanLossless(p: Plan) {
    forall i :: 0 <= i < |p.actions| ==> ActionLossless(p.actions[i])
  }

  // ----- reading it again

  /** Reading back gives `x` if `faithful`, and is refused otherwise. */
  ghost predicate Trip<T(!new)>(r: Result<T>, x: T, faithful: bool) {
    if faithful then r == Ok(x) else r.Err?
  }

  /** A list reads back when its elements do. */
  lemma {:induction false} CollectTrip<T(!new)>(raws: seq<Raw>, f: Raw -> Result<T>, xs: seq<T>, faithful: seq<bool>)
    requires |raws| == |xs| == |faithful|
    requires forall i :: 0 <= i < |xs| ==> Trip(f(raws[i]), xs[i], faithful[i])
    ensures Trip(Collect(raws, f), xs, forall i :: 0 <= i < |xs| ==> faithful[i])
  {
    var r := Collect(raws, f);
    if forall i :: 0 <= i < |xs| ==> faithful[i] {
      assert r.Ok? && forall i :: 0 <= i < |xs| ==> r.value[i] == xs[i];
      assert r.value == xs;
    } else {
      var i :| 0 <= i < |xs| && !faithful[i];
      assert f(raws[i]).Err?;
    }
  }

  lemma {:induction false} TargetTrip(t: Target)
    ensures RequireTarget(RawTarget(t)) == Ok(t)
  {
  }

  lemma {:induction false} PredicateTrip(p: Predicate, depth: nat)
    requires PredicateOk(p, depth)
    ensures RequirePredicate(RawPredicate(p), depth) == Ok(p)
    decreases p, 1
  {
    match p
    case AnyOf(of) => PredicatesTrip(p, of, depth);
    case AllOf(of) => PredicatesTrip(p, of, depth);
    case Not(pred) =>
      PredicateTrip(pred, depth + 1);
      NotTrip(pred, depth);
    case _ => LeafTrip(p, depth);
  }

  lemma {:induction false} LeafTrip(p: Predicate, depth: nat)
    requires PredicateOk(p, depth) && !p.AnyOf? && !p.AllOf? && !p.Not?
    ensures RequirePredicate(RawPredicate(p), depth) == Ok(p)
  {
    hide RequireTarget, RawTarget;
    match p
    case TargetExists(target) => TargetTrip(target);
    case ValueIncludes(target, _) => TargetTrip(target);
    case ValueEquals(target, _) => TargetTrip(target);
    case _ =>
  }

  lemma {:induction false} NotTrip(pred: Predicate, depth: nat)
    requires depth < MAX_DEPTH && RequirePredicate(RawPredicate(pred), depth + 1) == Ok(pred)
    ensures RequirePredicate(RawPredicate(Not(pred)), depth) == Ok(Not(pred))
  {
    var raw := RawPredicate(Not(pred));
    assert Field(raw, "kind") == Some(RStr("not")) && Field(raw, "pred") == Some(RawPredicate(pred));
    hide RawPredicate, Field;
  }

  function RawPredicates(of: seq<Predicate>): (r: seq<Raw>)
    ensures |r| == |of|
  {
    seq(|of|, i requires 0 <= i < |of| => RawPredicate(of[i]))
  }

  lemma {:induction false} ListFields(p: Predicate, of: seq<Predicate>)
    requires p == AnyOf(of) || p == AllOf(of)
    ensures Text(RawPredicate(p), "kind") == Some(if p.AnyOf? then "any" else "all")
    ensures Field(RawPredicate(p), "of") == Some(RArr(RawPredicates(of)))
  {
    var raw := RawPredicate(p);
    assert raw.fields["of"].items == RawPredicates(of);
  }

  lemma {:induction false} PredicatesTrip(p: Predicate, of: seq<Predicate>, depth: nat)
    requires p == AnyOf(of) || p == AllOf(of)
    requires PredicateOk(p, depth)
    ensures RequirePredicate(RawPredicate(p), depth) == Ok(p)
    decreases p, 0
  {
    forall i | 0 <= i < |of|
      ensures RequirePredicate(RawPredicate(of[i]), depth + 1) == Ok(of[i])
    {
      PredicateTrip(of[i], depth + 1);
    }
    assert PredicateOk(of[0], depth + 1);
    ListFields(p, of);
    ListTrip(p, of, depth);
  }

  lemma {:induction false} ListTrip(p: Predicate, of: seq<Predicate>, depth: nat)
    requires (p == AnyOf(of) || p == AllOf(of)) && of != [] && depth < MAX_DEPTH
    requires Text(RawPredicate(p), "kind") == Some(if p.AnyOf? then "any" else "all")
    requires Field(RawPredicate(p), "of") == Some(RArr(RawPredicates(of)))
    requires forall i :: 0 <= i < |of| ==> RequirePredicate(RawPredicate(of[i]), depth + 1) == Ok(of[i])
    ensures RequirePredicate(RawPredicate(p), depth) == Ok(p)
  {
    hide Field, Text, RawPredicate, Collect;
    CollectTrip(RawPredicates(of), (q: Raw) => RequirePredicate(q, depth + 1), of, seq(|of|, i => true));
  }

  lemma {:induction false} IntTrip(n: int, min: int, max: int, fallback: int)
    requires min <= n <= max
    ensures IntIn(Some(RNum(n as real)), min, max, fallback) == Ok(n)
  {
  }

  lemma {:induction false} StepTrip(s: Step, keep: bool)
    requires StepOk(s)
    ensures Trip(RequireStep(RawStep(s, keep)), s, keep || !BlankSelect(s))
  {
    hide StepOk, RequireStep, RawStep;
    match s
    case ClickFirst(targets) => ClickFirstTrip(targets, keep);
    case Scroll(_, _, _) => ScrollTrip(s, keep);
    case ScrollUntil(_, _, _, _) => ScrollTrip(s, keep);
    case Wait(_, _, _) => WaitTrip(s, keep);
    case _ => PlainTrip(s, keep);
  }

  lemma {:induction false} PlainTrip(s: Step, keep: bool)
    requires s.Click? || s.TypeText? || s.Clear? || s.Select?
    ensures Trip(RequireStep(RawStep(s, keep)), s, keep || !BlankSelect(s))
  {
    hide RequireTarget, RawTarget;
    TargetTrip(s.target);
  }

  lemma {:induction false} ClickFirstTrip(targets: seq<Target>, keep: bool)
    requires StepOk(ClickFirst(targets))
    ensures RequireStep(RawStep(ClickFirst(targets), keep)) == Ok(ClickFirst(targets))
  {
    hide RequireTarget, RawTarget;
    forall t: Target
      ensures RequireTarget(RawTarget(t)) == Ok(t)
    {
      TargetTrip(t);
    }
    var raws := RawStep(ClickFirst(targets), keep).fields["targets"].items;
    CollectTrip(raws, RequireTarget, targets, seq(|targets|, i => true));
  }

  lemma {:induction false} ScrollTrip(s: Step, keep: bool)
    requires s.Scroll? || s.ScrollUntil?
    requires StepOk(s)
    ensures RequireStep(RawStep(s, keep)) == Ok(s)
  {
    hide RequireTarget, RawTarget, RequirePredicate, RawPredicate, PredicateOk, IntIn;
    IntTrip(s.dy, 1, 2000, 400);
    if s.at.Some? {
      TargetTrip(s.at.value);
    }
    if s.ScrollUntil? {
      PredicateTrip(s.until, 0);
      IntTrip(s.maxScrolls.value, 1, MAX_SCROLLS, 6);
    }
  }

  lemma {:induction false} WaitTrip(s: Step, keep: bool)
    requires s.Wait? && StepOk(s)
    ensures RequireStep(RawStep(s, keep)) == Ok(s)
  {
    hide RequirePredicate, RawPredicate, PredicateOk, IntIn;
    if s.waitFor.Some? {
      PredicateTrip(s.waitFor.value, 0);
    }
    if s.ms.Some? {
      IntTrip(s.ms.value, 0, MAX_WAIT, 0);
    }
    if s.timeoutMs.Some? {
      IntTrip(s.timeoutMs.value, 1, MAX_WAIT, 0);
    }
  }

  lemma {:induction false} StepsTrip(steps: Option<seq<Step>>, max: nat, keep: bool)
    requires steps.Some? ==> StepsOk(steps.value, max)
    ensures Trip(OptionalSteps(OptSteps(steps, keep), max), steps, keep || Lossless(steps.GetOr([])))
    ensures steps.Some? ==>
              && Trip(RequireSteps(OptSteps(steps, keep), max), steps.value, keep || Lossless(steps.value))
              && OptSteps(steps, keep) == Some(RArr(RawSteps(steps.value, keep)))
    ensures steps.None? ==> OptSteps(steps, keep).None?
  {
    hide RequireStep, RawStep, StepOk, BlankSelect;
    if steps.Some? {
      var ss := steps.value;
      forall i | 0 <= i < |ss|
        ensures Trip(RequireStep(RawStep(ss[i], keep)), ss[i], keep || !BlankSelect(ss[i]))
      {
        StepTrip(ss[i], keep);
      }
      CollectTrip(RawSteps(ss, keep), RequireStep, ss,
                  seq(|ss|, i requires 0 <= i < |ss| => keep || !BlankSelect(ss[i])));
    }
  }

  lemma {:induction false} AttemptFields(a: Attempt, keep: bool)
    ensures var raw := RawAttempt(a, keep);
            && Field(raw, "name") == Some(RStr(a.name))
            && Field(raw, "steps") == Some(RArr(RawSteps(a.steps, keep)))
            && Field(raw, "successWhen") == Some(RawPredicate(a.successWhen))
            && Field(raw, "then") == OptSteps(a.thenSteps, keep)
            && Field(raw, "doneWhen") == OptPredicate(a.doneWhen)
  {
    hide OptSteps, RawPredicate, RawSteps;
  }

  lemma {:induction false} AttemptTrip(a: Attempt, keep: bool, blank: string -> bool)
    requires AttemptOk(a, blank)
    ensures Trip(RequireAttempt(RawAttempt(a, keep), blank), a, keep || AttemptLossless(a))
  {
    hide RequireSteps, OptionalSteps, StepsOk, RequirePredicate, RawPredicate, PredicateOk, OptSteps, Lossless;
    AttemptFields(a, keep);
    hide RawAttempt, Field;
    StepsTrip(Some(a.steps), MAX_STEPS, keep);
    StepsTrip(a.thenSteps, MAX_STEPS, keep);
    PredicateTrip(a.successWhen, 0);
    if a.doneWhen.Some? {
      PredicateTrip(a.doneWhen.value, 0);
    }
  }

  lemma {:induction false} AttemptsTrip(attempts: seq<Attempt>, keep: bool, blank: string -> bool)
    requires forall i :: 0 <= i < |attempts| ==> AttemptOk(attempts[i], blank)
    ensures Trip(Collect(RawAttempts(attempts, keep), (r: Raw) => RequireAttempt(r, blank)), attempts,
                 keep || forall i :: 0 <= i < |attempts| ==> AttemptLossless(attempts[i]))
  {
    hide RequireAttempt, RawAttempt, AttemptOk, AttemptLossless;
    var n := |attempts|;
    forall i | 0 <= i < n
      ensures Trip(RequireAttempt(RawAttempt(attempts[i], keep), blank), attempts[i],
                   keep || AttemptLossless(attempts[i]))
    {
      AttemptTrip(attempts[i], keep, blank);
    }
    CollectTrip(RawAttempts(attempts, keep), (r: Raw) => RequireAttempt(r, blank), attempts,
                seq(n, i requires 0 <= i < n => keep || AttemptLossless(attempts[i])));
  }

  lemma {:induction false} ActionFields(a: PlanAction, keep: bool)
    ensures var raw := RawAction(a, keep);
            && Field(raw, "id") == Some(RStr(a.id))
            && Field(raw, "intent") == Some(RStr(a.intent))
            && Field(raw, "setupEveryAttempt") == Some(RBool(a.setupEveryAttempt))
            && Field(raw, "try") == Some(RArr(RawAttempts(a.attempts, keep)))
            && Field(raw, "setup") == OptSteps(a.setup, keep)
  {
    hide OptSteps, RawAttempts;
  }

  lemma {:induction false} ActionTrip(a: PlanAction, ids: set<string>, keep: bool, blank: string -> bool)
    requires ActionOk(a, blank) && a.id !in ids
    ensures Trip(RequireAction(RawAction(a, keep), ids, blank), a, keep || ActionLossless(a))
  {
    hide OptionalSteps, StepsOk, RequireAttempt, RawAttempts, AttemptOk, OptSteps, Lossless, AttemptLossless, Collect;
    ActionFields(a, keep);
    hide RawAction, Field;
    StepsTrip(a.setup, MAX_SETUP, keep);
    AttemptsTrip(a.attempts, keep, blank);
  }

  lemma {:induction false} ActionsTrip(actions: seq<PlanAction>, ids: set<string>, keep: bool, blank: string -> bool)
    requires ActionsOk(actions, ids, blank)
    ensures Trip(RequireActions(RawActions(actions, keep), ids, blank), actions,
                 keep || forall i :: 0 <= i < |actions| ==> ActionLossless(actions[i]))
  {
    hide RequireAction, RawAction, ActionOk, ActionLossless;
    if actions != [] {
      ActionTrip(actions[0], ids, keep, blank);
      ActionsTrip(actions[1..], ids + {actions[0].id}, keep, blank);
      assert RawActions(actions, keep)[0] == RawAction(actions[0], keep);
      assert RawActions(actions, keep)[1..] == RawActions(actions[1..], keep);
      assert forall i :: 0 < i < |actions| ==> actions[i] == actions[1..][i - 1];
      assert [actions[0]] + actions[1..] == actions;
    }
  }

  lemma {:induction false} PlanTrip(p: Plan, keep: bool, blank: string -> bool)
    requires PlanOk(p, blank)
    ensures Trip(Validated(RawPlan(p, keep), blank), p, keep || PlanLossless(p))
  {
    hide RequireActions, RawActions, ActionsOk, ActionLossless;
    ActionsTrip(p.actions, {}, keep, blank);
  }

  /** The plans validation produces are exactly the well-formed ones. */
  lemma {:induction false} ValidatedExactly(p: Plan, blank: string -> bool)
    ensures PlanOk(p, blank) <==> exists raw :: Validated(raw, blank) == Ok(p)
  {
    if PlanOk(p, blank) {
      PlanTrip(p, true, blank);
    }
    if raw :| Validated(raw, blank) == Ok(p) {
      ValidatedSound(raw, blank);
    }
  }

  /** Validating a validated plan again gives it back exactly when no `select` step lost what it selects. */
  lemma {:induction false} ValidateTwice(raw: Raw, blank: string -> bool)
    requires Validated(raw, blank).Ok?
    ensures var p := Validated(raw, blank).value;
            Validated(RawPlan(p, false), blank) == Ok(p) <==> PlanLossless(p)
  {
    ValidatedSound(raw, blank);
    PlanTrip(Validated(raw, blank).value, false, blank);
  }
}
