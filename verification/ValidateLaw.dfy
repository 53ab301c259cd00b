/**
  What a plan's raw value must say (src/plan/validate.ts), field by field: validation answers with the plan
  the value spells when that plan is within the limits, and refuses every other value.
*/
module ValidateLaw {
  import opened Common
  import opened PagePlan
  import opened PlanValidate

  // ----- fields

  predicate Given(raw: Raw, key: string) {
    raw.RObj? && key in raw.fields
  }

  predicate Has(raw: Raw, key: string, value: Raw) {
    Given(raw, key) && raw.fields[key] == value
  }

  /** A string field that may be missing; one that is not a string counts as missing. */
  predicate MaybeText(raw: Raw, key: string, text: Option<string>) {
    if text.Some? then Has(raw, key, RStr(text.value)) else Given(raw, key) ==> !raw.fields[key].RStr?
  }

  /** A number that is `usual` when not given. */
  predicate Number(raw: Raw, key: string, n: int, usual: int) {
    if Given(raw, key) then raw.fields[key] == RNum(n as real) else n == usual
  }

  predicate MaybeNumber(raw: Raw, key: string, n: Option<int>) {
    if n.Some? then Has(raw, key, RNum(n.value as real)) else !Given(raw, key)
  }

  /** The items of a list field; nothing if it is not one. */
  function Items(raw: Raw, key: string): seq<Raw> {
    if Given(raw, key) && raw.fields[key].RArr? then raw.fields[key].items else []
  }

  lemma {:induction false} FieldIs(raw: Raw, key: string)
    ensures Field(raw, key) == if Given(raw, key) then Some(raw.fields[key]) else None
    ensures forall s :: Text(raw, key) == Some(s) <==> Has(raw, key, RStr(s))
    ensures IsTrue(raw, key) <==> Has(raw, key, RBool(true))
    ensures forall t :: Text(raw, key) == t <==> MaybeText(raw, key, t)
  {}

  lemma {:induction false} NumberIs(raw: Raw, key: string, low: int, high: int, usual: int, n: int)
    ensures low <= usual <= high ==>
              (IntIn(Field(raw, key), low, high, usual) == Ok(n) <==> low <= n <= high && Number(raw, key, n, usual))
    ensures OptionalInt(raw, key, low, high) == Ok(Some(n)) <==> low <= n <= high && MaybeNumber(raw, key, Some(n))
    ensures OptionalInt(raw, key, low, high) == Ok(None) <==> MaybeNumber(raw, key, None)
  {}

  lemma {:induction false} CollectIff<T(!new)>(raws: seq<Raw>, f: Raw -> Result<T>, xs: seq<T>)
    ensures Collect(raws, f) == Ok(xs) <==> |xs| == |raws| && forall i :: 0 <= i < |xs| ==> f(raws[i]) == Ok(xs[i])
  {
    if |xs| == |raws| && forall i :: 0 <= i < |xs| ==> f(raws[i]) == Ok(xs[i]) {
      assert Collect(raws, f).value == xs;
    }
  }

  // ----- targets

  predicate SpellsTarget(raw: Raw, t: Target) {
    match t
    case ByRef(ref) => Has(raw, "by", RStr("ref")) && Has(raw, "ref", RStr(ref))
    case ByRole(role, name) =>
      Has(raw, "by", RStr("role")) && Has(raw, "role", RStr(role)) && Has(raw, "name", RStr(name))
    case ByLabel(caption) => Has(raw, "by", RStr("label")) && Has(raw, "label", RStr(caption))
    case ByPlaceholder(text) => Has(raw, "by", RStr("placeholder")) && Has(raw, "text", RStr(text))
    case ByText(text, exact) =>
      Has(raw, "by", RStr("text")) && Has(raw, "text", RStr(text)) && (exact <==> Has(raw, "exact", RBool(true)))
  }

  predicate SpellsTargetAt(raw: Raw, t: Target) {
    Given(raw, "target") && SpellsTarget(raw.fields["target"], t)
  }

  predicate SpellsMaybeTarget(raw: Raw, t: Option<Target>) {
    if t.Some? then SpellsTargetAt(raw, t.value) else !Given(raw, "target")
  }

  lemma {:induction false} TargetIff(raw: Raw, t: Target)
    ensures RequireTarget(raw) == Ok(t) <==> SpellsTarget(raw, t)
  {}

  lemma {:induction false} TargetAtIff(raw: Raw, t: Target)
    ensures FieldTarget(raw) == Ok(t) <==> SpellsTargetAt(raw, t)
    ensures OptionalTarget(raw) == Ok(Some(t)) <==> SpellsMaybeTarget(raw, Some(t))
    ensures OptionalTarget(raw) == Ok(None) <==> SpellsMaybeTarget(raw, None)
  {
    hide RequireTarget, SpellsTarget;
    if Given(raw, "target") {
      TargetIff(raw.fields["target"], t);
    }
  }

  // ----- predicates

  /** How many predicates deep inside another the deepest one lies. */
  function Nesting(p: Predicate): nat {
    match p
    case AnyOf(of) => NestingOf(of)
    case AllOf(of) => NestingOf(of)
    case Not(pred) => 1 + Nesting(pred)
    case _ => 0
  }

  function NestingOf(ps: seq<Predicate>): nat {
    if ps == [] then 0
    else
      var n, rest := 1 + Nesting(ps[0]), NestingOf(ps[1..]);
      if n >= rest then n else rest
  }

  /** Nothing to look for is empty, and no list of predicates is. */
  predicate Filled(p: Predicate) {
    match p
    case TextVisible(text) => |text| > 0
    case OptionVisible(text) => |text| > 0
    case UrlIncludes(text) => |text| > 0
    case TitleIncludes(text) => |text| > 0
    case RefExists(ref) => |ref| > 0
    case AnyOf(of) => |of| > 0 && forall i :: 0 <= i < |of| ==> Filled(of[i])
    case AllOf(of) => |of| > 0 && forall i :: 0 <= i < |of| ==> Filled(of[i])
    case Not(pred) => Filled(pred)
    case _ => true
  }

  lemma {:induction false} NestingBelow(ps: seq<Predicate>, n: int)
    requires n >= 0
    ensures NestingOf(ps) <= n <==> forall i :: 0 <= i < |ps| ==> 1 + Nesting(ps[i]) <= n
  {
    if ps != [] {
      NestingBelow(ps[1..], n);
      assert forall i :: 1 <= i < |ps| ==> ps[i] == ps[1..][i - 1];
    }
  }

  /** A predicate is within the limits when nothing in it is empty and it is at most four deep. */
  lemma {:induction false} PredicateOkIff(p: Predicate, depth: nat)
    ensures PredicateOk(p, depth) <==> Filled(p) && depth + Nesting(p) <= 4
    decreases p, 1
  {
    match p
    case AnyOf(of) => PredicatesOkIff(p, of, depth);
    case AllOf(of) => PredicatesOkIff(p, of, depth);
    case Not(pred) => PredicateOkIff(pred, depth + 1);
    case _ =>
  }

  lemma {:induction false} PredicatesOkIff(p: Predicate, of: seq<Predicate>, depth: nat)
    requires p == AnyOf(of) || p == AllOf(of)
    ensures PredicateOk(p, depth) <==> Filled(p) && depth + Nesting(p) <= 4
    decreases p, 0
  {
    forall i | 0 <= i < |of|
      ensures PredicateOk(of[i], depth + 1) <==> Filled(of[i]) && depth + 1 + Nesting(of[i]) <= 4
    {
      PredicateOkIff(of[i], depth + 1);
    }
    if depth <= 4 {
      NestingBelow(of, 4 - depth);
    }
    if of != [] && PredicateOk(p, depth) {
      assert PredicateOk(of[0], depth + 1);
    }
  }

  predicate SpellsPredicate(raw: Raw, p: Predicate) {
    match p
    case TextVisible(text) => Has(raw, "kind", RStr("text_visible")) && Has(raw, "text", RStr(text))
    case OptionVisible(text) => Has(raw, "kind", RStr("option_visible")) && Has(raw, "text", RStr(text))
    case UrlIncludes(text) => Has(raw, "kind", RStr("url_includes")) && Has(raw, "text", RStr(text))
    case TitleIncludes(text) => Has(raw, "kind", RStr("title_includes")) && Has(raw, "text", RStr(text))
    case RefExists(ref) => Has(raw, "kind", RStr("ref_exists")) && Has(raw, "ref", RStr(ref))
    case TargetExists(target) => Has(raw, "kind", RStr("target_exists")) && SpellsTargetAt(raw, target)
    case ValueIncludes(target, text) =>
      Has(raw, "kind", RStr("value_includes")) && Has(raw, "text", RStr(text)) && SpellsTargetAt(raw, target)
    case ValueEquals(target, text) =>
      Has(raw, "kind", RStr("value_equals")) && Has(raw, "text", RStr(text)) && SpellsTargetAt(raw, target)
    case AnyOf(of) =>
      && Has(raw, "kind", RStr("any")) && |Items(raw, "of")| == |of|
      && forall i :: 0 <= i < |of| ==> SpellsPredicate(Items(raw, "of")[i], of[i])
    case AllOf(of) =>
      && Has(raw, "kind", RStr("all")) && |Items(raw, "of")| == |of|
      && forall i :: 0 <= i < |of| ==> SpellsPredicate(Items(raw, "of")[i], of[i])
    case Not(pred) =>
      Has(raw, "kind", RStr("not")) && Given(raw, "pred") && SpellsPredicate(raw.fields["pred"], pred)
  }

  lemma {:induction false} PredicateIff(raw: Raw, p: Predicate, depth: nat)
    ensures RequirePredicate(raw, depth) == Ok(p) <==> PredicateOk(p, depth) && SpellsPredicate(raw, p)
    decreases p, 1
  {
    hide RequirePredicate, PredicateOk, SpellsPredicate;
    if depth > MAX_DEPTH {
      TooDeep(raw, p, depth);
    } else {
      match p
      case AnyOf(of) => PredicatesIff(raw, p, of, depth);
      case AllOf(of) => PredicatesIff(raw, p, of, depth);
      case Not(pred) =>
        if Given(raw, "pred") {
          PredicateIff(raw.fields["pred"], pred, depth + 1);
        }
        NotIff(raw, pred, depth);
      case TargetExists(target) => TargetedIff(raw, p, target, depth);
      case ValueIncludes(target, _) => TargetedIff(raw, p, target, depth);
      case ValueEquals(target, _) => TargetedIff(raw, p, target, depth);
      case _ => TextIff(raw, p, depth);
    }
  }

  lemma {:induction false} TooDeep(raw: Raw, p: Predicate, depth: nat)
    requires depth > MAX_DEPTH
    ensures RequirePredicate(raw, depth).Err? && !PredicateOk(p, depth)
  {}

  function KindOf(p: Predicate): string {
    match p
    case TextVisible(_) => "text_visible"
    case OptionVisible(_) => "option_visible"
    case UrlIncludes(_) => "url_includes"
    case TitleIncludes(_) => "title_includes"
    case RefExists(_) => "ref_exists"
    case TargetExists(_) => "target_exists"
    case ValueIncludes(_, _) => "value_includes"
    case ValueEquals(_, _) => "value_equals"
    case AnyOf(_) => "any"
    case AllOf(_) => "all"
    case Not(_) => "not"
  }

  lemma {:induction false} KindRead(raw: Raw, depth: nat)
    ensures var r := RequirePredicate(raw, depth); r.Ok? ==> Has(raw, "kind", RStr(KindOf(r.value)))
  {
    hide FieldTarget, Collect;
  }

  lemma {:induction false} KindSpelled(raw: Raw, p: Predicate)
    ensures SpellsPredicate(raw, p) ==> Has(raw, "kind", RStr(KindOf(p)))
  {}

  lemma {:induction false} TextIff(raw: Raw, p: Predicate, depth: nat)
    requires depth <= MAX_DEPTH
    requires p.TextVisible? || p.OptionVisible? || p.UrlIncludes? || p.TitleIncludes? || p.RefExists?
    ensures RequirePredicate(raw, depth) == Ok(p) <==> PredicateOk(p, depth) && SpellsPredicate(raw, p)
  {
    hide FieldTarget, Collect;
    KindRead(raw, depth);
    KindSpelled(raw, p);
    if Has(raw, "kind", RStr(KindOf(p))) {
      assert Text(raw, "kind") == Some(KindOf(p));
    } else {
      hide RequirePredicate, SpellsPredicate;
    }
  }

  lemma {:induction false} TargetedIff(raw: Raw, p: Predicate, target: Target, depth: nat)
    requires depth <= MAX_DEPTH && (p.TargetExists? || p.ValueIncludes? || p.ValueEquals?) && p.target == target
    ensures RequirePredicate(raw, depth) == Ok(p) <==> PredicateOk(p, depth) && SpellsPredicate(raw, p)
  {
    hide FieldTarget, SpellsTargetAt, Collect;
    TargetAtIff(raw, target);
    KindRead(raw, depth);
    KindSpelled(raw, p);
    if Has(raw, "kind", RStr(KindOf(p))) {
      assert Text(raw, "kind") == Some(KindOf(p));
    } else {
      hide RequirePredicate, SpellsPredicate;
    }
  }

  lemma {:induction false} NotIff(raw: Raw, pred: Predicate, depth: nat)
    requires Given(raw, "pred") ==>
               (RequirePredicate(raw.fields["pred"], depth + 1) == Ok(pred)
                <==> PredicateOk(pred, depth + 1) && SpellsPredicate(raw.fields["pred"], pred))
    ensures RequirePredicate(raw, depth) == Ok(Not(pred))
            <==> PredicateOk(Not(pred), depth) && SpellsPredicate(raw, Not(pred))
  {
    hide FieldTarget, Collect;
  }

  lemma {:induction false} PredicatesIff(raw: Raw, p: Predicate, of: seq<Predicate>, depth: nat)
    requires p == AnyOf(of) || p == AllOf(of)
    ensures RequirePredicate(raw, depth) == Ok(p) <==> PredicateOk(p, depth) && SpellsPredicate(raw, p)
    decreases p, 0
  {
    hide RequirePredicate, PredicateOk, SpellsPredicate;
    var items := Items(raw, "of");
    forall i | 0 <= i < |of| == |items|
      ensures RequirePredicate(items[i], depth + 1) == Ok(of[i])
              <==> PredicateOk(of[i], depth + 1) && SpellsPredicate(items[i], of[i])
    {
      PredicateIff(items[i], of[i], depth + 1);
    }
    ListIff(raw, p, of, depth);
  }

  lemma {:induction false} ListIff(raw: Raw, p: Predicate, of: seq<Predicate>, depth: nat)
    requires p == AnyOf(of) || p == AllOf(of)
    requires forall i :: 0 <= i < |of| == |Items(raw, "of")| ==>
               (RequirePredicate(Items(raw, "of")[i], depth + 1) == Ok(of[i])
                <==> PredicateOk(of[i], depth + 1) && SpellsPredicate(Items(raw, "of")[i], of[i]))
    ensures RequirePredicate(raw, depth) == Ok(p) <==> PredicateOk(p, depth) && SpellsPredicate(raw, p)
  {
    hide FieldTarget, Collect;
    KindRead(raw, depth);
    CollectIff(Items(raw, "of"), (q: Raw) => RequirePredicate(q, depth + 1), of);
    if !Has(raw, "kind", RStr(KindOf(p))) {
      hide RequirePredicate;
    }
  }

  predicate SpellsPredicateAt(raw: Raw, key: string, p: Predicate) {
    Given(raw, key) && SpellsPredicate(raw.fields[key], p)
  }

  predicate SpellsMaybePredicate(raw: Raw, key: string, p: Option<Predicate>) {
    if p.Some? then SpellsPredicateAt(raw, key, p.value) else !Given(raw, key)
  }

  lemma {:induction false} PredicateAtIff(raw: Raw, key: string, p: Predicate)
    ensures FieldPredicate(raw, key) == Ok(p) <==> PredicateOk(p, 0) && SpellsPredicateAt(raw, key, p)
    ensures OptionalPredicate(raw, key) == Ok(Some(p)) <==> PredicateOk(p, 0) && SpellsPredicateAt(raw, key, p)
    ensures OptionalPredicate(raw, key) == Ok(None) <==> !Given(raw, key)
  {
    hide RequirePredicate, PredicateOk, SpellsPredicate;
    if Given(raw, key) {
      PredicateIff(raw.fields[key], p, 0);
    }
  }

  lemma {:induction false} MaybePredicateIff(raw: Raw, key: string, p: Option<Predicate>)
    ensures OptionalPredicate(raw, key) == Ok(p)
            <==> (p.Some? ==> PredicateOk(p.value, 0)) && SpellsMaybePredicate(raw, key, p)
  {
    hide RequirePredicate, PredicateOk, SpellsPredicate, OptionalPredicate;
    match p
    case Some(pred) => PredicateAtIff(raw, key, pred);
    case None => PredicateAtIff(raw, key, AnyOf([]));
  }

  // ----- steps

  predicate SpellsStep(raw: Raw, s: Step) {
    match s
    case Click(target) => Has(raw, "op", RStr("click")) && SpellsTargetAt(raw, target)
    case ClickFirst(targets) =>
      && Has(raw, "op", RStr("click_first")) && |Items(raw, "targets")| == |targets|
      && forall i :: 0 <= i < |targets| ==> SpellsTarget(Items(raw, "targets")[i], targets[i])
    case TypeText(target, text, clear) =>
      && Has(raw, "op", RStr("type")) && SpellsTargetAt(raw, target) && Has(raw, "text", RStr(text))
      && (clear <==> Has(raw, "clear", RBool(true)))
    case Clear(target) => Has(raw, "op", RStr("clear")) && SpellsTargetAt(raw, target)
    case Select(target, caption, value) =>
      && Has(raw, "op", RStr("select")) && SpellsTargetAt(raw, target)
      && (Given(raw, "label") || Given(raw, "value"))
      && MaybeText(raw, "label", caption) && MaybeText(raw, "value", value)
    case Scroll(at, up, dy) =>
      && Has(raw, "op", RStr("scroll")) && SpellsMaybeTarget(raw, at) && Number(raw, "dy", dy, 400)
      && (up <==> Has(raw, "direction", RStr("up")))
    case ScrollUntil(at, until, maxScrolls, dy) =>
      && Has(raw, "op", RStr("scroll_until")) && SpellsMaybeTarget(raw, at) && Number(raw, "dy", dy, 400)
      && SpellsPredicateAt(raw, "until", until)
      && maxScrolls.Some? && Number(raw, "maxScrolls", maxScrolls.value, 6)
    case Wait(ms, waitFor, timeoutMs) =>
      && Has(raw, "op", RStr("wait")) && SpellsMaybePredicate(raw, "until", waitFor)
      && MaybeNumber(raw, "ms", ms) && MaybeNumber(raw, "timeoutMs", timeoutMs)
  }

  lemma {:induction false} OpRead(raw: Raw)
    ensures var r := RequireStep(raw); r.Ok? ==> Has(raw, "op", RStr(OpName(r.value)))
  {
    hide FieldTarget, OptionalTarget, Collect, FieldPredicate, OptionalPredicate, IntIn, OptionalInt;
  }

  lemma {:induction false} OpSpelled(raw: Raw, s: Step)
    ensures SpellsStep(raw, s) ==> Has(raw, "op", RStr(OpName(s)))
  {}

  lemma {:induction false} StepIff(raw: Raw, s: Step)
    ensures RequireStep(raw) == Ok(s) <==> StepOk(s) && SpellsStep(raw, s)
  {
    hide RequireStep, StepOk, SpellsStep;
    OpRead(raw);
    OpSpelled(raw, s);
    if Has(raw, "op", RStr(OpName(s))) {
      assert Text(raw, "op") == Some(OpName(s));
      match s
      case ClickFirst(targets) => ClickFirstIff(raw, targets);
      case Scroll(_, _, _) => ScrollIff(raw, s);
      case ScrollUntil(_, _, _, _) => ScrollUntilIff(raw, s);
      case Wait(_, _, _) => WaitIff(raw, s);
      case _ => PlainIff(raw, s);
    }
  }

  lemma {:induction false} PlainIff(raw: Raw, s: Step)
    requires s.Click? || s.TypeText? || s.Clear? || s.Select?
    requires Text(raw, "op") == Some(OpName(s))
    ensures RequireStep(raw) == Ok(s) <==> StepOk(s) && SpellsStep(raw, s)
  {
    hide FieldTarget, SpellsTargetAt, MaybeText, IsTrue;
    TargetAtIff(raw, s.target);
    FieldIs(raw, "clear");
    FieldIs(raw, "label");
    FieldIs(raw, "value");
  }

  lemma {:induction false} ClickFirstIff(raw: Raw, targets: seq<Target>)
    requires Text(raw, "op") == Some("click_first")
    ensures RequireStep(raw) == Ok(ClickFirst(targets))
            <==> StepOk(ClickFirst(targets)) && SpellsStep(raw, ClickFirst(targets))
  {
    hide RequireTarget, SpellsTarget, Collect;
    var items := Items(raw, "targets");
    CollectIff(items, RequireTarget, targets);
    forall i | 0 <= i < |targets| == |items|
      ensures RequireTarget(items[i]) == Ok(targets[i]) <==> SpellsTarget(items[i], targets[i])
    {
      TargetIff(items[i], targets[i]);
    }
  }

  lemma {:induction false} MaybeTargetIff(raw: Raw, t: Option<Target>)
    ensures OptionalTarget(raw) == Ok(t) <==> SpellsMaybeTarget(raw, t)
  {
    hide OptionalTarget, SpellsMaybeTarget;
    match t
    case Some(target) => TargetAtIff(raw, target);
    case None => TargetAtIff(raw, ByRef(""));
  }

  lemma {:induction false} ScrollIff(raw: Raw, s: Step)
    requires s.Scroll? && Text(raw, "op") == Some("scroll")
    ensures RequireStep(raw) == Ok(s) <==> StepOk(s) && SpellsStep(raw, s)
  {
    hide OptionalTarget, SpellsMaybeTarget, IntIn, Number;
    MaybeTargetIff(raw, s.at);
    NumberIs(raw, "dy", 1, 2000, 400, s.dy);
    FieldIs(raw, "direction");
  }

  lemma {:induction false} ScrollUntilIff(raw: Raw, s: Step)
    requires s.ScrollUntil? && Text(raw, "op") == Some("scroll_until")
    ensures RequireStep(raw) == Ok(s) <==> StepOk(s) && SpellsStep(raw, s)
  {
    hide OptionalTarget, SpellsMaybeTarget, IntIn, Number, FieldPredicate, PredicateOk, SpellsPredicateAt;
    MaybeTargetIff(raw, s.at);
    NumberIs(raw, "dy", 1, 2000, 400, s.dy);
    PredicateAtIff(raw, "until", s.until);
    if s.maxScrolls.Some? {
      NumberIs(raw, "maxScrolls", 1, MAX_SCROLLS, 6, s.maxScrolls.value);
    }
  }

  lemma {:induction false} MaybeNumberIff(raw: Raw, key: string, low: int, high: int, n: Option<int>)
    ensures OptionalInt(raw, key, low, high) == Ok(n)
            <==> (n.Some? ==> low <= n.value <= high) && MaybeNumber(raw, key, n)
  {
    NumberIs(raw, key, low, high, low, n.GetOr(low));
  }

  lemma {:induction false} WaitIff(raw: Raw, s: Step)
    requires s.Wait? && Text(raw, "op") == Some("wait")
    ensures RequireStep(raw) == Ok(s) <==> StepOk(s) && SpellsStep(raw, s)
  {
    hide OptionalInt, MaybeNumber, OptionalPredicate, PredicateOk, SpellsPredicate;
    MaybeNumberIff(raw, "ms", 0, MAX_WAIT, s.ms);
    MaybeNumberIff(raw, "timeoutMs", 1, MAX_WAIT, s.timeoutMs);
    MaybePredicateIff(raw, "until", s.waitFor);
  }

  predicate SpellsSteps(raw: Raw, key: string, steps: seq<Step>) {
    && |Items(raw, key)| == |steps|
    && forall i :: 0 <= i < |steps| ==> SpellsStep(Items(raw, key)[i], steps[i])
  }

  predicate SpellsMaybeSteps(raw: Raw, key: string, steps: Option<seq<Step>>) {
    if steps.Some? then SpellsSteps(raw, key, steps.value) else !Given(raw, key)
  }

  lemma {:induction false} StepsIff(raw: Raw, key: string, max: nat, steps: seq<Step>)
    ensures RequireSteps(Field(raw, key), max) == Ok(steps) <==> StepsOk(steps, max) && SpellsSteps(raw, key, steps)
  {
    hide RequireStep, StepOk, SpellsStep, Collect;
    var items := Items(raw, key);
    CollectIff(items, RequireStep, steps);
    forall i | 0 <= i < |steps| == |items|
      ensures RequireStep(items[i]) == Ok(steps[i]) <==> StepOk(steps[i]) && SpellsStep(items[i], steps[i])
    {
      StepIff(items[i], steps[i]);
    }
  }

  lemma {:induction false} MaybeStepsIff(raw: Raw, key: string, max: nat, steps: Option<seq<Step>>)
    ensures OptionalSteps(Field(raw, key), max) == Ok(steps)
            <==> (steps.Some? ==> StepsOk(steps.value, max)) && SpellsMaybeSteps(raw, key, steps)
  {
    hide RequireSteps, StepsOk, SpellsSteps;
    match steps
    case Some(ss) =>
      StepsIff(raw, key, max, ss);
      GivenSteps(raw, key, max, ss);
    case None =>
  }

  lemma {:induction false} GivenSteps(raw: Raw, key: string, max: nat, steps: seq<Step>)
    ensures StepsOk(steps, max) && SpellsSteps(raw, key, steps) ==> Given(raw, key)
  {
    hide StepOk, SpellsStep;
  }

  // ----- attempts, actions, plans

  predicate SpellsAttempt(raw: Raw, a: Attempt) {
    && Has(raw, "name", RStr(a.name)) && SpellsSteps(raw, "steps", a.steps)
    && SpellsPredicateAt(raw, "successWhen", a.successWhen)
    && SpellsMaybeSteps(raw, "then", a.thenSteps)
    && SpellsMaybePredicate(raw, "doneWhen", a.doneWhen)
  }

  lemma {:induction false} NameIff(raw: Raw, key: string, blank: string -> bool, name: string)
    ensures Named(raw, key, blank) == Ok(name) <==> !blank(name) && Has(raw, key, RStr(name))
    ensures Named(raw, key, blank).Err? ==> Named(raw, key, blank) == Err("invalid_plan")
  {}

  lemma {:induction false} AttemptIff(raw: Raw, blank: string -> bool, a: Attempt)
    ensures RequireAttempt(raw, blank) == Ok(a) <==> AttemptOk(a, blank) && SpellsAttempt(raw, a)
  {
    hide Named, RequireSteps, OptionalSteps, FieldPredicate, OptionalPredicate, StepsOk, PredicateOk,
      SpellsSteps, SpellsMaybeSteps, SpellsPredicateAt, SpellsMaybePredicate, Has, Field;
    NameIff(raw, "name", blank, a.name);
    StepsIff(raw, "steps", MAX_STEPS, a.steps);
    PredicateAtIff(raw, "successWhen", a.successWhen);
    MaybeStepsIff(raw, "then", MAX_STEPS, a.thenSteps);
    MaybePredicateIff(raw, "doneWhen", a.doneWhen);
  }

  predicate SpellsAction(raw: Raw, a: PlanAction) {
    && Has(raw, "id", RStr(a.id)) && Has(raw, "intent", RStr(a.intent))
    && SpellsMaybeSteps(raw, "setup", a.setup)
    && (Given(raw, "setupEveryAttempt") ==> raw.fields["setupEveryAttempt"].RBool?)
    && (a.setupEveryAttempt <==> Has(raw, "setupEveryAttempt", RBool(true)))
    && |Items(raw, "try")| == |a.attempts|
    && forall i :: 0 <= i < |a.attempts| ==> SpellsAttempt(Items(raw, "try")[i], a.attempts[i])
  }

  lemma {:induction false} AttemptsIff(items: seq<Raw>, blank: string -> bool, attempts: seq<Attempt>)
    ensures Collect(items, (a: Raw) => RequireAttempt(a, blank)) == Ok(attempts)
            <==> && |attempts| == |items|
                 && (forall i :: 0 <= i < |attempts| ==> AttemptOk(attempts[i], blank))
                 && forall i :: 0 <= i < |attempts| ==> SpellsAttempt(items[i], attempts[i])
  {
    hide RequireAttempt, AttemptOk, SpellsAttempt, Collect;
    CollectIff(items, (a: Raw) => RequireAttempt(a, blank), attempts);
    forall i | 0 <= i < |attempts| == |items|
      ensures RequireAttempt(items[i], blank) == Ok(attempts[i])
              <==> AttemptOk(attempts[i], blank) && SpellsAttempt(items[i], attempts[i])
    {
      AttemptIff(items[i], blank, attempts[i]);
    }
  }

  lemma {:induction false} ActionIff(raw: Raw, ids: set<string>, blank: string -> bool, a: PlanAction)
    ensures RequireAction(raw, ids, blank) == Ok(a)
            <==> ActionOk(a, blank) && a.id !in ids && SpellsAction(raw, a)
  {
    hide Named, OptionalSteps, RequireAttempt, AttemptOk, StepsOk, SpellsAttempt, SpellsMaybeSteps, Collect;
    NameIff(raw, "id", blank, a.id);
    NameIff(raw, "intent", blank, a.intent);
    MaybeStepsIff(raw, "setup", MAX_SETUP, a.setup);
    AttemptsIff(Items(raw, "try"), blank, a.attempts);
  }

  predicate SpellsActions(items: seq<Raw>, actions: seq<PlanAction>) {
    |items| == |actions| && forall i :: 0 <= i < |actions| ==> SpellsAction(items[i], actions[i])
  }

  lemma {:induction false} ActionsIff(
      items: seq<Raw>, ids: set<string>, blank: string -> bool, actions: seq<PlanAction>)
    ensures RequireActions(items, ids, blank) == Ok(actions)
            <==> ActionsOk(actions, ids, blank) && SpellsActions(items, actions)
    decreases |items|
  {
    hide RequireAction, ActionOk, SpellsAction;
    if items != [] && actions != [] {
      var head, tail := actions[0], actions[1..];
      ActionIff(items[0], ids, blank, head);
      ActionsIff(items[1..], ids + {head.id}, blank, tail);
      ActionsSplit(ids, blank, actions);
      assert actions == [head] + tail;
      assert SpellsActions(items, actions) <==> SpellsAction(items[0], head) && SpellsActions(items[1..], tail) by {
        SpelledSplit(items, actions);
      }
      hide ActionsOk, SpellsActions;
    }
  }

  lemma {:induction false} SpelledSplit(items: seq<Raw>, actions: seq<PlanAction>)
    requires items != [] && actions != []
    ensures SpellsActions(items, actions)
            <==> SpellsAction(items[0], actions[0]) && SpellsActions(items[1..], actions[1..])
  {
    hide SpellsAction;
    if SpellsAction(items[0], actions[0]) && SpellsActions(items[1..], actions[1..]) {
      forall i | 0 <= i < |actions|
        ensures SpellsAction(items[i], actions[i])
      {
        assert i > 0 ==> items[i] == items[1..][i - 1] && actions[i] == actions[1..][i - 1];
      }
    }
  }

  lemma {:induction false} ActionsSplit(ids: set<string>, blank: string -> bool, actions: seq<PlanAction>)
    requires actions != []
    ensures ActionsOk(actions, ids, blank)
            <==> && ActionOk(actions[0], blank) && actions[0].id !in ids
                 && ActionsOk(actions[1..], ids + {actions[0].id}, blank)
  {
    hide ActionOk;
    var rest := actions[1..];
    if ActionOk(actions[0], blank) && actions[0].id !in ids && ActionsOk(rest, ids + {actions[0].id}, blank) {
      assert forall i :: 1 <= i < |actions| ==> actions[i] == rest[i - 1];
    }
    if ActionsOk(actions, ids, blank) {
      assert forall i :: 0 <= i < |rest| ==> rest[i] == actions[i + 1];
    }
  }

  /** A hint is missing or a record whose two texts may each be missing. */
  predicate SpellsHint(raw: Raw, hint: Option<Hint>) {
    if hint.None? then !Given(raw, "hint")
    else
      && Given(raw, "hint") && raw.fields["hint"].RObj?
      && MaybeText(raw.fields["hint"], "urlIncludes", hint.value.urlIncludes)
      && MaybeText(raw.fields["hint"], "titleIncludes", hint.value.titleIncludes)
  }

  lemma {:induction false} HintIff(raw: Raw, hint: Option<Hint>)
    ensures HintOf(Field(raw, "hint")) == Ok(hint) <==> SpellsHint(raw, hint)
  {
    hide MaybeText;
    if Given(raw, "hint") {
      FieldIs(raw.fields["hint"], "urlIncludes");
      FieldIs(raw.fields["hint"], "titleIncludes");
    }
  }

  lemma {:induction false} HintRefused(raw: Raw)
    ensures Refused(HintOf(Field(raw, "hint")))
  {}

  /** The value says what the plan says, field by field, with the defaults for what it leaves out. */
  predicate SpellsPlan(raw: Raw, p: Plan) {
    && Has(raw, "goal", RStr(p.goal)) && Given(raw, "context")
    && Has(raw.fields["context"], "understanding", RStr(p.understanding))
    && SpellsHint(raw.fields["context"], p.hint)
    && SpellsActions(Items(raw, "actions"), p.actions)
  }

  // ----- refusals

  predicate Refused<T>(r: Result<T>) {
    r.Err? ==> r.code == "invalid_plan"
  }

  lemma {:induction false} TargetRefused(raw: Raw)
    ensures Refused(RequireTarget(raw)) && Refused(FieldTarget(raw)) && Refused(OptionalTarget(raw))
  {}

  lemma {:induction false} PredicateRefused(raw: Raw, depth: nat)
    ensures Refused(RequirePredicate(raw, depth))
    decreases Max(MAX_DEPTH + 1 - depth, 0)
  {
    hide RequirePredicate;
    var inner := depth + 1;
    if depth <= MAX_DEPTH {
      forall p: Raw
        ensures Refused(RequirePredicate(p, inner))
      {
        PredicateRefused(p, inner);
      }
    }
    PredicateRefusedStep(raw, depth, inner);
  }

  lemma {:induction false} PredicateRefusedStep(raw: Raw, depth: nat, inner: nat)
    requires inner == depth + 1 && (depth <= MAX_DEPTH ==> forall p: Raw :: Refused(RequirePredicate(p, inner)))
    ensures Refused(RequirePredicate(raw, depth))
  {
    hide FieldTarget, Given, Has;
    TargetRefused(raw);
  }

  lemma {:induction false} StepRefused(raw: Raw)
    ensures Refused(RequireStep(raw))
  {
    hide FieldTarget, OptionalTarget, RequireTarget, RequirePredicate;
    TargetRefused(raw);
    forall t: Raw
      ensures Refused(RequireTarget(t))
    {
      TargetRefused(t);
    }
    if Given(raw, "until") {
      PredicateRefused(raw.fields["until"], 0);
    }
  }

  lemma {:induction false} StepsRefused(raw: Option<Raw>, max: nat)
    ensures Refused(RequireSteps(raw, max)) && Refused(OptionalSteps(raw, max))
  {
    hide RequireStep;
    forall s: Raw
      ensures Refused(RequireStep(s))
    {
      StepRefused(s);
    }
  }

  lemma {:induction false} AttemptRefused(raw: Raw, blank: string -> bool)
    ensures Refused(RequireAttempt(raw, blank))
  {
    hide RequireSteps, OptionalSteps, RequirePredicate;
    StepsRefused(Field(raw, "steps"), MAX_STEPS);
    StepsRefused(Field(raw, "then"), MAX_STEPS);
    if Given(raw, "successWhen") {
      PredicateRefused(raw.fields["successWhen"], 0);
    }
    if Given(raw, "doneWhen") {
      PredicateRefused(raw.fields["doneWhen"], 0);
    }
  }

  lemma {:induction false} ActionRefused(raw: Raw, ids: set<string>, blank: string -> bool)
    ensures Refused(RequireAction(raw, ids, blank))
  {
    hide OptionalSteps, RequireAttempt;
    StepsRefused(Field(raw, "setup"), MAX_SETUP);
    forall a: Raw
      ensures Refused(RequireAttempt(a, blank))
    {
      AttemptRefused(a, blank);
    }
  }

  lemma {:induction false} ActionsRefused(items: seq<Raw>, ids: set<string>, blank: string -> bool)
    ensures Refused(RequireActions(items, ids, blank))
    decreases |items|
  {
    hide RequireAction;
    if items != [] {
      ActionRefused(items[0], ids, blank);
      var action := RequireAction(items[0], ids, blank);
      if action.Ok? {
        ActionsRefused(items[1..], ids + {action.value.id}, blank);
      }
    }
  }

  /** Validation answers with a plan exactly when it is within the limits and the value spells it. */
  lemma {:induction false} ValidatesIff(raw: Raw, blank: string -> bool, p: Plan)
    ensures Validated(raw, blank) == Ok(p) <==> PlanOk(p, blank) && SpellsPlan(raw, p)
    ensures Validated(raw, blank).Err? ==> Validated(raw, blank) == Err("invalid_plan")
  {
    hide Named, RequireActions, ActionsOk, HintOf, SpellsActions, SpellsHint;
    NameIff(raw, "goal", blank, p.goal);
    ActionsIff(Items(raw, "actions"), {}, blank, p.actions);
    ActionsRefused(Items(raw, "actions"), {}, blank);
    if Given(raw, "context") {
      HintIff(raw.fields["context"], p.hint);
      HintRefused(raw.fields["context"]);
    }
  }

  // ----- the limits

  predicate StepLimits(s: Step) {
    match s
    case ClickFirst(targets) => |targets| > 0
    case Scroll(_, _, dy) => 0 < dy < 2001
    case ScrollUntil(_, until, scrolls, dy) =>
      Filled(until) && Nesting(until) < 5 && scrolls.Some? && 0 < scrolls.value < 9 && 0 < dy < 2001
    case Wait(ms, until, timeoutMs) =>
      && !(ms.None? && until.None?)
      && (ms.Some? ==> 0 <= ms.value < 15001) && (timeoutMs.Some? ==> 0 < timeoutMs.value < 15001)
      && (until.Some? ==> Filled(until.value) && Nesting(until.value) < 5)
    case _ => true
  }

  predicate EachWithin(steps: seq<Step>, most: nat) {
    0 < |steps| < most + 1 && forall s :: s in steps ==> StepLimits(s)
  }

  lemma {:induction false} StepsWithinIff(steps: seq<Step>, most: nat)
    ensures StepsOk(steps, most) <==> EachWithin(steps, most)
  {
    hide StepLimits, StepOk;
    forall s | s in steps
      ensures StepOk(s) <==> StepLimits(s)
    {
      StepLimitsIff(s);
    }
  }

  lemma {:induction false} StepLimitsIff(s: Step)
    ensures StepOk(s) <==> StepLimits(s)
  {
    hide PredicateOk, Filled, Nesting;
    match s
    case ScrollUntil(_, until, _, _) => PredicateOkIff(until, 0);
    case Wait(_, Some(until), _) => PredicateOkIff(until, 0);
    case _ =>
  }

  predicate AttemptLimits(a: Attempt, blank: string -> bool) {
    && !blank(a.name) && EachWithin(a.steps, 12) && (a.thenSteps.Some? ==> EachWithin(a.thenSteps.value, 12))
    && Filled(a.successWhen) && Nesting(a.successWhen) < 5
    && (a.doneWhen.Some? ==> Filled(a.doneWhen.value) && Nesting(a.doneWhen.value) < 5)
  }

  lemma {:induction false} AttemptLimitsIff(a: Attempt, blank: string -> bool)
    ensures AttemptOk(a, blank) <==> AttemptLimits(a, blank)
  {
    hide StepsOk, EachWithin, PredicateOk, Filled, Nesting;
    StepsWithinIff(a.steps, 12);
    PredicateOkIff(a.successWhen, 0);
    if a.thenSteps.Some? {
      StepsWithinIff(a.thenSteps.value, 12);
    }
    if a.doneWhen.Some? {
      PredicateOkIff(a.doneWhen.value, 0);
    }
  }

  predicate ActionLimits(a: PlanAction, blank: string -> bool) {
    && !blank(a.id) && !blank(a.intent) && (a.setup.Some? ==> EachWithin(a.setup.value, 4))
    && 0 < |a.attempts| < 7 && forall t :: t in a.attempts ==> AttemptLimits(t, blank)
  }

  lemma {:induction false} ActionLimitsIff(a: PlanAction, blank: string -> bool)
    ensures ActionOk(a, blank) <==> ActionLimits(a, blank)
  {
    hide StepsOk, EachWithin, AttemptOk, AttemptLimits;
    if a.setup.Some? {
      StepsWithinIff(a.setup.value, 4);
    }
    forall t | t in a.attempts
      ensures AttemptOk(t, blank) <==> AttemptLimits(t, blank)
    {
      AttemptLimitsIff(t, blank);
    }
  }

  /**
    The limits in numbers: at most eight actions under names of their own, six attempts each, twelve steps an
    attempt and after it, four of setup, eight scrolls of two thousand pixels, waits of fifteen seconds, and
    predicates four deep; and nothing that must be there is empty.
  */
  lemma {:induction false} LimitsInNumbers(p: Plan, blank: string -> bool)
    ensures PlanOk(p, blank) <==>
              && !blank(p.goal) && 0 < |p.actions| < 9
              && (forall a :: a in p.actions ==> ActionLimits(a, blank))
              && forall i, j :: 0 <= i < |p.actions| && 0 <= j < |p.actions| ==>
                   (p.actions[i].id == p.actions[j].id ==> i == j)
  {
    hide ActionOk, ActionLimits;
    forall a | a in p.actions
      ensures ActionOk(a, blank) <==> ActionLimits(a, blank)
    {
      ActionLimitsIff(a, blank);
    }
  }
}
