/**
  From a planner's draft to a canonical spec (src/jobs/spec.ts): template ids are made unique,
  and readiness is judged on the result. Fields arrive as the strings and lists the coercers
  leave; coercing unknown values is left out.
*/
module JobSpec {
  import opened Common

  datatype RawTemplate = RawTemplate(
    id: string, slug: string, objective: string, criteria: seq<string>,
    dependencies: seq<string>, discoverable: bool, maxAttempts: Option<real>, resource: Option<string>)

  datatype Template = Template(
    id: string, objective: string, criteria: seq<string>,
    dependencies: seq<string>, discoverable: bool, maxAttempts: Option<real>, resource: Option<string>)

  datatype Question = Question(id: string, required: bool, closed: bool)

  datatype Draft = Draft(
    objective: string, inScope: seq<string>, completionCriteria: seq<string>, stopConditions: seq<string>,
    questions: seq<Question>, maxTurnsPerTask: Option<real>, sprintTaskLimit: Option<real>,
    minCooldownMs: Option<real>, maxCooldownMs: Option<real>,
    templates: seq<RawTemplate>)

  datatype Spec = Spec(
    objective: string, inScope: seq<string>, completionCriteria: seq<string>, stopConditions: seq<string>,
    questions: seq<Question>, maxTurnsPerTask: real, sprintTaskLimit: real,
    minCooldownMs: real, maxCooldownMs: real,
    templates: seq<Template>)

  // ----- unique ids

  /** The n-th name tried for a template: the requested one, then numbered from 2. */
  function Candidate(requested: string, n: nat): string {
    if n <= 1 then requested else requested + "-" + Decimal(n)
  }

  lemma {:induction false} CandidatesDiffer(requested: string, m: nat, n: nat)
    requires 1 <= m < n
    ensures Candidate(requested, m) != Candidate(requested, n)
  {
    var a, b := Candidate(requested, m), Candidate(requested, n);
    assert b[|requested| + 1..] == Decimal(n);
    if m == 1 {
      assert |b| > |a|;
    } else if a == b {
      assert a[|requested| + 1..] == Decimal(m);
      DecimalInjective(m, n);
    }
  }

  /** `id` is the first candidate that is free. */
  ghost predicate FirstFree(requested: string, used: set<string>, id: string) {
    exists n: nat :: n >= 1 && id == Candidate(requested, n) && id !in used
                     && forall m: nat :: 1 <= m < n ==> Candidate(requested, m) in used
  }

  /** The renaming loop. It ends because every name it tries is a different one. */
  method UniqueId(requested: string, used: set<string>) returns (id: string)
    ensures FirstFree(requested, used, id)
  {
    id := requested;
    var n := 2;
    ghost var rest := used;
    while id in used
      invariant n >= 2 && id == Candidate(requested, n - 1)
      invariant forall m: nat :: 1 <= m < n - 1 ==> Candidate(requested, m) in used
      invariant rest <= used
      invariant forall m: nat :: m >= n - 1 && Candidate(requested, m) in used ==> Candidate(requested, m) in rest
      decreases rest
    {
      forall m: nat | m >= n
        ensures Candidate(requested, m) != id
      {
        CandidatesDiffer(requested, n - 1, m);
      }
      rest := rest - {id};
      id := requested + "-" + Decimal(n);
      n := n + 1;
    }
    assert id == Candidate(requested, n - 1);
  }

  lemma {:induction false} FirstFreeUnique(requested: string, used: set<string>, a: string, b: string)
    requires FirstFree(requested, used, a) && FirstFree(requested, used, b)
    ensures a == b
  {
    var m: nat :| m >= 1 && a == Candidate(requested, m) && a !in used
                  && forall k: nat :: 1 <= k < m ==> Candidate(requested, k) in used;
    var n: nat :| n >= 1 && b == Candidate(requested, n) && b !in used
                  && forall k: nat :: 1 <= k < n ==> Candidate(requested, k) in used;
    assert !(m < n) && !(n < m);
  }

  // ----- canonical templates

  function Requested(raw: RawTemplate, index: nat): string {
    if raw.id != "" then raw.id else if raw.slug != "" then raw.slug else "task-" + Decimal(index + 1)
  }

  function WithId(raw: RawTemplate, id: string): Template {
    Template(id, raw.objective, raw.criteria, raw.dependencies, raw.discoverable, raw.maxAttempts, raw.resource)
  }

  predicate DistinctIds(ts: seq<Template>) {
    forall i, j :: 0 <= i < j < |ts| ==> ts[i].id != ts[j].id
  }

  function Seen(ids: seq<string>): set<string> {
    set x | x in ids
  }

  /** Each draft, with an objective or not, takes the first free name in turn. */
  ghost predicate Assigned(raws: seq<RawTemplate>, ids: seq<string>) {
    |ids| == |raws| && forall i :: 0 <= i < |ids| ==> Named(raws, ids, i)
  }

  ghost predicate Named(raws: seq<RawTemplate>, ids: seq<string>, i: nat)
    requires i < |ids| == |raws|
  {
    FirstFree(Requested(raws[i], i), Seen(ids[..i]), ids[i])
  }

  /** The drafts with an objective, in order, under the names they took. */
  function Kept(raws: seq<RawTemplate>, ids: seq<string>): seq<Template>
    requires |ids| == |raws|
  {
    if raws == [] then []
    else
      var n := |raws| - 1;
      Kept(raws[..n], ids[..n]) + if raws[n].objective == "" then [] else [WithId(raws[n], ids[n])]
  }

  ghost predicate Canonical(raws: seq<RawTemplate>, ts: seq<Template>) {
    exists ids :: Assigned(raws, ids) && ts == Kept(raws, ids)
  }

  /** Drafts that already have an objective and a name of their own. */
  predicate SelfNamed(raws: seq<RawTemplate>) {
    && (forall i :: 0 <= i < |raws| ==> raws[i].id != "" && raws[i].objective != "")
    && forall i, j :: 0 <= i < j < |raws| ==> raws[i].id != raws[j].id
  }

  lemma {:induction false} AssignedPrefix(raws: seq<RawTemplate>, ids: seq<string>, n: nat)
    requires n <= |raws| && Assigned(raws, ids)
    ensures Assigned(raws[..n], ids[..n])
  {
    forall i | 0 <= i < n
      ensures Named(raws[..n], ids[..n], i)
    {
      assert Named(raws, ids, i);
      assert ids[..n][..i] == ids[..i];
    }
  }

  lemma {:induction false} AssignedNext(raws: seq<RawTemplate>, n: nat, ids: seq<string>, id: string)
    requires n < |raws| && Assigned(raws[..n], ids) && FirstFree(Requested(raws[n], n), Seen(ids), id)
    ensures Assigned(raws[..n + 1], ids + [id])
    ensures Kept(raws[..n + 1], ids + [id])
            == Kept(raws[..n], ids) + if raws[n].objective == "" then [] else [WithId(raws[n], id)]
  {
    var more, now := raws[..n + 1], ids + [id];
    assert more[..n] == raws[..n] && now[..n] == ids;
    forall i | 0 <= i <= n
      ensures Named(more, now, i)
    {
      if i < n {
        assert Named(raws[..n], ids, i);
        assert now[..i] == ids[..i];
      }
    }
  }

  lemma {:induction false} FreeUnseen(requested: string, ids: seq<string>, id: string)
    requires FirstFree(requested, Seen(ids), id)
    ensures id !in ids
    ensures requested != "" ==> id != ""
  {}

  /** The rule determines the names. */
  lemma {:induction false} AssignedUnique(raws: seq<RawTemplate>, a: seq<string>, b: seq<string>)
    requires Assigned(raws, a) && Assigned(raws, b)
    ensures a == b
    decreases |raws|
  {
    if raws != [] {
      var n := |raws| - 1;
      AssignedPrefix(raws, a, n);
      AssignedPrefix(raws, b, n);
      AssignedUnique(raws[..n], a[..n], b[..n]);
      assert Named(raws, a, n) && Named(raws, b, n);
      FirstFreeUnique(Requested(raws[n], n), Seen(a[..n]), a[n], b[n]);
      assert a == a[..n] + [a[n]] && b == b[..n] + [b[n]];
    }
  }

  /** Canonical templates have names, objectives, and no name twice. */
  lemma {:induction false} KeptNamed(raws: seq<RawTemplate>, ids: seq<string>)
    requires Assigned(raws, ids)
    ensures DistinctIds(Kept(raws, ids))
    ensures forall t :: t in Kept(raws, ids) ==> t.id in ids && t.id != "" && t.objective != ""
    decreases |raws|
  {
    if raws != [] {
      var n := |raws| - 1;
      AssignedPrefix(raws, ids, n);
      KeptNamed(raws[..n], ids[..n]);
      assert Named(raws, ids, n);
      FreeUnseen(Requested(raws[n], n), ids[..n], ids[n]);
    }
  }

  /** Names that were distinct already are left alone. */
  lemma {:induction false} SelfNamedKept(raws: seq<RawTemplate>, ids: seq<string>)
    requires Assigned(raws, ids) && SelfNamed(raws)
    ensures forall i :: 0 <= i < |raws| ==> ids[i] == raws[i].id
    ensures |Kept(raws, ids)| == |raws|
    ensures forall i :: 0 <= i < |raws| ==> Kept(raws, ids)[i] == WithId(raws[i], raws[i].id)
    decreases |raws|
  {
    if raws != [] {
      var n := |raws| - 1;
      AssignedPrefix(raws, ids, n);
      SelfNamedKept(raws[..n], ids[..n]);
      assert Named(raws, ids, n);
      assert raws[n].id == Candidate(raws[n].id, 1);
      assert raws[n].id !in ids[..n];
      assert FirstFree(raws[n].id, Seen(ids[..n]), raws[n].id);
      FirstFreeUnique(raws[n].id, Seen(ids[..n]), ids[n], raws[n].id);
    }
  }

  /** The renaming pass: every draft takes a name, those without an objective are then dropped. */
  method NormalizeTemplates(raws: seq<RawTemplate>) returns (ts: seq<Template>, ghost ids: seq<string>)
    ensures Assigned(raws, ids) && ts == Kept(raws, ids)
    ensures DistinctIds(ts) && Canonical(raws, ts)
  {
    hide Requested, FirstFree, Kept;
    ts, ids := [], [];
    var used: set<string> := {};
    assert raws[..0] == [];
    assert Assigned([], []);
    assert Kept([], []) == [] by { NoneKept(); }
    for index := 0 to |raws|
      invariant Assigned(raws[..index], ids) && ts == Kept(raws[..index], ids) && used == Seen(ids)
    {
      var raw := raws[index];
      var id := UniqueId(Requested(raw, index), used);
      AssignedNext(raws, index, ids, id);
      ids := ids + [id];
      used := used + {id};
      if raw.objective != "" {
        ts := ts + [WithId(raw, id)];
      }
    }
    assert raws[..|raws|] == raws;
    KeptNamed(raws, ids);
  }

  lemma {:induction false} NoneKept()
    ensures Kept([], []) == []
  {}

  function NumberOr(n: Option<real>, fallback: real): real {
    n.GetOr(fallback)
  }

  function MaxReal(a: real, b: real): real {
    if a >= b then a else b
  }

  const QUARTER_HOUR := 900_000.0
  const DAY := 86_400_000.0

  /** The draft with its defaults filled in, around its canonical templates. */
  function Filled(d: Draft, ts: seq<Template>): Spec {
    var turns := NumberOr(d.maxTurnsPerTask, 16.0);
    var min := NumberOr(d.minCooldownMs, QUARTER_HOUR);
    Spec(d.objective, d.inScope, d.completionCriteria, d.stopConditions, d.questions,
         if turns == 0.0 then 16.0 else turns,
         MaxReal(1.0, NumberOr(d.sprintTaskLimit, 5.0)),
         MaxReal(0.0, min), MaxReal(min, NumberOr(d.maxCooldownMs, DAY)),
         ts)
  }

  method NormalizeSpec(d: Draft) returns (s: Spec)
    ensures Canonical(d.templates, s.templates) && DistinctIds(s.templates)
    ensures s == Filled(d, s.templates)
  {
    var templates, _ := NormalizeTemplates(d.templates);
    s := Filled(d, templates);
  }

  ghost predicate Normalized(d: Draft, s: Spec) {
    Canonical(d.templates, s.templates) && s == Filled(d, s.templates)
  }

  /** Both pacing numbers were given and negative. */
  predicate NegativePacing(d: Draft) {
    NumberOr(d.minCooldownMs, QUARTER_HOUR) < 0.0 && NumberOr(d.maxCooldownMs, DAY) < 0.0
  }

  /** A spec is a draft again when it is edited. */
  function Redraft(s: Spec): Draft {
    Draft(s.objective, s.inScope, s.completionCriteria, s.stopConditions, s.questions,
          Some(s.maxTurnsPerTask), Some(s.sprintTaskLimit), Some(s.minCooldownMs), Some(s.maxCooldownMs),
          RawTemplates(s.templates))
  }

  function RawTemplates(ts: seq<Template>): (r: seq<RawTemplate>)
    ensures |r| == |ts|
  {
    seq(|ts|, i requires 0 <= i < |ts| => RawOf(ts[i]))
  }

  function RawOf(t: Template): RawTemplate {
    RawTemplate(t.id, "", t.objective, t.criteria, t.dependencies, t.discoverable, t.maxAttempts, t.resource)
  }

  /** Canonical templates are canonical for good. */
  lemma {:induction false} TemplatesTwice(raws: seq<RawTemplate>, ts: seq<Template>, us: seq<Template>)
    requires Canonical(raws, ts) && Canonical(RawTemplates(ts), us)
    ensures us == ts
  {
    var ids :| Assigned(raws, ids) && ts == Kept(raws, ids);
    KeptNamed(raws, ids);
    var again :| Assigned(RawTemplates(ts), again) && us == Kept(RawTemplates(ts), again);
    forall i | 0 <= i < |ts|
      ensures RawTemplates(ts)[i].id != "" && RawTemplates(ts)[i].objective != ""
    {
      assert ts[i] in ts;
    }
    SelfNamedKept(RawTemplates(ts), again);
  }

  /** Normalizing determines the spec, and normalizing again changes it only if both pacing numbers were negative. */
  lemma {:induction false} NormalizeTwiceIff(d: Draft, s: Spec, again: Spec)
    requires Normalized(d, s) && Normalized(Redraft(s), again)
    ensures again == s <==> !NegativePacing(d)
    ensures s.maxCooldownMs < s.minCooldownMs <==> NegativePacing(d)
  {
    TemplatesTwice(d.templates, s.templates, again.templates);
  }

  lemma {:induction false} NormalizedUnique(d: Draft, s: Spec, t: Spec)
    requires Normalized(d, s) && Normalized(d, t)
    ensures s == t
  {
    var a :| Assigned(d.templates, a) && s.templates == Kept(d.templates, a);
    var b :| Assigned(d.templates, b) && t.templates == Kept(d.templates, b);
    AssignedUnique(d.templates, a, b);
  }

  // ----- readiness

  function ById(ts: seq<Template>): map<string, Template> {
    if ts == [] then map[] else ById(ts[..|ts| - 1])[ts[|ts| - 1].id := ts[|ts| - 1]]
  }

  lemma {:induction false} ByIdFinds(ts: seq<Template>, id: string)
    requires DistinctIds(ts)
    ensures id in ById(ts) <==> exists i :: 0 <= i < |ts| && ts[i].id == id
    ensures forall i :: 0 <= i < |ts| && ts[i].id == id ==> id in ById(ts) && ById(ts)[id] == ts[i]
  {
    if ts != [] {
      var n := |ts| - 1;
      ByIdFinds(ts[..n], id);
      if id in ById(ts[..n]) {
        var i :| 0 <= i < n && ts[..n][i].id == id;
        assert ts[i].id == id;
      }
      forall i | 0 <= i < |ts| && ts[i].id == id
        ensures id in ById(ts) && ById(ts)[id] == ts[i]
      {
        if i < n {
          assert ts[..n][i].id == id;
        }
      }
    }
  }

  /** A template whose declared dependencies can all be created before the job starts. */
  predicate DepsMaterializable(t: Template, ts: seq<Template>) {
    && (t.discoverable ==> t.dependencies == [])
    && forall d :: d in t.dependencies ==> d in ById(ts) && !ById(ts)[d].discoverable
  }

  predicate Materializable(ts: seq<Template>) {
    && (exists i :: 0 <= i < |ts| && !ts[i].discoverable)
    && forall i :: 0 <= i < |ts| ==> DepsMaterializable(ts[i], ts)
  }

  /** Everything the readiness check demands of a canonical spec. */
  predicate Ready(s: Spec, blank: string -> bool) {
    && !blank(s.objective) && s.inScope != [] && s.completionCriteria != [] && s.stopConditions != []
    && Materializable(s.templates)
    && (forall i :: 0 <= i < |s.templates| ==> s.templates[i].criteria != [])
    && s.maxTurnsPerTask != 0.0 && s.sprintTaskLimit >= 1.0
    && 0.0 <= s.minCooldownMs <= s.maxCooldownMs
    && forall i :: 0 <= i < |s.questions| ==> (s.questions[i].required ==> s.questions[i].closed)
  }

  method BuildById(ts: seq<Template>) returns (m: map<string, Template>)
    ensures m == ById(ts)
  {
    m := map[];
    for i := 0 to |ts|
      invariant m == ById(ts[..i])
    {
      m := m[ts[i].id := ts[i]];
      assert ts[..i + 1][..i] == ts[..i];
    }
    assert ts[..|ts|] == ts;
  }

  function Issue(raised: bool, code: string): seq<string> {
    if raised then [code] else []
  }

  function DependencyIssue(d: string, byId: map<string, Template>): seq<string> {
    if d !in byId then ["unknown_dependency"]
    else if byId[d].discoverable then ["unmaterialized_dependency"]
    else []
  }

  function DependencyIssuesOf(ds: seq<string>, byId: map<string, Template>): seq<string> {
    if ds == [] then []
    else DependencyIssuesOf(ds[..|ds| - 1], byId) + DependencyIssue(ds[|ds| - 1], byId)
  }

  function TemplateIssue(t: Template, byId: map<string, Template>): seq<string> {
    Issue(t.criteria == [], "template_criteria")
    + Issue(t.discoverable && t.dependencies != [], "discoverable_dependency")
    + DependencyIssuesOf(t.dependencies, byId)
  }

  function TemplateIssuesOf(ts: seq<Template>, byId: map<string, Template>): seq<string> {
    if ts == [] then [] else TemplateIssuesOf(ts[..|ts| - 1], byId) + TemplateIssue(ts[|ts| - 1], byId)
  }

  function QuestionIssuesOf(qs: seq<Question>): seq<string> {
    if qs == [] then []
    else
      var q := qs[|qs| - 1];
      QuestionIssuesOf(qs[..|qs| - 1]) + Issue(q.required && !q.closed, "question")
  }

  /** Every issue of a canonical spec, in the order they are raised. */
  function Issues(s: Spec, blank: string -> bool): seq<string> {
    Issue(blank(s.objective), "objective") + Issue(s.inScope == [], "in_scope")
    + Issue(s.completionCriteria == [], "verifier") + Issue(s.templates == [], "templates")
    + Issue(s.templates != [] && AllDiscoverable(s.templates), "executable_template")
    + TemplateIssuesOf(s.templates, ById(s.templates))
    + Issue(s.maxTurnsPerTask == 0.0 || s.sprintTaskLimit < 1.0, "budget")
    + Issue(s.minCooldownMs < 0.0 || s.maxCooldownMs < s.minCooldownMs, "pacing")
    + Issue(s.stopConditions == [], "stop") + QuestionIssuesOf(s.questions)
  }

  predicate AllDiscoverable(ts: seq<Template>) {
    forall i :: 0 <= i < |ts| ==> ts[i].discoverable
  }

  predicate Creatable(d: string, byId: map<string, Template>) {
    d in byId && !byId[d].discoverable
  }

  lemma {:induction false} NoDependencyIssue(ds: seq<string>, byId: map<string, Template>)
    ensures DependencyIssuesOf(ds, byId) == [] <==> forall d :: d in ds ==> Creatable(d, byId)
  {
    if ds != [] {
      var front, last := ds[..|ds| - 1], ds[|ds| - 1];
      NoDependencyIssue(front, byId);
      assert DependencyIssue(last, byId) == [] <==> Creatable(last, byId);
      hide Creatable, DependencyIssue;
      assert ds == front + [last];
    }
  }

  predicate TemplateOk(t: Template, byId: map<string, Template>) {
    && t.criteria != [] && (t.discoverable ==> t.dependencies == [])
    && forall d :: d in t.dependencies ==> Creatable(d, byId)
  }

  lemma {:induction false} TemplateIssueNone(t: Template, byId: map<string, Template>)
    ensures TemplateIssue(t, byId) == [] <==> TemplateOk(t, byId)
  {
    hide DependencyIssuesOf, Creatable;
    NoDependencyIssue(t.dependencies, byId);
  }

  lemma {:induction false} NoTemplateIssue(ts: seq<Template>, byId: map<string, Template>)
    ensures TemplateIssuesOf(ts, byId) == [] <==> forall i :: 0 <= i < |ts| ==> TemplateOk(ts[i], byId)
  {
    if ts != [] {
      hide TemplateIssue, TemplateOk;
      NoTemplateIssue(ts[..|ts| - 1], byId);
      TemplateIssueNone(ts[|ts| - 1], byId);
    }
  }

  lemma {:induction false} NoQuestionIssue(qs: seq<Question>)
    ensures QuestionIssuesOf(qs) == [] <==> forall i :: 0 <= i < |qs| ==> (qs[i].required ==> qs[i].closed)
  {
    if qs != [] {
      NoQuestionIssue(qs[..|qs| - 1]);
    }
  }

  /** No issue is raised exactly when the spec is ready. */
  lemma {:induction false} NoIssueIff(s: Spec, blank: string -> bool)
    ensures Issues(s, blank) == [] <==> Ready(s, blank)
  {
    NoTemplateIssue(s.templates, ById(s.templates));
    NoQuestionIssue(s.questions);
    hide TemplateIssuesOf, QuestionIssuesOf, ById;
    assert forall i :: 0 <= i < |s.templates| ==>
        (TemplateOk(s.templates[i], ById(s.templates))
         <==> s.templates[i].criteria != [] && DepsMaterializable(s.templates[i], s.templates));
  }

  method DependencyIssues(t: Template, byId: map<string, Template>) returns (issues: seq<string>)
    ensures issues == DependencyIssuesOf(t.dependencies, byId)
  {
    issues := [];
    for k := 0 to |t.dependencies|
      invariant issues == DependencyIssuesOf(t.dependencies[..k], byId)
    {
      var d := t.dependencies[k];
      assert t.dependencies[..k + 1][..k] == t.dependencies[..k];
      if d !in byId {
        issues := issues + ["unknown_dependency"];
      } else if byId[d].discoverable {
        issues := issues + ["unmaterialized_dependency"];
      }
    }
    assert t.dependencies[..|t.dependencies|] == t.dependencies;
  }

  method IssuesOfTemplate(t: Template, byId: map<string, Template>) returns (issues: seq<string>)
    ensures issues == TemplateIssue(t, byId)
  {
    hide DependencyIssuesOf;
    issues := Issue(t.criteria == [], "template_criteria");
    issues := issues + Issue(t.discoverable && t.dependencies != [], "discoverable_dependency");
    var more := DependencyIssues(t, byId);
    issues := issues + more;
  }

  method TemplateIssues(ts: seq<Template>, byId: map<string, Template>) returns (issues: seq<string>)
    ensures issues == TemplateIssuesOf(ts, byId)
  {
    hide TemplateIssue;
    issues := [];
    for i := 0 to |ts|
      invariant issues == TemplateIssuesOf(ts[..i], byId)
    {
      assert ts[..i + 1][..i] == ts[..i];
      var more := IssuesOfTemplate(ts[i], byId);
      issues := issues + more;
    }
    assert ts[..|ts|] == ts;
  }

  /** The issues are those of the canonical spec, and there is none exactly when that spec is ready. */
  method CollectReadinessIssues(d: Draft, blank: string -> bool) returns (s: Spec, issues: seq<string>)
    ensures Normalized(d, s) && DistinctIds(s.templates)
    ensures issues == Issues(s, blank)
    ensures issues == [] <==> Ready(s, blank)
  {
    hide TemplateIssuesOf, Ready, Issue, ById, Canonical, Filled;
    s := NormalizeSpec(d);
    NoIssueIff(s, blank);
    issues := Issue(blank(s.objective), "objective");
    issues := issues + Issue(s.inScope == [], "in_scope");
    issues := issues + Issue(s.completionCriteria == [], "verifier");
    issues := issues + Issue(s.templates == [], "templates");
    var byId := BuildById(s.templates);
    issues := issues + Issue(s.templates != [] && AllDiscoverable(s.templates), "executable_template");
    var more := TemplateIssues(s.templates, byId);
    issues := issues + more;
    issues := issues + Issue(s.maxTurnsPerTask == 0.0 || s.sprintTaskLimit < 1.0, "budget");
    issues := issues + Issue(s.minCooldownMs < 0.0 || s.maxCooldownMs < s.minCooldownMs, "pacing");
    issues := issues + Issue(s.stopConditions == [], "stop");
    ghost var before := issues;
    for k := 0 to |s.questions|
      invariant issues == before + QuestionIssuesOf(s.questions[..k])
    {
      assert s.questions[..k + 1][..k] == s.questions[..k];
      var more := Issue(s.questions[k].required && !s.questions[k].closed, "question");
      issues := issues + more;
      assert before + QuestionIssuesOf(s.questions[..k]) + more == before + (QuestionIssuesOf(s.questions[..k]) + more);
    }
    assert s.questions[..|s.questions|] == s.questions;
  }

  /** Why template `t` cannot be created, if so: the first rule it breaks. */
  function Obstacle(t: Template, byId: map<string, Template>): Option<string> {
    var issues := DependencyIssuesOf(t.dependencies, byId);
    if t.discoverable && t.dependencies != [] then Some("unmaterializable_dependency")
    else if issues == [] then None
    else if issues[0] == "unknown_dependency" then Some(issues[0])
    else Some("unmaterializable_dependency")
  }

  /** The check made again before tasks are created; an error names the first rule broken. */
  method AssertMaterializablePlan(ts: seq<Template>) returns (r: Result<()>)
    ensures r.Ok? <==> Materializable(ts)
    ensures AllDiscoverable(ts) ==> r == Err("unmaterializable_plan")
    ensures r.Err? && !AllDiscoverable(ts) ==>
              exists i :: 0 <= i < |ts| && Obstacle(ts[i], ById(ts)) == Some(r.code)
                          && forall j :: 0 <= j < i ==> Obstacle(ts[j], ById(ts)) == None
  {
    hide ById, DependencyIssuesOf;
    var byId := BuildById(ts);
    if AllDiscoverable(ts) { return Err("unmaterializable_plan"); }
    for i := 0 to |ts|
      invariant forall j :: 0 <= j < i ==> DepsMaterializable(ts[j], ts) && Obstacle(ts[j], byId) == None
    {
      if ts[i].discoverable && ts[i].dependencies != [] {
        assert Obstacle(ts[i], byId) == Some("unmaterializable_dependency");
        return Err("unmaterializable_dependency");
      }
      var issues := DependencyIssues(ts[i], byId);
      NoDependencyIssue(ts[i].dependencies, byId);
      if issues != [] {
        var code := if issues[0] == "unknown_dependency" then issues[0] else "unmaterializable_dependency";
        assert Obstacle(ts[i], byId) == Some(code);
        return Err(code);
      }
    }
    return Ok(());
  }
}
