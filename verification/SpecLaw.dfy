/**
  The canonical spec in the fields of the draft (src/jobs/spec.ts): the name each template takes, which
  drafts survive, the defaults, and what each issue says.
*/
module SpecLaw {
  import opened Common
  import opened JobSpec

  // ----- names

  /** Its own id, else its slug, else its place counted from one. */
  function Wanted(raw: RawTemplate, i: nat): string {
    if |raw.id| > 0 then raw.id else if |raw.slug| > 0 then raw.slug else "task-" + Decimal(1 + i)
  }

  predicate Numbered(name: string, want: string, k: nat) {
    name == want + "-" + Decimal(k)
  }

  predicate TakenBelow(want: string, taken: seq<string>, k: nat) {
    forall m: nat :: 2 <= m < k ==> want + "-" + Decimal(m) in taken
  }

  /** The wanted name while no earlier draft has it, then the first free number from two on. */
  ghost predicate TakesName(want: string, taken: seq<string>, name: string) {
    if want !in taken then name == want
    else name !in taken && exists k: nat :: k >= 2 && Numbered(name, want, k) && TakenBelow(want, taken, k)
  }

  lemma {:induction false} TakesNameIff(want: string, taken: seq<string>, name: string)
    ensures FirstFree(want, Seen(taken), name) <==> TakesName(want, taken, name)
  {
    assert Candidate(want, 1) == want;
    if FirstFree(want, Seen(taken), name) {
      var n: nat :| n >= 1 && name == Candidate(want, n) && name !in Seen(taken)
                    && forall m: nat :: 1 <= m < n ==> Candidate(want, m) in Seen(taken);
      if n > 1 {
        assert Numbered(name, want, n);
        forall m: nat | 2 <= m < n
          ensures want + "-" + Decimal(m) in taken
        {
          assert Candidate(want, m) in Seen(taken);
        }
      }
    }
    if TakesName(want, taken, name) {
      if want !in taken {
        assert name == Candidate(want, 1);
      } else {
        var k: nat :| k >= 2 && Numbered(name, want, k) && TakenBelow(want, taken, k);
        assert name == Candidate(want, k);
        forall m: nat | 1 <= m < k
          ensures Candidate(want, m) in Seen(taken)
        {
          if m >= 2 {
            assert Candidate(want, m) == want + "-" + Decimal(m);
          }
        }
      }
    }
  }

  ghost predicate EachTakes(raws: seq<RawTemplate>, names: seq<string>) {
    |names| == |raws| && forall i :: 0 <= i < |raws| ==> TakesName(Wanted(raws[i], i), names[..i], names[i])
  }

  lemma {:induction false} NamesTaken(raws: seq<RawTemplate>, names: seq<string>)
    ensures Assigned(raws, names) <==> EachTakes(raws, names)
  {
    hide FirstFree, TakesName;
    if |names| == |raws| {
      forall i | 0 <= i < |raws|
        ensures Named(raws, names, i) <==> TakesName(Wanted(raws[i], i), names[..i], names[i])
      {
        TakesNameIff(Wanted(raws[i], i), names[..i], names[i]);
      }
    }
  }

  // ----- which drafts survive

  function Worthy(raws: seq<RawTemplate>): set<int> {
    set i | 0 <= i < |raws| && |raws[i].objective| > 0
  }

  /** The same template as the draft, but for its name. */
  predicate Renamed(t: Template, raw: RawTemplate, name: string) {
    && t.id == name && t.objective == raw.objective && t.criteria == raw.criteria
    && t.dependencies == raw.dependencies && t.discoverable == raw.discoverable
    && t.maxAttempts == raw.maxAttempts && t.resource == raw.resource
  }

  /** A draft with an objective stands after as many templates as such drafts came before it. */
  predicate Stands(raws: seq<RawTemplate>, names: seq<string>, ts: seq<Template>, i: nat)
    requires i < |raws| == |names|
  {
    |raws[i].objective| > 0 ==>
      var place := |Worthy(raws[..i])|;
      place < |ts| && Renamed(ts[place], raws[i], names[i])
  }

  lemma {:induction false} WorthyStep(raws: seq<RawTemplate>)
    requires raws != []
    ensures var n := |raws| - 1;
            |Worthy(raws)| == |Worthy(raws[..n])| + if |raws[n].objective| > 0 then 1 else 0
  {
    var n := |raws| - 1;
    assert Worthy(raws) == Worthy(raws[..n]) + if |raws[n].objective| > 0 then {n} else {};
  }

  lemma {:induction false} StandsOn(
      raws: seq<RawTemplate>, names: seq<string>, ts: seq<Template>, more: seq<Template>, i: nat)
    requires |raws| == |names| && i < |raws| - 1
    requires Stands(raws[..|raws| - 1], names[..|raws| - 1], ts, i)
    ensures Stands(raws, names, ts + more, i)
  {
    hide Worthy, Renamed;
    assert raws[..|raws| - 1][..i] == raws[..i];
  }

  lemma {:induction false} WorthyKept(raws: seq<RawTemplate>, names: seq<string>)
    requires |names| == |raws|
    ensures |Kept(raws, names)| == |Worthy(raws)|
    ensures forall i :: 0 <= i < |raws| ==> Stands(raws, names, Kept(raws, names), i)
  {
    hide Worthy, Stands;
    if raws != [] {
      var n := |raws| - 1;
      WorthyKept(raws[..n], names[..n]);
      WorthyStep(raws);
      var before, now := Kept(raws[..n], names[..n]), Kept(raws, names);
      forall i | 0 <= i < |raws|
        ensures Stands(raws, names, now, i)
      {
        if i < n {
          StandsOn(raws, names, before, now[|before|..], i);
        } else {
          LastStands(raws, names, before);
        }
      }
    } else {
      assert Worthy([]) == {} by { NobodyWorthy(); }
    }
  }

  lemma {:induction false} LastStands(raws: seq<RawTemplate>, names: seq<string>, before: seq<Template>)
    requires raws != [] && |names| == |raws| && |before| == |Worthy(raws[..|raws| - 1])|
    ensures var n := |raws| - 1;
            Stands(raws, names,
                   before + if raws[n].objective == "" then [] else [WithId(raws[n], names[n])], n)
  {
    hide Worthy;
  }

  lemma {:induction false} NobodyWorthy()
    ensures Worthy([]) == {}
  {}

  /** What the draft's templates become, in its fields: one renamed template per draft with an objective, in order. */
  lemma {:induction false} CanonicalExactly(raws: seq<RawTemplate>, ts: seq<Template>, names: seq<string>)
    requires Canonical(raws, ts) && EachTakes(raws, names)
    ensures |ts| == |Worthy(raws)| && forall i :: 0 <= i < |raws| ==> Stands(raws, names, ts, i)
  {
    hide Kept, Worthy, Stands, Named, TakesName;
    var ids :| Assigned(raws, ids) && ts == Kept(raws, ids);
    NamesTaken(raws, names);
    AssignedUnique(raws, ids, names);
    WorthyKept(raws, names);
  }

  // ----- defaults

  predicate Above(x: real, low: real, given: Option<real>, usual: real) {
    x == (if given.None? then (if low < usual then usual else low)
          else if given.value < low then low else given.value)
  }

  /**
    The numbers of a canonical spec: sixteen turns when none or zero are asked for, at least one task a
    sprint and usually five, a shortest pause of at least nothing and usually a quarter of an hour, and a
    longest of at least the shortest asked for and usually a day.
  */
  lemma {:induction false} DefaultsFilled(d: Draft, s: Spec)
    requires Normalized(d, s)
    ensures s.maxTurnsPerTask == if d.maxTurnsPerTask.None? || d.maxTurnsPerTask == Some(0.0) then 16.0
                                 else d.maxTurnsPerTask.value
    ensures Above(s.sprintTaskLimit, 1.0, d.sprintTaskLimit, 5.0)
    ensures Above(s.minCooldownMs, 0.0, d.minCooldownMs, 900000.0)
    ensures d.minCooldownMs.None? ==> Above(s.maxCooldownMs, 900000.0, d.maxCooldownMs, 86400000.0)
    ensures d.minCooldownMs.Some? ==> Above(s.maxCooldownMs, d.minCooldownMs.value, d.maxCooldownMs, 86400000.0)
    ensures s.objective == d.objective && s.inScope == d.inScope && s.questions == d.questions
    ensures s.completionCriteria == d.completionCriteria && s.stopConditions == d.stopConditions
  {}

  // ----- readiness

  /** A dependency that will exist when the job starts. */
  ghost predicate Seeded(ts: seq<Template>, d: string) {
    exists j :: 0 <= j < |ts| && ts[j].id == d && !ts[j].discoverable
  }

  lemma {:induction false} SeededIff(ts: seq<Template>, d: string)
    requires DistinctIds(ts)
    ensures Creatable(d, ById(ts)) <==> Seeded(ts, d)
  {
    ByIdFinds(ts, d);
  }

  ghost predicate Startable(t: Template, ts: seq<Template>) {
    (t.discoverable ==> |t.dependencies| == 0) && forall d :: d in t.dependencies ==> Seeded(ts, d)
  }

  lemma {:induction false} StartableIff(t: Template, ts: seq<Template>)
    requires DistinctIds(ts)
    ensures DepsMaterializable(t, ts) <==> Startable(t, ts)
  {
    hide ById, Seeded;
    forall d | d in t.dependencies
      ensures d in ById(ts) && !ById(ts)[d].discoverable <==> Seeded(ts, d)
    {
      SeededIff(ts, d);
    }
  }

  predicate Listed(d: string, ts: seq<Template>) {
    exists t :: t in ts && t.id == d
  }

  predicate Unmet(d: string, byId: map<string, Template>, code: string) {
    || (code == "unknown_dependency" && d !in byId)
    || (code == "unmaterialized_dependency" && d in byId && byId[d].discoverable)
  }

  lemma {:induction false} DependencySays(d: string, byId: map<string, Template>, code: string)
    ensures code in DependencyIssue(d, byId) <==> Unmet(d, byId, code)
  {}

  lemma {:induction false} DependenciesSay(ds: seq<string>, byId: map<string, Template>, code: string)
    ensures code in DependencyIssuesOf(ds, byId) <==> exists d :: d in ds && Unmet(d, byId, code)
  {
    hide DependencyIssue, Unmet;
    if ds != [] {
      var front, last := ds[..|ds| - 1], ds[|ds| - 1];
      DependenciesSay(front, byId, code);
      DependencySays(last, byId, code);
      assert ds == front + [last];
    }
  }

  lemma {:induction false} TemplatesSay(ts: seq<Template>, byId: map<string, Template>, code: string)
    ensures code in TemplateIssuesOf(ts, byId) <==> exists t :: t in ts && code in TemplateIssue(t, byId)
  {
    hide TemplateIssue;
    if ts != [] {
      TemplatesSay(ts[..|ts| - 1], byId, code);
      assert ts == ts[..|ts| - 1] + [ts[|ts| - 1]];
    }
  }

  lemma {:induction false} QuestionsSay(qs: seq<Question>, code: string)
    ensures code in QuestionIssuesOf(qs) <==> code == "question" && exists q :: q in qs && q.required && !q.closed
  {
    if qs != [] {
      QuestionsSay(qs[..|qs| - 1], code);
      assert qs == qs[..|qs| - 1] + [qs[|qs| - 1]];
    }
  }

  /** A template raises an issue of one of four kinds, each for a reason in the templates. */
  ghost predicate Faulty(t: Template, ts: seq<Template>, code: string) {
    || (code == "template_criteria" && |t.criteria| == 0)
    || (code == "discoverable_dependency" && t.discoverable && |t.dependencies| > 0)
    || (code == "unknown_dependency" && exists d :: d in t.dependencies && !Listed(d, ts))
    || (code == "unmaterialized_dependency" && exists d :: d in t.dependencies && Listed(d, ts) && !Seeded(ts, d))
  }

  lemma {:induction false} ListedIff(ts: seq<Template>, d: string)
    requires DistinctIds(ts)
    ensures d in ById(ts) <==> Listed(d, ts)
    ensures d in ById(ts) && ById(ts)[d].discoverable <==> Listed(d, ts) && !Seeded(ts, d)
  {
    ByIdFinds(ts, d);
    if Listed(d, ts) {
      var t :| t in ts && t.id == d;
      var i :| 0 <= i < |ts| && ts[i] == t;
    }
  }

  lemma {:induction false} FaultyIff(t: Template, ts: seq<Template>, code: string)
    requires DistinctIds(ts)
    ensures code in TemplateIssue(t, ById(ts)) <==> Faulty(t, ts, code)
  {
    hide ById, DependencyIssuesOf, Listed, Seeded, DistinctIds;
    DependenciesSay(t.dependencies, ById(ts), code);
    forall d | d in t.dependencies
      ensures d in ById(ts) <==> Listed(d, ts)
      ensures d in ById(ts) && ById(ts)[d].discoverable <==> Listed(d, ts) && !Seeded(ts, d)
    {
      ListedIff(ts, d);
    }
  }

  /** What each issue says of a canonical spec, in its fields. */
  ghost predicate Says(code: string, s: Spec, blank: string -> bool) {
    || (code == "objective" && blank(s.objective))
    || (code == "in_scope" && |s.inScope| == 0)
    || (code == "verifier" && |s.completionCriteria| == 0)
    || (code == "templates" && |s.templates| == 0)
    || (code == "executable_template" && |s.templates| > 0 && forall t :: t in s.templates ==> t.discoverable)
    || (exists t :: t in s.templates && Faulty(t, s.templates, code))
    || (code == "budget" && (s.maxTurnsPerTask == 0.0 || s.sprintTaskLimit < 1.0))
    || (code == "pacing" && (s.minCooldownMs < 0.0 || s.minCooldownMs > s.maxCooldownMs))
    || (code == "stop" && |s.stopConditions| == 0)
    || (code == "question" && exists q :: q in s.questions && q.required && !q.closed)
  }

  lemma {:induction false} IssueIn(raised: bool, issue: string, code: string)
    ensures code in Issue(raised, issue) <==> raised && code == issue
  {}

  lemma {:induction false} TemplatesFaulty(ts: seq<Template>, code: string)
    requires DistinctIds(ts)
    ensures code in TemplateIssuesOf(ts, ById(ts)) <==> exists t :: t in ts && Faulty(t, ts, code)
  {
    hide Faulty, TemplateIssue, ById, DistinctIds;
    TemplatesSay(ts, ById(ts), code);
    forall t | t in ts
      ensures code in TemplateIssue(t, ById(ts)) <==> Faulty(t, ts, code)
    {
      FaultyIff(t, ts, code);
    }
  }

  lemma {:induction false} AllDiscoverableIff(ts: seq<Template>)
    ensures AllDiscoverable(ts) <==> forall t :: t in ts ==> t.discoverable
  {
    if forall t :: t in ts ==> t.discoverable {
      forall i | 0 <= i < |ts|
        ensures ts[i].discoverable
      {
        assert ts[i] in ts;
      }
    }
  }

  /** An issue is raised exactly when what it says is so, and no other code is ever raised. */
  lemma {:induction false} IssuesSay(s: Spec, blank: string -> bool, code: string)
    requires DistinctIds(s.templates)
    ensures code in Issues(s, blank) <==> Says(code, s, blank)
  {
    hide Issue, TemplateIssuesOf, QuestionIssuesOf, Faulty, ById, DistinctIds, AllDiscoverable;
    IssueIn(blank(s.objective), "objective", code);
    IssueIn(s.inScope == [], "in_scope", code);
    IssueIn(s.completionCriteria == [], "verifier", code);
    IssueIn(s.templates == [], "templates", code);
    IssueIn(s.templates != [] && AllDiscoverable(s.templates), "executable_template", code);
    IssueIn(s.maxTurnsPerTask == 0.0 || s.sprintTaskLimit < 1.0, "budget", code);
    IssueIn(s.minCooldownMs < 0.0 || s.maxCooldownMs < s.minCooldownMs, "pacing", code);
    IssueIn(s.stopConditions == [], "stop", code);
    AllDiscoverableIff(s.templates);
    TemplatesFaulty(s.templates, code);
    QuestionsSay(s.questions, code);
  }

  /** What a ready spec has, in its fields: among the rest, every dependency waits for a seed the job starts with. */
  lemma {:induction false} ReadyExactly(s: Spec, blank: string -> bool)
    requires DistinctIds(s.templates)
    ensures Ready(s, blank) <==>
              && !blank(s.objective) && |s.inScope| > 0 && |s.completionCriteria| > 0 && |s.stopConditions| > 0
              && (exists i :: 0 <= i < |s.templates| && !s.templates[i].discoverable)
              && (forall i :: 0 <= i < |s.templates| ==>
                    |s.templates[i].criteria| > 0 && Startable(s.templates[i], s.templates))
              && s.maxTurnsPerTask != 0.0 && s.sprintTaskLimit >= 1.0
              && s.minCooldownMs >= 0.0 && s.maxCooldownMs >= s.minCooldownMs
              && forall i :: 0 <= i < |s.questions| ==> s.questions[i].closed || !s.questions[i].required
  {
    hide DepsMaterializable, Startable, DistinctIds;
    forall i | 0 <= i < |s.templates|
      ensures DepsMaterializable(s.templates[i], s.templates) <==> Startable(s.templates[i], s.templates)
    {
      StartableIff(s.templates[i], s.templates);
    }
  }
}
