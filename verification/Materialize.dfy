/**
  Creating the graph of an approved spec (src/jobs/graph.ts): one task per seed template, then
  a second pass that turns template dependencies into task dependencies.
*/
module Materialize {
  import opened Common
  import opened PlanGraph
  import opened JobSafety
  import opened JobProgress
  import opened JobRunner
  import JobSpec

  type Template = JobSpec.Template

  /** The templates that become tasks when the job starts. */
  function Seeds(ts: seq<Template>): seq<Template> {
    if ts == [] then []
    else Seeds(ts[..|ts| - 1]) + (if ts[|ts| - 1].discoverable then [] else [ts[|ts| - 1]])
  }

  lemma {:induction false} SeedsHold(ts: seq<Template>)
    ensures forall s :: s in Seeds(ts) <==> s in ts && !s.discoverable
    ensures JobSpec.DistinctIds(ts) ==> JobSpec.DistinctIds(Seeds(ts))
  {
    if ts != [] {
      var n := |ts| - 1;
      SeedsHold(ts[..n]);
      assert ts == ts[..n] + [ts[n]];
    }
  }

  /** The task a template becomes, before its dependencies are known. `ids` are fresh task ids. */
  function TaskOf(t: Template, id: string, dependencies: seq<string>, now: int): Task {
    Task(id, dependencies, [], Pending, 0, t.maxAttempts, Some(t.id), t.resource, None, now)
  }

  /** The task id of the seed template called `name`. */
  function Image(seeds: seq<Template>, ids: seq<string>, name: string): string
    requires |seeds| <= |ids|
  {
    if seeds == [] then ""
    else if seeds[|seeds| - 1].id == name then ids[|seeds| - 1]
    else Image(seeds[..|seeds| - 1], ids, name)
  }

  lemma {:induction false} ImageAt(seeds: seq<Template>, ids: seq<string>, k: nat)
    requires |seeds| <= |ids| && k < |seeds| && JobSpec.DistinctIds(seeds)
    ensures Image(seeds, ids, seeds[k].id) == ids[k]
  {
    if k < |seeds| - 1 {
      ImageAt(seeds[..|seeds| - 1], ids, k);
    }
  }

  function Images(seeds: seq<Template>, ids: seq<string>, names: seq<string>): (r: seq<string>)
    requires |seeds| <= |ids|
    ensures |r| == |names|
  {
    seq(|names|, i requires 0 <= i < |names| => Image(seeds, ids, names[i]))
  }

  /** The memory of the first pass: every seed's id leads to its task. */
  ghost predicate Indexed(m: map<string, string>, seeds: seq<Template>, ids: seq<string>)
    requires |seeds| <= |ids|
  {
    && (forall name :: name in m ==> m[name] == Image(seeds, ids, name))
    && forall s :: s in seeds ==> s.id in m
  }

  lemma {:induction false} IndexedNext(m: map<string, string>, seeds: seq<Template>, t: Template, ids: seq<string>)
    requires |seeds| < |ids| && Indexed(m, seeds, ids)
    ensures Indexed(m[t.id := ids[|seeds|]], seeds + [t], ids)
  {
    assert (seeds + [t])[..|seeds|] == seeds;
  }

  /** Distinct ids that no stored task has. */
  predicate FreshIds(r: Record, ids: seq<string>) {
    && (forall i :: 0 <= i < |ids| ==> Fresh(r, ids[i]))
    && forall i, j :: 0 <= i < j < |ids| ==> ids[i] != ids[j]
  }

  /** The graph with the first `linked` seeds linked to their dependencies. */
  function Planted(r: Record, seeds: seq<Template>, ids: seq<string>, linked: nat, now: int): Record
    requires |seeds| <= |ids|
  {
    r.(tasks := r.tasks + seq(|seeds|, i requires 0 <= i < |seeds| =>
      TaskOf(seeds[i], ids[i], if i < linked then Images(seeds, ids, seeds[i].dependencies) else [], now)))
  }

  lemma {:induction false} PlantNext(r: Record, seeds: seq<Template>, t: Template, ids: seq<string>, now: int)
    requires |seeds| < |ids| && FreshIds(r, ids)
    ensures var w := Create(TaskOf(t, ids[|seeds|], [], now));
            && Legal(Planted(r, seeds, ids, 0, now), now, w)
            && Apply(Planted(r, seeds, ids, 0, now), w) == Planted(r, seeds + [t], ids, 0, now)
  {
    assert Apply(Planted(r, seeds, ids, 0, now), Create(TaskOf(t, ids[|seeds|], [], now))).tasks
        == Planted(r, seeds + [t], ids, 0, now).tasks;
  }

  lemma {:induction false} LinkNext(r: Record, seeds: seq<Template>, ids: seq<string>, k: nat, now: int)
    requires |seeds| <= |ids| && FreshIds(r, ids) && k < |seeds|
    ensures var w := Depend(ids[k], Images(seeds, ids, seeds[k].dependencies));
            && Legal(Planted(r, seeds, ids, k, now), now, w)
            && Apply(Planted(r, seeds, ids, k, now), w) == Planted(r, seeds, ids, k + 1, now)
    ensures seeds[k].dependencies == [] ==> Planted(r, seeds, ids, k, now) == Planted(r, seeds, ids, k + 1, now)
  {
    var at, next := Planted(r, seeds, ids, k, now), Planted(r, seeds, ids, k + 1, now);
    var w := Depend(ids[k], Images(seeds, ids, seeds[k].dependencies));
    assert forall i :: 0 <= i < |r.tasks| ==> at.tasks[i] == r.tasks[i] == next.tasks[i];
    assert Apply(at, w).tasks == next.tasks;
    if seeds[k].dependencies == [] {
      assert Images(seeds, ids, []) == [];
      assert at.tasks == next.tasks;
    }
  }

  /**
    Materializing a plan that passes the check leaves, if the process survives, one task per
    seed template in order, each depending on exactly the tasks of the templates it named. A seed
    without a criterion is refused only when its turn comes: the seeds before it stay, unlinked.
  */
  method MaterializePlan(store: PlanStore, ts: seq<Template>, ids: seq<string>, now: int) returns (r: Result<()>)
    requires store.Valid() && JobSpec.DistinctIds(ts)
    requires |ids| == |ts| && FreshIds(store.record, ids)
    modifies store
    ensures store.Valid() && store.origin == old(store.origin)
    ensures r.Ok? <==> JobSpec.Materializable(ts) && CriteriaStated(Seeds(ts))
    ensures !JobSpec.Materializable(ts) ==> store.record == old(store.record)
    ensures JobSpec.Materializable(ts) && r.Err? ==> r.code == "bad_task" && |Seeds(ts)| <= |ids|
    ensures JobSpec.Materializable(ts) && r.Err? && store.fuel > 0 ==>
              store.record == Planted(old(store.record), StatedSeeds(ts), ids, 0, now)
    ensures r.Ok? && store.fuel > 0 ==>
              |Seeds(ts)| <= |ids| && store.record == Planted(old(store.record), Seeds(ts), ids, |Seeds(ts)|, now)
  {
    r := JobSpec.AssertMaterializablePlan(ts);
    if r.Err? { return; }
    var planted := PlantSeeds(store, ts, ids, now);
    if planted.Err? { return Err(planted.code); }
    LinkPlan(store, ts, ids, now, planted.value, old(store.record));
  }

  /** A task without a success criterion is refused when it is added. */
  predicate CriteriaStated(seeds: seq<Template>) {
    forall s :: s in seeds ==> s.criteria != []
  }

  /** The seeds before the first that states no criterion. */
  function StatedFirst(seeds: seq<Template>): (r: seq<Template>)
    ensures r <= seeds && CriteriaStated(r) && (r == seeds || seeds[|r|].criteria == [])
  {
    if seeds == [] then []
    else
      var front := StatedFirst(seeds[..|seeds| - 1]);
      if |front| < |seeds| - 1 || seeds[|seeds| - 1].criteria == [] then front else seeds
  }

  function StatedSeeds(ts: seq<Template>): (r: seq<Template>)
    ensures r <= Seeds(ts)
  {
    StatedFirst(Seeds(ts))
  }

  /** A prefix of stated seeds that ends before one without criteria is the longest. */
  lemma {:induction false} StatedIs(seeds: seq<Template>, n: nat)
    requires n < |seeds| && CriteriaStated(seeds[..n]) && seeds[n].criteria == []
    ensures StatedFirst(seeds) == seeds[..n]
  {
    var r := StatedFirst(seeds);
    assert r == seeds[..|r|];
    if |r| < n {
      assert false;
    } else if |r| > n {
      assert false;
    }
  }

  /** The first pass: one task per seed template, remembered under the template's id. */
  method PlantSeeds(store: PlanStore, ts: seq<Template>, ids: seq<string>, now: int)
    returns (r: Result<map<string, string>>)
    requires store.Valid() && |ids| == |ts| && FreshIds(store.record, ids)
    modifies store
    ensures store.Valid() && store.origin == old(store.origin)
    ensures r.Ok? <==> CriteriaStated(Seeds(ts))
    ensures |Seeds(ts)| <= |ids| && (r.Ok? ==> Indexed(r.value, Seeds(ts), ids))
    ensures r.Ok? && store.fuel > 0 ==> store.record == Planted(old(store.record), Seeds(ts), ids, 0, now)
    ensures r.Err? ==> r.code == "bad_task"
    ensures r.Err? && store.fuel > 0 ==> store.record == Planted(old(store.record), StatedSeeds(ts), ids, 0, now)
  {
    hide LegalRun, Replay, Sound, Apply, Legal, Planted, FreshIds, Fresh, Seeds, Indexed;
    ghost var r0 := store.record;
    var idByTemplate: map<string, string> := map[];
    var created: nat := 0;
    SeedsFit(ts);
    PlantNothing(r0, ts, ids, now);
    for i := 0 to |ts|
      invariant store.Valid() && store.origin == old(store.origin)
      invariant created == |Seeds(ts[..i])| <= i && Indexed(idByTemplate, Seeds(ts[..i]), ids)
      invariant CriteriaStated(Seeds(ts[..i]))
      invariant store.fuel > 0 ==> store.record == Planted(r0, Seeds(ts[..i]), ids, 0, now)
    {
      SeedsStep(ts, i);
      ghost var seeds := Seeds(ts[..i]);
      if ts[i].discoverable {
        assert seeds + [] == seeds;
      } else {
        SeedAt(ts, i);
        if ts[i].criteria == [] {
          assert Seeds(ts)[..|seeds|] == seeds;
          StatedIs(Seeds(ts), |seeds|);
          return Err("bad_task");
        }
        var task := TaskOf(ts[i], ids[created], [], now);
        PlantNext(r0, seeds, ts[i], ids, now);
        IndexedNext(idByTemplate, seeds, ts[i], ids);
        store.Commit(now, Create(task));
        idByTemplate := idByTemplate[ts[i].id := ids[created]];
        created := created + 1;
      }
    }
    assert ts[..|ts|] == ts;
    return Ok(idByTemplate);
  }

  lemma {:induction false} SeedsFit(ts: seq<Template>)
    ensures |Seeds(ts)| <= |ts|
  {
    if ts != [] {
      SeedsFit(ts[..|ts| - 1]);
    }
  }

  lemma {:induction false} PlantNothing(r: Record, ts: seq<Template>, ids: seq<string>, now: int)
    ensures Seeds(ts[..0]) == [] && Indexed(map[], Seeds(ts[..0]), ids)
    ensures Planted(r, Seeds(ts[..0]), ids, 0, now) == r
  {
    assert Planted(r, [], ids, 0, now).tasks == r.tasks;
  }

  lemma {:induction false} SeedsStep(ts: seq<Template>, i: nat)
    requires i < |ts|
    ensures Seeds(ts[..i + 1]) == Seeds(ts[..i]) + (if ts[i].discoverable then [] else [ts[i]])
    ensures Seeds(ts[..i]) <= Seeds(ts)
    decreases |ts| - i
  {
    assert ts[..i + 1][..i] == ts[..i];
    if i + 1 < |ts| {
      SeedsStep(ts, i + 1);
    } else {
      assert ts[..i + 1] == ts;
    }
  }

  function Mapped(m: map<string, string>, names: seq<string>): seq<string>
    requires forall d :: d in names ==> d in m
  {
    seq(|names|, j requires 0 <= j < |names| => m[names[j]])
  }

  /** The second pass. A template without dependencies is skipped; so is one that is not a seed. */
  method LinkPlan(store: PlanStore, ts: seq<Template>, ids: seq<string>, now: int,
                  idByTemplate: map<string, string>, ghost r0: Record)
    requires store.Valid() && JobSpec.DistinctIds(ts) && JobSpec.Materializable(ts)
    requires |ids| == |ts| && FreshIds(r0, ids) && |Seeds(ts)| <= |ids|
    requires Indexed(idByTemplate, Seeds(ts), ids)
    requires store.fuel > 0 ==> store.record == Planted(r0, Seeds(ts), ids, 0, now)
    modifies store
    ensures store.Valid() && store.origin == old(store.origin)
    ensures store.fuel > 0 ==> store.record == Planted(r0, Seeds(ts), ids, |Seeds(ts)|, now)
  {
    hide LegalRun, Replay, Sound, Apply, Legal, Planted, FreshIds, Seeds, Indexed, Images, Mapped,
         JobSpec.Materializable, JobSpec.DistinctIds;
    ghost var seeds := Seeds(ts);
    assert Seeds(ts[..0]) == [] by {
      PlantNothing(r0, ts, ids, now);
    }
    for i := 0 to |ts|
      invariant store.Valid() && store.origin == old(store.origin)
      invariant |Seeds(ts[..i])| <= |seeds|
      invariant store.fuel > 0 ==> store.record == Planted(r0, seeds, ids, |Seeds(ts[..i])|, now)
    {
      SeedsStep(ts, i);
      if !ts[i].discoverable {
        SeedAt(ts, i);
        LinkNext(r0, seeds, ids, |Seeds(ts[..i])|, now);
        if ts[i].dependencies != [] {
          LinkMapped(ts, i, ids, idByTemplate);
          store.Commit(now, Depend(idByTemplate[ts[i].id], Mapped(idByTemplate, ts[i].dependencies)));
        }
      }
    }
    assert ts[..|ts|] == ts;
  }

  lemma {:induction false} LinkMapped(ts: seq<Template>, i: nat, ids: seq<string>, m: map<string, string>)
    requires JobSpec.DistinctIds(ts) && JobSpec.Materializable(ts)
    requires |Seeds(ts)| <= |ids| && Indexed(m, Seeds(ts), ids)
    requires i < |ts| && !ts[i].discoverable
    ensures var k := |Seeds(ts[..i])|;
            && k < |Seeds(ts)| && ts[i].id in m && m[ts[i].id] == ids[k]
    ensures forall d :: d in ts[i].dependencies ==> d in m
    ensures Mapped(m, ts[i].dependencies) == Images(Seeds(ts), ids, ts[i].dependencies)
  {
    SeedAt(ts, i);
    SeedsHold(ts);
    ImageAt(Seeds(ts), ids, |Seeds(ts[..i])|);
    DependenciesAreSeeds(ts, i);
    hide JobSpec.Materializable, Seeds;
  }

  lemma {:induction false} SeedAt(ts: seq<Template>, i: nat)
    requires i < |ts| && !ts[i].discoverable
    ensures var k := |Seeds(ts[..i])|; k < |Seeds(ts)| && Seeds(ts)[k] == ts[i]
  {
    SeedsStep(ts, i);
    if i + 1 < |ts| {
      SeedsStep(ts, i + 1);
    } else {
      assert ts[..i + 1] == ts;
    }
    assert Seeds(ts[..i + 1])[|Seeds(ts[..i])|] == ts[i];
  }

  lemma {:induction false} DependenciesAreSeeds(ts: seq<Template>, i: nat)
    requires JobSpec.DistinctIds(ts) && JobSpec.Materializable(ts) && i < |ts|
    ensures forall d :: d in ts[i].dependencies ==> exists s :: s in Seeds(ts) && s.id == d
  {
    forall d | d in ts[i].dependencies
      ensures exists s :: s in Seeds(ts) && s.id == d
    {
      assert JobSpec.DepsMaterializable(ts[i], ts);
      JobSpec.ByIdFinds(ts, d);
      var j :| 0 <= j < |ts| && ts[j].id == d;
      SeedsHold(ts);
      assert ts[j] in Seeds(ts);
    }
  }

  // ----- the graph a job starts from

  /** A spec without readiness issues can be materialized. */
  lemma {:induction false} ReadyMaterializes(s: JobSpec.Spec, blank: string -> bool)
    requires JobSpec.Ready(s, blank)
    ensures JobSpec.Materializable(s.templates) && CriteriaStated(Seeds(s.templates)) && Seeds(s.templates) != []
  {
    SeedsHold(s.templates);
    var i :| 0 <= i < |s.templates| && !s.templates[i].discoverable;
    assert s.templates[i] in Seeds(s.templates);
  }

  /** The k-th seed's task has its id, and each dependency is the task of the template named there. */
  predicate TaskFaithful(p: Record, offset: nat, seeds: seq<Template>, ids: seq<string>, k: nat)
    requires k < |seeds| <= |ids| && offset + |seeds| <= |p.tasks|
  {
    var t := p.tasks[offset + k];
    && t.id == ids[k] && t.approach == Some(seeds[k].id) && t.maxAttempts == seeds[k].maxAttempts
    && t.status == Pending && t.attempts == 0
    && |t.dependencies| == |seeds[k].dependencies|
    && forall j :: 0 <= j < |t.dependencies| ==>
         exists m :: 0 <= m < |seeds| && seeds[m].id == seeds[k].dependencies[j]
                     && t.dependencies[j] == p.tasks[offset + m].id
  }

  /** Each seed is one task; its dependencies are the images of the template's, and none dangles. */
  lemma {:induction false} PlantedFaithful(r: Record, ts: seq<Template>, ids: seq<string>, now: int)
    requires JobSpec.DistinctIds(ts) && JobSpec.Materializable(ts) && |ids| >= |Seeds(ts)| && FreshIds(r, ids)
    ensures var seeds, p := Seeds(ts), Planted(r, Seeds(ts), ids, |Seeds(ts)|, now);
            && |p.tasks| == |r.tasks| + |seeds|
            && (forall i :: 0 <= i < |r.tasks| ==> p.tasks[i] == r.tasks[i])
            && forall k :: 0 <= k < |seeds| ==> TaskFaithful(p, |r.tasks|, seeds, ids, k)
  {
    hide JobSpec.Materializable, Seeds;
    var seeds, p := Seeds(ts), Planted(r, Seeds(ts), ids, |Seeds(ts)|, now);
    SeedsHold(ts);
    forall k | 0 <= k < |seeds|
      ensures p.tasks[|r.tasks| + k] == TaskOf(seeds[k], ids[k], Images(seeds, ids, seeds[k].dependencies), now)
    {
    }
    hide Planted, FreshIds;
    forall k | 0 <= k < |seeds|
      ensures TaskFaithful(p, |r.tasks|, seeds, ids, k)
    {
      SeedFaithful(p, |r.tasks|, ts, ids, now, k);
    }
  }

  lemma {:induction false} SeedFaithful(p: Record, offset: nat, ts: seq<Template>, ids: seq<string>, now: int, k: nat)
    requires JobSpec.DistinctIds(ts) && JobSpec.Materializable(ts) && k < |Seeds(ts)| <= |ids|
    requires offset + |Seeds(ts)| <= |p.tasks|
    requires forall m :: 0 <= m < |Seeds(ts)| ==>
               var seed := Seeds(ts)[m];
               p.tasks[offset + m] == TaskOf(seed, ids[m], Images(Seeds(ts), ids, seed.dependencies), now)
    ensures TaskFaithful(p, offset, Seeds(ts), ids, k)
  {
    hide JobSpec.Materializable, Seeds, Images;
    assert forall m :: 0 <= m < |Seeds(ts)| ==> p.tasks[offset + m].id == ids[m];
    DependenciesFaithful(p, offset, ts, ids, k);
  }

  lemma {:induction false} DependenciesFaithful(p: Record, offset: nat, ts: seq<Template>, ids: seq<string>, k: nat)
    requires JobSpec.DistinctIds(ts) && JobSpec.Materializable(ts) && k < |Seeds(ts)| <= |ids|
    requires offset + |Seeds(ts)| <= |p.tasks|
    requires forall m :: 0 <= m < |Seeds(ts)| ==> p.tasks[offset + m].id == ids[m]
    ensures var names := Seeds(ts)[k].dependencies;
            forall j :: 0 <= j < |names| ==>
              exists m :: 0 <= m < |Seeds(ts)| && Seeds(ts)[m].id == names[j]
                          && Images(Seeds(ts), ids, names)[j] == p.tasks[offset + m].id
  {
    hide JobSpec.Materializable, Seeds;
    var names := Seeds(ts)[k].dependencies;
    SeedsHold(ts);
    forall j | 0 <= j < |names|
      ensures exists m :: 0 <= m < |Seeds(ts)| && Seeds(ts)[m].id == names[j]
                          && Images(Seeds(ts), ids, names)[j] == p.tasks[offset + m].id
    {
      var m := DependencySeed(ts, k, j);
      ImageAt(Seeds(ts), ids, m);
    }
  }

  lemma {:induction false} DependencySeed(ts: seq<Template>, k: nat, j: nat) returns (m: nat)
    requires JobSpec.DistinctIds(ts) && JobSpec.Materializable(ts)
    requires k < |Seeds(ts)| && j < |Seeds(ts)[k].dependencies|
    ensures m < |Seeds(ts)| && Seeds(ts)[m].id == Seeds(ts)[k].dependencies[j]
  {
    SeedsHold(ts);
    var s := Seeds(ts)[k];
    assert s in Seeds(ts);
    var i :| 0 <= i < |ts| && ts[i] == s;
    DependenciesAreSeeds(ts, i);
    assert s.dependencies[j] in ts[i].dependencies;
    var t :| t in Seeds(ts) && t.id == s.dependencies[j];
    m :| 0 <= m < |Seeds(ts)| && Seeds(ts)[m] == t;
  }

  /** Templates without circular dependencies and with positive caps. */
  ghost predicate Layered(ts: seq<Template>, rank: string -> nat) {
    forall i, d :: 0 <= i < |ts| && d in ts[i].dependencies ==> rank(d) < rank(ts[i].id)
  }

  /** A job with a ready, layered spec starts with something to run. */
  lemma {:induction false} LayeredJobStarts(
      ts: seq<Template>, ids: seq<string>, facts: set<string>, defaultCap: real, now: int,
                         rank: string -> nat)
    requires JobSpec.DistinctIds(ts) && JobSpec.Materializable(ts) && Layered(ts, rank)
    requires |ids| >= |Seeds(ts)| && FreshIds(Record([], facts, defaultCap), ids)
    requires forall i :: 0 <= i < |ts| ==> ts[i].maxAttempts.GetOr(defaultCap) > 0.0
    ensures ReadyTasks(Planted(Record([], facts, defaultCap), Seeds(ts), ids, |Seeds(ts)|, now), now) != []
  {
    SeedsHold(ts);
    var i :| 0 <= i < |ts| && !ts[i].discoverable;
    assert ts[i] in Seeds(ts);
    var k :| 0 <= k < |Seeds(ts)| && Seeds(ts)[k] == ts[i];
    RootReady(ts, ids, facts, defaultCap, now, rank, k);
  }

  /** Following dependencies down from any seed reaches one that waits for nothing. */
  lemma {:induction false} RootReady(ts: seq<Template>, ids: seq<string>, facts: set<string>, defaultCap: real,
                                     now: int, rank: string -> nat, k: nat)
    requires JobSpec.DistinctIds(ts) && JobSpec.Materializable(ts) && Layered(ts, rank)
    requires |ids| >= |Seeds(ts)| && FreshIds(Record([], facts, defaultCap), ids) && k < |Seeds(ts)|
    requires forall i :: 0 <= i < |ts| ==> ts[i].maxAttempts.GetOr(defaultCap) > 0.0
    ensures ReadyTasks(Planted(Record([], facts, defaultCap), Seeds(ts), ids, |Seeds(ts)|, now), now) != []
    decreases rank(Seeds(ts)[k].id)
  {
    SeedsHold(ts);
    var seeds := Seeds(ts);
    var p := Planted(Record([], facts, defaultCap), seeds, ids, |seeds|, now);
    assert seeds[k] in seeds;
    if seeds[k].dependencies == [] {
      assert p.tasks[k].dependencies == [] && p.tasks[k] in p.tasks;
      assert Eligible(p, p.tasks[k], now);
      assert p.tasks[k] in ReadyTasks(p, now);
    } else {
      var m := DependencySeed(ts, k, 0);
      var i :| 0 <= i < |ts| && ts[i] == seeds[k];
      assert ts[i].dependencies[0] in ts[i].dependencies;
      RootReady(ts, ids, facts, defaultCap, now, rank, m);
    }
  }

  predicate Startable(s: Template, defaultCap: real) {
    s.dependencies == [] && s.maxAttempts.GetOr(defaultCap) > 0.0
  }

  lemma {:induction false} SomethingReadyIff(r: Record, now: int)
    ensures ReadyTasks(r, now) != [] <==> exists k :: 0 <= k < |r.tasks| && Eligible(r, r.tasks[k], now)
  {
    hide Eligible;
    var ready := ReadyTasks(r, now);
    if ready != [] {
      assert ready[0] in ready;
      var k :| 0 <= k < |r.tasks| && r.tasks[k] == ready[0];
    }
    if k :| 0 <= k < |r.tasks| && Eligible(r, r.tasks[k], now) {
      assert r.tasks[k] in ready;
    }
  }

  /** A fresh job has something to run exactly when some seed waits for nothing and may be attempted. */
  lemma {:induction false} FreshJobReadyIff(
      ts: seq<Template>, ids: seq<string>, facts: set<string>, defaultCap: real, now: int)
    requires |ids| >= |Seeds(ts)|
    ensures ReadyTasks(Planted(Record([], facts, defaultCap), Seeds(ts), ids, |Seeds(ts)|, now), now) != []
            <==> exists s :: s in Seeds(ts) && s.dependencies == [] && s.maxAttempts.GetOr(defaultCap) > 0.0
  {
    hide Eligible, Planted, Seeds, ReadyTasks;
    var seeds := Seeds(ts);
    var p := Planted(Record([], facts, defaultCap), seeds, ids, |seeds|, now);
    SomethingReadyIff(p, now);
    forall k | 0 <= k < |seeds|
      ensures k < |p.tasks| && (Eligible(p, p.tasks[k], now) <==> Startable(seeds[k], defaultCap))
    {
      FreshEligible(seeds, ids, facts, defaultCap, now, k);
    }
    PlantedSize(seeds, ids, facts, defaultCap, now);
    if k :| 0 <= k < |p.tasks| && Eligible(p, p.tasks[k], now) {
      assert Startable(seeds[k], defaultCap) && seeds[k] in seeds;
    }
    if s :| s in seeds && s.dependencies == [] && s.maxAttempts.GetOr(defaultCap) > 0.0 {
      var k :| 0 <= k < |seeds| && seeds[k] == s;
      assert Startable(seeds[k], defaultCap);
    }
  }

  lemma {:induction false} PlantedSize(
      seeds: seq<Template>, ids: seq<string>, facts: set<string>, defaultCap: real, now: int)
    requires |ids| >= |seeds|
    ensures |Planted(Record([], facts, defaultCap), seeds, ids, |seeds|, now).tasks| == |seeds|
  {}

  lemma {:induction false} FreshEligible(
      seeds: seq<Template>, ids: seq<string>, facts: set<string>, defaultCap: real, now: int, k: nat)
    requires |ids| >= |seeds| && k < |seeds|
    ensures var p := Planted(Record([], facts, defaultCap), seeds, ids, |seeds|, now);
            && |p.tasks| == |seeds|
            && (Eligible(p, p.tasks[k], now)
                <==> seeds[k].dependencies == [] && seeds[k].maxAttempts.GetOr(defaultCap) > 0.0)
  {
    var p := Planted(Record([], facts, defaultCap), seeds, ids, |seeds|, now);
    var t := p.tasks[k];
    if seeds[k].dependencies != [] {
      assert t.dependencies[0] in t.dependencies && !IsDone(p, t.dependencies[0]);
    }
  }

  // ----- circular templates

  /** Among the templates named there is a seed, and each seed waits for another of them. */
  predicate Circular(ts: seq<Template>, names: set<string>) {
    && (exists i :: 0 <= i < |ts| && NamedSeed(ts[i], names))
    && forall i :: 0 <= i < |ts| && NamedSeed(ts[i], names) ==> exists d :: d in ts[i].dependencies && d in names
  }

  predicate NamedSeed(t: Template, names: set<string>) {
    !t.discoverable && t.id in names
  }

  /** The tasks of the seeds named. */
  function TaskIds(seeds: seq<Template>, ids: seq<string>, names: set<string>): set<string>
    requires |seeds| <= |ids|
  {
    set k | 0 <= k < |seeds| && seeds[k].id in names :: ids[k]
  }

  lemma {:induction false} CircularPlanted(r: Record, ts: seq<Template>, ids: seq<string>, now: int, names: set<string>)
    requires JobSpec.DistinctIds(ts) && JobSpec.Materializable(ts) && |ids| >= |Seeds(ts)| && FreshIds(r, ids)
    requires Circular(ts, names)
    ensures Deadlocked(Planted(r, Seeds(ts), ids, |Seeds(ts)|, now), TaskIds(Seeds(ts), ids, names))
    ensures TaskIds(Seeds(ts), ids, names) != {}
  {
    hide JobSpec.Materializable, JobSpec.DistinctIds, Seeds, Circular, Fresh;
    var seeds := Seeds(ts);
    var p, waiting := Planted(r, seeds, ids, |seeds|, now), TaskIds(seeds, ids, names);
    SomeCircular(ts, ids, names);
    hide Planted, TaskIds, FreshIds, HeldBack;
    forall id | id in waiting
      ensures !Fresh(p, id)
    {
      var k := SeedWaiting(seeds, ids, names, id);
      PlantedTask(r, seeds, ids, now, k);
    }
    forall i | 0 <= i < |p.tasks| && p.tasks[i].id in waiting
      ensures HeldBack(p.tasks[i], waiting)
    {
      var k := SeedWaiting(seeds, ids, names, p.tasks[i].id);
      PlantedOnce(r, seeds, ids, now, k, i);
      PlantedTask(r, seeds, ids, now, k);
      CircularSeed(ts, ids, names, k);
      WaitsAmong(p.tasks[i], waiting);
    }
  }

  lemma {:induction false} SomeCircular(ts: seq<Template>, ids: seq<string>, names: set<string>)
    requires |ids| >= |Seeds(ts)| && Circular(ts, names)
    ensures TaskIds(Seeds(ts), ids, names) != {}
  {
    hide Seeds;
    var seeds := Seeds(ts);
    SeedsHold(ts);
    var s :| 0 <= s < |ts| && NamedSeed(ts[s], names);
    assert ts[s] in seeds;
    var n :| 0 <= n < |seeds| && seeds[n] == ts[s];
    assert ids[n] in TaskIds(seeds, ids, names);
  }

  lemma {:induction false} WaitsAmong(t: Task, waiting: set<string>)
    requires t.status == Pending && exists d :: d in t.dependencies && d in waiting
    ensures HeldBack(t, waiting)
  {}

  lemma {:induction false} SeedWaiting(
      seeds: seq<Template>, ids: seq<string>, names: set<string>, id: string) returns (k: nat)
    requires |seeds| <= |ids| && id in TaskIds(seeds, ids, names)
    ensures k < |seeds| && seeds[k].id in names && ids[k] == id
  {
    k :| 0 <= k < |seeds| && seeds[k].id in names && ids[k] == id;
  }

  lemma {:induction false} PlantedTask(r: Record, seeds: seq<Template>, ids: seq<string>, now: int, k: nat)
    requires |seeds| <= |ids| && k < |seeds|
    ensures var p := Planted(r, seeds, ids, |seeds|, now);
            && |p.tasks| == |r.tasks| + |seeds|
            && p.tasks[|r.tasks| + k] == TaskOf(seeds[k], ids[k], Images(seeds, ids, seeds[k].dependencies), now)
            && !Fresh(p, ids[k])
  {
    var p := Planted(r, seeds, ids, |seeds|, now);
    assert p.tasks[|r.tasks| + k].id == ids[k];
  }

  /** Fresh ids belong to one planted task each. */
  lemma {:induction false} PlantedOnce(r: Record, seeds: seq<Template>, ids: seq<string>, now: int, k: nat, i: nat)
    requires |seeds| <= |ids| && k < |seeds| && FreshIds(r, ids)
    requires i < |Planted(r, seeds, ids, |seeds|, now).tasks|
    requires Planted(r, seeds, ids, |seeds|, now).tasks[i].id == ids[k]
    ensures i == |r.tasks| + k
  {
    assert Fresh(r, ids[k]);
    if i >= |r.tasks| {
      PlantedTask(r, seeds, ids, now, i - |r.tasks|);
    }
  }

  lemma {:induction false} CircularSeed(ts: seq<Template>, ids: seq<string>, names: set<string>, k: nat)
    requires JobSpec.DistinctIds(ts) && JobSpec.Materializable(ts) && |ids| >= |Seeds(ts)| && Circular(ts, names)
    requires k < |Seeds(ts)| && Seeds(ts)[k].id in names
    ensures exists d :: d in Images(Seeds(ts), ids, Seeds(ts)[k].dependencies) && d in TaskIds(Seeds(ts), ids, names)
  {
    SeedsHold(ts);
    var seeds := Seeds(ts);
    assert seeds[k] in seeds;
    var i :| 0 <= i < |ts| && ts[i] == seeds[k];
    assert NamedSeed(ts[i], names);
    var name :| name in seeds[k].dependencies && name in names;
    var j :| 0 <= j < |seeds[k].dependencies| && seeds[k].dependencies[j] == name;
    var m := DependencySeed(ts, k, j);
    hide JobSpec.Materializable, Seeds, Circular;
    ImageAt(seeds, ids, m);
    var images := Images(seeds, ids, seeds[k].dependencies);
    assert images[j] == ids[m] && images[j] in images;
  }

  /** Over every run, crash or not, that leaves their links alone, circular seeds are never started or done. */
  lemma {:induction false} CircularNeverStarts(
      r: Record, ts: seq<Template>, ids: seq<string>, now: int, names: set<string>,
                            log: seq<Entry>, i: nat)
    requires JobSpec.DistinctIds(ts) && JobSpec.Materializable(ts) && |ids| >= |Seeds(ts)| && FreshIds(r, ids)
    requires Circular(ts, names)
    requires LegalRun(Planted(r, Seeds(ts), ids, |Seeds(ts)|, now), log)
    requires Sparing(log, TaskIds(Seeds(ts), ids, names)) && i <= |log|
    ensures i < |log| && log[i].write.Start? ==> log[i].write.id !in TaskIds(Seeds(ts), ids, names)
    ensures Deadlocked(Replay(Planted(r, Seeds(ts), ids, |Seeds(ts)|, now), log), TaskIds(Seeds(ts), ids, names))
  {
    hide Planted, Seeds, Deadlocked, Circular, TaskIds, LegalRun, Replay, Sparing;
    CircularPlanted(r, ts, ids, now, names);
    var p, waiting := Planted(r, Seeds(ts), ids, |Seeds(ts)|, now), TaskIds(Seeds(ts), ids, names);
    DeadlockStays(p, log, waiting);
    if i < |log| && log[i].write.Start? {
      NeverStarted(p, log, waiting, i);
    }
  }

  /** The i-th template made to wait for itself. */
  function SelfWaiting(ts: seq<Template>, i: nat): seq<Template>
    requires i < |ts|
  {
    ts[i := ts[i].(dependencies := [ts[i].id])]
  }

  /** No check sees a circle: any seed of a ready spec can be made to wait for itself, and the spec is still ready. */
  lemma {:induction false} CircularPassesChecks(s: JobSpec.Spec, blank: string -> bool, i: nat)
    requires JobSpec.Ready(s, blank) && JobSpec.DistinctIds(s.templates)
    requires i < |s.templates| && !s.templates[i].discoverable
    ensures var us := SelfWaiting(s.templates, i);
            && JobSpec.Ready(s.(templates := us), blank) && JobSpec.DistinctIds(us)
            && Circular(us, {us[i].id})
  {
    var ts, us := s.templates, SelfWaiting(s.templates, i);
    forall j | 0 <= j < |us|
      ensures us[j].id == ts[j].id && us[j].discoverable == ts[j].discoverable && us[j].criteria == ts[j].criteria
      ensures j != i ==> us[j] == ts[j]
    {}
    assert us[i].dependencies == [us[i].id] && !us[i].discoverable;
    assert NamedSeed(us[i], {us[i].id});
    forall j | 0 <= j < |us|
      ensures JobSpec.DepsMaterializable(us[j], us)
    {
      SelfWaitingDeps(ts, i, j);
    }
    hide JobSpec.DepsMaterializable;
  }

  lemma {:induction false} SelfWaitingDeps(ts: seq<Template>, i: nat, j: nat)
    requires JobSpec.DistinctIds(ts) && i < |ts| && j < |ts| && !ts[i].discoverable
    requires JobSpec.DepsMaterializable(ts[j], ts)
    ensures JobSpec.DepsMaterializable(SelfWaiting(ts, i)[j], SelfWaiting(ts, i))
  {
    var us := SelfWaiting(ts, i);
    assert forall k :: 0 <= k < |us| ==> us[k].id == ts[k].id && us[k].discoverable == ts[k].discoverable;
    forall d | d in us[j].dependencies
      ensures d in JobSpec.ById(us) && !JobSpec.ById(us)[d].discoverable
    {
      JobSpec.ByIdFinds(ts, d);
      JobSpec.ByIdFinds(us, d);
      if j == i {
        assert us[i].id == d;
      } else {
        var k :| 0 <= k < |ts| && ts[k].id == d;
        assert us[k].id == d;
      }
    }
  }

  /** The job such a spec makes has a task that no run ever starts, so it is never finished. */
  lemma {:induction false} ReadyNeverFinished(
      s: JobSpec.Spec, blank: string -> bool, i: nat, r: Record, ids: seq<string>, now: int,
                           log: seq<Entry>)
    requires JobSpec.Ready(s, blank) && JobSpec.DistinctIds(s.templates)
    requires i < |s.templates| && !s.templates[i].discoverable
    requires |ids| >= |Seeds(SelfWaiting(s.templates, i))| && FreshIds(r, ids)
    requires var seeds := Seeds(SelfWaiting(s.templates, i)); LegalRun(Planted(r, seeds, ids, |seeds|, now), log)
    requires Wired(log)
    ensures JobSpec.Ready(s.(templates := SelfWaiting(s.templates, i)), blank)
    ensures var seeds := Seeds(SelfWaiting(s.templates, i));
            !AllFinished(Replay(Planted(r, seeds, ids, |seeds|, now), log))
  {
    hide LegalRun, Replay, Planted, Seeds, FreshIds, TaskIds, Circular;
    CircularPassesChecks(s, blank, i);
    var us := SelfWaiting(s.templates, i);
    var names := {us[i].id};
    ReadyMaterializes(s.(templates := us), blank);
    hide SelfWaiting, JobSpec.Ready, JobSpec.Materializable, JobSpec.DistinctIds;
    SomeCircular(us, ids, names);
    var waiting := TaskIds(Seeds(us), ids, names);
    CircularNeverStarts(r, us, ids, now, names, log, |log|);
    var end := Replay(Planted(r, Seeds(us), ids, |Seeds(us)|, now), log);
    var id :| id in waiting;
    var k :| 0 <= k < |end.tasks| && end.tasks[k].id == id;
    assert HeldBack(end.tasks[k], waiting);
  }

  // ----- exactly which materialized jobs can be finished

  lemma {:induction false} FreshlyPlanted(
      ts: seq<Template>, ids: seq<string>, facts: set<string>, defaultCap: real, now: int)
    requires JobSpec.DistinctIds(ts) && JobSpec.Materializable(ts) && |ids| >= |Seeds(ts)|
    requires FreshIds(Record([], facts, defaultCap), ids)
    requires forall i :: 0 <= i < |ts| ==> ts[i].maxAttempts.GetOr(defaultCap) > 0.0
    ensures var p := Planted(Record([], facts, defaultCap), Seeds(ts), ids, |Seeds(ts)|, now);
            UniqueIds(p) && Untouched(p) && Closed(p)
  {
    hide JobSpec.Materializable, Seeds;
    var seeds := Seeds(ts);
    var p := Planted(Record([], facts, defaultCap), seeds, ids, |seeds|, now);
    SeedsHold(ts);
    forall k | 0 <= k < |seeds|
      ensures p.tasks[k] == TaskOf(seeds[k], ids[k], Images(seeds, ids, seeds[k].dependencies), now)
      ensures seeds[k].maxAttempts.GetOr(defaultCap) > 0.0
    {
      assert seeds[k] in seeds;
    }
    forall k, d | 0 <= k < |p.tasks| && d in p.tasks[k].dependencies
      ensures !Fresh(p, d)
    {
      var j :| 0 <= j < |p.tasks[k].dependencies| && p.tasks[k].dependencies[j] == d;
      var m := DependencySeed(ts, k, j);
      ImageAt(seeds, ids, m);
      assert p.tasks[m].id == d;
    }
  }

  /** The seed a task id was given to. */
  function SeedOf(seeds: seq<Template>, ids: seq<string>, id: string): string
    requires |seeds| <= |ids|
  {
    if seeds == [] then ""
    else if ids[|seeds| - 1] == id then seeds[|seeds| - 1].id
    else SeedOf(seeds[..|seeds| - 1], ids, id)
  }

  lemma {:induction false} SeedOfAt(seeds: seq<Template>, ids: seq<string>, k: nat)
    requires |seeds| <= |ids| && k < |seeds|
    requires forall i, j :: 0 <= i < j < |ids| ==> ids[i] != ids[j]
    ensures SeedOf(seeds, ids, ids[k]) == seeds[k].id
  {
    if k < |seeds| - 1 {
      SeedOfAt(seeds[..|seeds| - 1], ids, k);
    }
  }

  /** Each dependency of a planted task is the task of a seed that the template named. */
  lemma {:induction false} PlantedDependency(
      ts: seq<Template>, ids: seq<string>, r: Record, now: int, k: nat, j: nat) returns (m: nat)
    requires JobSpec.DistinctIds(ts) && JobSpec.Materializable(ts) && |ids| >= |Seeds(ts)|
    requires k < |Seeds(ts)| && j < |Seeds(ts)[k].dependencies|
    ensures m < |Seeds(ts)| && Seeds(ts)[m].id == Seeds(ts)[k].dependencies[j]
    ensures var p := Planted(r, Seeds(ts), ids, |Seeds(ts)|, now);
            && |p.tasks| == |r.tasks| + |Seeds(ts)| && p.tasks[|r.tasks| + k].id == ids[k]
            && |p.tasks[|r.tasks| + k].dependencies| == |Seeds(ts)[k].dependencies|
            && p.tasks[|r.tasks| + k].dependencies[j] == ids[m]
  {
    SeedsApart(ts);
    hide JobSpec.Materializable, Seeds, JobSpec.DistinctIds;
    m := DependencySeed(ts, k, j);
    ImageAt(Seeds(ts), ids, m);
    PlantedTask(r, Seeds(ts), ids, now, k);
    hide Planted;
  }

  /** Layers of the templates are layers of their tasks, and the other way round. */
  lemma {:induction false} LayersPlanted(
      ts: seq<Template>, ids: seq<string>, facts: set<string>, defaultCap: real, now: int,
                      rank: string -> nat, taskRank: string -> nat)
    requires JobSpec.DistinctIds(ts) && JobSpec.Materializable(ts) && |ids| >= |Seeds(ts)|
    requires FreshIds(Record([], facts, defaultCap), ids)
    requires Closed(Planted(Record([], facts, defaultCap), Seeds(ts), ids, |Seeds(ts)|, now))
    requires forall k :: 0 <= k < |Seeds(ts)| ==> rank(Seeds(ts)[k].id) == taskRank(ids[k])
    ensures Acyclic(Planted(Record([], facts, defaultCap), Seeds(ts), ids, |Seeds(ts)|, now), taskRank)
            <==> Layered(ts, rank)
  {
    hide JobSpec.Materializable, JobSpec.DistinctIds, Seeds, Closed, Planted, FreshIds, Fresh;
    var seeds, r := Seeds(ts), Record([], facts, defaultCap);
    var p := Planted(r, seeds, ids, |seeds|, now);
    SeedsHold(ts);
    if Acyclic(p, taskRank) {
      forall i, d | 0 <= i < |ts| && d in ts[i].dependencies
        ensures rank(d) < rank(ts[i].id)
      {
        SeedWithDeps(ts, i);
        assert ts[i] in seeds;
        var k :| 0 <= k < |seeds| && seeds[k] == ts[i];
        var j :| 0 <= j < |seeds[k].dependencies| && seeds[k].dependencies[j] == d;
        var m := PlantedDependency(ts, ids, r, now, k, j);
        assert ids[m] in p.tasks[k].dependencies;
      }
    }
    PlantedSize(seeds, ids, facts, defaultCap, now);
    if Layered(ts, rank) {
      forall k, d | 0 <= k < |p.tasks| && d in p.tasks[k].dependencies
        ensures !Fresh(p, d) && taskRank(d) < taskRank(p.tasks[k].id)
      {
        ClosedAt(p, k, d);
        PlantedTask(r, seeds, ids, now, k);
        var j :| 0 <= j < |p.tasks[k].dependencies| && p.tasks[k].dependencies[j] == d;
        var m := PlantedDependency(ts, ids, r, now, k, j);
        assert seeds[k] in seeds;
        var i :| 0 <= i < |ts| && ts[i] == seeds[k];
        assert seeds[k].dependencies[j] in ts[i].dependencies;
      }
    }
  }

  lemma {:induction false} ClosedAt(p: Record, k: nat, d: string)
    requires Closed(p) && k < |p.tasks| && d in p.tasks[k].dependencies
    ensures !Fresh(p, d)
  {}

  lemma {:induction false} SeedWithDeps(ts: seq<Template>, i: nat)
    requires JobSpec.Materializable(ts) && i < |ts| && ts[i].dependencies != []
    ensures !ts[i].discoverable
  {
    assert JobSpec.DepsMaterializable(ts[i], ts);
  }

  /** Layers of the tasks, read as layers of the templates. */
  lemma {:induction false} TaskLayers(
      ts: seq<Template>, ids: seq<string>, facts: set<string>, defaultCap: real, now: int,
                   taskRank: string -> nat) returns (rank: string -> nat)
    requires JobSpec.DistinctIds(ts) && JobSpec.Materializable(ts) && |ids| >= |Seeds(ts)|
    requires FreshIds(Record([], facts, defaultCap), ids)
    requires Closed(Planted(Record([], facts, defaultCap), Seeds(ts), ids, |Seeds(ts)|, now))
    requires Acyclic(Planted(Record([], facts, defaultCap), Seeds(ts), ids, |Seeds(ts)|, now), taskRank)
    ensures Layered(ts, rank)
  {
    hide Planted, Seeds, Closed, Acyclic, Layered, JobSpec.Materializable, JobSpec.DistinctIds;
    var seeds := Seeds(ts);
    rank := name => taskRank(Image(seeds, ids, name));
    SeedsApart(ts);
    forall k | 0 <= k < |seeds|
      ensures rank(seeds[k].id) == taskRank(ids[k])
    {
      ImageAt(seeds, ids, k);
    }
    LayersPlanted(ts, ids, facts, defaultCap, now, rank, taskRank);
  }

  lemma {:induction false} TemplateLayers(
      ts: seq<Template>, ids: seq<string>, facts: set<string>, defaultCap: real, now: int,
                       rank: string -> nat) returns (taskRank: string -> nat)
    requires JobSpec.DistinctIds(ts) && JobSpec.Materializable(ts) && |ids| >= |Seeds(ts)|
    requires FreshIds(Record([], facts, defaultCap), ids)
    requires Closed(Planted(Record([], facts, defaultCap), Seeds(ts), ids, |Seeds(ts)|, now))
    requires Layered(ts, rank)
    ensures Acyclic(Planted(Record([], facts, defaultCap), Seeds(ts), ids, |Seeds(ts)|, now), taskRank)
  {
    var seeds := Seeds(ts);
    taskRank := id => rank(SeedOf(seeds, ids, id));
    forall k | 0 <= k < |seeds|
      ensures rank(seeds[k].id) == taskRank(ids[k])
    {
      SeedOfAt(seeds, ids, k);
    }
    hide Planted, Seeds, Closed, Acyclic, Layered, JobSpec.Materializable, JobSpec.DistinctIds;
    LayersPlanted(ts, ids, facts, defaultCap, now, rank, taskRank);
  }

  /** A materialized job can be run to the end exactly when its templates can be layered. */
  lemma {:induction false} JobFinishesIff(
      ts: seq<Template>, ids: seq<string>, facts: set<string>, defaultCap: real, now: int)
    requires JobSpec.DistinctIds(ts) && JobSpec.Materializable(ts) && |ids| >= |Seeds(ts)|
    requires FreshIds(Record([], facts, defaultCap), ids)
    requires forall i :: 0 <= i < |ts| ==> ts[i].maxAttempts.GetOr(defaultCap) > 0.0
    ensures CanFinish(Planted(Record([], facts, defaultCap), Seeds(ts), ids, |Seeds(ts)|, now))
            <==> exists rank: string -> nat :: Layered(ts, rank)
  {
    var p := Planted(Record([], facts, defaultCap), Seeds(ts), ids, |Seeds(ts)|, now);
    FreshlyPlanted(ts, ids, facts, defaultCap, now);
    hide Planted, Seeds, UniqueIds, Untouched, Closed, JobSpec.Materializable, JobSpec.DistinctIds;
    CanFinishIff(p);
    if CanFinish(p) {
      var taskRank: string -> nat :| Acyclic(p, taskRank);
      var rank := TaskLayers(ts, ids, facts, defaultCap, now, taskRank);
    }
    if rank: string -> nat :| Layered(ts, rank) {
      var taskRank := TemplateLayers(ts, ids, facts, defaultCap, now, rank);
    }
  }

  lemma {:induction false} SeedsApart(ts: seq<Template>)
    requires JobSpec.DistinctIds(ts)
    ensures JobSpec.DistinctIds(Seeds(ts))
  {
    SeedsHold(ts);
  }
}
