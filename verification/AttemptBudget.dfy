/** The no-progress budget (src/runtime/attempt-budget.ts): a record per chain, consulted before each attempt. */
module AttemptBudget {
  import opened Common

  datatype Stage = Execution | Target | Precondition | Postcondition | Challenge | Recovery | Model | Cancelled

  datatype Strategy = Same | Retarget | Reobserve | AlternateControl | Restore

  datatype Key = Key(goalId: string, pageIdentity: string, intent: string, target: Option<string>, stage: Option<Stage>)

  datatype Attempt = Attempt(key: Key, evidence: string, strategy: Strategy, now: int)

  datatype Record = Record(
    attempts: nat, startedAt: int, last: Option<(string, Strategy)>, stages: map<Stage, nat>)

  /** Caps and clock are whole numbers here; a cap may be negative. */
  datatype Config = Config(maxAttempts: int, maxElapsedMs: int, requireChange: bool)

  datatype Verdict = Allow | MaxAttempts | MaxElapsed | NoProgress

  function StageName(stage: Option<Stage>): string {
    match stage
    case None => "*"
    case Some(Execution) => "execution"
    case Some(Target) => "target"
    case Some(Precondition) => "precondition"
    case Some(Postcondition) => "postcondition"
    case Some(Challenge) => "challenge"
    case Some(Cancelled) => "cancelled"
    case Some(Recovery) => "recovery"
    case Some(Model) => "model"
  }

  function ChainId(key: Key): string {
    key.goalId + "::" + key.pageIdentity + "::" + key.intent + "::"
    + key.target.GetOr("*") + "::" + StageName(key.stage)
  }

  function Fresh(now: int): Record {
    Record(0, now, None, map[])
  }

  function Judge(r: Record, a: Attempt, config: Config): Verdict {
    if r.attempts >= config.maxAttempts then MaxAttempts
    else if a.now - r.startedAt > config.maxElapsedMs then MaxElapsed
    else if config.requireChange && r.attempts > 0 && r.last == Some((a.evidence, a.strategy)) then NoProgress
    else Allow
  }

  function CountStage(stages: map<Stage, nat>, stage: Option<Stage>): map<Stage, nat> {
    if stage.None? then stages
    else stages[stage.value := 1 + if stage.value in stages then stages[stage.value] else 0]
  }

  /** The chain's record after one more call. */
  function Note(r: Record, a: Attempt, config: Config): Record {
    if Judge(r, a, config) != Allow then r
    else Record(r.attempts + 1, r.startedAt, Some((a.evidence, a.strategy)), CountStage(r.stages, a.key.stage))
  }

  function Found(chains: map<string, Record>, a: Attempt): Record {
    if ChainId(a.key) in chains then chains[ChainId(a.key)] else Fresh(a.now)
  }

  class Tracker {
    var chains: map<string, Record>
    const config: Config

    constructor (config: Config)
      ensures chains == map[] && this.config == config
    {
      this.config := config;
      chains := map[];
    }

    method Decide(a: Attempt) returns (verdict: Verdict)
      modifies this
      ensures verdict == Judge(Found(old(chains), a), a, config)
      ensures chains == old(chains)[ChainId(a.key) := Note(Found(old(chains), a), a, config)]
    {
      hide ChainId;
      var chainId := ChainId(a.key);
      var record: Record;
      if chainId in chains {
        record := chains[chainId];
      } else {
        record := Fresh(a.now);
        chains := chains[chainId := record];
      }
      if record.attempts >= config.maxAttempts { return MaxAttempts; }
      if a.now - record.startedAt > config.maxElapsedMs { return MaxElapsed; }
      if config.requireChange && record.attempts > 0 && record.last == Some((a.evidence, a.strategy)) {
        return NoProgress;
      }
      record := record.(attempts := record.attempts + 1, stages := CountStage(record.stages, a.key.stage));
      record := record.(last := Some((a.evidence, a.strategy)));
      chains := chains[chainId := record];
      return Allow;
    }

    method DecideAll(calls: seq<Attempt>) returns (verdicts: seq<Verdict>)
      modifies this
      ensures verdicts == Verdicts(old(chains), calls, config)
      ensures chains == Chains(old(chains), calls, config)
    {
      hide ChainId, Judge, Note;
      verdicts := [];
      for i := 0 to |calls|
        invariant verdicts == Verdicts(old(chains), calls[..i], config)
        invariant chains == Chains(old(chains), calls[..i], config)
      {
        assert calls[..i + 1][..i] == calls[..i];
        var verdict := Decide(calls[i]);
        verdicts := verdicts + [verdict];
      }
      assert calls[..|calls|] == calls;
    }
  }

  // ----- whole runs

  function Chains(chains: map<string, Record>, calls: seq<Attempt>, config: Config): map<string, Record> {
    if calls == [] then chains
    else
      var before, a := Chains(chains, calls[..|calls| - 1], config), calls[|calls| - 1];
      before[ChainId(a.key) := Note(Found(before, a), a, config)]
  }

  function Verdicts(chains: map<string, Record>, calls: seq<Attempt>, config: Config): seq<Verdict> {
    if calls == [] then []
    else
      var front, a := calls[..|calls| - 1], calls[|calls| - 1];
      Verdicts(chains, front, config) + [Judge(Found(Chains(chains, front, config), a), a, config)]
  }

  /** The calls of one chain, and what was decided about them, in order. */
  function Own<T>(calls: seq<Attempt>, xs: seq<T>, id: string): seq<T>
    requires |xs| == |calls|
  {
    if calls == [] then []
    else Own(calls[..|calls| - 1], xs[..|xs| - 1], id)
         + if ChainId(calls[|calls| - 1].key) == id then [xs[|xs| - 1]] else []
  }

  lemma {:induction false} VerdictCount(chains: map<string, Record>, calls: seq<Attempt>, config: Config)
    ensures |Verdicts(chains, calls, config)| == |calls|
  {
    if calls != [] {
      VerdictCount(chains, calls[..|calls| - 1], config);
    }
  }

  lemma {:induction false} OwnCalls(calls: seq<Attempt>, id: string)
    ensures forall i :: 0 <= i < |Own(calls, calls, id)| ==> ChainId(Own(calls, calls, id)[i].key) == id
  {
    hide ChainId;
    if calls != [] {
      OwnCalls(calls[..|calls| - 1], id);
    }
  }

  /** Chains do not interfere: a chain is decided as if only its own calls had been made. */
  lemma {:induction false} ChainsApart(calls: seq<Attempt>, id: string, config: Config)
    ensures |Verdicts(map[], calls, config)| == |calls|
    ensures Own(calls, Verdicts(map[], calls, config), id) == Verdicts(map[], Own(calls, calls, id), config)
    ensures var all, own := Chains(map[], calls, config), Chains(map[], Own(calls, calls, id), config);
            (id in all <==> id in own) && (id in all ==> all[id] == own[id])
  {
    hide ChainId, Judge, Note;
    VerdictCount(map[], calls, config);
    if calls != [] {
      var front, a := calls[..|calls| - 1], calls[|calls| - 1];
      ChainsApart(front, id, config);
      var own := Own(front, front, id);
      var verdicts := Verdicts(map[], calls, config);
      assert verdicts[..|verdicts| - 1] == Verdicts(map[], front, config);
      if ChainId(a.key) == id {
        assert Own(calls, calls, id) == own + [a];
        assert (own + [a])[..|own + [a]| - 1] == own;
      } else {
        assert Own(calls, calls, id) == own;
      }
    }
  }

  // ----- what one chain is allowed

  predicate OneChain(calls: seq<Attempt>, id: string) {
    forall i :: 0 <= i < |calls| ==> ChainId(calls[i].key) == id
  }

  function Allowed(verdicts: seq<Verdict>): nat {
    if verdicts == [] then 0
    else Allowed(verdicts[..|verdicts| - 1]) + if verdicts[|verdicts| - 1] == Allow then 1 else 0
  }

  /** Calls i and j are allowed and none between them is. */
  predicate Successive(verdicts: seq<Verdict>, i: nat, j: nat) {
    && i < j < |verdicts| && verdicts[i] == Allow && verdicts[j] == Allow
    && forall k :: i < k < j ==> verdicts[k] != Allow
  }

  /** Call i is the last allowed one. */
  predicate LastAllowed(verdicts: seq<Verdict>, i: nat) {
    i < |verdicts| && verdicts[i] == Allow && forall k :: i < k < |verdicts| ==> verdicts[k] != Allow
  }

  /**
    A chain's record says how many calls were allowed, when the first call was, and what the last
    allowed one tried.
  */
  predicate Tells(chains: map<string, Record>, calls: seq<Attempt>, verdicts: seq<Verdict>, id: string)
    requires |verdicts| == |calls|
  {
    && (id in chains <==> calls != [])
    && (calls != [] ==>
          && chains[id].attempts == Allowed(verdicts)
          && chains[id].startedAt == calls[0].now
          && (chains[id].attempts > 0 ==> chains[id].last.Some?)
          && forall i :: 0 <= i < |calls| && LastAllowed(verdicts, i) ==>
               chains[id].attempts > 0 && chains[id].last == Some((calls[i].evidence, calls[i].strategy)))
  }

  lemma {:induction false} RecordTells(calls: seq<Attempt>, id: string, config: Config)
    requires OneChain(calls, id)
    ensures |Verdicts(map[], calls, config)| == |calls|
    ensures Tells(Chains(map[], calls, config), calls, Verdicts(map[], calls, config), id)
  {
    hide ChainId, CountStage;
    VerdictCount(map[], calls, config);
    if calls != [] {
      var front, a := calls[..|calls| - 1], calls[|calls| - 1];
      RecordTells(front, id, config);
      var before, after := Verdicts(map[], front, config), Verdicts(map[], calls, config);
      assert after == before + [Judge(Found(Chains(map[], front, config), a), a, config)];
      TellsStep(Chains(map[], front, config), front, before, a, id, config);
      assert front + [a] == calls;
    }
  }

  lemma {:induction false} AllowedOne(before: seq<Verdict>, v: Verdict)
    ensures Allowed(before + [v]) == Allowed(before) + if v == Allow then 1 else 0
  {
    assert (before + [v])[..|before + [v]| - 1] == before;
  }

  lemma {:induction false} LastAllowedOne(before: seq<Verdict>, v: Verdict, i: nat)
    requires LastAllowed(before + [v], i)
    ensures if v == Allow then i == |before| else LastAllowed(before, i)
  {
    var after := before + [v];
    assert after[|before|] == v;
    if v != Allow {
      assert i < |before| && before[i] == after[i];
      forall k | i < k < |before|
        ensures before[k] != Allow
      {
        assert after[k] == before[k];
      }
    }
  }

  lemma {:induction false} TellsStep(
      chains: map<string, Record>, front: seq<Attempt>, before: seq<Verdict>, a: Attempt, id: string, config: Config)
    requires |before| == |front| && Tells(chains, front, before, id) && ChainId(a.key) == id
    ensures var r := Found(chains, a);
            Tells(chains[id := Note(r, a, config)], front + [a], before + [Judge(r, a, config)], id)
  {
    hide ChainId, CountStage, Allowed, LastAllowed, Judge;
    var r := Found(chains, a);
    var v := Judge(r, a, config);
    var calls, after, now := front + [a], before + [v], Note(r, a, config);
    AllowedOne(before, v);
    assert front == [] ==> Allowed(before) == 0 by { AllowedNone(); }
    assert front != [] ==> calls[0] == front[0];
    assert r.attempts == Allowed(before);
    assert r.startedAt == calls[0].now;
    forall i | 0 <= i < |calls| && LastAllowed(after, i)
      ensures now.attempts > 0 && now.last == Some((calls[i].evidence, calls[i].strategy))
    {
      LastAllowedOne(before, v, i);
      if v != Allow {
        LastAllowedInside(before, i);
        assert calls[i] == front[i];
      }
    }
  }

  lemma {:induction false} AllowedNone()
    ensures Allowed([]) == 0
  {}

  lemma {:induction false} LastAllowedInside(verdicts: seq<Verdict>, i: nat)
    requires LastAllowed(verdicts, i)
    ensures i < |verdicts|
  {}

  /** A chain is allowed at most its cap of attempts, whatever the evidence, the clock and the strategies. */
  lemma {:induction false} AttemptsBounded(calls: seq<Attempt>, id: string, config: Config)
    requires OneChain(calls, id)
    ensures Allowed(Verdicts(map[], calls, config)) <= Max(0, config.maxAttempts)
  {
    hide ChainId, CountStage;
    if calls != [] {
      var front := calls[..|calls| - 1];
      AttemptsBounded(front, id, config);
      RecordTells(front, id, config);
      var verdicts := Verdicts(map[], calls, config);
      assert verdicts[..|verdicts| - 1] == Verdicts(map[], front, config);
    }
  }

  /**
    Call j of a chain is allowed exactly when fewer than the cap were before it, no more than the
    allotted time has passed since the chain's first call, and, where progress is required, it
    differs in evidence or strategy from the last allowed one.
  */
  lemma {:induction false} AllowedIff(calls: seq<Attempt>, j: nat, id: string, config: Config)
    requires OneChain(calls, id) && j < |calls|
    ensures |Verdicts(map[], calls, config)| == |calls|
    ensures var v := Verdicts(map[], calls, config);
            v[j] == Allow <==>
              && Allowed(v[..j]) < config.maxAttempts
              && calls[j].now - calls[0].now <= config.maxElapsedMs
              && (config.requireChange ==>
                    forall i :: 0 <= i < j && LastAllowed(v[..j], i) ==>
                      calls[i].evidence != calls[j].evidence || calls[i].strategy != calls[j].strategy)
    decreases |calls|
  {
    hide ChainId, Chains, Judge, Note, Allowed, LastAllowed, Tells;
    VerdictCount(map[], calls, config);
    var front, v := calls[..|calls| - 1], Verdicts(map[], calls, config);
    var before := Verdicts(map[], front, config);
    VerdictCount(map[], front, config);
    assert v[..|front|] == before;
    if j < |front| {
      AllowedIff(front, j, id, config);
      assert before[..j] == v[..j] && before[j] == v[j];
      assert front[0] == calls[0] && front[j] == calls[j];
    } else {
      RecordTells(front, id, config);
      var chains, a := Chains(map[], front, config), calls[j];
      assert v[j] == Judge(Found(chains, a), a, config);
      JudgedByLast(chains, front, before, a, id, config);
      assert front != [] ==> front[0] == calls[0];
    }
  }

  /** What a record that tells makes of the next call. */
  lemma {:induction false} JudgedByLast(
      chains: map<string, Record>, front: seq<Attempt>, before: seq<Verdict>, a: Attempt, id: string, config: Config)
    requires |before| == |front| && Tells(chains, front, before, id) && ChainId(a.key) == id
    ensures Judge(Found(chains, a), a, config) == Allow <==>
              && Allowed(before) < config.maxAttempts
              && a.now - (if front == [] then a.now else front[0].now) <= config.maxElapsedMs
              && (config.requireChange ==>
                    forall i :: 0 <= i < |front| && LastAllowed(before, i) ==>
                      front[i].evidence != a.evidence || front[i].strategy != a.strategy)
  {
    hide ChainId, Allowed, LastAllowed, CountStage;
    LastExists(before);
    if front == [] {
      AllowedNone();
    } else if Allowed(before) > 0 {
      var i :| 0 <= i < |before| && LastAllowed(before, i);
      forall k | 0 <= k < |before| && LastAllowed(before, k)
        ensures k == i
      {
        LastUnique(before, i, k);
      }
    }
  }

  lemma {:induction false} LastUnique(verdicts: seq<Verdict>, i: nat, k: nat)
    requires LastAllowed(verdicts, i) && LastAllowed(verdicts, k)
    ensures i == k
  {}

  lemma {:induction false} LastExists(verdicts: seq<Verdict>)
    ensures Allowed(verdicts) > 0 <==> exists i :: 0 <= i < |verdicts| && LastAllowed(verdicts, i)
  {
    if verdicts != [] {
      var n := |verdicts| - 1;
      LastExists(verdicts[..n]);
      if verdicts[n] == Allow {
        assert LastAllowed(verdicts, n);
      } else {
        if i :| 0 <= i < n && LastAllowed(verdicts[..n], i) {
          assert LastAllowed(verdicts, i);
        }
        if i :| 0 <= i < |verdicts| && LastAllowed(verdicts, i) {
          assert LastAllowed(verdicts[..n], i);
        }
      }
    }
  }

  /** Two allowed attempts in a row on a chain never repeat both evidence and strategy. */
  lemma {:induction false} NoRepeat(calls: seq<Attempt>, i: nat, j: nat, id: string, config: Config)
    requires OneChain(calls, id) && config.requireChange && i < j < |calls|
    requires Successive(Verdicts(map[], calls, config), i, j)
    ensures calls[i].evidence != calls[j].evidence || calls[i].strategy != calls[j].strategy
  {
    hide ChainId, Verdicts;
    AllowedIff(calls, j, id, config);
    var v := Verdicts(map[], calls, config);
    assert LastAllowed(v[..j], i);
  }

  /** The calls of a chain that were allowed in this stage. */
  function AllowedIn(calls: seq<Attempt>, verdicts: seq<Verdict>, stage: Stage): set<int>
    requires |verdicts| == |calls|
  {
    set i: int | 0 <= i < |calls| && AllowedAt(calls, verdicts, stage, i)
  }

  predicate AllowedAt(calls: seq<Attempt>, verdicts: seq<Verdict>, stage: Stage, i: nat)
    requires i < |verdicts| == |calls|
  {
    verdicts[i] == Allow && calls[i].key.stage == Some(stage)
  }

  function StageCount(chains: map<string, Record>, id: string, stage: Stage): nat {
    if id in chains && stage in chains[id].stages then chains[id].stages[stage] else 0
  }

  /** A chain's record counts its allowed calls stage by stage. */
  lemma {:induction false} StagesCounted(calls: seq<Attempt>, id: string, config: Config, stage: Stage)
    requires OneChain(calls, id)
    ensures |Verdicts(map[], calls, config)| == |calls|
    ensures StageCount(Chains(map[], calls, config), id, stage)
            == |AllowedIn(calls, Verdicts(map[], calls, config), stage)|
  {
    hide ChainId, Judge;
    VerdictCount(map[], calls, config);
    if calls == [] {
      assert AllowedIn([], [], stage) == {};
    } else {
      var n := |calls| - 1;
      var front, a := calls[..n], calls[n];
      StagesCounted(front, id, config, stage);
      var chains := Chains(map[], front, config);
      var before, after := Verdicts(map[], front, config), Verdicts(map[], calls, config);
      assert after == before + [Judge(Found(chains, a), a, config)];
      AllowedNext(calls, before, after[n], stage);
    }
  }

  lemma {:induction false} AllowedNext(calls: seq<Attempt>, before: seq<Verdict>, v: Verdict, stage: Stage)
    requires |calls| == |before| + 1
    ensures var n := |before|;
            |AllowedIn(calls, before + [v], stage)|
            == |AllowedIn(calls[..n], before, stage)| + if v == Allow && calls[n].key.stage == Some(stage) then 1 else 0
  {
    var n, after := |before|, before + [v];
    forall i: nat | i <= n
      ensures AllowedAt(calls, after, stage, i)
              <==> if i < n then AllowedAt(calls[..n], before, stage, i)
                   else v == Allow && calls[n].key.stage == Some(stage)
    {
      AllowedAtNext(calls, before, v, stage, i);
    }
    OneMore(calls, before, after, stage);
  }

  lemma {:induction false} OneMore(calls: seq<Attempt>, before: seq<Verdict>, after: seq<Verdict>, stage: Stage)
    requires |calls| == |after| == |before| + 1
    requires var n := |before|;
             forall i: nat :: i < n ==>
               (AllowedAt(calls, after, stage, i) <==> AllowedAt(calls[..n], before, stage, i))
    ensures var n := |before|;
            |AllowedIn(calls, after, stage)|
            == |AllowedIn(calls[..n], before, stage)| + if AllowedAt(calls, after, stage, n) then 1 else 0
  {
    hide AllowedAt;
    var n := |before|;
    var front := AllowedIn(calls[..n], before, stage);
    if AllowedAt(calls, after, stage, n) {
      assert AllowedIn(calls, after, stage) == front + {n as int};
    } else {
      assert AllowedIn(calls, after, stage) == front;
    }
  }

  lemma {:induction false} AllowedAtNext(calls: seq<Attempt>, before: seq<Verdict>, v: Verdict, stage: Stage, i: nat)
    requires |calls| == |before| + 1 && i <= |before|
    ensures var n := |before|;
            AllowedAt(calls, before + [v], stage, i)
            <==> if i < n then AllowedAt(calls[..n], before, stage, i)
                 else v == Allow && calls[n].key.stage == Some(stage)
  {}

  /** Over any interleaving, each chain keeps to its cap. */
  lemma {:induction false} EveryChainBounded(calls: seq<Attempt>, id: string, config: Config)
    ensures |Verdicts(map[], calls, config)| == |calls|
    ensures Allowed(Own(calls, Verdicts(map[], calls, config), id)) <= Max(0, config.maxAttempts)
  {
    ChainsApart(calls, id, config);
    OwnCalls(calls, id);
    AttemptsBounded(Own(calls, calls, id), id, config);
  }

  /** Keys that differ can still share a chain: the parts are joined without escaping. */
  lemma {:induction false} ChainsCollide(key: Key, rest: string)
    ensures ChainId(key.(goalId := key.goalId + "::" + key.pageIdentity, pageIdentity := rest))
            == ChainId(key.(pageIdentity := key.pageIdentity + "::" + rest))
  {
    assert key.goalId + "::" + key.pageIdentity + "::" + rest == key.goalId + "::" + (key.pageIdentity + "::" + rest);
  }
}
