/**
  Whole runs of the commit gate on one entity: any calls, the process dying after any effect, the
  journal changing in between, and other parts of the runtime writing rows of their own.
*/
module GateRuns {
  import opened Common
  import opened Approvals
  import opened Gate

  datatype Step =
    | Gated(c: Call, lived: nat)     // the process lives to make this many effects
    | Journal(verified: bool)
    | Noted(event: Event)

  datatype History = History(s: State, trace: seq<Effect>)

  const EMPTY := History(State([], [], false), [])

  function Made(h: History, es: seq<Effect>): History {
    History(ApplyAll(h.s, es), h.trace + es)
  }

  function Do(h: History, st: Step, fold: Folding): History {
    match st
    case Gated(c, lived) => Made(h, Take(Effects(h.s, c, fold), lived))
    case Journal(verified) => h.(s := h.s.(verified := verified))
    case Noted(event) => h.(s := h.s.(ledger := h.s.ledger + [event]))
  }

  function Run(steps: seq<Step>, fold: Folding): History {
    if steps == [] then EMPTY else Do(Run(steps[..|steps| - 1], fold), steps[|steps| - 1], fold)
  }

  lemma {:induction false} MadeOne(h: History, es: seq<Effect>, i: nat)
    requires i < |es|
    ensures Made(h, es[..i + 1]) == Made(Made(h, es[..i]), [es[i]])
    ensures Made(h, es[..i + 1]).s == Apply(Made(h, es[..i]).s, es[i])
  {
    assert es[..i + 1] == es[..i] + [es[i]];
    ApplyConcat(h.s, es[..i], [es[i]]);
    assert [es[i]][..0] == [];
    assert h.trace + (es[..i] + [es[i]]) == h.trace + es[..i] + [es[i]];
  }

  lemma {:induction false} MadeSingle(h: History, e: Effect)
    ensures Made(h, [e]) == History(Apply(h.s, e), h.trace + [e])
  {
    assert [e][..|[e]| - 1] == [];
    assert ApplyAll(h.s, []) == h.s;
  }

  lemma {:induction false} MadeConcat(h: History, a: seq<Effect>, b: seq<Effect>)
    ensures Made(h, a + b) == Made(Made(h, a), b)
  {
    ApplyConcat(h.s, a, b);
    assert h.trace + (a + b) == h.trace + a + b;
  }

  // ----- the two halves of a call

  /** Effects that no approval and no claim depends on. */
  predicate Idle(e: Effect) {
    e.SaveCheckpoint? || e.Explore? || e.Restore? || (e.Append? && !IsStickyApproval(e.event))
  }

  lemma {:induction false} FrontIdle(c: Call)
    ensures forall e :: e in Front(c) ==> Idle(e)
  {}

  lemma {:induction false} TakeConcat<T>(a: seq<T>, b: seq<T>, n: nat)
    ensures Take(a + b, n) == if n <= |a| then Take(a, n) else a + Take(b, n - |a|)
  {}

  lemma {:induction false} TakeIn<T>(xs: seq<T>, n: nat)
    ensures forall x :: x in Take(xs, n) ==> x in xs
  {}

  /** What a call that reaches the approvals does first changes no record. */
  lemma {:induction false} FrontMade(h: History, c: Call, fold: Folding)
    ensures Back(Made(h, Front(c)).s, c, fold) == Back(h.s, c, fold)
    ensures Reaches(c) ==> Made(h, Front(c)).s == h.s
  {
    if Reaches(c) {
      hide Permission, Commit;
      OpeningKeeps(h.s, c, |Front(c)|);
      assert Take(Front(c), |Front(c)|) == Front(c);
    }
  }

  /** A call, stopped anywhere, is its first half stopped there or its first half and then its second. */
  lemma {:induction false} CallSplits(h: History, c: Call, n: nat, fold: Folding)
    ensures Made(h, Take(Effects(h.s, c, fold), n))
            == if n <= |Front(c)| then Made(h, Take(Front(c), n))
               else
                 var h1 := Made(h, Front(c));
                 Made(h1, Take(Back(h1.s, c, fold), n - |Front(c)|))
  {
    hide Front, Back, Made;
    TakeConcat(Front(c), Back(h.s, c, fold), n);
    FrontMade(h, c, fold);
    if n > |Front(c)| {
      MadeConcat(h, Front(c), Take(Back(h.s, c, fold), n - |Front(c)|));
    }
  }

  // ----- at most one act per key

  function ActsOn(trace: seq<Effect>, k: string, fold: Folding): nat {
    if trace == [] then 0
    else
      var last := trace[|trace| - 1];
      ActsOn(trace[..|trace| - 1], k, fold) + if last.Act? && IdempotencyKey(last.call, fold) == k then 1 else 0
  }

  lemma {:induction false} ActsOnOne(trace: seq<Effect>, e: Effect, k: string, fold: Folding)
    ensures ActsOn(trace + [e], k, fold)
            == ActsOn(trace, k, fold) + if e.Act? && IdempotencyKey(e.call, fold) == k then 1 else 0
  {
    assert (trace + [e])[..|trace + [e]| - 1] == trace;
  }

  /** A recorded key has acted at most once; an unrecorded one, while there was room, never. */
  predicate Guarded(h: History, k: string, fold: Folding) {
    && |h.s.consumed| <= MAX_KEYS
    && (k in h.s.consumed ==> ActsOn(h.trace, k, fold) <= 1)
    && (k !in h.s.consumed && |h.s.consumed| < MAX_KEYS ==> ActsOn(h.trace, k, fold) == 0)
  }

  predicate Claiming(steps: seq<Step>) {
    forall i :: 0 <= i < |steps| && steps[i].Gated? ==> steps[i].c.claims
  }

  lemma {:induction false} QuietEffect(h: History, e: Effect, k: string, fold: Folding)
    requires Guarded(h, k, fold) && !e.Consume? && !e.Act?
    ensures Guarded(Made(h, [e]), k, fold)
  {
    hide IdempotencyKey;
    ActsOnOne(h.trace, e, k, fold);
    MadeSingle(h, e);
  }

  /** A run of effects with neither claim nor act keeps the guard and the keys, and without the journal its verdict. */
  lemma {:induction false} QuietEffects(h: History, es: seq<Effect>, k: string, fold: Folding)
    requires Guarded(h, k, fold) && forall e :: e in es ==> !e.Consume? && !e.Act?
    ensures Guarded(Made(h, es), k, fold)
    ensures Made(h, es).s.consumed == h.s.consumed
    ensures (forall e :: e in es ==> !e.Prepare?) ==> Made(h, es).s.verified == h.s.verified
  {
    hide IdempotencyKey, Guarded;
    if es == [] {
      assert h.trace + [] == h.trace;
    } else {
      var n := |es| - 1;
      QuietEffects(h, es[..n], k, fold);
      assert es[n] in es;
      MadeOne(h, es, n);
      assert es[..n + 1] == es;
      QuietEffect(Made(h, es[..n]), es[n], k, fold);
    }
  }

  /** A claim of a new key, and then a claim and its act. */
  lemma {:induction false} ClaimStep(h: History, c: Call, k: string, fold: Folding)
    requires Guarded(h, k, fold) && IdempotencyKey(c, fold) !in h.s.consumed
    ensures Guarded(Made(h, [Consume(IdempotencyKey(c, fold))]), k, fold)
    ensures Guarded(Made(Made(h, [Consume(IdempotencyKey(c, fold))]), [Act(c)]), k, fold)
  {
    hide IdempotencyKey, Persisted, Made;
    var key := IdempotencyKey(c, fold);
    var h1 := Made(h, [Consume(key)]);
    MadeSingle(h, Consume(key));
    ActsOnOne(h.trace, Consume(key), k, fold);
    Claimed(h.s.consumed, key, k);
    MadeSingle(h1, Act(c));
    ActsOnOne(h1.trace, Act(c), k, fold);
  }

  /** Claim, act and note, stopped anywhere. */
  lemma {:induction false} ClaimedAct(h: History, c: Call, n: nat, k: string, fold: Folding)
    requires Guarded(h, k, fold) && IdempotencyKey(c, fold) !in h.s.consumed
    ensures Guarded(Made(h, Take([Consume(IdempotencyKey(c, fold)), Act(c), Append(ActedEvent(c))], n)), k, fold)
  {
    hide IdempotencyKey, ActedEvent, Guarded, Made;
    var key := IdempotencyKey(c, fold);
    var es := [Consume(key), Act(c), Append(ActedEvent(c))];
    var h1 := Made(h, [Consume(key)]);
    var h2 := Made(h1, [Act(c)]);
    ClaimStep(h, c, k, fold);
    QuietEffect(h2, Append(ActedEvent(c)), k, fold);
    MadeConcat(h, [Consume(key)], [Act(c)]);
    MadeConcat(h, [Consume(key)] + [Act(c)], [Append(ActedEvent(c))]);
    if n == 0 {
      QuietEffects(h, [], k, fold);
      assert Take(es, n) == [];
    } else if n == 1 {
      assert Take(es, n) == [Consume(key)];
    } else if n == 2 {
      assert Take(es, n) == [Consume(key)] + [Act(c)];
    } else {
      assert Take(es, n) == [Consume(key)] + [Act(c)] + [Append(ActedEvent(c))];
    }
  }

  lemma {:induction false} Claimed(consumed: seq<string>, key: string, k: string)
    requires |consumed| <= MAX_KEYS && key !in consumed
    ensures var now := Persisted(consumed + [key]);
            && |now| <= MAX_KEYS
            && (|consumed| < MAX_KEYS ==> now == consumed + [key])
            && (|consumed| == MAX_KEYS ==> now == consumed)
  {}

  lemma {:induction false} CommitGuarded(h: History, c: Call, n: nat, k: string, fold: Folding)
    requires Guarded(h, k, fold) && c.claims
    ensures Guarded(Made(h, Take(Commit(h.s, c, fold), n)), k, fold)
  {
    hide Guarded, IdempotencyKey, Refusal, ActedEvent, Made;
    var key := IdempotencyKey(c, fold);
    RefusalQuiet();
    if h.s.verified || key in h.s.consumed {
      QuietEffects(h, Take(Commit(h.s, c, fold), n), k, fold);
    } else {
      var rest := [Consume(key), Act(c), Append(ActedEvent(c))];
      assert Commit(h.s, c, fold) == [Prepare(key)] + rest;
      TakeConcat([Prepare(key)], rest, n);
      if n <= 1 {
        QuietEffects(h, Take([Prepare(key)], n), k, fold);
      } else {
        QuietEffects(h, [Prepare(key)], k, fold);
        ClaimedAct(Made(h, [Prepare(key)]), c, n - 1, k, fold);
        MadeConcat(h, [Prepare(key)], Take(rest, n - 1));
      }
    }
  }

  lemma {:induction false} RefusalQuiet()
    ensures forall d :: Refusal(d).Append?
  {}

  lemma {:induction false} CommitReadsKeys(s: State, t: State, c: Call, fold: Folding)
    requires s.consumed == t.consumed && s.verified == t.verified
    ensures Commit(s, c, fold) == Commit(t, c, fold)
  {}

  lemma {:induction false} BackGuarded(h: History, c: Call, n: nat, k: string, fold: Folding)
    requires Guarded(h, k, fold) && c.claims
    ensures Guarded(Made(h, Take(Back(h.s, c, fold), n)), k, fold)
  {
    hide Guarded, Permission, Commit, IdempotencyKey, Refusal, Made;
    var es := Back(h.s, c, fold);
    RefusalQuiet();
    if !Reaches(c) || EarlyRefusal(c).Some? {
      QuietEffects(h, Take(es, n), k, fold);
    } else {
      PermissionOnly(h.s, c, fold);
      var (asked, granted) := Permission(h.s, c, fold);
      var rest := if granted then Commit(h.s, c, fold) else [];
      TakeConcat(asked, rest, n);
      if n <= |asked| {
        TakeIn(asked, n);
        QuietEffects(h, Take(asked, n), k, fold);
      } else if !granted {
        assert asked + Take(rest, n - |asked|) == asked;
        QuietEffects(h, asked, k, fold);
      } else {
        QuietEffects(h, asked, k, fold);
        var h' := Made(h, asked);
        CommitReadsKeys(h.s, h'.s, c, fold);
        CommitGuarded(h', c, n - |asked|, k, fold);
        MadeConcat(h, asked, Take(rest, n - |asked|));
      }
    }
  }

  lemma {:induction false} CallGuarded(h: History, c: Call, n: nat, k: string, fold: Folding)
    requires Guarded(h, k, fold) && c.claims
    ensures Guarded(Made(h, Take(Effects(h.s, c, fold), n)), k, fold)
  {
    hide Guarded, Effects, Front, Back, Made;
    CallSplits(h, c, n, fold);
    FrontOnly(c);
    if n <= |Front(c)| {
      TakeIn(Front(c), n);
      QuietEffects(h, Take(Front(c), n), k, fold);
    } else {
      QuietEffects(h, Front(c), k, fold);
      BackGuarded(Made(h, Front(c)), c, n - |Front(c)|, k, fold);
    }
  }

  lemma {:induction false} RunGuarded(steps: seq<Step>, k: string, fold: Folding)
    requires Claiming(steps)
    ensures Guarded(Run(steps, fold), k, fold)
  {
    if steps != [] {
      var front, last := steps[..|steps| - 1], steps[|steps| - 1];
      RunGuarded(front, k, fold);
      if last.Gated? {
        CallGuarded(Run(front, fold), last.c, last.lived, k, fold);
      }
    }
  }

  /**
    Whatever is called and wherever the process dies, a key the entity still holds has acted at most
    once; and while fewer than 500 keys are held, so has every key.
  */
  lemma {:induction false} AtMostOnce(steps: seq<Step>, k: string, fold: Folding)
    requires Claiming(steps)
    requires k in Run(steps, fold).s.consumed || |Run(steps, fold).s.consumed| < 500
    ensures ActsOn(Run(steps, fold).trace, k, fold) <= 1
  {
    RunGuarded(steps, k, fold);
  }

  lemma {:induction false} ApprovedGrows(a: seq<Event>, b: seq<Event>, fold: Folding)
    ensures Approved(a, fold) <= Approved(a + b, fold)
  {
    if b == [] {
      assert a + b == a;
    } else {
      assert (a + b)[..|a + b| - 1] == a + b[..|b| - 1];
      ApprovedGrows(a, b[..|b| - 1], fold);
    }
  }

  lemma {:induction false} LedgerGrows(s: State, es: seq<Effect>)
    ensures s.ledger <= ApplyAll(s, es).ledger
  {
    if es != [] {
      LedgerGrows(s, es[..|es| - 1]);
    }
  }

  lemma {:induction false} RememberedStays(s: State, t: State, c: Call, fold: Folding)
    requires s.ledger <= t.ledger && Remembered(s, c, fold)
    ensures Remembered(t, c, fold)
  {
    hide ApprovalKey, Approved;
    ApprovedGrows(s.ledger, t.ledger[|s.ledger|..], fold);
    assert s.ledger + t.ledger[|s.ledger|..] == t.ledger;
  }

  /** Permission once obtained is obtained again on a longer ledger. */
  lemma {:induction false} PermissionStays(s: State, t: State, c: Call, fold: Folding)
    requires s.ledger <= t.ledger && Permission(s, c, fold).1
    ensures Permission(t, c, fold).1
  {
    hide MatchingGrant, Remembered;
    if Remembered(s, c, fold) {
      RememberedStays(s, t, c, fold);
    }
  }

  /** The state a completed act leaves, as far as a later claim can tell. */
  lemma {:induction false} ActedState(s: State, c: Call, fold: Folding)
    requires Act(c) in Effects(s, c, fold) && c.claims
    ensures var t := ApplyAll(s, Effects(s, c, fold));
            && t.consumed == Persisted(s.consumed + [IdempotencyKey(c, fold)]) && t.verified == s.verified
            && s.ledger <= t.ledger
    ensures Reaches(c) && EarlyRefusal(c).None? && Permission(s, c, fold).1
    ensures !s.verified && IdempotencyKey(c, fold) !in s.consumed
  {
    hide Permission, IdempotencyKey, ActedEvent, Front;
    PermissionOnly(s, c, fold);
    FrontOnly(c);
    var key := IdempotencyKey(c, fold);
    var (asked, granted) := Permission(s, c, fold);
    var tail := [Act(c), Append(ActedEvent(c))];
    assert granted && Commit(s, c, fold) == [Prepare(key), Consume(key)] + tail;
    var quiet := Front(c) + asked;
    assert Effects(s, c, fold) == quiet + ([Prepare(key), Consume(key)] + tail);
    ApplyConcat(s, quiet, [Prepare(key), Consume(key)] + tail);
    KeepsKeysAll(s, quiet);
    ClaimedKeys(ApplyAll(s, quiet), key, tail);
    LedgerGrows(s, Effects(s, c, fold));
  }

  lemma {:induction false} ClaimedKeys(s: State, key: string, tail: seq<Effect>)
    requires forall e :: e in tail ==> !TouchesKeys(e)
    ensures var t := ApplyAll(s, [Prepare(key), Consume(key)] + tail);
            t.consumed == Persisted(s.consumed + [key]) && !t.verified
  {
    ApplyConcat(s, [Prepare(key), Consume(key)], tail);
    ApplyConcat(s, [Prepare(key)], [Consume(key)]);
    assert [Prepare(key)] + [Consume(key)] == [Prepare(key), Consume(key)];
    MadeSingle(History(s, []), Prepare(key));
    MadeSingle(History(ApplyAll(s, [Prepare(key)]), []), Consume(key));
    KeepsKeysAll(ApplyAll(s, [Prepare(key), Consume(key)]), tail);
  }

  /** Repeating an act that went through: refused exactly while the entity held fewer than 500 keys. */
  lemma {:induction false} RepeatRefusedIff(s: State, c: Call, fold: Folding)
    requires Act(c) in Effects(s, c, fold) && c.claims
    ensures var t := ApplyAll(s, Effects(s, c, fold));
            Act(c) !in Effects(t, c, fold) <==> |s.consumed| < 500
  {
    hide Permission, IdempotencyKey, ApplyAll, ActedEvent, Front;
    FrontOnly(c);
    var t := ApplyAll(s, Effects(s, c, fold));
    ActedState(s, c, fold);
    PermissionStays(s, t, c, fold);
    PermissionOnly(t, c, fold);
    var key := IdempotencyKey(c, fold);
    if |s.consumed| < MAX_KEYS {
      assert t.consumed == s.consumed + [key];
      assert key in t.consumed;
    } else {
      assert t.consumed == s.consumed[..MAX_KEYS];
      assert key !in t.consumed;
      assert Act(c) in Commit(t, c, fold);
    }
  }

  // ----- an act under "ask" has a yes behind it

  /** The operator says yes to this host, kind, name and rule. */
  predicate Yes(e: Effect, id: Identity, fold: Folding) {
    e.AskOperator? && e.yes && e.identity.Some? && SameTarget(e.identity.value, id, fold)
  }

  /** A grant is used for it. */
  predicate Granted(e: Effect, id: Identity, fold: Folding) {
    e.UseGrant? && e.identity.Some? && SameTarget(e.identity.value, id, fold)
  }

  /** At some point there was a yes to it, or a grant. */
  predicate Backed(trace: seq<Effect>, id: Identity, fold: Folding) {
    exists i :: 0 <= i < |trace| && (Yes(trace[i], id, fold) || Granted(trace[i], id, fold))
  }

  /** A yes to a nameless act, with nothing but the claim since: it is this act's own. */
  predicate OwnYes(trace: seq<Effect>, i: nat)
    requires i < |trace|
  {
    trace[i] == AskOperator(None, true) && forall j :: i < j < |trace| ==> TouchesKeys(trace[j])
  }

  /** What this call does has a yes or a grant behind it; on a nameless control, a yes of its own. */
  predicate Consented(trace: seq<Effect>, c: Call, fold: Folding) {
    if c.identity.Some? then Backed(trace, c.identity.value, fold) else exists i :: 0 <= i < |trace| && OwnYes(trace, i)
  }

  /** A ledger row that a later call would honour is backed. */
  predicate RowBacked(trace: seq<Effect>, e: Event, fold: Folding) {
    Remembers(e) ==> Plain(e.payload.value) && Backed(trace, e.payload.value, fold)
  }

  predicate ActBacked(trace: seq<Effect>, j: nat, fold: Folding)
    requires j < |trace|
  {
    trace[j].Act? && trace[j].call.policy == Ask ==> Consented(trace[..j], trace[j].call, fold)
  }

  predicate Sound(h: History, fold: Folding) {
    && (forall i :: 0 <= i < |h.s.ledger| ==> RowBacked(h.trace, h.s.ledger[i], fold))
    && (forall j :: 0 <= j < |h.trace| ==> ActBacked(h.trace, j, fold))
  }

  /** What an effect needs so that soundness survives it. */
  predicate Allowed(trace: seq<Effect>, e: Effect, fold: Folding) {
    && (e.Append? ==> RowBacked(trace, e.event, fold))
    && (e.Act? && e.call.policy == Ask ==> Consented(trace, e.call, fold))
  }

  lemma {:induction false} BackedGrows(a: seq<Effect>, b: seq<Effect>, id: Identity, fold: Folding)
    requires Backed(a, id, fold)
    ensures Backed(a + b, id, fold)
  {
    var i :| 0 <= i < |a| && (Yes(a[i], id, fold) || Granted(a[i], id, fold));
    assert (a + b)[i] == a[i];
  }

  lemma {:induction false} RowGrows(a: seq<Effect>, b: seq<Effect>, e: Event, fold: Folding)
    requires RowBacked(a, e, fold)
    ensures RowBacked(a + b, e, fold)
  {
    if Remembers(e) {
      BackedGrows(a, b, e.payload.value, fold);
    }
  }

  lemma {:induction false} SoundStep(h: History, e: Effect, fold: Folding)
    requires Sound(h, fold) && Allowed(h.trace, e, fold)
    ensures Sound(Made(h, [e]), fold)
  {
    hide Remembers, Plain, Backed, Consented;
    MadeSingle(h, e);
    var h' := Made(h, [e]);
    forall i | 0 <= i < |h'.s.ledger|
      ensures RowBacked(h'.trace, h'.s.ledger[i], fold)
    {
      RowGrows(h.trace, [e], h'.s.ledger[i], fold);
    }
    forall j | 0 <= j < |h'.trace|
      ensures ActBacked(h'.trace, j, fold)
    {
      if j < |h.trace| {
        assert ActBacked(h.trace, j, fold);
        assert h'.trace[..j] == h.trace[..j];
      } else {
        assert h'.trace[..j] == h.trace;
      }
    }
  }

  lemma {:induction false} SoundSteps(h: History, es: seq<Effect>, fold: Folding)
    requires Sound(h, fold)
    requires forall i :: 0 <= i < |es| ==> Allowed(h.trace + es[..i], es[i], fold)
    ensures Sound(Made(h, es), fold)
  {
    hide Sound, Allowed;
    if es == [] {
      assert h.trace + [] == h.trace;
    } else {
      var n := |es| - 1;
      forall i | 0 <= i < n
        ensures Allowed(h.trace + es[..n][..i], es[..n][i], fold)
      {
        assert es[..n][..i] == es[..i];
      }
      SoundSteps(h, es[..n], fold);
      MadeOne(h, es, n);
      assert es[..n + 1] == es;
      SoundStep(Made(h, es[..n]), es[n], fold);
    }
  }

  /** Only a control's name, which is the page's own text, may hold the separator of the keys. */
  predicate PlainCall(c: Call) {
    c.identity.Some? ==> Plain(c.identity.value)
  }

  /** A remembered key comes from a row, the row from a yes, and equal keys name the same target. */
  lemma {:induction false} RememberedBacked(h: History, c: Call, fold: Folding)
    requires Sound(h, fold) && PlainCall(c) && Remembered(h.s, c, fold)
    ensures Backed(h.trace, c.identity.value, fold)
  {
    hide ApprovalKey, Approved, Plain;
    var id := c.identity.value;
    ApprovedBy(h.s.ledger, fold, ApprovalKey(id, fold));
    var i :| 0 <= i < |h.s.ledger| && Remembers(h.s.ledger[i])
             && ApprovalKey(id, fold) == ApprovalKey(h.s.ledger[i].payload.value, fold);
    var row := h.s.ledger[i].payload.value;
    assert RowBacked(h.trace, h.s.ledger[i], fold);
    KeyDecides(id, row, fold);
    TargetBacked(h.trace, row, id, fold);
  }

  lemma {:induction false} AskedBacked(trace: seq<Effect>, es: seq<Effect>, id: Identity, fold: Folding)
    requires |es| > 0 && (es[0] == AskOperator(Some(id), true) || (es[0].UseGrant? && es[0].identity == Some(id)))
    ensures Backed(trace + es, id, fold)
  {
    assert (trace + es)[|trace|] == es[0];
    assert Yes(es[0], id, fold) || Granted(es[0], id, fold);
  }

  lemma {:induction false} TargetBacked(trace: seq<Effect>, id: Identity, other: Identity, fold: Folding)
    requires Backed(trace, id, fold) && SameTarget(id, other, fold)
    ensures Backed(trace, other, fold)
  {
    var j :| 0 <= j < |trace| && (Yes(trace[j], id, fold) || Granted(trace[j], id, fold));
    assert Yes(trace[j], other, fold) || Granted(trace[j], other, fold);
  }

  /** With the act consented to, everything from the claim on is allowed. */
  lemma {:induction false} CommitAllowed(trace: seq<Effect>, s: State, c: Call, i: nat, fold: Folding)
    requires i < |Commit(s, c, fold)|
    requires c.identity.Some? ==> Plain(c.identity.value)
    requires c.policy == Ask ==> Consented(trace, c, fold)
    requires c.policy != Never
    ensures Allowed(trace + Commit(s, c, fold)[..i], Commit(s, c, fold)[i], fold)
  {
    hide IdempotencyKey, Backed;
    var es := Commit(s, c, fold)[..i];
    var e := Commit(s, c, fold)[i];
    if c.policy == Ask {
      if c.identity.Some? {
        var id := c.identity.value;
        BackedGrows(trace, es, id, fold);
        TargetBacked(trace + es, id, id.(specHash := None), fold);
      } else if e.Act? {
        OwnYesKept(trace, es);
      }
    }
  }

  lemma {:induction false} OwnYesKept(trace: seq<Effect>, es: seq<Effect>)
    requires exists i :: 0 <= i < |trace| && OwnYes(trace, i)
    requires forall e :: e in es ==> TouchesKeys(e)
    ensures exists i :: 0 <= i < |trace + es| && OwnYes(trace + es, i)
  {
    var i :| 0 <= i < |trace| && OwnYes(trace, i);
    var t := trace + es;
    forall j | i < j < |t|
      ensures TouchesKeys(t[j])
    {
      if j >= |trace| {
        assert t[j] == es[j - |trace|];
      }
    }
    assert OwnYes(t, i);
  }

  lemma {:induction false} PermissionAllowed(h: History, c: Call, i: nat, fold: Folding)
    requires Sound(h, fold) && PlainCall(c) && i < |Permission(h.s, c, fold).0|
    ensures Allowed(h.trace + Permission(h.s, c, fold).0[..i], Permission(h.s, c, fold).0[i], fold)
  {
    hide Backed, Remembered, Plain, Sound, MatchingGrant;
    var asked := Permission(h.s, c, fold).0;
    var grant := MatchingGrant(c.grants, c.identity, c.authorization, c.now, fold);
    if grant.Some? {
      DetailsDiffer(grant.value.id);
    } else if i == 1 && c.operator {
      AskedBacked(h.trace, asked[..1], c.identity.value, fold);
    }
  }

  lemma {:induction false} PermissionConsents(h: History, c: Call, fold: Folding)
    requires Sound(h, fold) && PlainCall(c) && c.policy == Ask && Permission(h.s, c, fold).1
    ensures Consented(h.trace + Permission(h.s, c, fold).0, c, fold)
  {
    hide Backed, Plain, Sound, MatchingGrant;
    var asked := Permission(h.s, c, fold).0;
    if MatchingGrant(c.grants, c.identity, c.authorization, c.now, fold).Some? {
      GrantNeedsName(c, fold);
      AskedBacked(h.trace, asked, c.identity.value, fold);
    } else if Remembered(h.s, c, fold) {
      RememberedBacked(h, c, fold);
      assert h.trace + [] == h.trace;
    } else if c.identity.Some? {
      AskedBacked(h.trace, asked, c.identity.value, fold);
    } else {
      assert asked == [AskOperator(None, true)];
      assert OwnYes(h.trace + asked, |h.trace|);
    }
  }

  lemma {:induction false} BackAllowed(h: History, c: Call, i: nat, fold: Folding)
    requires Sound(h, fold) && PlainCall(c) && i < |Back(h.s, c, fold)|
    ensures Allowed(h.trace + Back(h.s, c, fold)[..i], Back(h.s, c, fold)[i], fold)
  {
    hide Sound, Permission, Commit, Consented, Plain;
    var es := Back(h.s, c, fold);
    if EarlyRefusal(c).None? {
      var (asked, granted) := Permission(h.s, c, fold);
      if i < |asked| {
        PermissionAllowed(h, c, i, fold);
        assert es[..i] == asked[..i];
      } else {
        var k := i - |asked|;
        if c.policy == Ask {
          PermissionConsents(h, c, fold);
        }
        CommitAllowed(h.trace + asked, h.s, c, k, fold);
        assert es[..i] == asked + Commit(h.s, c, fold)[..k];
        assert h.trace + (asked + Commit(h.s, c, fold)[..k]) == h.trace + asked + Commit(h.s, c, fold)[..k];
      }
    }
  }

  lemma {:induction false} IdleSound(h: History, es: seq<Effect>, fold: Folding)
    requires Sound(h, fold) && forall e :: e in es ==> Idle(e)
    ensures Sound(Made(h, es), fold)
  {
    hide Sound, Backed, Consented;
    forall i | 0 <= i < |es|
      ensures Allowed(h.trace + es[..i], es[i], fold)
    {
      assert es[i] in es;
    }
    SoundSteps(h, es, fold);
  }

  lemma {:induction false} BackSound(h: History, c: Call, n: nat, fold: Folding)
    requires Sound(h, fold) && PlainCall(c)
    ensures Sound(Made(h, Take(Back(h.s, c, fold), n)), fold)
  {
    hide Back, PlainCall, Allowed, Sound;
    var es := Back(h.s, c, fold);
    var made := Take(es, n);
    forall i | 0 <= i < |made|
      ensures Allowed(h.trace + made[..i], made[i], fold)
    {
      BackAllowed(h, c, i, fold);
      assert made[..i] == es[..i];
    }
    SoundSteps(h, made, fold);
  }

  lemma {:induction false} GatedSound(h: History, c: Call, lived: nat, fold: Folding)
    requires Sound(h, fold) && PlainCall(c)
    ensures Sound(Made(h, Take(Effects(h.s, c, fold), lived)), fold)
  {
    hide Effects, Front, Back, PlainCall, Sound, Made, Idle, Take;
    CallSplits(h, c, lived, fold);
    FrontIdle(c);
    if lived <= |Front(c)| {
      TakeIn(Front(c), lived);
      IdleSound(h, Take(Front(c), lived), fold);
    } else {
      IdleSound(h, Front(c), fold);
      BackSound(Made(h, Front(c)), c, lived - |Front(c)|, fold);
    }
  }

  predicate PlainStep(st: Step) {
    match st
    case Gated(c, _) => PlainCall(c)
    case Journal(_) => true
    case Noted(event) => !IsStickyApproval(event)
  }

  lemma {:induction false} RunSound(steps: seq<Step>, fold: Folding)
    requires forall i :: 0 <= i < |steps| ==> PlainStep(steps[i])
    ensures Sound(Run(steps, fold), fold)
  {
    hide Effects, PlainCall, Allowed, RowBacked;
    if steps != [] {
      var front, last := steps[..|steps| - 1], steps[|steps| - 1];
      RunSound(front, fold);
      var h := Run(front, fold);
      match last
      case Gated(c, lived) =>
        GatedSound(h, c, lived, fold);
      case Journal(_) =>
      case Noted(event) =>
        assert RowBacked(h.trace, event, fold) by { NotedBacked(h.trace, event, fold); }
    }
  }

  lemma {:induction false} NotedBacked(trace: seq<Effect>, event: Event, fold: Folding)
    requires !IsStickyApproval(event)
    ensures RowBacked(trace, event, fold)
  {}

  /**
    Whatever is called and wherever the process dies: an act under "ask" comes after an operator's
    yes, or the use of a grant, for the same host, kind, normalized name and rule; and an act on a
    nameless control right after the operator's yes to it, with at most its claim in between.
  */
  lemma {:induction false} EveryActIsBacked(steps: seq<Step>, j: nat, fold: Folding)
    requires forall i :: 0 <= i < |steps| ==> PlainStep(steps[i])
    requires j < |Run(steps, fold).trace|
    requires var e := Run(steps, fold).trace[j]; e.Act? && e.call.policy == Ask
    ensures var trace := Run(steps, fold).trace; Consented(trace[..j], trace[j].call, fold)
  {
    RunSound(steps, fold);
    assert ActBacked(Run(steps, fold).trace, j, fold);
  }

  predicate Ungranted(st: Step) {
    st.Gated? ==> st.c.grants == []
  }

  lemma {:induction false} NoGrantUsed(steps: seq<Step>, fold: Folding)
    requires forall i :: 0 <= i < |steps| ==> Ungranted(steps[i])
    ensures forall e :: e in Run(steps, fold).trace ==> !e.UseGrant?
  {
    if steps != [] {
      var front, last := steps[..|steps| - 1], steps[|steps| - 1];
      NoGrantUsed(front, fold);
      if last.Gated? {
        UngrantedEffects(Run(front, fold).s, last.c, fold);
      }
    }
  }

  lemma {:induction false} UngrantedEffects(s: State, c: Call, fold: Folding)
    requires c.grants == []
    ensures forall e :: e in Effects(s, c, fold) ==> !e.UseGrant?
  {
    hide Front, Permission, Commit;
    FrontOnly(c);
    CommitOnly(s, c, fold);
    UngrantedPermission(s, c, fold);
  }

  lemma {:induction false} UngrantedPermission(s: State, c: Call, fold: Folding)
    requires c.grants == []
    ensures forall e :: e in Permission(s, c, fold).0 ==> !e.UseGrant?
  {
    hide Remembered;
  }

  /** Without grants it was the operator who said yes, now or earlier. */
  lemma {:induction false} EveryActHasAYes(steps: seq<Step>, j: nat, fold: Folding)
    requires forall i :: 0 <= i < |steps| ==> PlainStep(steps[i]) && Ungranted(steps[i])
    requires j < |Run(steps, fold).trace|
    requires var e := Run(steps, fold).trace[j]; e.Act? && e.call.policy == Ask && e.call.identity.Some?
    ensures var trace := Run(steps, fold).trace;
            exists i :: 0 <= i < j && Yes(trace[i], trace[j].call.identity.value, fold)
  {
    EveryActIsBacked(steps, j, fold);
    NoGrantUsed(steps, fold);
    hide Run, SameTarget, PlainStep;
    var trace := Run(steps, fold).trace;
    var id := trace[j].call.identity.value;
    var i :| 0 <= i < |trace[..j]| && (Yes(trace[..j][i], id, fold) || Granted(trace[..j][i], id, fold));
    assert trace[..j][i] == trace[i] && trace[i] in trace;
  }

  /** What leaves the session is never forbidden, never against the page or the policy; what else acts stays in it. */
  predicate LetThrough(e: Effect) {
    && (e.Act? ==>
          !e.call.forbidden && e.call.authorized && e.call.precondition != Some(false) && e.call.policy != Never)
    && (e.Explore? ==> !e.call.forbidden && !e.call.authorized)
  }

  lemma {:induction false} EffectsLetThrough(s: State, c: Call, fold: Folding)
    ensures forall e :: e in Effects(s, c, fold) ==> LetThrough(e)
  {
    hide Front, Permission, Commit;
    FrontLetThrough(c);
    PermissionOnly(s, c, fold);
    CommitOnly(s, c, fold);
    CommitActs(s, c, fold);
  }

  lemma {:induction false} FrontLetThrough(c: Call)
    ensures forall e :: e in Front(c) ==> LetThrough(e)
  {}

  lemma {:induction false} CommitActs(s: State, c: Call, fold: Folding)
    ensures forall e :: e in Commit(s, c, fold) && e.Act? ==> e.call == c
  {
    hide IdempotencyKey;
  }

  /** In every run, grants or not, an act passed the envelope, its precondition and the policy. */
  lemma {:induction false} EveryActLetThrough(steps: seq<Step>, fold: Folding)
    ensures forall e :: e in Run(steps, fold).trace ==> LetThrough(e)
  {
    hide LetThrough, Effects;
    if steps != [] {
      var front, last := steps[..|steps| - 1], steps[|steps| - 1];
      EveryActLetThrough(front, fold);
      if last.Gated? {
        EffectsLetThrough(Run(front, fold).s, last.c, fold);
      }
    }
  }

  // ----- after a recorded yes nobody asks again

  predicate Honours(e: Effect, k: string, fold: Folding) {
    e.Append? && Remembers(e.event) && ApprovalKey(e.event.payload.value, fold) == k
  }

  predicate Asks(e: Effect, k: string, fold: Folding) {
    e.AskOperator? && e.identity.Some? && ApprovalKey(e.identity.value, fold) == k
  }

  /** Once a row for this key is on the ledger the key is remembered, and no question about it follows. */
  predicate Settled(h: History, k: string, fold: Folding) {
    && (forall i :: 0 <= i < |h.trace| && Honours(h.trace[i], k, fold) ==> k in Approved(h.s.ledger, fold))
    && (forall i, j :: 0 <= i < j < |h.trace| && Honours(h.trace[i], k, fold) ==> !Asks(h.trace[j], k, fold))
  }

  lemma {:induction false} ApprovedOne(ledger: seq<Event>, e: Event, fold: Folding)
    ensures Approved(ledger + [e], fold)
            == Approved(ledger, fold) + if Remembers(e) then {ApprovalKey(e.payload.value, fold)} else {}
  {
    assert (ledger + [e])[..|ledger + [e]| - 1] == ledger;
  }

  lemma {:induction false} SettledStep(h: History, e: Effect, k: string, fold: Folding)
    requires Settled(h, k, fold)
    requires Asks(e, k, fold) ==> k !in Approved(h.s.ledger, fold)
    ensures Settled(Made(h, [e]), k, fold)
  {
    hide ApprovalKey, Remembers, Approved;
    MadeSingle(h, e);
    if e.Append? {
      ApprovedOne(h.s.ledger, e.event, fold);
    }
  }

  lemma {:induction false} SettledSteps(h: History, es: seq<Effect>, k: string, fold: Folding)
    requires Settled(h, k, fold)
    requires forall i :: 0 <= i < |es| && Asks(es[i], k, fold) ==> i == 0 && k !in Approved(h.s.ledger, fold)
    ensures Settled(Made(h, es), k, fold)
  {
    hide Settled, Asks, Approved;
    if es == [] {
      assert h.trace + [] == h.trace;
    } else {
      var n := |es| - 1;
      SettledSteps(h, es[..n], k, fold);
      MadeOne(h, es, n);
      assert es[..n + 1] == es;
      if n == 0 {
        assert Made(h, es[..0]) == h by {
          assert h.trace + [] == h.trace;
        }
      }
      SettledStep(Made(h, es[..n]), es[n], k, fold);
    }
  }

  /** Only the first effect past the opening can be a question, and then its key is not remembered. */
  lemma {:induction false} QuestionFirst(s: State, c: Call, i: nat, k: string, fold: Folding)
    requires i < |Back(s, c, fold)| && Asks(Back(s, c, fold)[i], k, fold)
    ensures i == 0 && k !in Approved(s.ledger, fold)
  {
    hide ApprovalKey, Approved, MatchingGrant, IdempotencyKey, Commit;
    if EarlyRefusal(c).None? {
      var (asked, granted) := Permission(s, c, fold);
      CommitOnly(s, c, fold);
      if i >= |asked| {
        assert false;
      }
    }
  }

  lemma {:induction false} BackSettled(h: History, c: Call, n: nat, k: string, fold: Folding)
    requires Settled(h, k, fold)
    ensures Settled(Made(h, Take(Back(h.s, c, fold), n)), k, fold)
  {
    hide Settled, Asks, Back, Approved;
    var made := Take(Back(h.s, c, fold), n);
    forall i | 0 <= i < |made| && Asks(made[i], k, fold)
      ensures i == 0 && k !in Approved(h.s.ledger, fold)
    {
      QuestionFirst(h.s, c, i, k, fold);
    }
    SettledSteps(h, made, k, fold);
  }

  lemma {:induction false} CallSettled(h: History, c: Call, lived: nat, k: string, fold: Folding)
    requires Settled(h, k, fold)
    ensures Settled(Made(h, Take(Effects(h.s, c, fold), lived)), k, fold)
  {
    hide Settled, Effects, Front, Back, Made, Take, Approved, ApprovalKey;
    CallSplits(h, c, lived, fold);
    FrontOnly(c);
    if lived <= |Front(c)| {
      TakeIn(Front(c), lived);
      SettledSteps(h, Take(Front(c), lived), k, fold);
    } else {
      SettledSteps(h, Front(c), k, fold);
      BackSettled(Made(h, Front(c)), c, lived - |Front(c)|, k, fold);
    }
  }

  lemma {:induction false} RunSettled(steps: seq<Step>, k: string, fold: Folding)
    ensures Settled(Run(steps, fold), k, fold)
  {
    hide Honours, Asks, Effects, ApprovalKey, Remembers;
    if steps != [] {
      var front, last := steps[..|steps| - 1], steps[|steps| - 1];
      RunSettled(front, k, fold);
      var h := Run(front, fold);
      match last
      case Gated(c, lived) => CallSettled(h, c, lived, k, fold);
      case Journal(_) =>
      case Noted(event) => ApprovedOne(h.s.ledger, event, fold);
    }
  }

  /** In every run, grants or not: once a yes for a key is on the ledger, that key is never asked again. */
  lemma {:induction false} NeverAskedAgain(steps: seq<Step>, i: nat, j: nat, k: string, fold: Folding)
    requires i < j < |Run(steps, fold).trace|
    requires Honours(Run(steps, fold).trace[i], k, fold)
    ensures !Asks(Run(steps, fold).trace[j], k, fold)
  {
    RunSettled(steps, k, fold);
  }

  // ----- what a call adds to the remembered set

  /** The keys that the rows among these effects make later calls honour. */
  function Added(es: seq<Effect>, fold: Folding): set<string> {
    if es == [] then {}
    else
      var last := es[|es| - 1];
      Added(es[..|es| - 1], fold)
      + if last.Append? && Remembers(last.event) then {ApprovalKey(last.event.payload.value, fold)} else {}
  }

  lemma {:induction false} AddedExactly(s: State, es: seq<Effect>, fold: Folding)
    ensures Approved(ApplyAll(s, es).ledger, fold) == Approved(s.ledger, fold) + Added(es, fold)
  {
    hide ApprovalKey, Remembers;
    if es != [] {
      var n := |es| - 1;
      AddedExactly(s, es[..n], fold);
      var t := ApplyAll(s, es[..n]);
      if es[n].Append? {
        ApprovedOne(t.ledger, es[n].event, fold);
      }
    }
  }

  predicate AddsNothing(e: Effect) {
    e.Append? ==> !Remembers(e.event)
  }

  lemma {:induction false} NothingAdded(es: seq<Effect>, fold: Folding)
    requires forall e :: e in es ==> AddsNothing(e)
    ensures Added(es, fold) == {}
  {
    if es != [] {
      NothingAdded(es[..|es| - 1], fold);
      assert es[|es| - 1] in es;
    }
  }

  lemma {:induction false} DetailsDiffer(id: string)
    ensures AUTO != BY_USER && AUTO != REMEMBERED
    ensures "approved by grant " + id != BY_USER && "approved by grant " + id != REMEMBERED
  {
    assert AUTO[0] == 'a' && AUTO[1] == 'u' && BY_USER[1] == 'p' && REMEMBERED[1] == 'p';
    assert BY_USER[12] == 'u' && ("approved by grant " + id)[12] == 'g';
    assert REMEMBERED[8] == ' ' && REMEMBERED[9] == 'r' && ("approved by grant " + id)[9] == 'b';
  }

  lemma {:induction false} AutoRows(s: State, c: Call, e: Effect, fold: Folding)
    requires c.policy == Auto && e in Effects(s, c, fold)
    ensures AddsNothing(e)
  {
    hide Front, Permission, Commit, AddsNothing;
    FrontAddsNothing(c);
    AutoPermission(s, c, fold);
    AutoCommit(s, c, fold);
    RefusalAddsNothing();
  }

  lemma {:induction false} RefusalAddsNothing()
    ensures forall d :: AddsNothing(Refusal(d))
  {}

  lemma {:induction false} AutoPermission(s: State, c: Call, fold: Folding)
    requires c.policy == Auto
    ensures forall e :: e in Permission(s, c, fold).0 ==> AddsNothing(e)
  {
    hide MatchingGrant, Names;
    var grant := MatchingGrant(c.grants, c.identity, c.authorization, c.now, fold);
    DetailsDiffer(if grant.Some? then grant.value.id else "");
  }

  lemma {:induction false} AutoCommit(s: State, c: Call, fold: Folding)
    requires c.policy == Auto
    ensures forall e :: e in Commit(s, c, fold) ==> AddsNothing(e)
  {
    hide IdempotencyKey, Names;
    DetailsDiffer("");
  }

  /** An act made on the automatic policy, even one under a grant, makes no later call skip the question. */
  lemma {:induction false} AutoAddsNothing(s: State, c: Call, lived: nat, fold: Folding)
    requires c.policy == Auto
    ensures Approved(ApplyAll(s, Take(Effects(s, c, fold), lived)).ledger, fold) == Approved(s.ledger, fold)
  {
    hide Effects, Approved, AddsNothing;
    var es := Take(Effects(s, c, fold), lived);
    forall e | e in es
      ensures AddsNothing(e)
    {
      AutoRows(s, c, e, fold);
    }
    NothingAdded(es, fold);
    AddedExactly(s, es, fold);
  }

  /**
    Under "ask" a granted act is logged as the user's, without its spec: it is honoured later for
    calls that carry no spec, though nobody was asked. This is all it adds.
  */
  lemma {:induction false} GrantedActRemembered(s: State, c: Call, fold: Folding)
    requires c.policy == Ask && Act(c) in Effects(s, c, fold)
    requires MatchingGrant(c.grants, c.identity, c.authorization, c.now, fold).Some?
    ensures forall e :: e in Effects(s, c, fold) ==> !e.AskOperator?
    ensures Approved(ApplyAll(s, Effects(s, c, fold)).ledger, fold)
            == Approved(s.ledger, fold)
               + if c.actOk && Names(c.identity.value)
                 then {ApprovalKey(c.identity.value.(specHash := None), fold)}
                 else {}
  {
    hide MatchingGrant, Front, Permission, Commit, Approved, ApprovalKey, Names, AddsNothing, Effects;
    var es := Effects(s, c, fold);
    AddedExactly(s, es, fold);
    GrantedEffects(s, c, fold);
    NothingAdded(es[..|es| - 1], fold);
    GrantNeedsName(c, fold);
    DetailsDiffer("");
    SpecApart(c.identity.value);
  }

  /** Of the rows a granted act leaves, only its last can be honoured later. */
  lemma {:induction false} GrantedEffects(s: State, c: Call, fold: Folding)
    requires Act(c) in Effects(s, c, fold)
    requires MatchingGrant(c.grants, c.identity, c.authorization, c.now, fold).Some?
    ensures var es := Effects(s, c, fold);
            && (forall e :: e in es ==> !e.AskOperator?)
            && es[|es| - 1] == Append(ActedEvent(c))
            && (forall e :: e in es[..|es| - 1] ==> AddsNothing(e))
  {
    hide MatchingGrant, Front, Permission, Commit, AddsNothing, ActedEvent;
    FrontOnly(c);
    FrontAddsNothing(c);
    PermissionOnly(s, c, fold);
    CommitOnly(s, c, fold);
    var es := Effects(s, c, fold);
    var (asked, granted) := Permission(s, c, fold);
    var last := Commit(s, c, fold);
    assert Act(c) in last;
    GrantedPermission(s, c, fold);
    CommitEnds(s, c, fold);
    assert es == Front(c) + asked + last;
    assert es[..|es| - 1] == Front(c) + asked + last[..|last| - 1];
  }

  lemma {:induction false} FrontAddsNothing(c: Call)
    ensures forall e :: e in Front(c) ==> AddsNothing(e)
  {
    FrontIdle(c);
  }

  lemma {:induction false} GrantedPermission(s: State, c: Call, fold: Folding)
    requires MatchingGrant(c.grants, c.identity, c.authorization, c.now, fold).Some?
    ensures forall e :: e in Permission(s, c, fold).0 ==> !e.AskOperator? && AddsNothing(e)
  {
    hide MatchingGrant, Names;
    DetailsDiffer(MatchingGrant(c.grants, c.identity, c.authorization, c.now, fold).value.id);
  }

  lemma {:induction false} CommitEnds(s: State, c: Call, fold: Folding)
    requires Act(c) in Commit(s, c, fold)
    ensures var es := Commit(s, c, fold);
            && es[|es| - 1] == Append(ActedEvent(c))
            && (forall e :: e in es[..|es| - 1] ==> AddsNothing(e))
  {
    hide IdempotencyKey;
  }

  lemma {:induction false} GrantNeedsName(c: Call, fold: Folding)
    ensures MatchingGrant(c.grants, c.identity, c.authorization, c.now, fold).Some? ==> c.identity.Some?
  {}

  lemma {:induction false} SpecApart(id: Identity)
    ensures Names(id) <==> Names(id.(specHash := None))
  {}
}
