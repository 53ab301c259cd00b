/**
  The commit gate (src/core/gate.ts) with the idempotency claim (src/core/state.ts) as the job
  runner wires it. A gated call is a sequence of effects; the process may die between any two.
  How an act is classified, what the page shows and what the operator says are parts of the call.
*/
module Gate {
  import opened Common
  import opened Approvals

  datatype Policy = Auto | Ask | Never

  datatype Grant = Grant(
    id: string, specHash: string, host: string, authorization: string,
    controlKind: string, controlName: string, remaining: int, expiresAt: Option<int>)

  datatype Call = Call(
    restoring: bool,                   // the request is to restore the page, not to act on it
    checkpoint: bool,                  // checkpoints are wired in
    loads: bool,                       // and the latest one can be loaded and put back
    saves: bool,                       // the act would discard page state, so it is saved first
    expectFailed: bool,                // an exploring act that promised something and broke the promise
    identity: Option<Identity>,        // absent when the control has no name
    fallback: string,                  // names the act when there is no identity
    forbidden: bool,                   // the envelope never pre-approves this category
    authorized: bool,                  // the act leaves this session
    precondition: Option<bool>,        // what the live page says, if anything is required
    policy: Policy,
    authorization: string,
    grants: seq<Grant>,
    now: int,
    operator: bool,                    // the answer, should the operator be asked
    claims: bool,                      // an idempotency claim is wired in
    actOk: bool)                       // whether the act, once made, worked

  const MAX_KEYS := 500

  /** What survives the process: the ledger, the entity's consumed keys, and its journal's verdict. */
  datatype State = State(ledger: seq<Event>, consumed: seq<string>, verified: bool)

  datatype Effect =
    | Append(event: Event)
    | UseGrant(id: string, identity: Option<Identity>)
    | AskOperator(identity: Option<Identity>, yes: bool)
    | Prepare(key: string)             // the entity's journal says that the act is about to be made
    | Consume(key: string)
    | Act(call: Call)
    | SaveCheckpoint
    | Explore(call: Call)              // an act that stays within this session
    | Restore

  // ----- pure parts

  predicate GrantCovers(g: Grant, id: Identity, authorization: string, now: int, fold: Folding) {
    && g.remaining > 0
    && (g.expiresAt.Some? ==> g.expiresAt.value > now)
    && (g.specHash != "" && id.specHash.GetOr("") != "" ==> g.specHash == id.specHash.value)
    && (g.host == "*" || g.host == id.host)
    && g.authorization == authorization
    && (g.controlKind != "" ==> g.controlKind == id.kind)
    && (g.controlName != "" ==> fold(g.controlName) == fold(id.name))
  }

  function MatchingGrant(grants: seq<Grant>, id: Option<Identity>, authorization: string, now: int, fold: Folding)
    : Option<Grant>
  {
    if grants == [] || id.None? then None
    else if GrantCovers(grants[0], id.value, authorization, now, fold) then Some(grants[0])
    else MatchingGrant(grants[1..], id, authorization, now, fold)
  }

  function IdempotencyKey(c: Call, fold: Folding): string {
    if c.identity.Some? then "commit:" + ApprovalKey(c.identity.value, fold) else "commit:" + c.fallback
  }

  function Remembered(s: State, c: Call, fold: Folding): bool {
    c.identity.Some? && ApprovalKey(c.identity.value, fold) in Approved(s.ledger, fold)
  }

  /** Rewriting the entity record keeps only its first 500 keys. */
  function Persisted(keys: seq<string>): seq<string> {
    if |keys| <= MAX_KEYS then keys else keys[..MAX_KEYS]
  }

  function Apply(s: State, e: Effect): State {
    match e
    case Append(event) => s.(ledger := s.ledger + [event])
    case Prepare(_) => s.(verified := false)
    case Consume(key) => s.(consumed := Persisted(s.consumed + [key]))
    case _ => s
  }

  function Refusal(detail: string): Effect {
    Append(Event(ApprovalEvent, false, detail, None))
  }

  /** The identity the last row of an act carries: everything but the spec. */
  function WithoutSpec(id: Option<Identity>): Option<Identity> {
    if id.Some? then Some(id.value.(specHash := None)) else None
  }

  function ActedEvent(c: Call): Event {
    Event(ApprovalEvent, c.actOk, if c.policy == Auto then AUTO else BY_USER, WithoutSpec(c.identity))
  }

  /** From the claim on. A verified journal refuses at once; a consumed key only after the journal was rewritten. */
  function Commit(s: State, c: Call, fold: Folding): seq<Effect> {
    var key := IdempotencyKey(c, fold);
    if !c.claims then [Act(c), Append(ActedEvent(c))]
    else if s.verified then [Refusal("duplicate_action")]
    else if key in s.consumed then [Prepare(key), Refusal("duplicate_action")]
    else [Prepare(key), Consume(key), Act(c), Append(ActedEvent(c))]
  }

  /** Why a consequential call is refused before anyone is asked. */
  function EarlyRefusal(c: Call): Option<string> {
    if c.precondition == Some(false) then Some("precondition failed")
    else if c.policy == Never then Some("policy forbids irreversible actions")
    else None
  }

  /** Obtaining permission: the effects, and whether it was obtained. */
  function Permission(s: State, c: Call, fold: Folding): (seq<Effect>, bool) {
    match MatchingGrant(c.grants, c.identity, c.authorization, c.now, fold)
    case Some(g) =>
      ([UseGrant(g.id, c.identity), Append(Event(ApprovalEvent, true, "approved by grant " + g.id, c.identity))], true)
    case None =>
      if c.policy != Ask || Remembered(s, c, fold) then ([], true)
      else if !c.operator then
        ([AskOperator(c.identity, false), Append(Event(ParkedEvent, false, "waiting for approval", None))], false)
      else if c.identity.None? then ([AskOperator(None, true)], true)
      else ([AskOperator(c.identity, true), Append(Event(ApprovalEvent, true, BY_USER, c.identity))], true)
  }

  function Opening(c: Call): seq<Effect> {
    if c.saves && c.checkpoint then [SaveCheckpoint] else []
  }

  function Exploring(c: Call): seq<Effect> {
    [Explore(c)] + if c.expectFailed && c.checkpoint && c.loads then [Restore] else []
  }

  /** The call is for an act that leaves this session. */
  predicate Reaches(c: Call) {
    !c.restoring && !c.forbidden && c.authorized
  }

  /** What a call does before any approval is at stake. */
  function Front(c: Call): seq<Effect> {
    if c.restoring then
      (if c.checkpoint && c.loads then [Restore, Append(Event(OtherEvent, true, "restored", None))] else [])
    else if c.forbidden then [Refusal("nondelegable")]
    else if c.authorized then Opening(c)
    else Opening(c) + Exploring(c)
  }

  /** From there on. */
  function Back(s: State, c: Call, fold: Folding): seq<Effect> {
    if !Reaches(c) then []
    else if EarlyRefusal(c).Some? then [Refusal(EarlyRefusal(c).value)]
    else
      var (asked, granted) := Permission(s, c, fold);
      asked + if granted then Commit(s, c, fold) else []
  }

  /** What one gated call does, if the process lives through it. */
  function Effects(s: State, c: Call, fold: Folding): seq<Effect> {
    Front(c) + Back(s, c, fold)
  }

  function ApplyAll(s: State, es: seq<Effect>): State {
    if es == [] then s else Apply(ApplyAll(s, es[..|es| - 1]), es[|es| - 1])
  }

  lemma {:induction false} ApplyConcat(s: State, a: seq<Effect>, b: seq<Effect>)
    ensures ApplyAll(s, a + b) == ApplyAll(ApplyAll(s, a), b)
  {
    if b == [] {
      assert a + b == a;
    } else {
      var n := |b| - 1;
      assert (a + b)[..|a + b| - 1] == a + b[..n];
      ApplyConcat(s, a, b[..n]);
    }
  }

  function Take<T>(xs: seq<T>, n: nat): seq<T> {
    if n <= |xs| then xs[..n] else xs
  }

  // ----- the gate at work

  datatype Outcome = Acted | Refused(code: string) | Parked | Explored | Restored

  class Gatekeeper {
    var ledger: seq<Event>
    var consumed: seq<string>
    var verified: bool
    var fuel: nat                 // effects the process still lives to make
    ghost var trace: seq<Effect>  // effects made so far
    const fold: Folding

    ghost function Now(): State
      reads this
    {
      State(ledger, consumed, verified)
    }

    constructor (fold: Folding)
      ensures Now() == State([], [], false) && trace == [] && this.fold == fold
    {
      ledger, consumed, verified, fuel, trace := [], [], false, 0, [];
      this.fold := fold;
    }

    /** This call has made the first of its effects, as many as the process lived to make. */
    ghost predicate Doing(s: State, made: seq<Effect>, budget: nat, es: seq<Effect>)
      reads this
    {
      && trace == made + Take(es, budget)
      && Now() == ApplyAll(s, Take(es, budget))
      && fuel == (if budget <= |es| then 0 else budget - |es|)
    }

    method Make(e: Effect)
      modifies this
      ensures old(fuel) == 0 ==> Now() == old(Now()) && trace == old(trace) && fuel == 0
      ensures old(fuel) > 0 ==>
                Now() == Apply(old(Now()), e) && trace == old(trace) + [e] && fuel == old(fuel) - 1
    {
      if fuel > 0 {
        match e {
          case Append(event) => ledger := ledger + [event];
          case Prepare(_) => verified := false;
          case Consume(key) => consumed := Persisted(consumed + [key]);
          case _ =>
        }
        trace := trace + [e];
        fuel := fuel - 1;
      }
    }

    /** Extends what this call has done by one effect. */
    method Next(e: Effect, ghost s: State, ghost made: seq<Effect>, ghost budget: nat, ghost es: seq<Effect>)
      requires Doing(s, made, budget, es)
      modifies this
      ensures Doing(s, made, budget, es + [e])
    {
      Make(e);
      if budget > |es| {
        assert Take(es + [e], budget) == es + [e];
        assert (es + [e])[..|es + [e]| - 1] == es;
        assert made + es + [e] == made + (es + [e]);
      } else {
        assert Take(es + [e], budget) == Take(es, budget);
      }
    }

    /** Looks for a grant, then for a remembered yes, then asks. */
    method Authorize(c: Call, ghost s: State, ghost made: seq<Effect>, ghost budget: nat, ghost es: seq<Effect>)
      returns (granted: bool)
      requires Doing(s, made, budget, es) && ledger == s.ledger
      modifies this
      ensures var (asked, yes) := Permission(s, c, fold);
              granted == yes && Doing(s, made, budget, es + asked)
    {
      hide ApplyAll, MatchingGrant, ApprovalKey, Approved, Names, Remembers, Take;
      assert es + [] == es;
      var grant := MatchingGrant(c.grants, c.identity, c.authorization, c.now, fold);
      if grant.Some? {
        var e1 := UseGrant(grant.value.id, c.identity);
        var e2 := Append(Event(ApprovalEvent, true, "approved by grant " + grant.value.id, c.identity));
        Both(e1, e2, s, made, budget, es);
        return true;
      }
      if c.policy != Ask { return true; }
      var keys := ApprovalsFromEvents(ledger, fold);
      if c.identity.Some? && ApprovalKey(c.identity.value, fold) in keys { return true; }
      if !c.operator {
        var parked := Append(Event(ParkedEvent, false, "waiting for approval", None));
        Both(AskOperator(c.identity, false), parked, s, made, budget, es);
        return false;
      }
      if c.identity.None? {
        Next(AskOperator(None, true), s, made, budget, es);
        return true;
      }
      var recorded := Append(Event(ApprovalEvent, true, BY_USER, c.identity));
      Both(AskOperator(c.identity, true), recorded, s, made, budget, es);
      return true;
    }

    method Both(e1: Effect, e2: Effect,
        ghost s: State, ghost made: seq<Effect>, ghost budget: nat, ghost es: seq<Effect>)
      requires Doing(s, made, budget, es)
      modifies this
      ensures Doing(s, made, budget, es + [e1, e2])
    {
      hide ApplyAll, Take;
      Next(e1, s, made, budget, es);
      Next(e2, s, made, budget, es + [e1]);
      assert es + [e1] + [e2] == es + [e1, e2];
    }

    lemma {:induction false} Idle()
      ensures Doing(Now(), trace, fuel, [])
    {
      assert Take<Effect>([], fuel) == [];
      assert trace + [] == trace;
    }

    /** The claim and, if it is won, the act. */
    method ClaimAndAct(c: Call, ghost s: State, ghost made: seq<Effect>, ghost budget: nat, ghost es: seq<Effect>)
      returns (acted: bool)
      requires Doing(s, made, budget, es) && consumed == s.consumed && verified == s.verified
      modifies this
      ensures Doing(s, made, budget, es + Commit(s, c, fold))
      ensures acted <==> Act(c) in Commit(s, c, fold)
    {
      hide ApplyAll, Take, ApprovalKey;
      var key := IdempotencyKey(c, fold);
      ghost var so := es;
      if c.claims {
        if verified {
          Next(Refusal("duplicate_action"), s, made, budget, es);
          return false;
        }
        // Nothing but the claim itself changes the keys, so they are read as they were found.
        var taken := key in consumed;
        Next(Prepare(key), s, made, budget, so);
        so := so + [Prepare(key)];
        if taken {
          Next(Refusal("duplicate_action"), s, made, budget, so);
          assert so + [Refusal("duplicate_action")] == es + Commit(s, c, fold);
          return false;
        }
        Next(Consume(key), s, made, budget, so);
        so := so + [Consume(key)];
      }
      Next(Act(c), s, made, budget, so);
      so := so + [Act(c)];
      Next(Append(ActedEvent(c)), s, made, budget, so);
      assert so + [Append(ActedEvent(c))] == es + Commit(s, c, fold);
      return true;
    }

    /** What comes before any approval is at stake: restoring, the envelope, the checkpoint, exploring. */
    method OpenCall(c: Call, ghost s: State, ghost made: seq<Effect>, ghost budget: nat)
      requires Doing(s, made, budget, [])
      modifies this
      ensures Doing(s, made, budget, Front(c))
    {
      hide ApplyAll, Take;
      if c.restoring {
        if c.checkpoint && c.loads {
          Both(Restore, Append(Event(OtherEvent, true, "restored", None)), s, made, budget, []);
          assert [] + [Restore, Append(Event(OtherEvent, true, "restored", None))] == Front(c);
        }
        return;
      }
      if c.forbidden {
        Next(Refusal("nondelegable"), s, made, budget, []);
        assert [] + [Refusal("nondelegable")] == Front(c);
        return;
      }
      ghost var so: seq<Effect> := [];
      if c.saves && c.checkpoint {
        Next(SaveCheckpoint, s, made, budget, so);
        so := so + [SaveCheckpoint];
      }
      assert so == Opening(c);
      if !c.authorized {
        Next(Explore(c), s, made, budget, so);
        so := so + [Explore(c)];
        if c.expectFailed && c.checkpoint && c.loads {
          Next(Restore, s, made, budget, so);
          so := so + [Restore];
        }
        assert so == Front(c);
      }
    }

    /**
      `guardedAct`. Whenever the process dies, what is stored is what a prefix of the effects
      leaves, where the effects are those decided on the state the call found.
    */
    method GuardedAct(c: Call) returns (outcome: Outcome)
      modifies this
      ensures Doing(old(Now()), old(trace), old(fuel), Effects(old(Now()), c, fold))
      ensures outcome.Acted? <==> Act(c) in Effects(old(Now()), c, fold)
      ensures outcome.Parked? <==> AskOperator(c.identity, false) in Effects(old(Now()), c, fold)
      ensures outcome.Explored? <==> Explore(c) in Effects(old(Now()), c, fold)
      ensures outcome.Restored? <==> c.restoring && c.checkpoint && c.loads
    {
      hide ApplyAll, Take, Permission, Commit;
      ghost var s, made, budget := Now(), trace, fuel;
      Idle();
      FrontOnly(c);
      PermissionOnly(s, c, fold);
      CommitOnly(s, c, fold);
      OpenCall(c, s, made, budget);
      ghost var so := Front(c);
      assert so + [] == so;
      if c.restoring { return if c.checkpoint && c.loads then Restored else Outcome.Refused("no_checkpoint"); }
      if c.forbidden { return Outcome.Refused("nondelegable"); }
      if !c.authorized { return Explored; }
      var refused := EarlyRefusal(c);
      if refused.Some? {
        Next(Refusal(refused.value), s, made, budget, so);
        return Outcome.Refused(refused.value);
      }
      OpeningKeeps(s, c, budget);
      var granted := Authorize(c, s, made, budget, so);
      ghost var asked := Permission(s, c, fold).0;
      if !granted {
        assert so + (asked + []) == so + asked;
        return Parked;
      }
      KeepsKeys(s, so + asked, budget);
      var acted := ClaimAndAct(c, s, made, budget, so + asked);
      assert so + (asked + Commit(s, c, fold)) == so + asked + Commit(s, c, fold);
      return if acted then Acted else Outcome.Refused("duplicate_action");
    }
  }

  /** Touches what a claim reads. */
  predicate TouchesKeys(e: Effect) {
    e.Consume? || e.Prepare?
  }

  /** What comes first neither asks, nor claims, nor makes a consequential act. */
  lemma {:induction false} FrontOnly(c: Call)
    ensures forall e :: e in Front(c) ==> !TouchesKeys(e) && !e.Act? && !e.AskOperator? && !e.UseGrant?
    ensures Explore(c) in Front(c) <==> !c.restoring && !c.forbidden && !c.authorized
  {}

  /** A saved checkpoint changes no record. */
  lemma {:induction false} OpeningKeeps(s: State, c: Call, budget: nat)
    requires Reaches(c)
    ensures ApplyAll(s, Take(Front(c), budget)) == s
  {
    var es := Take(Front(c), budget);
    if es != [] {
      assert es == [SaveCheckpoint] && es[..0] == [];
    }
  }

  /** Asking touches no keys and acts on nothing; it parks exactly when it does not obtain permission. */
  lemma {:induction false} PermissionOnly(s: State, c: Call, fold: Folding)
    ensures var (asked, granted) := Permission(s, c, fold);
            && (forall e :: e in asked ==> !TouchesKeys(e) && !e.Act? && !e.Explore?)
            && (AskOperator(c.identity, false) in asked <==> !granted)
  {
    hide MatchingGrant, ApprovalKey, Approved;
  }

  lemma {:induction false} CommitOnly(s: State, c: Call, fold: Folding)
    ensures forall e :: e in Commit(s, c, fold) ==> !e.AskOperator? && !e.UseGrant? && !e.Explore?
  {
    hide ApprovalKey;
  }

  lemma {:induction false} KeepsKeysAll(s: State, es: seq<Effect>)
    requires forall e :: e in es ==> !TouchesKeys(e)
    ensures ApplyAll(s, es).consumed == s.consumed && ApplyAll(s, es).verified == s.verified
  {
    if es != [] {
      KeepsKeysAll(s, es[..|es| - 1]);
      assert es[|es| - 1] in es;
    }
  }

  lemma {:induction false} KeepsKeys(s: State, es: seq<Effect>, budget: nat)
    requires forall e :: e in es ==> !TouchesKeys(e)
    ensures ApplyAll(s, Take(es, budget)).consumed == s.consumed
    ensures ApplyAll(s, Take(es, budget)).verified == s.verified
  {
    KeepsKeysAll(s, Take(es, budget));
  }
}
