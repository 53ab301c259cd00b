/**
  What the gate asks of a grant, when it asks the operator, and when it takes two acts for the same, in
  the fields of grants and calls (src/core/gate.ts).
*/
module GateLaw {
  import opened Common
  import opened Approvals
  import opened Gate
  import opened GateRuns

  // ----- grants

  /** The grant has uses left, has not expired, and names this act in every part that it names. */
  predicate Pays(g: Grant, c: Call, who: Identity, fold: Folding) {
    && g.remaining > 0
    && (g.expiresAt.None? || c.now < g.expiresAt.value)
    && (g.host == who.host || g.host == "*")
    && g.authorization == c.authorization
    && (g.specHash == "" || who.specHash.None? || who.specHash.value == "" || who.specHash.value == g.specHash)
    && (g.controlKind == "" || who.kind == g.controlKind)
    && (g.controlName == "" || fold(who.name) == fold(g.controlName))
  }

  lemma {:induction false} MatchIs(grants: seq<Grant>, c: Call, fold: Folding)
    ensures var m := MatchingGrant(grants, c.identity, c.authorization, c.now, fold);
            && (m.Some? ==> c.identity.Some? && m.value in grants && Pays(m.value, c, c.identity.value, fold))
            && (m.None? && c.identity.Some? ==> forall g :: g in grants ==> !Pays(g, c, c.identity.value, fold))
  {
    if grants != [] {
      MatchIs(grants[1..], c, fold);
    }
  }

  /** A used grant is one of the call's, by its id, and pays for the act. */
  ghost predicate UsedByCall(e: Effect, c: Call, fold: Folding) {
    && e.UseGrant? && c.identity.Some? && e.identity == c.identity
    && exists g :: g in c.grants && g.id == e.id && Pays(g, c, c.identity.value, fold)
  }

  /** Every use of a grant among a call's effects is of one that pays for it. */
  lemma {:induction false} GrantsPay(s: State, c: Call, fold: Folding)
    ensures forall e :: e in Effects(s, c, fold) && e.UseGrant? ==> UsedByCall(e, c, fold)
  {
    MatchIs(c.grants, c, fold);
    FrontOnly(c);
    CommitOnly(s, c, fold);
    GrantInPermission(s, c, fold);
    hide MatchingGrant, Front, Permission, Commit, Pays;
  }

  lemma {:induction false} GrantInPermission(s: State, c: Call, fold: Folding)
    ensures forall e :: e in Permission(s, c, fold).0 && e.UseGrant? ==> UsedByCall(e, c, fold)
  {
    MatchIs(c.grants, c, fold);
    hide MatchingGrant, Pays, Remembered;
  }

  /** The call is for an act beyond this session that neither the page nor the policy forbids. */
  predicate AtStake(c: Call) {
    !c.restoring && !c.forbidden && c.authorized && c.precondition != Some(false) && c.policy != Never
  }

  /** With a grant that pays, nobody is asked and nothing is parked: a grant is used first. */
  lemma {:induction false} PaidIsNotAsked(s: State, c: Call, g: Grant, fold: Folding)
    requires AtStake(c) && c.identity.Some? && g in c.grants && Pays(g, c, c.identity.value, fold)
    ensures forall e :: e in Effects(s, c, fold) ==> !e.AskOperator?
    ensures exists e :: e in Effects(s, c, fold) && e.UseGrant?
  {
    MatchIs(c.grants, c, fold);
    var m := MatchingGrant(c.grants, c.identity, c.authorization, c.now, fold);
    FrontOnly(c);
    CommitOnly(s, c, fold);
    hide MatchingGrant, Front, Commit, Pays;
    var use := UseGrant(m.value.id, c.identity);
    assert Permission(s, c, fold).0[0] == use;
    assert Effects(s, c, fold)[|Front(c)|] == use;
  }

  /** Without one, under "ask", the operator is asked unless a yes is remembered, and only a yes lets the act by. */
  lemma {:induction false} UnpaidIsAsked(s: State, c: Call, fold: Folding)
    requires AtStake(c) && c.policy == Ask
    requires c.identity.Some? ==> forall g :: g in c.grants ==> !Pays(g, c, c.identity.value, fold)
    ensures !Remembered(s, c, fold) ==> AskOperator(c.identity, c.operator) in Effects(s, c, fold)
    ensures Remembered(s, c, fold) ==> forall e :: e in Effects(s, c, fold) ==> !e.AskOperator?
    ensures Act(c) in Effects(s, c, fold) ==> Remembered(s, c, fold) || c.operator
  {
    MatchIs(c.grants, c, fold);
    FrontOnly(c);
    CommitOnly(s, c, fold);
    PermissionOnly(s, c, fold);
    hide MatchingGrant, Front, Commit, Pays, Remembered;
    if !Remembered(s, c, fold) {
      assert Permission(s, c, fold).0[0] == AskOperator(c.identity, c.operator);
      assert Effects(s, c, fold)[|Front(c)|] == AskOperator(c.identity, c.operator);
    }
  }

  /** In every run a grant is used only by a call that carries it and that it pays for. */
  lemma {:induction false} RunGrantsPay(steps: seq<Step>, fold: Folding)
    ensures forall e :: e in Run(steps, fold).trace && e.UseGrant? ==>
              exists i :: 0 <= i < |steps| && steps[i].Gated? && UsedByCall(e, steps[i].c, fold)
  {
    hide UsedByCall, Effects;
    if steps != [] {
      var n := |steps| - 1;
      RunGrantsPay(steps[..n], fold);
      if steps[n].Gated? {
        var h := Run(steps[..n], fold);
        GrantsPay(h.s, steps[n].c, fold);
        TakeIn(Effects(h.s, steps[n].c, fold), steps[n].lived);
      }
      forall e | e in Run(steps, fold).trace && e.UseGrant?
        ensures exists i :: 0 <= i < |steps| && steps[i].Gated? && UsedByCall(e, steps[i].c, fold)
      {
        if e in Run(steps[..n], fold).trace {
          var i :| 0 <= i < n && steps[..n][i].Gated? && UsedByCall(e, steps[..n][i].c, fold);
          assert steps[i] == steps[..n][i];
        }
      }
    }
  }

  // ----- which acts are the same

  /** Both name the same control, rule and spec; or neither names one and they are written alike. */
  predicate SameAct(c: Call, d: Call, fold: Folding) {
    if c.identity.Some? && d.identity.Some? then
      var a, b := c.identity.value, d.identity.value;
      && a.host == b.host && a.kind == b.kind && fold(a.name) == fold(b.name) && a.ruleId == b.ruleId
      && (if a.specHash.None? then "" else a.specHash.value) == (if b.specHash.None? then "" else b.specHash.value)
    else c.identity.None? && d.identity.None? && c.fallback == d.fallback
  }

  /** Only a control's name holds the separator of the keys. */
  predicate Clear(c: Call) {
    if c.identity.Some? then Plain(c.identity.value) else SepFree(c.fallback)
  }

  /** Two acts share a claim exactly when they are the same. */
  lemma {:induction false} SameKeyIff(c: Call, d: Call, fold: Folding)
    requires Clear(c) && Clear(d)
    ensures IdempotencyKey(c, fold) == IdempotencyKey(d, fold) <==> SameAct(c, d, fold)
  {
    var x, y := IdempotencyKey(c, fold), IdempotencyKey(d, fold);
    var p := "commit:";
    if c.identity.Some? {
      KeyHasSep(c.identity.value, fold);
      assert x == p + ApprovalKey(c.identity.value, fold) && x[|p|..] == ApprovalKey(c.identity.value, fold);
    } else {
      assert x == p + c.fallback && x[|p|..] == c.fallback;
    }
    if d.identity.Some? {
      KeyHasSep(d.identity.value, fold);
      assert y == p + ApprovalKey(d.identity.value, fold) && y[|p|..] == ApprovalKey(d.identity.value, fold);
    } else {
      assert y == p + d.fallback && y[|p|..] == d.fallback;
    }
    if c.identity.Some? && d.identity.Some? {
      KeyDecides(c.identity.value, d.identity.value, fold);
    }
    hide ApprovalKey, IdempotencyKey, Plain;
  }

  lemma {:induction false} KeyHasSep(id: Identity, fold: Folding)
    ensures SEP in ApprovalKey(id, fold)
  {
    assert ApprovalKey(id, fold)[|id.host|] == SEP;
  }

  lemma {:induction false} ConsumedBy(s: State, es: seq<Effect>, key: string)
    requires key in ApplyAll(s, es).consumed
    ensures key in s.consumed || Consume(key) in es
  {
    if es != [] {
      var n := |es| - 1;
      if key in ApplyAll(s, es[..n]).consumed {
        ConsumedBy(s, es[..n], key);
      } else {
        assert es[n] == Consume(key);
      }
    }
  }

  lemma {:induction false} ClaimsOwnKey(s: State, c: Call, fold: Folding)
    ensures forall e :: e in Effects(s, c, fold) && e.Consume? ==> e.key == IdempotencyKey(c, fold)
  {
    FrontOnly(c);
    PermissionOnly(s, c, fold);
    CommitClaims(s, c, fold);
    hide Front, Permission, Commit, IdempotencyKey;
  }

  lemma {:induction false} CommitClaims(s: State, c: Call, fold: Folding)
    ensures forall e :: e in Commit(s, c, fold) && e.Consume? ==> e.key == IdempotencyKey(c, fold)
  {
    hide IdempotencyKey;
  }

  /** A key is held only because an earlier call claimed it for its own act. */
  lemma {:induction false} HeldWasClaimed(steps: seq<Step>, key: string, fold: Folding)
    requires key in Run(steps, fold).s.consumed
    ensures exists i :: 0 <= i < |steps| && steps[i].Gated? && IdempotencyKey(steps[i].c, fold) == key
  {
    hide Effects, IdempotencyKey;
    if steps != [] {
      var n := |steps| - 1;
      var h := Run(steps[..n], fold);
      if key in h.s.consumed {
        HeldWasClaimed(steps[..n], key, fold);
        var i :| 0 <= i < n && steps[..n][i].Gated? && IdempotencyKey(steps[..n][i].c, fold) == key;
        assert steps[i] == steps[..n][i];
      } else if steps[n].Gated? {
        var es := Effects(h.s, steps[n].c, fold);
        ConsumedBy(h.s, Take(es, steps[n].lived), key);
        TakeIn(es, steps[n].lived);
        ClaimsOwnKey(h.s, steps[n].c, fold);
      }
    }
  }

  /** An act that no earlier call of the run was for, once it has permission, is made: it is no duplicate. */
  lemma {:induction false} FreshActMade(steps: seq<Step>, c: Call, fold: Folding)
    requires Clear(c) && forall i :: 0 <= i < |steps| && steps[i].Gated? ==> Clear(steps[i].c)
    requires forall i :: 0 <= i < |steps| && steps[i].Gated? ==> !SameAct(steps[i].c, c, fold)
    requires var s := Run(steps, fold).s; AtStake(c) && Permission(s, c, fold).1 && !s.verified
    ensures Act(c) in Effects(Run(steps, fold).s, c, fold)
  {
    hide Run, Permission, IdempotencyKey, SameAct, Clear;
    var s := Run(steps, fold).s;
    var key := IdempotencyKey(c, fold);
    if key in s.consumed {
      HeldWasClaimed(steps, key, fold);
      var i :| 0 <= i < |steps| && steps[i].Gated? && IdempotencyKey(steps[i].c, fold) == key;
      SameKeyIff(steps[i].c, c, fold);
      assert false;
    }
    FrontOnly(c);
    hide Front;
    assert Act(c) in Commit(s, c, fold);
  }

  // ----- the whole of a call

  function Row(ok: bool, detail: string): Effect {
    Append(Event(ApprovalEvent, ok, detail, None))
  }

  /** A call that does not get as far as an act beyond this session. */
  lemma {:induction false} EarlyEnds(s: State, c: Call, fold: Folding)
    ensures c.restoring ==>
              Effects(s, c, fold) == if c.checkpoint && c.loads
                                     then [Restore, Append(Event(OtherEvent, true, "restored", None))] else []
    ensures !c.restoring && c.forbidden ==> Effects(s, c, fold) == [Row(false, "nondelegable")]
    ensures !c.restoring && !c.forbidden && !c.authorized ==>
              Effects(s, c, fold)
              == (if c.saves && c.checkpoint then [SaveCheckpoint] else []) + [Explore(c)]
                 + (if c.expectFailed && c.checkpoint && c.loads then [Restore] else [])
  {
    var first := if c.saves && c.checkpoint then [SaveCheckpoint] else [];
    var last := if c.expectFailed && c.checkpoint && c.loads then [Restore] else [];
    assert first + ([Explore(c)] + last) == first + [Explore(c)] + last;
    assert Front(c) + [] == Front(c);
  }

  /** What a refused consequential call leaves is one row that says why, behind the checkpoint it may have saved. */
  lemma {:induction false} RefusedEnds(s: State, c: Call, fold: Folding)
    requires !c.restoring && !c.forbidden && c.authorized && !AtStake(c)
    ensures Effects(s, c, fold)
            == (if c.saves && c.checkpoint then [SaveCheckpoint] else [])
               + [Row(false, if c.precondition == Some(false) then "precondition failed"
                             else "policy forbids irreversible actions")]
  {}

  /** The act, claimed right before it if the call claims, and its row behind it. */
  predicate EndsActed(es: seq<Effect>, c: Call, key: string) {
    && |es| > 1 && es[|es| - 2] == Act(c)
    && es[|es| - 1] == Append(Event(ApprovalEvent, c.actOk, if c.policy == Auto then AUTO else BY_USER,
                                    WithoutSpec(c.identity)))
    && (c.claims ==> |es| > 3 && es[|es| - 4..|es| - 2] == [Prepare(key), Consume(key)])
  }

  predicate EndsWith(es: seq<Effect>, e: Effect) {
    |es| > 0 && es[|es| - 1] == e
  }

  /** How a call at stake ends: parked, as a duplicate, or with the act and its row; the act comes after the rest. */
  lemma {:induction false} StakeEnds(s: State, c: Call, fold: Folding)
    requires AtStake(c)
    ensures var es, key, granted := Effects(s, c, fold), IdempotencyKey(c, fold), Permission(s, c, fold).1;
            && (Act(c) in es <==> granted && (c.claims ==> !s.verified && key !in s.consumed))
            && (Act(c) in es ==> EndsActed(es, c, key))
            && (granted && Act(c) !in es ==> EndsWith(es, Row(false, "duplicate_action")))
            && (!granted ==> EndsWith(es, Append(Event(ParkedEvent, false, "waiting for approval", None))))
  {
    FrontOnly(c);
    PermissionOnly(s, c, fold);
    hide Front, Permission, Commit, IdempotencyKey, EndsActed, EndsWith;
    var (asked, granted) := Permission(s, c, fold);
    if granted {
      CommitEndsWell(s, c, fold);
      var before, last := Front(c) + asked, Commit(s, c, fold);
      assert Effects(s, c, fold) == before + last by {
        assert Front(c) + (asked + last) == before + last;
      }
      EndOf(before, last, c, IdempotencyKey(c, fold), Row(false, "duplicate_action"));
      assert Act(c) !in before;
    } else {
      ParkedEnds(s, c, fold);
      assert Effects(s, c, fold) == Front(c) + asked by {
        assert asked + [] == asked;
      }
      EndOf(Front(c), asked, c, "", Append(Event(ParkedEvent, false, "waiting for approval", None)));
    }
  }

  lemma {:induction false} EndOf(a: seq<Effect>, b: seq<Effect>, c: Call, key: string, e: Effect)
    ensures EndsActed(b, c, key) ==> EndsActed(a + b, c, key)
    ensures EndsWith(b, e) ==> EndsWith(a + b, e)
  {
    if c.claims && |b| > 3 {
      assert (a + b)[|a + b| - 4..|a + b| - 2] == b[|b| - 4..|b| - 2];
    }
  }

  lemma {:induction false} ParkedEnds(s: State, c: Call, fold: Folding)
    ensures var (asked, granted) := Permission(s, c, fold);
            !granted ==> EndsWith(asked, Append(Event(ParkedEvent, false, "waiting for approval", None)))
  {
    hide MatchingGrant, Remembered;
  }

  lemma {:induction false} CommitEndsWell(s: State, c: Call, fold: Folding)
    ensures var es, key := Commit(s, c, fold), IdempotencyKey(c, fold);
            && (Act(c) in es <==> (c.claims ==> !s.verified && key !in s.consumed))
            && (Act(c) in es ==> EndsActed(es, c, key))
            && (Act(c) !in es ==> EndsWith(es, Row(false, "duplicate_action")))
  {
    hide IdempotencyKey;
  }

  // ----- a yes is asked for once

  /** What the operator says yes to is remembered, however the call goes on once the yes is recorded. */
  lemma {:induction false} YesIsRemembered(s: State, c: Call, fold: Folding)
    requires c.identity.Some? && Names(c.identity.value) && c.operator
    requires AskOperator(c.identity, true) in Effects(s, c, fold)
    ensures ApprovalKey(c.identity.value, fold) in Approved(ApplyAll(s, Effects(s, c, fold)).ledger, fold)
  {
    FrontOnly(c);
    CommitOnly(s, c, fold);
    var (asked, granted) := Permission(s, c, fold);
    assert AskOperator(c.identity, true) in asked by {
      hide Front, Permission, Commit;
    }
    var row := Append(Event(ApprovalEvent, true, BY_USER, c.identity));
    assert row in asked by {
      hide MatchingGrant, Remembered;
    }
    hide Front, Permission, Commit, ApprovalKey, Names;
    var es := Effects(s, c, fold);
    AddedExactly(s, es, fold);
    assert row in es;
    AddedHolds(es, row, fold);
  }

  lemma {:induction false} AddedHolds(es: seq<Effect>, row: Effect, fold: Folding)
    requires row in es && row.Append? && Remembers(row.event)
    ensures ApprovalKey(row.event.payload.value, fold) in Added(es, fold)
  {
    hide Remembers, ApprovalKey;
    var n := |es| - 1;
    if row != es[n] {
      AddedHolds(es[..n], row, fold);
    }
  }

  /** A row is honoured later when it records a yes, given or remembered, to a control named in all its parts. */
  lemma {:induction false} HonouredRow(e: Event)
    ensures Remembers(e) <==>
              && e.kind == ApprovalEvent && e.ok
              && (e.detail == "approved by user" || e.detail == "approval remembered")
              && e.payload.Some?
              && |e.payload.value.host| > 0 && |e.payload.value.kind| > 0 && |e.payload.value.name| > 0
              && |e.payload.value.ruleId| > 0
  {}
}
