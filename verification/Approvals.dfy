/** Operator approvals that stick (src/core/approvals.ts): keys, and the set read back from a ledger. */
module Approvals {
  import opened Common

  /** What the operator approved: a named control on a host, and the rule that classified the act. */
  datatype Identity = Identity(host: string, kind: string, name: string, ruleId: string, specHash: Option<string>)

  const SEP: char := 31 as char

  /** The host's name folding: white space collapsed, trimmed, lower case. */
  type Folding = string -> string

  function ApprovalKey(id: Identity, fold: Folding): string {
    id.host + [SEP] + (id.kind + [SEP] + (fold(id.name) + [SEP] + id.ruleId + [SEP] + id.specHash.GetOr("")))
  }

  predicate SepFree(s: string) {
    SEP !in s
  }

  /** Only the page's own text may hold the separator. */
  predicate Plain(id: Identity) {
    SepFree(id.host) && SepFree(id.kind) && SepFree(id.ruleId) && SepFree(id.specHash.GetOr(""))
  }

  lemma {:induction false} FirstField(a: string, x: string, b: string, y: string)
    requires SepFree(a) && SepFree(b)
    requires a + [SEP] + x == b + [SEP] + y
    ensures a == b && x == y
  {
    var s, t := a + [SEP] + x, b + [SEP] + y;
    FieldEnd(a, x, s);
    FieldEnd(b, y, t);
  }

  lemma {:induction false} FieldEnd(a: string, x: string, s: string)
    requires SepFree(a) && s == a + [SEP] + x
    ensures |a| < |s| && s[|a|] == SEP && s[..|a|] == a && s[|a| + 1..] == x
    ensures forall k :: 0 <= k < |a| ==> s[k] != SEP
  {
    forall k | 0 <= k < |a|
      ensures s[k] != SEP
    {
      assert s[k] == a[k];
    }
  }

  lemma {:induction false} LastField(x: string, a: string, y: string, b: string)
    requires SepFree(a) && SepFree(b)
    requires x + [SEP] + a == y + [SEP] + b
    ensures a == b && x == y
  {
    var s, t := x + [SEP] + a, y + [SEP] + b;
    FieldStart(x, a, s);
    FieldStart(y, b, t);
  }

  lemma {:induction false} FieldStart(x: string, a: string, s: string)
    requires SepFree(a) && s == x + [SEP] + a
    ensures |x| < |s| && s[|x|] == SEP && s[..|x|] == x && s[|x| + 1..] == a
    ensures forall k :: |x| < k < |s| ==> s[k] != SEP
  {
    forall k | |x| < k < |s|
      ensures s[k] != SEP
    {
      assert s[k] == a[k - |x| - 1];
    }
  }

  /** The same decision: host, kind, folded name and rule agree. */
  predicate SameTarget(a: Identity, b: Identity, fold: Folding) {
    a.host == b.host && a.kind == b.kind && fold(a.name) == fold(b.name) && a.ruleId == b.ruleId
  }

  /** Equal keys mean equal decisions, even when a page puts the separator into a control's name. */
  lemma {:induction false} KeyDecides(a: Identity, b: Identity, fold: Folding)
    requires Plain(a) && Plain(b)
    ensures ApprovalKey(a, fold) == ApprovalKey(b, fold)
            <==> SameTarget(a, b, fold) && a.specHash.GetOr("") == b.specHash.GetOr("")
  {
    if ApprovalKey(a, fold) == ApprovalKey(b, fold) {
      var x2, y2 := fold(a.name) + [SEP] + a.ruleId + [SEP] + a.specHash.GetOr(""),
                    fold(b.name) + [SEP] + b.ruleId + [SEP] + b.specHash.GetOr("");
      FirstField(a.host, a.kind + [SEP] + x2, b.host, b.kind + [SEP] + y2);
      FirstField(a.kind, x2, b.kind, y2);
      LastField(fold(a.name) + [SEP] + a.ruleId, a.specHash.GetOr(""),
                fold(b.name) + [SEP] + b.ruleId, b.specHash.GetOr(""));
      LastField(fold(a.name), a.ruleId, fold(b.name), b.ruleId);
    }
  }

  // ----- the ledger

  datatype EventType = ApprovalEvent | ParkedEvent | OtherEvent

  datatype Event = Event(kind: EventType, ok: bool, detail: string, payload: Option<Identity>)

  const BY_USER := "approved by user"
  const REMEMBERED := "approval remembered"
  const AUTO := "auto-approved"

  predicate IsStickyApproval(e: Event) {
    e.kind == ApprovalEvent && e.ok && (e.detail == BY_USER || e.detail == REMEMBERED)
  }

  /** A payload with an empty part names nothing. */
  predicate Names(id: Identity) {
    id.host != "" && id.kind != "" && id.name != "" && id.ruleId != ""
  }

  predicate Remembers(e: Event) {
    IsStickyApproval(e) && e.payload.Some? && Names(e.payload.value)
  }

  /** The keys a cold resume consults. */
  function Approved(events: seq<Event>, fold: Folding): set<string> {
    if events == [] then {}
    else
      var last := events[|events| - 1];
      Approved(events[..|events| - 1], fold)
      + (if Remembers(last) then {ApprovalKey(last.payload.value, fold)} else {})
  }

  method ApprovalsFromEvents(events: seq<Event>, fold: Folding) returns (keys: set<string>)
    ensures keys == Approved(events, fold)
    ensures forall k :: k in keys <==>
              exists i :: 0 <= i < |events| && Remembers(events[i]) && k == ApprovalKey(events[i].payload.value, fold)
  {
    keys := {};
    for i := 0 to |events|
      invariant keys == Approved(events[..i], fold)
    {
      if IsStickyApproval(events[i]) && events[i].payload.Some? && Names(events[i].payload.value) {
        keys := keys + {ApprovalKey(events[i].payload.value, fold)};
      }
      assert events[..i + 1][..i] == events[..i];
    }
    assert events[..|events|] == events;
    forall k
      ensures k in keys <==>
              exists i :: 0 <= i < |events| && Remembers(events[i]) && k == ApprovalKey(events[i].payload.value, fold)
    {
      ApprovedBy(events, fold, k);
    }
  }

  lemma {:induction false} ApprovedBy(events: seq<Event>, fold: Folding, k: string)
    ensures k in Approved(events, fold) <==>
            exists i :: 0 <= i < |events| && Remembers(events[i]) && k == ApprovalKey(events[i].payload.value, fold)
  {
    if events != [] {
      var front, n := events[..|events| - 1], |events| - 1;
      ApprovedBy(front, fold, k);
      if k in Approved(front, fold) {
        var i :| 0 <= i < |front| && Remembers(front[i]) && k == ApprovalKey(front[i].payload.value, fold);
        assert events[i] == front[i];
      }
      if i :| 0 <= i < |events| && Remembers(events[i]) && k == ApprovalKey(events[i].payload.value, fold) {
        if i < n {
          assert front[i] == events[i];
        }
      }
    }
  }
}
