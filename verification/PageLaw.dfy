/**
  What the model is shown of a page, in the fields of its controls (src/core/diff.ts): which controls
  get the slots, and which changes of a control's identity are reported.
*/
module PageLaw {
  import opened Common
  import opened Controls
  import opened Delta

  // ----- which controls get the slots

  /** Losing one of these makes a form unfillable. */
  predicate Urgent(c: Control) {
    c.required || c.role == "textbox" || c.inputType in {Some("textarea"), Some("contenteditable")}
  }

  /** With a dialog open, only what is in a dialog competes. */
  predicate Competes(cs: seq<Control>, c: Control) {
    c in cs && ((exists d :: d in cs && d.dialog) ==> c.dialog)
  }

  function Competitors(cs: seq<Control>): set<Control> {
    set c | c in cs && Competes(cs, c)
  }

  /** Of the same urgency, novelty and kind. */
  predicate SameBand(a: Control, b: Control) {
    && (Urgent(a) <==> Urgent(b))
    && (!Urgent(a) ==> a.newLayer == b.newLayer && (!a.newLayer ==> a.chrome == b.chrome))
  }

  lemma {:induction false} PoolCompetes(cs: seq<Control>)
    ensures forall c :: c in Pool(cs) <==> Competes(cs, c)
  {
    var ds := Keep(cs, InDialog);
    if ds != [] {
      assert ds[0] in ds;
    }
    if d :| d in cs && d.dialog {
      assert d in ds;
    }
  }

  lemma {:induction false} PoolSize(cs: seq<Control>)
    requires Distinct(cs)
    ensures |Pool(cs)| == |Competitors(cs)|
  {
    PoolCompetes(cs);
    var set' := Competitors(cs);
    KeepSize(cs, set');
    if Pool(cs) == cs {
      KeepAll(cs, c => c in set');
    } else {
      KeepSame(cs, InDialog, c => c in set');
    }
  }

  /** As many competing controls are chosen as fit. */
  lemma {:induction false} ChoosesCompetitors(cs: seq<Control>, limit: nat)
    requires Distinct(cs)
    ensures var r := ChooseControls(cs, limit);
            && |r| == (if limit <= |Competitors(cs)| then limit else |Competitors(cs)|)
            && (forall c :: c in r ==> Competes(cs, c))
            && (forall i, j :: 0 <= i < j < |r| ==> r[i] != r[j])
  {
    hide ChooseControls, Before, Competes;
    ChooseIsBest(cs, limit);
    PoolCompetes(cs);
    PoolSize(cs);
  }

  /**
    None is chosen before a more urgent one, none that was there before one that just appeared, no
    furniture before content, and within a band none before one that stands earlier.
  */
  lemma {:induction false} ChoosesByBand(cs: seq<Control>, limit: nat, a: Control, b: Control)
    requires Distinct(cs)
    requires a in ChooseControls(cs, limit) && Competes(cs, b) && b !in ChooseControls(cs, limit)
    ensures Urgent(b) ==> Urgent(a)
    ensures b.newLayer ==> Urgent(a) || a.newLayer
    ensures !b.chrome ==> Urgent(a) || a.newLayer || !a.chrome
    ensures SameBand(a, b) ==> exists i, j :: 0 <= i < j < |cs| && cs[i] == a && cs[j] == b
  {
    assert Precedes(Pool(cs), a, b) by {
      hide ChooseControls, Before, Precedes, Competes, Pool;
      ChooseIsBest(cs, limit);
      PoolCompetes(cs);
    }
    hide ChooseControls, Before, Competes, Pool;
    if SameBand(a, b) {
      PoolOrder(cs, a, b);
    }
  }

  lemma {:induction false} PoolOrder(cs: seq<Control>, a: Control, b: Control)
    requires Before(Pool(cs), a, b)
    ensures exists i, j :: 0 <= i < j < |cs| && cs[i] == a && cs[j] == b
  {
    if Pool(cs) != cs {
      KeepOrder(cs, InDialog, a, b);
    }
    assert Before(cs, a, b);
  }

  /** A page is cut to eighty controls, and said to be cut exactly when some control is missing. */
  lemma {:induction false} CutsPage(cs: seq<Control>)
    requires Distinct(cs)
    ensures var (shown, cut) := CompactControls(cs);
            && |shown| <= 80
            && (|Competitors(cs)| <= 80 ==> forall c :: c in shown <==> Competes(cs, c))
            && (cut <==> exists c :: c in cs && c !in shown)
    ensures |ChooseControls(CompactControls(cs).0, MAX_WIRE_CONTROLS)| <= 40
  {
    ChoosesCompetitors(cs, MAX_CONTROLS);
    var chosen := ChooseControls(cs, MAX_CONTROLS);
    PoolCompetes(cs);
    PoolSize(cs);
    WholeOrNot(cs, chosen);
    WireSelection(cs);
    ChoosesCompetitors(cs, MAX_WIRE_CONTROLS);
    if |Competitors(cs)| <= 80 {
      SetSize(chosen);
      var kept := set c | c in chosen;
      assert kept <= Competitors(cs);
      Smaller(kept, Competitors(cs));
      assert forall c :: Competes(cs, c) ==> c in Competitors(cs);
    }
  }

  /** What is listed once each and lies within a list is all of it exactly when it is as long. */
  lemma {:induction false} WholeOrNot(cs: seq<Control>, part: seq<Control>)
    requires Distinct(cs) && Distinct(part) && forall c :: c in part ==> c in cs
    ensures |part| <= |cs| && (|part| == |cs| <==> forall c :: c in cs ==> c in part)
  {
    var all, some := set c | c in cs, set c | c in part;
    SetSize(cs);
    SetSize(part);
    SubsetSize(some, all);
    if |part| == |cs| {
      Smaller(some, all);
      assert forall c :: c in cs ==> c in all;
    }
    if forall c :: c in cs ==> c in part {
      assert some == all;
    }
  }

  lemma {:induction false} SetSize(cs: seq<Control>)
    requires Distinct(cs)
    ensures |set c | c in cs| == |cs|
  {
    if cs != [] {
      var n := |cs| - 1;
      SetSize(cs[..n]);
      assert (set c | c in cs) == (set c | c in cs[..n]) + {cs[n]};
    }
  }

  // ----- which control a row is

  /** The address that tells links apart; an empty one does not count. */
  function Address(c: Control): string {
    if c.href.None? then "" else c.href.value
  }

  lemma {:induction false} SuffixSame(a: string, b: string, x: string)
    ensures a + x == b + x <==> a == b
  {
    if a + x == b + x {
      assert |a| == |b|;
      assert a == (a + x)[..|a|] && b == (b + x)[..|b|];
    }
  }

  lemma {:induction false} PrefixSame(x: string, a: string, b: string)
    ensures x + a == x + b <==> a == b
  {
    if x + a == x + b {
      assert a == (x + a)[|x|..] && b == (x + b)[|x|..];
    }
  }

  /** A control altered in its role, its name or its address alone is another one to the delta. */
  lemma {:induction false} OneFieldApart(c: Control, d: Control)
    requires || (c.role != d.role && c.name == d.name && Address(c) == Address(d))
             || (c.role == d.role && c.name != d.name && Address(c) == Address(d))
             || (c.role == d.role && c.name == d.name && Address(c) != Address(d))
    ensures Base(c) != Base(d)
  {
    var x := if Address(c) != "" then ":" + Address(c) else "";
    var y := if Address(d) != "" then ":" + Address(d) else "";
    assert Base(c) == c.role + ":" + c.name + x && Base(d) == d.role + ":" + d.name + y;
    if Address(c) != Address(d) {
      PrefixSame(c.role + ":" + c.name, x, y);
      PrefixSame(":", Address(c), Address(d));
    } else {
      SuffixSame(c.role + ":" + c.name, d.role + ":" + d.name, x);
      PrefixSame(c.role + ":", c.name, d.name);
      SuffixSame(c.role, d.role, ":" + c.name);
      assert c.role + (":" + c.name) == c.role + ":" + c.name && d.role + (":" + c.name) == d.role + ":" + c.name;
    }
  }

  lemma {:induction false} CountReplaced(cs: seq<Control>, i: nat, c: Control, base: string)
    requires i < |cs|
    ensures Count(cs[i := c], base)
            == Count(cs, base) - (if Base(cs[i]) == base then 1 else 0) + (if Base(c) == base then 1 else 0)
  {
    hide Base;
    var n := |cs| - 1;
    var next := cs[i := c];
    if i == n {
      assert next[..n] == cs[..n];
    } else {
      CountReplaced(cs[..n], i, c, base);
      assert next[..n] == cs[..n][i := c];
    }
  }

  /** Where keys tell rows apart, a row that becomes another control is always reported. */
  lemma {:induction false} ReplacedRowSeen(cs: seq<Control>, i: nat, c: Control)
    requires i < |cs| && Base(c) != Base(cs[i])
    requires !Aliased(cs) && !Aliased(cs[i := c]) && Unambiguous(cs, cs[i := c])
    ensures !NoDifference(Keyed(cs), Keyed(cs[i := c]))
  {
    hide Base, Aliased, Unambiguous, Covers, NoDifference, Keyed;
    var next := cs[i := c];
    DeltaComplete(cs, next);
    if Covers(cs, next) {
      CoveredCounts(cs, next, Base(cs[i]));
      CountReplaced(cs, i, c, Base(cs[i]));
    }
  }

  /** In particular one whose role, name or address alone has changed. */
  lemma {:induction false} AlteredIdentitySeen(cs: seq<Control>, i: nat, c: Control)
    requires i < |cs|
    requires || (c == cs[i].(role := c.role) && c.role != cs[i].role)
             || (c == cs[i].(name := c.name) && c.name != cs[i].name)
             || (c == cs[i].(href := c.href) && Address(c) != Address(cs[i]))
    requires !Aliased(cs) && !Aliased(cs[i := c]) && Unambiguous(cs, cs[i := c])
    ensures !NoDifference(Keyed(cs), Keyed(cs[i := c]))
  {
    hide Aliased, Unambiguous, NoDifference, Keyed, Base;
    OneFieldApart(c, cs[i]);
    ReplacedRowSeen(cs, i, c);
  }
}
