/**
  Judging a page that may still be painting (src/core/settle.ts): a bounded loop of reads with
  growing pauses. The page is a parameter: what the n-th read would return or throw.
*/
module Settle {
  import opened Common

  /** A read that threw, or the page's facts and what the judge made of them. */
  datatype Reading =
    | Threw(error: string)
    | Facts(url: string, controls: nat, passed: bool)

  type Page = nat -> Reading

  datatype Until = Pass | Stable

  datatype Settled =
    | Settled(facts: Reading, waitedMs: nat, samples: nat)
    | Unread(error: string)

  const BACKOFF: seq<nat> := [100, 200, 400, 800]

  function Signature(facts: Reading): string
    requires facts.Facts?
  {
    facts.url + ([0 as char] + Decimal(facts.controls))
  }

  predicate Passed(page: Page, i: nat) {
    page(i).Facts? && page(i).passed
  }

  function Total(pauses: seq<nat>): nat {
    if pauses == [] then 0 else Total(pauses[..|pauses| - 1]) + pauses[|pauses| - 1]
  }

  /** Pausing after read i is no longer possible: the pauses are used up, or the next exceeds the budget. */
  predicate OutOfTime(i: nat, budgetMs: real) {
    i >= |BACKOFF| || Total(BACKOFF[..i + 1]) as real > budgetMs
  }

  /** Read i passed, and so did an earlier one since which none has; both saw the same address and painted controls. */
  ghost predicate Repeats(page: Page, i: nat) {
    && Passed(page, i) && page(i).controls > 0
    && exists j :: 0 <= j < i && Previous(page, j, i)
                   && page(j).url == page(i).url && page(j).controls == page(i).controls
  }

  /** Read j is the last passing one before read i. */
  ghost predicate Previous(page: Page, j: nat, i: nat) {
    j < i && Passed(page, j) && forall k: nat :: j < k < i ==> !Passed(page, k)
  }

  /** Read i settles the matter at once. */
  ghost predicate Settles(page: Page, i: nat, until: Until) {
    if until == Pass then Passed(page, i) else Repeats(page, i)
  }

  /** The loop ends with its n-th read, no sooner and no later. */
  ghost predicate EndsAfter(page: Page, n: nat, until: Until, budgetMs: real) {
    && n > 0
    && (Settles(page, n - 1, until) || OutOfTime(n - 1, budgetMs))
    && forall i :: 0 <= i < n - 1 ==> !Settles(page, i, until) && !OutOfTime(i, budgetMs)
  }

  function Served(page: Page, n: nat): nat {
    if n == 0 then 0 else Served(page, n - 1) + if page(n - 1).Facts? then 1 else 0
  }

  /** Read i is the last of the first n that was served. */
  ghost predicate Latest(page: Page, i: nat, n: nat) {
    i < n && page(i).Facts? && forall k: nat :: i < k < n ==> page(k).Threw?
  }

  lemma {:induction false} SeparatorFree(n: nat)
    ensures (0 as char) !in Decimal(n)
  {}

  lemma {:induction false} SignatureDecides(a: Reading, b: Reading)
    requires a.Facts? && b.Facts?
    ensures Signature(a) == Signature(b) <==> a.url == b.url && a.controls == b.controls
  {
    if Signature(a) == Signature(b) {
      SeparatorFree(a.controls);
      SeparatorFree(b.controls);
      var s, t := Signature(a), Signature(b);
      var x, y := Decimal(a.controls), Decimal(b.controls);
      assert s[|a.url|] == 0 as char && t[|b.url|] == 0 as char;
      assert s[|a.url| + 1..] == x && t[|b.url| + 1..] == y;
      assert |a.url| == |b.url|;
      assert s[..|a.url|] == a.url && t[..|b.url|] == b.url;
      DecimalInjective(a.controls, b.controls);
    }
  }

  /** What the loop knows before read i. */
  ghost predicate Remembered(page: Page, i: nat, until: Until, signature: Option<string>) {
    if until == Pass then signature.None? && forall k: nat :: k < i ==> !Passed(page, k)
    else if signature.None? then forall k: nat :: k < i ==> !Passed(page, k)
    else exists j :: 0 <= j < i && Previous(page, j, i) && Signature(page(j)) == signature.value
  }

  ghost predicate Kept(page: Page, i: nat, latest: Option<Reading>, lastError: string, samples: nat) {
    && samples == Served(page, i)
    && (latest.None? ==> forall k: nat :: k < i ==> page(k).Threw?)
    && (latest.Some? ==> exists k :: 0 <= k < i && Latest(page, k, i) && page(k) == latest.value)
    && (latest.None? && i > 0 ==> page(i - 1) == Threw(lastError))
  }

  lemma {:induction false} KeptStep(page: Page, i: nat, latest: Option<Reading>, lastError: string, samples: nat)
    requires Kept(page, i, latest, lastError, samples)
    ensures page(i).Facts? ==> Kept(page, i + 1, Some(page(i)), lastError, samples + 1)
    ensures page(i).Threw? ==> Kept(page, i + 1, latest, page(i).error, samples)
  {
    if page(i).Facts? {
      assert Latest(page, i, i + 1);
    } else if latest.Some? {
      var k :| 0 <= k < i && Latest(page, k, i) && page(k) == latest.value;
      assert Latest(page, k, i + 1);
    }
  }

  lemma {:induction false} PreviousUnique(page: Page, i: nat, j: nat, k: nat)
    requires Previous(page, j, i) && Previous(page, k, i)
    ensures j == k
  {}

  /** With a signature remembered, agreeing with it is what settles. */
  lemma {:induction false} AgreeingSettles(page: Page, i: nat, signature: Option<string>)
    requires Remembered(page, i, Stable, signature) && Passed(page, i)
    ensures Repeats(page, i) <==> signature == Some(Signature(page(i))) && page(i).controls > 0
  {
    if signature.Some? {
      var j :| 0 <= j < i && Previous(page, j, i) && Signature(page(j)) == signature.value;
      SignatureDecides(page(j), page(i));
      if Repeats(page, i) {
        var k :| 0 <= k < i && Previous(page, k, i)
                 && page(k).url == page(i).url && page(k).controls == page(i).controls;
        PreviousUnique(page, i, j, k);
      }
    }
  }

  lemma {:induction false} RememberedStep(page: Page, i: nat, until: Until, signature: Option<string>)
    requires Remembered(page, i, until, signature) && !(until == Pass && Passed(page, i))
    ensures Remembered(page, i + 1, until, if Passed(page, i) then Some(Signature(page(i))) else signature)
  {
    if Passed(page, i) {
      assert Previous(page, i, i + 1);
    } else if signature.Some? && until == Stable {
      var j :| 0 <= j < i && Previous(page, j, i) && Signature(page(j)) == signature.value;
      assert Previous(page, j, i + 1);
    }
  }

  lemma {:induction false} TotalStep(i: nat)
    requires i < |BACKOFF|
    ensures Total(BACKOFF[..i + 1]) == Total(BACKOFF[..i]) + BACKOFF[i]
  {
    assert BACKOFF[..i + 1][..i] == BACKOFF[..i];
  }

  method SettleVerification(page: Page, budgetMs: real, until: Until) returns (r: Settled, ghost n: nat)
    ensures EndsAfter(page, n, until, budgetMs) && n <= |BACKOFF| + 1
    ensures r.Unread? <==> forall i: nat :: i < n ==> page(i).Threw?
    ensures r.Unread? ==> page(n - 1) == Threw(r.error)
    ensures r.Settled? ==> exists i :: 0 <= i < n && Latest(page, i, n) && page(i) == r.facts
    ensures r.Settled? ==> r.samples == Served(page, n) && r.waitedMs == Total(BACKOFF[..n - 1])
    ensures r.Settled? ==> r.waitedMs == 0 || r.waitedMs as real <= budgetMs
  {
    hide Signature, Previous, Latest, Repeats, Total;
    var waitedMs: nat, samples: nat := 0, 0;
    var latest: Option<Reading>, lastError: string, previous: Option<string> := None, "", None;
    var attempt: nat := 0;
    assert Total(BACKOFF[..0]) == 0 by { TotalNone(); }
    while true
      invariant attempt <= |BACKOFF|
      invariant waitedMs == Total(BACKOFF[..attempt]) && (waitedMs == 0 || waitedMs as real <= budgetMs)
      invariant Kept(page, attempt, latest, lastError, samples)
      invariant Remembered(page, attempt, until, previous)
      invariant forall i :: 0 <= i < attempt ==> !Settles(page, i, until) && !OutOfTime(i, budgetMs)
      decreases |BACKOFF| - attempt
    {
      var reading := page(attempt);
      KeptStep(page, attempt, latest, lastError, samples);
      ghost var before := previous;
      match reading {
        case Threw(error) => lastError := error;
        case Facts(url, controls, passed) =>
          samples := samples + 1;
          latest := Some(reading);
          if passed {
            if until != Stable {
              break;
            }
            AgreeingSettles(page, attempt, previous);
            var signature := Signature(reading);
            var agreed := previous == Some(signature);
            previous := Some(signature);
            if agreed && controls > 0 {
              break;
            }
          }
      }
      RepeatsPasses(page, attempt);
      assert !Settles(page, attempt, until);
      RememberedStep(page, attempt, until, before);
      if attempt >= |BACKOFF| {
        break;
      }
      TotalStep(attempt);
      var pause := BACKOFF[attempt];
      if (waitedMs + pause) as real > budgetMs {
        break;
      }
      waitedMs := waitedMs + pause;
      attempt := attempt + 1;
    }
    n := attempt + 1;
    r := if latest.None? then Unread(lastError) else Settled(latest.value, waitedMs, samples);
    LatestServed(page, n);
  }

  lemma {:induction false} TotalNone()
    ensures Total(BACKOFF[..0]) == 0
  {}

  lemma {:induction false} RepeatsPasses(page: Page, i: nat)
    ensures Repeats(page, i) ==> Passed(page, i)
  {}

  lemma {:induction false} LatestServed(page: Page, n: nat)
    ensures forall i :: 0 <= i < n && Latest(page, i, n) ==> page(i).Facts?
  {}

  // ----- what the verdict means

  /** In "pass" mode the verdict is a pass exactly when some read passed. */
  lemma {:induction false} PassIffSomePassed(page: Page, n: nat, budgetMs: real, i: nat)
    requires EndsAfter(page, n, Pass, budgetMs) && Latest(page, i, n)
    ensures page(i).passed <==> exists k: nat :: k < n && Passed(page, k)
  {
    if k: nat :| k < n && Passed(page, k) {
      assert Settles(page, k, Pass);
      assert k == n - 1;
    }
    if page(i).passed {
      assert Passed(page, i);
    }
  }

  /** The default budget is exactly the four pauses; a smaller one is never overrun. */
  lemma {:induction false} DefaultBudget(i: nat, budgetMs: real)
    requires budgetMs >= 1500.0
    ensures Total(BACKOFF) == 1500
    ensures OutOfTime(i, budgetMs) <==> i >= 4
  {
    assert BACKOFF[..4] == BACKOFF;
    assert BACKOFF[..0] == [];
    TotalStep(0);
    TotalStep(1);
    TotalStep(2);
    TotalStep(3);
  }

  lemma {:induction false} ServedCounts(page: Page, n: nat)
    ensures Served(page, n) == |set i: nat | i < n && page(i).Facts?|
  {
    if n > 0 {
      ServedCounts(page, n - 1);
      var before, now := set i: nat | i < n - 1 && page(i).Facts?, set i: nat | i < n && page(i).Facts?;
      assert now == before + if page(n - 1).Facts? then {n - 1} else {};
    } else {
      assert (set i: nat | i < 0 && page(i).Facts?) == {};
    }
  }

  /** In "pass" mode a page that passes at once is read once. */
  lemma {:induction false} PassesAtOnce(page: Page, budgetMs: real)
    requires Passed(page, 0)
    ensures EndsAfter(page, 1, Pass, budgetMs)
  {}

  /** Within the default budget a wait ends before its fifth read only because a read settled it. */
  lemma {:induction false} DefaultReads(page: Page, n: nat, until: Until, budgetMs: real)
    requires budgetMs >= 1500.0 && EndsAfter(page, n, until, budgetMs)
    ensures n <= 5 && (Settles(page, n - 1, until) || n == 5)
    ensures forall i: nat :: i < n - 1 ==> !Settles(page, i, until)
  {
    hide Settles;
    DefaultBudget(n - 1, budgetMs);
    if n > 5 {
      DefaultBudget(4, budgetMs);
      assert false;
    }
  }

  /** The loop ends once, so what it reports is determined by the page. */
  lemma {:induction false} EndsOnce(page: Page, until: Until, budgetMs: real, m: nat, n: nat)
    requires EndsAfter(page, m, until, budgetMs) && EndsAfter(page, n, until, budgetMs)
    ensures m == n
  {}

  /**
    An exit of "stable" mode with time left: the last read passed, was painted, and agrees with the
    passing read before it.
  */
  lemma {:induction false} StableExit(page: Page, n: nat, budgetMs: real) returns (j: nat)
    requires EndsAfter(page, n, Stable, budgetMs) && !OutOfTime(n - 1, budgetMs)
    ensures Passed(page, n - 1) && page(n - 1).controls > 0 && Latest(page, n - 1, n)
    ensures Previous(page, j, n - 1) && page(j).url == page(n - 1).url && page(j).controls == page(n - 1).controls
  {
    j :| 0 <= j < n - 1 && Previous(page, j, n - 1)
         && page(j).url == page(n - 1).url && page(j).controls == page(n - 1).controls;
  }

  /**
    Of two passing reads in a row, whatever fails or throws in between, the second settles exactly
    if it agrees and is painted.
  */
  lemma {:induction false} InterruptedAgreement(page: Page, j: nat, i: nat, budgetMs: real)
    requires Previous(page, j, i) && Passed(page, i) && !OutOfTime(i, budgetMs)
    requires forall k :: 0 <= k < i ==> !Settles(page, k, Stable) && !OutOfTime(k, budgetMs)
    ensures EndsAfter(page, i + 1, Stable, budgetMs)
            <==> page(i).controls > 0 && page(j).url == page(i).url && page(j).controls == page(i).controls
  {
    if Repeats(page, i) {
      var k :| 0 <= k < i && Previous(page, k, i) && page(k).url == page(i).url && page(k).controls == page(i).controls;
      PreviousUnique(page, i, j, k);
    }
  }

  /** A page that stays empty is read until the time is up. */
  lemma {:induction false} EmptyWaitsOut(page: Page, n: nat, budgetMs: real)
    requires EndsAfter(page, n, Stable, budgetMs)
    requires forall k: nat :: k < n && Passed(page, k) ==> page(k).controls == 0
    ensures OutOfTime(n - 1, budgetMs)
  {
    if !OutOfTime(n - 1, budgetMs) {
      var j := StableExit(page, n, budgetMs);
    }
  }
}
