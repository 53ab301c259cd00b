/**
  When a step of a page plan succeeds, in terms of what the page shows and answers at each moment
  (`runStep` of src/plan/interpret.ts).
*/
module StepLaw {
  import opened Common
  import opened PagePlan
  import opened Interpreter

  // ----- wait

  /** Pass `j` of the waiting loop, which starts at moment `t`, is begun before the deadline. */
  predicate Early(b: Behaviour, t: nat, deadline: int, j: nat) {
    b.clock(t + 2 * j) < deadline
  }

  /** What pass `j` sees. */
  predicate Seen(p: Predicate, b: Behaviour, t: nat, j: nat) {
    Holds(p, b, t + 2 * j + 1)
  }

  /** The loop ends with pass `i`: all earlier ones were begun in time and saw nothing. */
  ghost predicate WaitEnds(p: Predicate, deadline: int, b: Behaviour, s: State, r: Run, i: nat) {
    && (forall j: nat :: j < i ==> Early(b, s.t, deadline, j) && !Seen(p, b, s.t, j))
    && if Early(b, s.t, deadline, i) then r == Run(true, State(s.t + 2 * i + 1, s.acts, s.log)) && Seen(p, b, s.t, i)
       else r == Run(false, State(s.t + 2 * i, s.acts, s.log))
  }

  lemma {:induction false} WaitEndsAt(p: Predicate, deadline: int, b: Page, s: State) returns (i: nat)
    ensures WaitEnds(p, deadline, b, s, WaitRun(p, deadline, b, s), i)
    decreases deadline - b.clock(s.t)
  {
    hide Holds;
    i := 0;
    if b.clock(s.t) < deadline && !Holds(p, b, s.t + 1) {
      assert Ticks(b, s.t);
      var k := WaitEndsAt(p, deadline, b, s.Later(2));
      i := k + 1;
      forall j: nat | j < i
        ensures Early(b, s.t, deadline, j) && !Seen(p, b, s.t, j)
      {
        if j > 0 {
          assert Early(b, s.t + 2, deadline, j - 1) && !Seen(p, b, s.t + 2, j - 1);
        }
      }
      assert Early(b, s.t, deadline, i) == Early(b, s.t + 2, deadline, k);
      assert Seen(p, b, s.t, i) == Seen(p, b, s.t + 2, k);
    }
  }

  /** Some pass sees it, and this pass and all before it are begun in time. */
  ghost predicate SeenInTime(p: Predicate, b: Behaviour, t: nat, deadline: int) {
    exists i: nat :: Seen(p, b, t, i) && forall j: nat :: j <= i ==> Early(b, t, deadline, j)
  }

  /** A wait for something succeeds exactly when some pass sees it, begun in time like all before it. */
  lemma {:induction false} WaitsIff(ms: Option<int>, p: Predicate, timeoutMs: Option<int>, b: Page, s: State)
    ensures var deadline := b.clock(s.t) + if timeoutMs.None? then 3000 else timeoutMs.value;
            StepRun(Wait(ms, Some(p), timeoutMs), b, s).ok <==> SeenInTime(p, b, s.t, deadline)
  {
    hide Holds, WaitEnds;
    var deadline := b.clock(s.t) + timeoutMs.GetOr(3000);
    var i := WaitEndsAt(p, deadline, b, s);
    assert StepRun(Wait(ms, Some(p), timeoutMs), b, s) == WaitRun(p, deadline, b, s);
    FirstSeen(p, b, s, deadline, WaitRun(p, deadline, b, s), i);
  }

  lemma {:induction false} FirstSeen(p: Predicate, b: Behaviour, s: State, deadline: int, r: Run, i: nat)
    requires WaitEnds(p, deadline, b, s, r, i)
    ensures r.ok <==> SeenInTime(p, b, s.t, deadline)
  {
    if k: nat :| Seen(p, b, s.t, k) && forall j: nat :: j <= k ==> Early(b, s.t, deadline, j) {
      assert i <= k;
      assert Early(b, s.t, deadline, i);
    }
  }

  /** A wait for nothing always succeeds, and only lets a moment pass. */
  lemma {:induction false} PauseSucceeds(ms: Option<int>, timeoutMs: Option<int>, b: Page, s: State)
    ensures StepRun(Wait(ms, None, timeoutMs), b, s) == Run(true, State(s.t + 1, s.acts, s.log))
  {}

  // ----- scroll_until

  /** Scrolls asked for, six unless told otherwise, and never more than eight. */
  function Scrolls(maxScrolls: Option<int>): nat {
    var asked := if maxScrolls.None? then 6 else maxScrolls.value;
    if asked < 0 then 0 else if asked > 8 then 8 else asked
  }

  /** The scroll after inspection `j`, always downward, works. */
  predicate Moved(step: Step, b: Behaviour, t: nat, j: nat)
    requires step.ScrollUntil?
  {
    b.act(t + 2 * j + 1, Scroll(step.at, false, step.dy))
  }

  /** The loop ends with inspection `i`: all earlier ones saw nothing, and the scrolls after them worked. */
  ghost predicate ScrollEnds(step: Step, n: nat, b: Behaviour, s: State, r: Run, i: nat)
    requires step.ScrollUntil?
  {
    && i <= n
    && (forall j: nat :: j < i ==> !Seen(step.until, b, s.t, j) && Moved(step, b, s.t, j))
    && if Seen(step.until, b, s.t, i) then r == Run(true, State(s.t + 2 * i + 1, s.acts + i, s.log))
       else if i == n then r == Run(false, State(s.t + 2 * i + 1, s.acts + i, s.log))
       else r == Run(false, State(s.t + 2 * i + 2, s.acts + i + 1, s.log)) && !Moved(step, b, s.t, i)
  }

  lemma {:induction false} ScrollEndsAt(step: Step, from: nat, b: Page, s: State) returns (i: nat)
    requires step.ScrollUntil? && from <= Scrolls(step.maxScrolls)
    ensures ScrollEnds(step, Scrolls(step.maxScrolls) - from, b, s, ScrollRun(step, from, b, s), i)
    decreases Scrolls(step.maxScrolls) - from
  {
    hide Holds;
    i := 0;
    var n := Scrolls(step.maxScrolls);
    if !Holds(step.until, b, s.t + 1) && from < n && b.act(s.t + 1, Scroll(step.at, false, step.dy)) {
      var next := s.Later(1).Acted();
      var k := ScrollEndsAt(step, from + 1, b, next);
      i := k + 1;
      assert next == State(s.t + 2, s.acts + 1, s.log);
      assert Seen(step.until, b, s.t, i) == Seen(step.until, b, s.t + 2, k);
      assert Moved(step, b, s.t, i) == Moved(step, b, s.t + 2, k);
      forall j: nat | j < i
        ensures !Seen(step.until, b, s.t, j) && Moved(step, b, s.t, j)
      {
        if j > 0 {
          assert !Seen(step.until, b, s.t + 2, j - 1) && Moved(step, b, s.t + 2, j - 1);
        }
      }
    }
  }

  /** Scrolling succeeds exactly when some inspection finds what it looks for and every scroll before it works. */
  lemma {:induction false} ScrollsIff(step: Step, b: Page, s: State)
    requires step.ScrollUntil?
    ensures StepRun(step, b, s).ok <==>
              exists i: nat :: Seen(step.until, b, s.t, i) && i <= Scrolls(step.maxScrolls)
                               && forall j: nat :: j < i ==> Moved(step, b, s.t, j)
  {
    hide Holds, Seen, Moved, Scrolls;
    var i := ScrollEndsAt(step, 0, b, s);
  }

  // ----- click_first, and the rest

  /** Target `i` is the first that the page shows. */
  predicate FirstShown(targets: seq<Target>, b: Page, t: nat, i: nat) {
    && i < |targets| && b.resolve(t, targets[i]).Some?
    && forall j :: 0 <= j < i ==> b.resolve(t, targets[j]).None?
  }

  lemma {:induction false} FirstVisibleIs(targets: seq<Target>, b: Page, t: nat)
    ensures FirstVisible(targets, b, t).None? ==> forall i :: 0 <= i < |targets| ==> b.resolve(t, targets[i]).None?
    ensures FirstVisible(targets, b, t).Some? ==>
              exists i: nat :: FirstShown(targets, b, t, i) && FirstVisible(targets, b, t) == Some(targets[i])
  {
    if targets != [] {
      if b.resolve(t, targets[0]).Some? {
        assert FirstShown(targets, b, t, 0);
      } else {
        FirstVisibleIs(targets[1..], b, t);
        if FirstVisible(targets, b, t).Some? {
          var i: nat :| FirstShown(targets[1..], b, t, i) && FirstVisible(targets[1..], b, t) == Some(targets[1..][i]);
          assert FirstShown(targets, b, t, i + 1);
        }
      }
    }
  }

  /** Of several targets the first one shown is clicked, and it is what counts; with none shown nothing is clicked. */
  lemma {:induction false} ClicksFirst(targets: seq<Target>, b: Page, s: State)
    ensures (forall i :: 0 <= i < |targets| ==> b.resolve(s.t, targets[i]).None?) ==>
              StepRun(ClickFirst(targets), b, s) == Run(false, s)
    ensures forall i: nat :: FirstShown(targets, b, s.t, i) ==>
              StepRun(ClickFirst(targets), b, s)
              == Run(b.act(s.t, Click(targets[i])), State(s.t + 1, s.acts + 1, s.log))
  {
    FirstVisibleIs(targets, b, s.t);
  }

  /** Any other step is one act, and succeeds if the act does. */
  lemma {:induction false} ActsOnce(step: Step, b: Page, s: State)
    requires !step.ScrollUntil? && !step.Wait? && !step.ClickFirst?
    ensures StepRun(step, b, s) == Run(b.act(s.t, step), State(s.t + 1, s.acts + 1, s.log))
  {}
}
