/**
  Which keys share a chain (src/runtime/attempt-budget.ts). The parts of a key are joined with a
  double colon and not escaped, and a missing target is written as a star.
*/
module ChainKeys {
  import opened Common
  import opened AttemptBudget

  /** What the target is written as. */
  function Written(key: Key): string {
    key.target.GetOr("*")
  }

  /** The keys say the same, as far as they are written. */
  predicate SameParts(a: Key, b: Key) {
    && a.goalId == b.goalId && a.pageIdentity == b.pageIdentity && a.intent == b.intent
    && Written(a) == Written(b) && a.stage == b.stage
  }

  // ----- the stage

  function Joined(g: string, p: string, i: string, t: string): string {
    g + ("::" + (p + ("::" + (i + ("::" + t)))))
  }

  function Front(key: Key): string {
    Joined(key.goalId, key.pageIdentity, key.intent, Written(key))
  }

  lemma {:induction false} StageNames(a: Option<Stage>, b: Option<Stage>)
    ensures ':' !in StageName(a)
    ensures StageName(a) == StageName(b) <==> a == b
  {}

  lemma {:induction false} ChainIdFront(key: Key)
    ensures ChainId(key) == Front(key) + ("::" + StageName(key.stage))
  {
    hide StageName;
    var g, p, i, t, s := key.goalId, key.pageIdentity, key.intent, Written(key), StageName(key.stage);
    assert g + "::" + p + "::" + i + "::" + t + "::" + s == Joined(g, p, i, t) + ("::" + s);
  }

  /** No stage name holds a colon, so the last one ends the rest. */
  lemma {:induction false} LastColon(x: string, a: string, y: string, b: string)
    requires ':' !in a && ':' !in b && x + ("::" + a) == y + ("::" + b)
    ensures x == y && a == b
  {
    var s := x + ("::" + a);
    assert s[|x| + 1] == ':' && s[|y| + 1] == ':';
    assert forall k :: |x| + 1 < k < |s| ==> s[k] == a[k - |x| - 2];
    assert forall k :: |y| + 1 < k < |s| ==> s[k] == b[k - |y| - 2];
    assert s[..|x|] == x && s[..|y|] == y;
    assert s[|x| + 2..] == a && s[|y| + 2..] == b;
  }

  lemma {:induction false} StageApart(a: Key, b: Key)
    ensures ChainId(a) == ChainId(b) <==> Front(a) == Front(b) && a.stage == b.stage
  {
    hide ChainId, Front, StageName;
    ChainIdFront(a);
    ChainIdFront(b);
    StageNames(a.stage, b.stage);
    StageNames(b.stage, a.stage);
    if ChainId(a) == ChainId(b) {
      LastColon(Front(a), StageName(a.stage), Front(b), StageName(b.stage));
    }
  }

  // ----- where the joined parts have a double colon

  predicate Mark(s: string, x: int) {
    0 <= x && x + 1 < |s| && s[x] == ':' && s[x + 1] == ':'
  }

  predicate Unmarked(s: string) {
    forall x :: 0 <= x < |s| ==> !Mark(s, x)
  }

  predicate Opens(s: string) {
    s != "" && s[0] == ':'
  }

  predicate Closes(s: string) {
    s != "" && s[|s| - 1] == ':'
  }

  /** No double colon in a part, and no colon on a seam. */
  predicate CleanParts(g: string, p: string, i: string, t: string) {
    && Unmarked(g) && Unmarked(p) && Unmarked(i) && Unmarked(t)
    && !Closes(g) && !Opens(p) && !Closes(p) && !Opens(i) && !Closes(i) && !Opens(t)
  }

  predicate Clean(key: Key) {
    CleanParts(key.goalId, key.pageIdentity, key.intent, Written(key))
  }

  function Second(g: string, p: string): nat {
    |g| + 2 + |p|
  }

  function Third(g: string, p: string, i: string): nat {
    |g| + 2 + |p| + 2 + |i|
  }

  function CharAt(g: string, p: string, i: string, t: string, x: nat): char
    requires x < Third(g, p, i) + 2 + |t|
  {
    if x < |g| then g[x]
    else if x < |g| + 2 then ':'
    else if x < Second(g, p) then p[x - |g| - 2]
    else if x < Second(g, p) + 2 then ':'
    else if x < Third(g, p, i) then i[x - Second(g, p) - 2]
    else if x < Third(g, p, i) + 2 then ':'
    else t[x - Third(g, p, i) - 2]
  }

  lemma {:induction false} JoinedAt(g: string, p: string, i: string, t: string, x: nat)
    requires x < Third(g, p, i) + 2 + |t|
    ensures |Joined(g, p, i, t)| == Third(g, p, i) + 2 + |t|
    ensures Joined(g, p, i, t)[x] == CharAt(g, p, i, t, x)
  {
    var c := "::" + t;
    var b := "::" + (i + c);
    var a := "::" + (p + b);
    assert Joined(g, p, i, t) == g + a;
    if x >= |g| + 2 {
      assert (g + a)[x] == (p + b)[x - |g| - 2];
      if x >= Second(g, p) + 2 {
        assert (p + b)[x - |g| - 2] == (i + c)[x - Second(g, p) - 2];
      }
    }
  }

  /** Clean parts have a double colon only at their seams; around an empty part two seams make one more. */
  lemma {:induction false} MarksOfClean(g: string, p: string, i: string, t: string, x: nat)
    requires CleanParts(g, p, i, t) && Mark(Joined(g, p, i, t), x)
    ensures || x == |g| || x == Second(g, p) || x == Third(g, p, i)
            || (p == "" && x == |g| + 1) || (i == "" && x == Second(g, p) + 1)
  {
    hide Joined;
    JoinedAt(g, p, i, t, 0);
    JoinedAt(g, p, i, t, x);
    JoinedAt(g, p, i, t, x + 1);
    assert !Mark(g, x) && !Mark(p, x - |g| - 2) && !Mark(i, x - Second(g, p) - 2) && !Mark(t, x - Third(g, p, i) - 2);
  }

  lemma {:induction false} SeamsAreMarks(g: string, p: string, i: string, t: string)
    ensures var s := Joined(g, p, i, t); Mark(s, |g|) && Mark(s, Second(g, p)) && Mark(s, Third(g, p, i))
  {
    hide Joined;
    JoinedAt(g, p, i, t, |g|);
    JoinedAt(g, p, i, t, |g| + 1);
    JoinedAt(g, p, i, t, Second(g, p));
    JoinedAt(g, p, i, t, Second(g, p) + 1);
    JoinedAt(g, p, i, t, Third(g, p, i));
    JoinedAt(g, p, i, t, Third(g, p, i) + 1);
  }

  /** Parts are read off the joined text at its seams. */
  lemma {:induction false} PartsAtSeams(g: string, p: string, i: string, t: string)
    ensures var s := Joined(g, p, i, t);
            && |g| + 2 <= Second(g, p) && Second(g, p) + 2 <= Third(g, p, i) && Third(g, p, i) + 2 <= |s|
            && s[..|g|] == g && s[|g| + 2..Second(g, p)] == p
            && s[Second(g, p) + 2..Third(g, p, i)] == i && s[Third(g, p, i) + 2..] == t
  {
    var s := Joined(g, p, i, t);
    hide Joined;
    JoinedAt(g, p, i, t, 0);
    forall x: nat | x < |s|
      ensures s[x] == CharAt(g, p, i, t, x)
    {
      JoinedAt(g, p, i, t, x);
    }
  }

  lemma {:induction false} SeamsAgree(
      g: string, p: string, i: string, t: string, g': string, p': string, i': string, t': string)
    requires CleanParts(g, p, i, t) && Joined(g, p, i, t) == Joined(g', p', i', t')
    ensures |g| == |g'| && Second(g, p) == Second(g', p') && Third(g, p, i) == Third(g', p', i')
  {
    hide Joined, CleanParts, Mark;
    SeamsAreMarks(g', p', i', t');
    MarksOfClean(g, p, i, t, |g'|);
    MarksOfClean(g, p, i, t, Second(g', p'));
    MarksOfClean(g, p, i, t, Third(g', p', i'));
  }

  /** Clean parts are the only parts that join to their text. */
  lemma {:induction false} CleanReadsBack(
      g: string, p: string, i: string, t: string, g': string, p': string, i': string, t': string)
    requires CleanParts(g, p, i, t) && Joined(g, p, i, t) == Joined(g', p', i', t')
    ensures g == g' && p == p' && i == i' && t == t'
  {
    SeamsAgree(g, p, i, t, g', p', i', t');
    hide Joined, CleanParts, Second, Third;
    PartsAtSeams(g, p, i, t);
    PartsAtSeams(g', p', i', t');
  }

  // ----- keys that share a chain

  lemma {:induction false} ShiftFirst(g: string, p: string, x: string, y: string, i: string, t: string)
    requires g + "::" + p == x + "::" + y
    ensures Joined(g, p, i, t) == Joined(x, y, i, t)
  {
    var rest := "::" + (i + ("::" + t));
    assert Joined(g, p, i, t) == g + "::" + p + rest;
    assert Joined(x, y, i, t) == x + "::" + y + rest;
  }

  lemma {:induction false} ShiftSecond(g: string, p: string, i: string, x: string, y: string, t: string)
    requires p + "::" + i == x + "::" + y
    ensures Joined(g, p, i, t) == Joined(g, x, y, t)
  {
    var rest := "::" + t;
    assert p + ("::" + (i + rest)) == p + "::" + i + rest;
    assert x + ("::" + (y + rest)) == x + "::" + y + rest;
  }

  lemma {:induction false} ShiftThird(g: string, p: string, i: string, t: string, x: string, y: string)
    requires i + "::" + t == x + "::" + y
    ensures Joined(g, p, i, t) == Joined(g, p, x, y)
  {
    assert i + ("::" + t) == i + "::" + t;
    assert x + ("::" + y) == x + "::" + y;
  }

  /** Moves text across a seam: the parts differ, the joined text does not. */
  lemma {:induction false} Shifted(key: Key) returns (other: Key)
    requires !Clean(key)
    ensures ChainId(other) == ChainId(key) && !SameParts(key, other)
  {
    hide ChainId, StageName, Joined;
    var g, p, i, t := key.goalId, key.pageIdentity, key.intent, Written(key);
    if Closes(g) || !Unmarked(g) {
      var x, y := Cut(g, p);
      other := key.(goalId := x, pageIdentity := y);
      ShiftFirst(g, p, x, y, i, t);
    } else if Closes(p) || !Unmarked(p) {
      var x, y := Cut(p, i);
      other := key.(pageIdentity := x, intent := y);
      ShiftSecond(g, p, i, x, y, t);
    } else if Closes(i) || !Unmarked(i) {
      var x, y := Cut(i, t);
      other := key.(intent := x, target := Some(y));
      ShiftThird(g, p, i, t, x, y);
    } else if Opens(p) {
      other := key.(goalId := g + ":", pageIdentity := p[1..]);
      assert g + "::" + p == g + ":" + "::" + p[1..];
      ShiftFirst(g, p, g + ":", p[1..], i, t);
    } else if Opens(i) {
      other := key.(pageIdentity := p + ":", intent := i[1..]);
      assert p + "::" + i == p + ":" + "::" + i[1..];
      ShiftSecond(g, p, i, p + ":", i[1..], t);
    } else if Opens(t) {
      other := key.(intent := i + ":", target := Some(t[1..]));
      assert i + "::" + t == i + ":" + "::" + t[1..];
      ShiftThird(g, p, i, t, i + ":", t[1..]);
    } else {
      var x :| 0 <= x < |t| && Mark(t, x);
      other := key.(intent := i + "::" + t[..x], target := Some(t[x + 2..]));
      assert i + "::" + t == i + "::" + t[..x] + "::" + t[x + 2..];
      ShiftThird(g, p, i, t, i + "::" + t[..x], t[x + 2..]);
    }
    StageApart(key, other);
  }

  /** A part that holds a double colon, or ends in one colon, can be cut before the seam that follows it. */
  lemma {:induction false} Cut(a: string, next: string) returns (x: string, y: string)
    requires Closes(a) || !Unmarked(a)
    ensures a + "::" + next == x + "::" + y && x != a
  {
    if !Unmarked(a) {
      var k :| 0 <= k < |a| && Mark(a, k);
      x, y := a[..k], a[k + 2..] + "::" + next;
      assert a == x + "::" + a[k + 2..];
    } else {
      x, y := a[..|a| - 1], ":" + next;
      assert a == x + ":";
    }
  }

  /** A key has its chain to itself, but for keys that are written alike, exactly when its parts are clean. */
  lemma {:induction false} OwnChainIff(key: Key)
    ensures (forall other :: ChainId(other) == ChainId(key) ==> SameParts(key, other)) <==> Clean(key)
  {
    if Clean(key) {
      forall other | ChainId(other) == ChainId(key)
        ensures SameParts(key, other)
      {
        StageApart(key, other);
        CleanReadsBack(key.goalId, key.pageIdentity, key.intent, Written(key),
                       other.goalId, other.pageIdentity, other.intent, Written(other));
      }
    } else {
      var other := Shifted(key);
    }
  }

  /** A missing target and a star are written alike, so that even clean keys share a chain over it. */
  lemma {:induction false} StarredTarget(key: Key)
    ensures ChainId(key.(target := None)) == ChainId(key.(target := Some("*")))
  {}

  /** No other key at all shares the chain exactly when the parts are clean and the target is not a star. */
  lemma {:induction false} AloneIff(key: Key)
    ensures (forall other :: ChainId(other) == ChainId(key) ==> other == key) <==> Clean(key) && Written(key) != "*"
  {
    hide ChainId, Clean;
    OwnChainIff(key);
    if Written(key) == "*" {
      StarredTarget(key);
      assert key.(target := None) != key.(target := Some("*"));
    } else if Clean(key) {
      forall other | ChainId(other) == ChainId(key)
        ensures other == key
      {
        assert SameParts(key, other);
      }
    } else {
      var other := Shifted(key);
    }
  }

  // ----- the keys the runtime makes

  /** No double colon within or across the end of the first three parts; the target may hold anything. */
  predicate Tame(key: Key) {
    && Unmarked(key.goalId) && Unmarked(key.pageIdentity) && Unmarked(key.intent)
    && !Closes(key.goalId) && !Closes(key.pageIdentity) && !Closes(key.intent)
  }

  lemma {:induction false} FirstSeam(a: string, x: string, b: string, y: string)
    requires Unmarked(a) && !Closes(a) && Unmarked(b) && !Closes(b)
    requires a + ("::" + x) == b + ("::" + y)
    ensures a == b && x == y
  {
    var s := a + ("::" + x);
    SeamFirst(a, x);
    SeamFirst(b, y);
    assert |a| == |b|;
    assert s[..|a|] == a && s[..|b|] == b;
    assert s[|a| + 2..] == x && s[|b| + 2..] == y;
  }

  lemma {:induction false} SeamFirst(a: string, x: string)
    requires Unmarked(a) && !Closes(a)
    ensures var s := a + ("::" + x);
            Mark(s, |a|) && forall k :: 0 <= k < |a| ==> !Mark(s, k)
  {
    var s := a + ("::" + x);
    forall k | 0 <= k < |a|
      ensures !Mark(s, k)
    {
      assert !Mark(a, k);
      assert s[k] == a[k];
      if k + 1 < |a| {
        assert s[k + 1] == a[k + 1];
      }
    }
  }

  /** Among tame keys, sharing a chain means saying the same. */
  lemma {:induction false} TameKeysApart(a: Key, b: Key)
    requires Tame(a) && Tame(b)
    ensures ChainId(a) == ChainId(b) <==> SameParts(a, b)
  {
    hide ChainId, Unmarked, Closes;
    StageApart(a, b);
    if ChainId(a) == ChainId(b) {
      FirstSeam(a.goalId, a.pageIdentity + ("::" + (a.intent + ("::" + Written(a)))),
                b.goalId, b.pageIdentity + ("::" + (b.intent + ("::" + Written(b)))));
      FirstSeam(a.pageIdentity, a.intent + ("::" + Written(a)), b.pageIdentity, b.intent + ("::" + Written(b)));
      FirstSeam(a.intent, Written(a), b.intent, Written(b));
    }
  }
}
