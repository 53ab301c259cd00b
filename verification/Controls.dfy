/** Which controls get the slots (src/core/diff.ts `chooseControls`), and what choosing twice does. */
module Controls {
  import opened Common
  import opened Ordering

  /** `node` is the identity of the control object. */
  datatype Control = Control(
    node: nat, role: string, name: string, href: Option<string>, value: Option<string>, inputType: Option<string>,
    checked: bool, disabled: bool, required: bool, newLayer: bool, chrome: bool, dialog: bool)

  const MAX_CONTROLS := 80
  const MAX_WIRE_CONTROLS := 40

  predicate IsEditorLike(c: Control) {
    c.inputType == Some("textarea") || c.inputType == Some("contenteditable") || c.role == "textbox"
  }

  function Rank(c: Control): nat {
    if IsEditorLike(c) || c.required then 0 else if c.newLayer then 1 else if c.chrome then 3 else 2
  }

  function Keep(cs: seq<Control>, p: Control -> bool): (r: seq<Control>)
    ensures forall c :: c in r <==> c in cs && p(c)
    ensures |r| <= |cs|
  {
    if cs == [] then [] else (if p(cs[0]) then [cs[0]] else []) + Keep(cs[1..], p)
  }

  const InDialog: Control -> bool := (c: Control) => c.dialog

  /** What competes for the budget: the controls of the open dialogs, if there are any, or else all. */
  function Pool(cs: seq<Control>): seq<Control> {
    if Keep(cs, InDialog) != [] then Keep(cs, InDialog) else cs
  }

  /** Rank first, then document order, as one number. */
  function Key(pool: seq<Control>): int -> int {
    i => if 0 <= i < |pool| then Rank(pool[i]) * |pool| + i else 0
  }

  function Indices(n: nat): seq<int> {
    seq(n, i => i)
  }

  /** The `limit` controls that come first by rank and then by document order. */
  function Firsts(pool: seq<Control>, order: seq<int>, limit: nat): set<Control>
    requires limit <= |order|
  {
    set x | 0 <= x < limit && 0 <= order[x] < |pool| :: pool[order[x]]
  }

  function Top(pool: seq<Control>, limit: nat): set<Control>
    requires limit <= |pool|
  {
    Firsts(pool, Sort(Indices(|pool|), Key(pool)), limit)
  }

  function ChooseControls(cs: seq<Control>, limit: nat): seq<Control> {
    var pool := Pool(cs);
    if |pool| <= limit then pool
    else
      var kept := Top(pool, limit);
      Keep(cs, c => c in kept)
  }

  function CompactControls(cs: seq<Control>): (seq<Control>, bool) {
    var chosen := ChooseControls(cs, MAX_CONTROLS);
    if |chosen| == |cs| then (cs, false) else (chosen, true)
  }

  // ----- order

  /** No control object is listed twice. */
  predicate Distinct(cs: seq<Control>) {
    forall i, j :: 0 <= i < j < |cs| ==> cs[i] != cs[j]
  }

  predicate Before(cs: seq<Control>, a: Control, b: Control) {
    exists i, j :: 0 <= i < j < |cs| && cs[i] == a && cs[j] == b
  }

  predicate Precedes(cs: seq<Control>, a: Control, b: Control) {
    Rank(a) < Rank(b) || (Rank(a) == Rank(b) && Before(cs, a, b))
  }

  /** `kept` is a choice of `k` controls of the pool that precede all the others. */
  predicate Best(pool: seq<Control>, k: nat, kept: set<Control>) {
    && |kept| == k && (forall c :: c in kept ==> c in pool)
    && forall a, b :: a in kept && b in pool && b !in kept ==> Precedes(pool, a, b)
  }

  lemma {:induction false} BestUnique(pool: seq<Control>, k: nat, s: set<Control>, t: set<Control>)
    requires Distinct(pool) && Best(pool, k, s) && Best(pool, k, t)
    ensures s == t
  {
    if a :| a in s && a !in t {
      if t <= s {
        Smaller(t, s);
      } else {
        var b :| b in t && b !in s;
        NotBothWays(pool, a, b);
      }
    } else {
      Smaller(s, t);
    }
  }

  lemma {:induction false} NotBothWays(pool: seq<Control>, a: Control, b: Control)
    requires Distinct(pool)
    ensures !(Precedes(pool, a, b) && Precedes(pool, b, a))
  {
  }

  lemma {:induction false} Smaller(s: set<Control>, t: set<Control>)
    requires s <= t && |s| == |t|
    ensures s == t
  {
    if x :| x in t && x !in s {
      assert s <= t - {x};
      SubsetSize(s, t - {x});
    }
  }

  lemma {:induction false} SubsetSize(s: set<Control>, t: set<Control>)
    requires s <= t
    ensures |s| <= |t|
  {
    if s != {} {
      var x :| x in s;
      SubsetSize(s - {x}, t - {x});
    }
  }

  lemma {:induction false} KeyOrders(pool: seq<Control>, i: nat, j: nat)
    requires i < |pool| && j < |pool| && i != j && Key(pool)(i) <= Key(pool)(j)
    ensures Rank(pool[i]) < Rank(pool[j]) || (Rank(pool[i]) == Rank(pool[j]) && i < j)
  {
    var n, a, b := |pool|, Rank(pool[i]), Rank(pool[j]);
    if a > b {
      TimesMore(a, b, n);
    }
  }

  lemma {:induction false} TimesMore(a: nat, b: nat, n: nat)
    requires a > b
    ensures a * n >= b * n + n
  {
    assert a * n == (b + 1) * n + (a - b - 1) * n;
  }

  predicate NoRepeat(xs: seq<int>) {
    forall x, y :: 0 <= x < y < |xs| ==> xs[x] != xs[y]
  }

  /** Sorting the positions lists each position once. */
  lemma {:induction false} OrderListsOnce(pool: seq<Control>)
    ensures var order := Sort(Indices(|pool|), Key(pool));
            && (forall x :: 0 <= x < |order| ==> 0 <= order[x] < |pool|)
            && NoRepeat(order)
  {
    hide Sort, Key;
    var n := |pool|;
    var order := Sort(Indices(n), Key(pool));
    SortPermutes(Indices(n), Key(pool));
    IndicesOnce(n);
    forall x | 0 <= x < |order|
      ensures 0 <= order[x] < n
    {
      assert order[x] in Indices(n);
    }
    OnceEach(order);
  }

  lemma {:induction false} OnceEach(xs: seq<int>)
    requires forall i :: multiset(xs)[i] <= 1
    ensures NoRepeat(xs)
  {
    forall x, y | 0 <= x < y < |xs|
      ensures xs[x] != xs[y]
    {
      if xs[x] == xs[y] {
        TwiceCounted(xs, x, y);
      }
    }
  }

  lemma {:induction false} TwiceCounted(xs: seq<int>, x: nat, y: nat)
    requires x < y < |xs| && xs[x] == xs[y]
    ensures multiset(xs)[xs[x]] >= 2
  {
    assert xs == xs[..y] + [xs[y]] + xs[y + 1..];
    assert xs[..y][x] in multiset(xs[..y]);
  }

  lemma {:induction false} IndicesOnce(n: nat)
    ensures forall i :: multiset(Indices(n))[i] <= 1
  {
    if n > 0 {
      IndicesOnce(n - 1);
      assert Indices(n) == Indices(n - 1) + [n - 1];
      assert n - 1 !in Indices(n - 1);
    }
  }

  lemma {:induction false} FirstsStep(pool: seq<Control>, order: seq<int>, n: nat)
    requires Distinct(pool) && n < |order|
    requires forall x :: 0 <= x < |order| ==> 0 <= order[x] < |pool|
    requires NoRepeat(order)
    ensures Firsts(pool, order, n + 1) == Firsts(pool, order, n) + {pool[order[n]]}
    ensures pool[order[n]] !in Firsts(pool, order, n)
  {
    forall x | 0 <= x < n
      ensures pool[order[x]] != pool[order[n]]
    {
      assert order[x] != order[n];
    }
  }

  lemma {:induction false} FirstOnes(pool: seq<Control>, order: seq<int>, limit: nat)
    requires Distinct(pool) && limit <= |order|
    requires forall x :: 0 <= x < |order| ==> 0 <= order[x] < |pool|
    requires NoRepeat(order)
    ensures |Firsts(pool, order, limit)| == limit
  {
    if limit == 0 {
      assert Firsts(pool, order, 0) == {};
    } else {
      hide Firsts, Distinct, NoRepeat;
      FirstOnes(pool, order, limit - 1);
      FirstsStep(pool, order, limit - 1);
    }
  }

  lemma {:induction false} TopSize(pool: seq<Control>, limit: nat)
    requires Distinct(pool) && limit <= |pool|
    ensures |Top(pool, limit)| == limit && forall c :: c in Top(pool, limit) ==> c in pool
  {
    hide Sort, Key, Distinct;
    OrderListsOnce(pool);
    var order := Sort(Indices(|pool|), Key(pool));
    assert |order| == |pool|;
    FirstOnes(pool, order, limit);
  }

  lemma {:induction false} TopIsBest(pool: seq<Control>, limit: nat)
    requires Distinct(pool) && limit <= |pool|
    ensures Best(pool, limit, Top(pool, limit))
  {
    hide Top, Precedes, Distinct;
    TopSize(pool, limit);
    var kept := Top(pool, limit);
    forall a, b | a in kept && b in pool && b !in kept
      ensures Precedes(pool, a, b)
    {
      var j :| 0 <= j < |pool| && pool[j] == b;
      TopPrecedes(pool, limit, a, j);
    }
  }

  lemma {:induction false} TopPrecedes(pool: seq<Control>, limit: nat, a: Control, j: nat)
    requires Distinct(pool) && limit <= |pool| && j < |pool|
    requires a in Top(pool, limit) && pool[j] !in Top(pool, limit)
    ensures Precedes(pool, a, pool[j])
  {
    hide Rank, Precedes;
    var order := Sort(Indices(|pool|), Key(pool));
    OrderListsOnce(pool);
    var x :| 0 <= x < limit && pool[order[x]] == a;
    assert Indices(|pool|)[j] == j;
    var y :| 0 <= y < |order| && order[y] == j;
    assert x < y;
    PrecedesByKey(pool, order[x], j);
  }

  lemma {:induction false} PrecedesByKey(pool: seq<Control>, i: nat, j: nat)
    requires i < |pool| && j < |pool| && i != j && Key(pool)(i) <= Key(pool)(j)
    ensures Precedes(pool, pool[i], pool[j])
  {
    KeyOrders(pool, i, j);
  }

  // ----- keeping

  lemma {:induction false} BeforeCons(cs: seq<Control>, a: Control, b: Control)
    requires cs != []
    ensures Before(cs, a, b) <==> (cs[0] == a && b in cs[1..]) || Before(cs[1..], a, b)
  {
    var rest := cs[1..];
    if Before(rest, a, b) {
      var x, y :| 0 <= x < y < |rest| && rest[x] == a && rest[y] == b;
      assert cs[x + 1] == a && cs[y + 1] == b;
    }
    if cs[0] == a && b in rest {
      var y :| 0 <= y < |rest| && rest[y] == b;
      assert cs[0] == a && cs[y + 1] == b;
    }
    if Before(cs, a, b) {
      var x, y :| 0 <= x < y < |cs| && cs[x] == a && cs[y] == b;
      assert rest[y - 1] == b;
      if x > 0 {
        assert rest[x - 1] == a;
      }
    }
  }

  lemma {:induction false} KeepOrder(cs: seq<Control>, p: Control -> bool, a: Control, b: Control)
    requires Before(Keep(cs, p), a, b)
    ensures Before(cs, a, b)
  {
    var kept := Keep(cs, p);
    BeforeCons(cs, a, b);
    BeforeCons(kept, a, b);
    hide Before;
    if p(cs[0]) {
      assert kept[1..] == Keep(cs[1..], p);
    } else {
      assert kept == Keep(cs[1..], p);
    }
    if Before(Keep(cs[1..], p), a, b) {
      KeepOrder(cs[1..], p, a, b);
    }
  }

  lemma {:induction false} KeepDistinct(cs: seq<Control>, p: Control -> bool)
    requires Distinct(cs)
    ensures Distinct(Keep(cs, p))
  {
    if cs != [] {
      KeepDistinct(cs[1..], p);
      assert cs[0] !in cs[1..];
    }
  }

  lemma {:induction false} KeepTwice(cs: seq<Control>, p: Control -> bool, q: Control -> bool)
    requires forall c :: c in cs && q(c) ==> p(c)
    ensures Keep(Keep(cs, p), q) == Keep(cs, q)
  {
    if cs != [] {
      KeepTwice(cs[1..], p, q);
      var rest := Keep(cs[1..], p);
      if p(cs[0]) {
        assert ([cs[0]] + rest)[1..] == rest;
      } else {
        assert [] + rest == rest;
      }
    }
  }

  lemma {:induction false} KeepSame(cs: seq<Control>, p: Control -> bool, q: Control -> bool)
    requires forall c :: c in cs ==> p(c) == q(c)
    ensures Keep(cs, p) == Keep(cs, q)
  {
    if cs != [] {
      KeepSame(cs[1..], p, q);
    }
  }

  lemma {:induction false} KeepAll(cs: seq<Control>, p: Control -> bool)
    requires forall c :: c in cs ==> p(c)
    ensures Keep(cs, p) == cs
  {
    if cs != [] {
      KeepAll(cs[1..], p);
    }
  }

  lemma {:induction false} KeepSize(cs: seq<Control>, kept: set<Control>)
    requires Distinct(cs) && forall c :: c in kept ==> c in cs
    ensures |Keep(cs, c => c in kept)| == |kept|
  {
    if cs != [] {
      var rest := kept - {cs[0]};
      KeepSize(cs[1..], rest);
      assert cs[0] !in cs[1..];
      KeepSame(cs[1..], c => c in kept, c => c in rest);
    } else {
      assert kept == {};
    }
  }

  // ----- what is chosen

  /**
    The choice lists, in document order, the controls of the pool that precede all others of
    the pool: as many as fit, editors and required fields first, furniture last.
  */
  lemma {:induction false} ChooseIsBest(cs: seq<Control>, limit: nat)
    requires Distinct(cs)
    ensures var r := ChooseControls(cs, limit);
            && |r| == Min(limit, |Pool(cs)|)
            && (forall c :: c in r ==> c in Pool(cs))
            && (forall a, b :: a in r && b in Pool(cs) && b !in r ==> Precedes(Pool(cs), a, b))
            && (forall a, b :: Before(r, a, b) ==> Before(cs, a, b))
            && Distinct(r)
  {
    var pool, r := Pool(cs), ChooseControls(cs, limit);
    KeepDistinct(cs, InDialog);
    if |pool| <= limit {
      forall a, b | Before(r, a, b)
        ensures Before(cs, a, b)
      {
        if pool != cs {
          KeepOrder(cs, InDialog, a, b);
        }
      }
    } else {
      var kept := Top(pool, limit);
      TopIsBest(pool, limit);
      KeepSize(cs, kept);
      KeepDistinct(cs, c => c in kept);
      forall a, b | Before(r, a, b)
        ensures Before(cs, a, b)
      {
        KeepOrder(cs, c => c in kept, a, b);
      }
    }
  }

  lemma {:induction false} PoolOfPart(cs: seq<Control>, p: Control -> bool)
    requires forall c :: c in cs && p(c) ==> c in Pool(cs)
    ensures Pool(Keep(cs, p)) == Keep(cs, p)
  {
    var part := Keep(cs, p);
    if Keep(cs, InDialog) != [] {
      KeepAll(part, InDialog);
    } else {
      forall c | c in part
        ensures !c.dialog
      {
        assert c in Keep(cs, InDialog) <==> c.dialog;
      }
      KeepNone(part, InDialog);
    }
  }

  lemma {:induction false} KeepNone(cs: seq<Control>, p: Control -> bool)
    requires forall c :: c in cs ==> !p(c)
    ensures Keep(cs, p) == []
  {
    if cs != [] {
      KeepNone(cs[1..], p);
    }
  }

  lemma {:induction false} PoolOfPool(cs: seq<Control>)
    ensures Pool(Pool(cs)) == Pool(cs)
  {
    if Keep(cs, InDialog) != [] {
      KeepAll(Pool(cs), InDialog);
    }
  }

  /** Choosing few among many that were themselves chosen: the smaller best choice is the same. */
  lemma {:induction false} BestOfBest(pool: seq<Control>, part: seq<Control>, p: Control -> bool, m: nat, k: nat,
                   s: set<Control>, t: set<Control>)
    requires Distinct(pool) && Best(pool, m, s) && Best(part, k, t)
    requires part == Keep(pool, p) && forall c :: c in part <==> c in s
    ensures Best(pool, k, t)
  {
    forall a, b | a in t && b in pool && b !in t
      ensures Precedes(pool, a, b)
    {
      assert a in part;
      if b in s {
        assert Precedes(part, a, b);
        if Rank(a) == Rank(b) {
          KeepOrder(pool, p, a, b);
        }
      }
    }
  }

  /** Choosing twice is choosing once with the smaller limit. */
  lemma {:induction false} ChooseTwice(cs: seq<Control>, m: nat, k: nat)
    requires Distinct(cs) && k <= m
    ensures ChooseControls(ChooseControls(cs, m), k) == ChooseControls(cs, k)
  {
    PoolDistinct(cs);
    hide *;
    if |Pool(cs)| <= m {
      ChooseAllOfPool(cs, m);
      ChooseFromPool(cs, k);
    } else if k < m {
      ChooseSmaller(cs, m, k);
    } else {
      ChooseAgain(cs, m);
    }
  }

  lemma {:induction false} PoolDistinct(cs: seq<Control>)
    requires Distinct(cs)
    ensures Distinct(Pool(cs))
  {
    KeepDistinct(cs, InDialog);
  }

  lemma {:induction false} ChooseAllOfPool(cs: seq<Control>, m: nat)
    requires |Pool(cs)| <= m
    ensures ChooseControls(cs, m) == Pool(cs)
  {
  }

  lemma {:induction false} ChooseFromPool(cs: seq<Control>, k: nat)
    requires Distinct(cs)
    ensures ChooseControls(Pool(cs), k) == ChooseControls(cs, k)
  {
    var pool := Pool(cs);
    KeepDistinct(cs, InDialog);
    PoolOfPool(cs);
    if k < |pool| {
      TopIsBest(pool, k);
      hide Top;
      var kept := Top(pool, k);
      if pool != cs {
        KeepTwice(cs, InDialog, c => c in kept);
      }
    }
  }

  lemma {:induction false} ChooseAgain(cs: seq<Control>, m: nat)
    requires Distinct(cs) && m < |Pool(cs)| && Distinct(Pool(cs))
    ensures ChooseControls(ChooseControls(cs, m), m) == ChooseControls(cs, m)
  {
    TopIsBest(Pool(cs), m);
    hide Top;
    var kept := Top(Pool(cs), m);
    PoolOfPart(cs, c => c in kept);
    KeepSize(cs, kept);
  }

  /** The best of the pool are the best of any larger selection from it. */
  lemma {:induction false} TopOfTop(pool: seq<Control>, part: seq<Control>, m: nat, k: nat)
    requires Distinct(pool) && Distinct(part) && k <= m <= |pool| && k <= |part|
    requires var s := Top(pool, m); part == Keep(pool, c => c in s)
    ensures Top(part, k) == Top(pool, k)
  {
    var s := Top(pool, m);
    TopIsBest(pool, m);
    TopIsBest(part, k);
    TopIsBest(pool, k);
    assert forall c :: c in part <==> c in s by { TopSize(pool, m); }
    hide Top, Best;
    BestOfBest(pool, part, c => c in s, m, k, s, Top(part, k));
    BestUnique(pool, k, Top(part, k), Top(pool, k));
  }

  lemma {:induction false} ChooseSmaller(cs: seq<Control>, m: nat, k: nat)
    requires Distinct(cs) && k < m < |Pool(cs)| && Distinct(Pool(cs))
    ensures ChooseControls(ChooseControls(cs, m), k) == ChooseControls(cs, k)
  {
    hide Keep, Distinct, Top;
    var pool := Pool(cs);
    var s := Top(pool, m);
    var inS: Control -> bool := c => c in s;
    TopSize(pool, m);
    var part := Keep(cs, inS);
    PoolOfPart(cs, inS);
    KeepSize(cs, s);
    KeepDistinct(cs, inS);
    assert part == Keep(pool, inS) by {
      if pool != cs {
        KeepTwice(cs, InDialog, inS);
      }
    }
    TopOfTop(pool, part, m, k);
    TopSize(pool, k);
    hide Pool;
    var t := Top(part, k);
    TopKept(pool, m, k);
    KeepTwice(cs, inS, c => c in t);
  }

  lemma {:induction false} TopKept(pool: seq<Control>, m: nat, k: nat)
    requires Distinct(pool) && k <= m <= |pool|
    ensures Top(pool, k) <= Top(pool, m)
  {
    forall c | c in Top(pool, k)
      ensures c in Top(pool, m)
    {}
  }

  /** The model is shown what one selection from the whole page would show. */
  lemma {:induction false} WireSelection(cs: seq<Control>)
    requires Distinct(cs)
    ensures ChooseControls(CompactControls(cs).0, MAX_WIRE_CONTROLS) == ChooseControls(cs, MAX_WIRE_CONTROLS)
  {
    ChooseTwice(cs, MAX_CONTROLS, MAX_WIRE_CONTROLS);
  }
}
