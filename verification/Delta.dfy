/** The page delta (src/core/diff.ts): reconciliation keys, and which changes they let through. */
module Delta {
  import opened Common
  import opened Controls

  const MAX_CHANGES := 12

  function Base(c: Control): string {
    c.role + ":" + c.name + (if c.href.GetOr("") != "" then ":" + c.href.value else "")
  }

  function KeyOf(base: string, occurrence: nat): string {
    if occurrence == 0 then base else base + "#" + Decimal(occurrence)
  }

  /** How many of these controls have this base key. */
  function Count(cs: seq<Control>, base: string): nat {
    if cs == [] then 0 else Count(cs[..|cs| - 1], base) + (if Base(cs[|cs| - 1]) == base then 1 else 0)
  }

  /** Which of its identical siblings a control is. */
  function Occurrence(cs: seq<Control>, i: nat): nat
    requires i < |cs|
  {
    Count(cs[..i], Base(cs[i]))
  }

  function RowKey(cs: seq<Control>, i: nat): string
    requires i < |cs|
  {
    KeyOf(Base(cs[i]), Occurrence(cs, i))
  }

  /** The host's Map: keys in the order they were first set. */
  datatype Index = Index(keys: seq<string>, at: map<string, Control>) {
    function Put(key: string, c: Control): Index {
      Index(if key in at then keys else keys + [key], at[key := c])
    }
  }

  /** Some row among the first `n` has this key. */
  predicate HasKey(cs: seq<Control>, n: nat, key: string)
    requires n <= |cs|
  {
    exists i :: 0 <= i < n && RowKey(cs, i) == key
  }

  function KeyedTo(cs: seq<Control>, n: nat): Index
    requires n <= |cs|
  {
    if n == 0 then Index([], map[]) else KeyedTo(cs, n - 1).Put(RowKey(cs, n - 1), cs[n - 1])
  }

  lemma {:induction false} KeyedKeys(cs: seq<Control>, n: nat, key: string)
    requires n <= |cs|
    ensures key in KeyedTo(cs, n).keys <==> key in KeyedTo(cs, n).at
    ensures key in KeyedTo(cs, n).at <==> HasKey(cs, n, key)
  {
    hide RowKey;
    if n > 0 {
      KeyedKeys(cs, n - 1, key);
      KeyedKeys(cs, n - 1, RowKey(cs, n - 1));
      if HasKey(cs, n, key) && RowKey(cs, n - 1) != key {
        var i :| 0 <= i < n && RowKey(cs, i) == key;
        assert HasKey(cs, n - 1, key);
      }
    }
  }

  /** The entry of a key is the last row that has it. */
  lemma {:induction false} KeyedEntry(cs: seq<Control>, n: nat, key: string) returns (i: nat)
    requires n <= |cs| && key in KeyedTo(cs, n).at
    ensures i < n && RowKey(cs, i) == key && KeyedTo(cs, n).at[key] == cs[i]
    ensures forall j :: i < j < n ==> RowKey(cs, j) != key
  {
    hide RowKey;
    if RowKey(cs, n - 1) == key {
      i := n - 1;
    } else {
      i := KeyedEntry(cs, n - 1, key);
    }
  }

  function Keyed(cs: seq<Control>): Index {
    KeyedTo(cs, |cs|)
  }

  method KeyControls(cs: seq<Control>) returns (r: Index)
    ensures r == Keyed(cs)
  {
    var counts: map<string, nat> := map[];
    r := Index([], map[]);
    for i := 0 to |cs|
      invariant forall b :: Count(cs[..i], b) == if b in counts then counts[b] else 0
      invariant r == KeyedTo(cs, i)
    {
      var base := Base(cs[i]);
      var occurrence := if base in counts then counts[base] else 0;
      counts := counts[base := occurrence + 1];
      r := r.Put(KeyOf(base, occurrence), cs[i]);
      assert cs[..i + 1][..i] == cs[..i];
    }
  }

  // ----- when keys tell rows apart

  lemma {:induction false} CountGrows(cs: seq<Control>, i: nat, j: nat, base: string)
    requires i <= j <= |cs|
    ensures Count(cs[..i], base) <= Count(cs[..j], base)
    ensures i < j && Base(cs[i]) == base ==> Count(cs[..i], base) < Count(cs[..j], base)
    decreases j - i
  {
    if i < j {
      CountGrows(cs, i, j - 1, base);
      assert cs[..j][..j - 1] == cs[..j - 1];
    }
  }

  /** Identical siblings are numbered without gaps. */
  lemma {:induction false} NthRow(cs: seq<Control>, base: string, n: nat) returns (i: nat)
    requires n < Count(cs, base)
    ensures i < |cs| && Base(cs[i]) == base && Occurrence(cs, i) == n
  {
    var front := cs[..|cs| - 1];
    if n < Count(front, base) {
      i := NthRow(front, base, n);
      assert front[..i] == cs[..i];
    } else {
      i := |cs| - 1;
    }
  }

  lemma {:induction false} RowWithin(cs: seq<Control>, i: nat)
    requires i < |cs|
    ensures Occurrence(cs, i) < Count(cs, Base(cs[i]))
  {
    CountGrows(cs, i, |cs|, Base(cs[i]));
    assert cs[..|cs|] == cs;
  }

  lemma {:induction false} SameRow(cs: seq<Control>, i: nat, j: nat)
    requires i < |cs| && j < |cs| && Base(cs[i]) == Base(cs[j]) && Occurrence(cs, i) == Occurrence(cs, j)
    ensures i == j
  {
    if i < j {
      CountGrows(cs, i, j, Base(cs[i]));
    } else if j < i {
      CountGrows(cs, j, i, Base(cs[i]));
    }
  }

  predicate Digits(m: string) {
    forall i :: 0 <= i < |m| ==> '0' <= m[i] <= '9'
  }

  /** Digits hold no `#`, so the mark before the number is the last one. */
  lemma {:induction false} LastMark(a: string, m: string, x: string)
    requires Digits(m) && x == a + "#" + m
    ensures |a| < |x| && x[|a|] == '#' && x[..|a|] == a && x[|a| + 1..] == m
    ensures forall k :: |a| < k < |x| ==> x[k] != '#'
  {
    forall k | |a| < k < |x|
      ensures x[k] != '#'
    {
      assert x[k] == m[k - |a| - 1];
    }
  }

  lemma {:induction false} NumberedKeys(a: string, m: string, b: string, n: string)
    requires Digits(m) && Digits(n)
    requires a + "#" + m == b + "#" + n
    ensures a == b && m == n
  {
    LastMark(a, m, a + "#" + m);
    LastMark(b, n, a + "#" + m);
  }

  lemma {:induction false} KeysDiffer(a: string, m: nat, b: string, n: nat)
    requires KeyOf(a, m) == KeyOf(b, n)
    ensures (a == b && m == n) || (m == 0 && n > 0 && a == KeyOf(b, n)) || (n == 0 && m > 0 && b == KeyOf(a, m))
  {
    if m > 0 && n > 0 {
      NumberedKeys(a, Decimal(m), b, Decimal(n));
      DecimalInjective(m, n);
    }
  }

  /** Some control's own base key is the key of a later sibling of another: the rows share one entry. */
  predicate Aliased(cs: seq<Control>) {
    exists i, j :: 0 <= i < |cs| && 0 <= j < |cs| && Borrows(cs, i, j)
  }

  predicate Borrows(cs: seq<Control>, i: nat, j: nat)
    requires i < |cs| && j < |cs|
  {
    Occurrence(cs, j) > 0 && Base(cs[i]) == RowKey(cs, j)
  }

  predicate DistinctKeys(cs: seq<Control>, n: nat)
    requires n <= |cs|
  {
    forall i, j :: 0 <= i < j < n ==> RowKey(cs, i) != RowKey(cs, j)
  }

  lemma {:induction false} KeysDistinctIff(cs: seq<Control>)
    ensures DistinctKeys(cs, |cs|) <==> !Aliased(cs)
  {
    if Aliased(cs) {
      var i, j :| 0 <= i < |cs| && 0 <= j < |cs| && Borrows(cs, i, j);
      RowWithin(cs, i);
      var first := NthRow(cs, Base(cs[i]), 0);
      assert RowKey(cs, first) == RowKey(cs, j) && first != j;
    } else {
      forall i, j | 0 <= i < j < |cs|
        ensures RowKey(cs, i) != RowKey(cs, j)
      {
        if RowKey(cs, i) == RowKey(cs, j) {
          RowKeysClash(cs, i, j);
        }
      }
    }
  }

  lemma {:induction false} RowKeysClash(cs: seq<Control>, i: nat, j: nat)
    requires i < |cs| && j < |cs| && i != j && RowKey(cs, i) == RowKey(cs, j)
    ensures Aliased(cs)
  {
    KeysDiffer(Base(cs[i]), Occurrence(cs, i), Base(cs[j]), Occurrence(cs, j));
    if Base(cs[i]) == Base(cs[j]) && Occurrence(cs, i) == Occurrence(cs, j) {
      SameRow(cs, i, j);
    } else {
      assert Borrows(cs, i, j) || Borrows(cs, j, i);
    }
  }

  lemma {:induction false} IndexSize(cs: seq<Control>, n: nat)
    requires n <= |cs|
    ensures |KeyedTo(cs, n).keys| <= n
    ensures |KeyedTo(cs, n).keys| == n <==> DistinctKeys(cs, n)
  {
    hide RowKey;
    if n > 0 {
      IndexSize(cs, n - 1);
      var key := RowKey(cs, n - 1);
      KeyedKeys(cs, n - 1, key);
      assert DistinctKeys(cs, n) <==> DistinctKeys(cs, n - 1) && !HasKey(cs, n - 1, key);
    }
  }

  /** `keyed` holds one entry per control exactly when no base key is the numbered key of another row. */
  lemma {:induction false} KeyedOnePerControlIff(cs: seq<Control>)
    ensures |Keyed(cs).keys| == |cs| <==> !Aliased(cs)
  {
    IndexSize(cs, |cs|);
    KeysDistinctIff(cs);
  }

  // ----- the delta

  datatype Change =
    | Added(key: string)
    | Removed(key: string)
    | ValueChanged(key: string)
    | CheckedChanged(key: string)
    | DisabledChanged(key: string)

  predicate Agree(a: Control, b: Control) {
    a.value.GetOr("") == b.value.GetOr("") && a.checked == b.checked && a.disabled == b.disabled
  }

  function RowChanges(key: string, before: Control, after: Control): (r: seq<Change>)
    ensures r == [] <==> Agree(before, after)
  {
    (if before.value.GetOr("") != after.value.GetOr("") then [ValueChanged(key)] else [])
    + (if before.checked != after.checked then [CheckedChanged(key)] else [])
    + (if before.disabled != after.disabled then [DisabledChanged(key)] else [])
  }

  /** The differences between two indices, before the list is capped. */
  ghost predicate NoDifference(before: Index, after: Index) {
    && (forall k :: k in after.keys ==> k in before.at)
    && (forall k :: k in before.keys ==> k in after.at)
    && (forall k :: k in after.at && k in before.at ==> Agree(before.at[k], after.at[k]))
  }

  /** One change for each key that the other index lacks. */
  function Told(keys: seq<string>, other: map<string, Control>, tell: string -> Change): seq<Change> {
    if keys == [] then []
    else
      Told(keys[..|keys| - 1], other, tell)
      + if keys[|keys| - 1] in other then [] else [tell(keys[|keys| - 1])]
  }

  /** The changes of the rows both indices have. */
  function Alterations(keys: seq<string>, before: Index, after: Index): seq<Change> {
    if keys == [] then []
    else
      var k := keys[|keys| - 1];
      Alterations(keys[..|keys| - 1], before, after)
      + if k in before.at && k in after.at then RowChanges(k, before.at[k], after.at[k]) else []
  }

  /** The whole list: additions, removals, then what became of the rows that stayed. */
  function AllChanges(before: Index, after: Index): seq<Change> {
    Told(after.keys, before.at, k => Added(k)) + Told(before.keys, after.at, k => Removed(k))
    + Alterations(after.keys, before, after)
  }

  method DiffControls(previous: Option<seq<Control>>, next: seq<Control>) returns (changes: seq<Change>)
    ensures previous.None? ==> changes == []
    ensures previous.Some? ==>
              var all := AllChanges(Keyed(previous.value), Keyed(next));
              changes == if |all| > 12 then all[..12] else all
    ensures |changes| <= 12
    ensures previous.Some? ==> (changes == [] <==> NoDifference(Keyed(previous.value), Keyed(next)))
  {
    if previous.None? { return []; }
    hide Keyed, Told, Alterations, NoDifference;
    var before := KeyControls(previous.value);
    var after := KeyControls(next);
    KeysAreEntries(next);
    KeysAreEntries(previous.value);
    var added := Missing(after.keys, before.at, k => Added(k));
    var removed := Missing(before.keys, after.at, k => Removed(k));
    var altered := Altered(before, after);
    var all := added + removed + altered;
    SilentIff(before, after);
    changes := if |all| > MAX_CHANGES then all[..MAX_CHANGES] else all;
  }

  lemma {:induction false} KeysAreEntries(cs: seq<Control>)
    ensures forall k :: k in Keyed(cs).keys <==> k in Keyed(cs).at
  {
    forall k
      ensures k in Keyed(cs).keys <==> k in Keyed(cs).at
    {
      KeyedKeys(cs, |cs|, k);
    }
  }

  method Missing(keys: seq<string>, other: map<string, Control>, tell: string -> Change) returns (changes: seq<Change>)
    ensures changes == Told(keys, other, tell)
  {
    changes := [];
    for i := 0 to |keys|
      invariant changes == Told(keys[..i], other, tell)
    {
      assert keys[..i + 1][..i] == keys[..i];
      if keys[i] !in other { changes := changes + [tell(keys[i])]; }
    }
    assert keys[..|keys|] == keys;
  }

  method Altered(before: Index, after: Index) returns (changes: seq<Change>)
    requires forall k :: k in after.keys ==> k in after.at
    ensures changes == Alterations(after.keys, before, after)
  {
    hide RowChanges;
    changes := [];
    for i := 0 to |after.keys|
      invariant changes == Alterations(after.keys[..i], before, after)
    {
      var key := after.keys[i];
      assert after.keys[..i + 1][..i] == after.keys[..i];
      if key in before.at {
        changes := changes + RowChanges(key, before.at[key], after.at[key]);
      }
    }
    assert after.keys[..|after.keys|] == after.keys;
  }

  lemma {:induction false} ToldIff(keys: seq<string>, other: map<string, Control>, tell: string -> Change, c: Change)
    ensures c in Told(keys, other, tell) <==> exists k :: k in keys && k !in other && c == tell(k)
  {
    if keys != [] {
      var front, last := keys[..|keys| - 1], keys[|keys| - 1];
      ToldIff(front, other, tell, c);
      assert keys == front + [last];
    }
  }

  lemma {:induction false} AlterationsIff(keys: seq<string>, before: Index, after: Index, c: Change)
    ensures c in Alterations(keys, before, after) <==>
            exists k :: k in keys && k in before.at && k in after.at && c in RowChanges(k, before.at[k], after.at[k])
  {
    hide RowChanges;
    if keys != [] {
      var front, last := keys[..|keys| - 1], keys[|keys| - 1];
      AlterationsIff(front, before, after, c);
      assert keys == front + [last];
    }
  }

  /** The whole list reports what happened: everything, and nothing else. */
  lemma {:induction false} ReportsExactly(before: Index, after: Index, c: Change)
    requires forall k :: k in before.keys <==> k in before.at
    requires forall k :: k in after.keys <==> k in after.at
    ensures c in AllChanges(before, after) <==> Founded(c, before, after)
  {
    hide Told, Alterations;
    ToldIff(after.keys, before.at, k => Added(k), c);
    ToldIff(before.keys, after.at, k => Removed(k), c);
    AlterationsIff(after.keys, before, after, c);
    match c
    case Added(k) =>
    case Removed(k) =>
    case ValueChanged(k) => assert Founded(c, before, after) ==> c in RowChanges(k, before.at[k], after.at[k]);
    case CheckedChanged(k) => assert Founded(c, before, after) ==> c in RowChanges(k, before.at[k], after.at[k]);
    case DisabledChanged(k) => assert Founded(c, before, after) ==> c in RowChanges(k, before.at[k], after.at[k]);
  }

  lemma {:induction false} SilentIff(before: Index, after: Index)
    requires forall k :: k in before.keys <==> k in before.at
    requires forall k :: k in after.keys <==> k in after.at
    ensures AllChanges(before, after) == [] <==> NoDifference(before, after)
  {
    hide AllChanges;
    var all := AllChanges(before, after);
    if all != [] {
      ReportsExactly(before, after, all[0]);
    }
    if !NoDifference(before, after) {
      var c := SomeDifference(before, after);
      ReportsExactly(before, after, c);
    }
  }

  lemma {:induction false} SomeDifference(before: Index, after: Index) returns (c: Change)
    requires forall k :: k in before.keys <==> k in before.at
    requires forall k :: k in after.keys <==> k in after.at
    requires !NoDifference(before, after)
    ensures Founded(c, before, after)
  {
    if k :| k in after.keys && k !in before.at {
      c := Added(k);
    } else if k :| k in before.keys && k !in after.at {
      c := Removed(k);
    } else {
      var k :| k in after.at && k in before.at && !Agree(before.at[k], after.at[k]);
      c := RowChanges(k, before.at[k], after.at[k])[0];
    }
  }

  /** A reported change happened. */
  predicate Founded(c: Change, before: Index, after: Index) {
    match c
    case Added(k) => k in after.at && k !in before.at
    case Removed(k) => k in before.at && k !in after.at
    case ValueChanged(k) =>
      k in before.at && k in after.at && before.at[k].value.GetOr("") != after.at[k].value.GetOr("")
    case CheckedChanged(k) => k in before.at && k in after.at && before.at[k].checked != after.at[k].checked
    case DisabledChanged(k) => k in before.at && k in after.at && before.at[k].disabled != after.at[k].disabled
  }

  // ----- completeness

  /** No base key on either page is a numbered key of the other pages' rows or its own. */
  predicate Unambiguous(a: seq<Control>, b: seq<Control>) {
    forall i, j :: 0 <= i < |a| && 0 <= j < |b| ==>
      && (Occurrence(b, j) > 0 ==> Base(a[i]) != RowKey(b, j))
      && (Occurrence(a, i) > 0 ==> Base(b[j]) != RowKey(a, i))
  }

  /** Every row of one page has a row of the same base and number on the other, and the two agree. */
  predicate Covers(a: seq<Control>, b: seq<Control>) {
    forall i :: 0 <= i < |a| ==> Matched(a, i, b)
  }

  predicate Matched(a: seq<Control>, i: nat, b: seq<Control>)
    requires i < |a|
  {
    exists j :: 0 <= j < |b| && Matches(a, i, b, j)
  }

  predicate Matches(a: seq<Control>, i: nat, b: seq<Control>, j: nat)
    requires i < |a| && j < |b|
  {
    Base(a[i]) == Base(b[j]) && Occurrence(a, i) == Occurrence(b, j) && Agree(a[i], b[j])
  }

  lemma {:induction false} KeyedRow(cs: seq<Control>, i: nat)
    requires i < |cs| && !Aliased(cs)
    ensures RowKey(cs, i) in Keyed(cs).at && Keyed(cs).at[RowKey(cs, i)] == cs[i]
  {
    KeysDistinctIff(cs);
    hide RowKey, Aliased;
    KeyedKeys(cs, |cs|, RowKey(cs, i));
    assert HasKey(cs, |cs|, RowKey(cs, i));
    var j := KeyedEntry(cs, |cs|, RowKey(cs, i));
  }

  lemma {:induction false} SameKeySameRow(a: seq<Control>, i: nat, b: seq<Control>, j: nat)
    requires i < |a| && j < |b| && Unambiguous(a, b) && RowKey(a, i) == RowKey(b, j)
    ensures Base(a[i]) == Base(b[j]) && Occurrence(a, i) == Occurrence(b, j)
  {
    KeysDiffer(Base(a[i]), Occurrence(a, i), Base(b[j]), Occurrence(b, j));
  }

  /** Every entry of one index is in the other, and the two agree. */
  predicate Contained(a: Index, b: Index) {
    forall k :: k in a.at ==> k in b.at && Agree(a.at[k], b.at[k])
  }

  lemma {:induction false} CoversIff(a: seq<Control>, b: seq<Control>)
    requires !Aliased(a) && !Aliased(b) && Unambiguous(a, b)
    ensures Covers(a, b) <==> Contained(Keyed(a), Keyed(b))
  {
    hide RowKey, Aliased, Unambiguous, Agree;
    if Covers(a, b) {
      forall k | k in Keyed(a).at
        ensures k in Keyed(b).at && Agree(Keyed(a).at[k], Keyed(b).at[k])
      {
        var i := KeyedEntry(a, |a|, k);
        assert Matched(a, i, b);
        var j :| 0 <= j < |b| && Matches(a, i, b, j);
        MatchedKeys(a, i, b, j);
        KeyedRow(b, j);
      }
    }
    if Contained(Keyed(a), Keyed(b)) {
      forall i | 0 <= i < |a|
        ensures Matched(a, i, b)
      {
        KeyedRow(a, i);
        var j := KeyedEntry(b, |b|, RowKey(a, i));
        SameKeySameRow(a, i, b, j);
        assert Matches(a, i, b, j);
      }
    }
  }

  lemma {:induction false} MatchedKeys(a: seq<Control>, i: nat, b: seq<Control>, j: nat)
    requires i < |a| && j < |b| && Matches(a, i, b, j)
    ensures RowKey(a, i) == RowKey(b, j)
  {
  }

  /**
    The delta is complete: it is empty exactly when every row has its counterpart, base by
    base and number by number, with the same value, check mark and disabled state.
  */
  lemma {:induction false} DeltaComplete(a: seq<Control>, b: seq<Control>)
    requires !Aliased(a) && !Aliased(b) && Unambiguous(a, b)
    ensures NoDifference(Keyed(a), Keyed(b)) <==> Covers(a, b) && Covers(b, a)
  {
    CoversIff(a, b);
    CoversIff(b, a);
    KeysAreEntries(a);
    KeysAreEntries(b);
    hide Keyed, Covers;
  }

  /** Matched rows are as many on both pages, whatever the base key. */
  lemma {:induction false} CoveredCounts(a: seq<Control>, b: seq<Control>, base: string)
    requires Covers(a, b)
    ensures Count(a, base) <= Count(b, base)
  {
    if Count(a, base) > 0 {
      var i := NthRow(a, base, Count(a, base) - 1);
      assert Matched(a, i, b);
      var j :| 0 <= j < |b| && Matches(a, i, b, j);
      RowWithin(b, j);
    }
  }

  lemma {:induction false} CountUpdate(cs: seq<Control>, i: nat, c: Control, n: nat, base: string)
    requires i < |cs| && n <= |cs| && Base(c) == Base(cs[i])
    ensures Count(cs[i := c][..n], base) == Count(cs[..n], base)
  {
    if n > 0 {
      CountUpdate(cs, i, c, n - 1, base);
      assert cs[..n][..n - 1] == cs[..n - 1];
      assert cs[i := c][..n][..n - 1] == cs[i := c][..n - 1];
    }
  }

  lemma {:induction false} SameKeysAfter(cs: seq<Control>, i: nat, c: Control)
    requires i < |cs| && Base(c) == Base(cs[i])
    ensures forall j :: 0 <= j < |cs| ==> RowKey(cs[i := c], j) == RowKey(cs, j)
  {
    forall j | 0 <= j < |cs|
      ensures RowKey(cs[i := c], j) == RowKey(cs, j)
    {
      CountUpdate(cs, i, c, j, Base(cs[j]));
    }
  }

  /** A later row has the same key and takes the entry. */
  predicate Overwritten(cs: seq<Control>, i: nat)
    requires i < |cs|
  {
    exists j :: i < j < |cs| && RowKey(cs, j) == RowKey(cs, i)
  }

  /** Two pages with the same row keys have the same entries, each filled by the same row. */
  lemma {:induction false} SameEntries(a: seq<Control>, b: seq<Control>, k: string) returns (i: nat)
    requires |a| == |b| && forall j :: 0 <= j < |a| ==> RowKey(a, j) == RowKey(b, j)
    requires k in Keyed(a).at || k in Keyed(b).at
    ensures k in Keyed(a).at && k in Keyed(b).at
    ensures i < |a| && RowKey(a, i) == k && Keyed(a).at[k] == a[i] && Keyed(b).at[k] == b[i]
    ensures forall j :: i < j < |a| ==> RowKey(a, j) != k
  {
    hide RowKey;
    KeyedKeys(a, |a|, k);
    KeyedKeys(b, |b|, k);
    assert HasKey(a, |a|, k) <==> HasKey(b, |b|, k);
    i := KeyedEntry(a, |a|, k);
    var j := KeyedEntry(b, |b|, k);
    assert i == j;
  }

  /** A change of a row goes unreported exactly when a later row has taken its entry. */
  lemma {:induction false} RowChangeSeenIff(cs: seq<Control>, i: nat, c: Control)
    requires i < |cs| && Base(c) == Base(cs[i]) && !Agree(cs[i], c)
    ensures NoDifference(Keyed(cs), Keyed(cs[i := c])) <==> Overwritten(cs, i)
  {
    var next := cs[i := c];
    SameKeysAfter(cs, i, c);
    KeysAreEntries(cs);
    KeysAreEntries(next);
    hide Keyed, RowKey;
    KeyPresent(cs, i);
    var at := SameEntries(cs, next, RowKey(cs, i));
    forall k | k in Keyed(cs).at || k in Keyed(next).at
      ensures k in Keyed(cs).at && k in Keyed(next).at
      ensures Keyed(cs).at[k] == Keyed(next).at[k] || k == RowKey(cs, i)
    {
      var j := SameEntries(cs, next, k);
    }
  }

  lemma {:induction false} KeyPresent(cs: seq<Control>, i: nat)
    requires i < |cs|
    ensures RowKey(cs, i) in Keyed(cs).at
  {
    hide RowKey;
    KeyedKeys(cs, |cs|, RowKey(cs, i));
    assert HasKey(cs, |cs|, RowKey(cs, i));
  }

  /** A change of row i to `c` that keeps its base key. */
  predicate Altering(cs: seq<Control>, i: nat, c: Control) {
    i < |cs| && Base(c) == Base(cs[i]) && !Agree(cs[i], c)
  }

  /** Every change in one of many identical rows is reported exactly when no two rows share an entry. */
  lemma {:induction false} EveryChangeSeenIff(cs: seq<Control>)
    ensures (forall i: nat, c :: Altering(cs, i, c) ==> !NoDifference(Keyed(cs), Keyed(cs[i := c]))) <==> !Aliased(cs)
  {
    KeysDistinctIff(cs);
    if Aliased(cs) {
      var i, j :| 0 <= i < j < |cs| && RowKey(cs, i) == RowKey(cs, j);
      var c := cs[i].(checked := !cs[i].checked);
      assert Overwritten(cs, i);
      RowChangeSeenIff(cs, i, c);
      assert Altering(cs, i, c);
    } else {
      forall i: nat, c | Altering(cs, i, c)
        ensures !NoDifference(Keyed(cs), Keyed(cs[i := c]))
      {
        RowChangeSeenIff(cs, i, c);
      }
    }
  }

  /** Without a row that borrows a sibling's key, a change in one of many identical rows is never lost. */
  lemma {:induction false} RowChangeSeen(cs: seq<Control>, i: nat, c: Control)
    requires !Aliased(cs) && i < |cs| && Base(c) == Base(cs[i]) && !Agree(cs[i], c)
    ensures !NoDifference(Keyed(cs), Keyed(cs[i := c]))
  {
    EveryChangeSeenIff(cs);
    assert Altering(cs, i, c);
  }

  /** Whether a row at the end of the page comes or goes unreported: its key is taken, by a row it agrees with. */
  lemma {:induction false} LastRowUnseenIff(cs: seq<Control>, c: Control)
    ensures var key := RowKey(cs + [c], |cs|);
            (NoDifference(Keyed(cs), Keyed(cs + [c])) <==> key in Keyed(cs).at && Agree(Keyed(cs).at[key], c))
            && (NoDifference(Keyed(cs + [c]), Keyed(cs)) <==> key in Keyed(cs).at && Agree(Keyed(cs).at[key], c))
  {
    var all := cs + [c];
    KeysAreEntries(cs);
    hide RowKey, Keyed;
    assert Keyed(all) == Keyed(cs).Put(RowKey(all, |cs|), c) by { KeyedNext(cs, c); }
    PutUnseenIff(Keyed(cs), RowKey(all, |cs|), c);
  }

  lemma {:induction false} KeyedNext(cs: seq<Control>, c: Control)
    ensures Keyed(cs + [c]) == Keyed(cs).Put(RowKey(cs + [c], |cs|), c)
  {
    hide RowKey;
    KeyedFront(cs, c, |cs|);
  }

  lemma {:induction false} PutUnseenIff(x: Index, key: string, c: Control)
    requires forall k :: k in x.keys <==> k in x.at
    ensures NoDifference(x, x.Put(key, c)) <==> key in x.at && Agree(x.at[key], c)
    ensures NoDifference(x.Put(key, c), x) <==> key in x.at && Agree(x.at[key], c)
  {
    var y := x.Put(key, c);
    assert key in y.keys && key in y.at && y.at[key] == c;
    assert forall k :: k in x.at && k != key ==> k in y.at && y.at[k] == x.at[k];
  }

  lemma {:induction false} KeyedFront(cs: seq<Control>, c: Control, n: nat)
    requires n <= |cs|
    ensures KeyedTo(cs + [c], n) == KeyedTo(cs, n)
  {
    hide RowKey;
    if n > 0 {
      KeyedStep(cs, n);
      KeyedStep(cs + [c], n);
      hide KeyedTo;
      KeyedFront(cs, c, n - 1);
      RowKeyFront(cs, c, n - 1);
    }
  }

  lemma {:induction false} KeyedStep(cs: seq<Control>, n: nat)
    requires 0 < n <= |cs|
    ensures KeyedTo(cs, n) == KeyedTo(cs, n - 1).Put(RowKey(cs, n - 1), cs[n - 1])
  {
    hide RowKey;
  }

  lemma {:induction false} RowKeyFront(cs: seq<Control>, c: Control, i: nat)
    requires i < |cs|
    ensures RowKey(cs + [c], i) == RowKey(cs, i)
  {
    assert (cs + [c])[..i] == cs[..i];
  }

  /** On any page a row named like a numbered sibling that it agrees with can come or vanish without a word. */
  lemma {:induction false} BorrowerHides(cs: seq<Control>, c: Control, j: nat)
    requires !Aliased(cs) && j < |cs| && Base(c) == RowKey(cs, j) && Occurrence(cs, j) > 0 && Agree(cs[j], c)
    ensures NoDifference(Keyed(cs), Keyed(cs + [c])) && NoDifference(Keyed(cs + [c]), Keyed(cs))
  {
    if Count(cs, Base(c)) > 0 {
      var i := NthRow(cs, Base(c), 0);
      assert Borrows(cs, i, j);
      assert false;
    }
    assert (cs + [c])[..|cs|] == cs;
    KeyedRow(cs, j);
    LastRowUnseenIff(cs, c);
  }

  /** With a base key that looks numbered, a row can vanish without a word. */
  lemma {:induction false} AliasHidesARow()
    ensures var row := Control(0, "button", "Select", None, None, None, false, false, false, false, false, false);
            var odd := row.(name := "Select#1");
            Aliased([row, row, odd]) && NoDifference(Keyed([row, row, odd]), Keyed([row, row]))
  {
    var row := Control(0, "button", "Select", None, None, None, false, false, false, false, false, false);
    var odd := row.(name := "Select#1");
    var a, b := [row, row, odd], [row, row];
    AliasKeys(row, odd);
    assert b[..1] == [row] && a[..1] == [row] && a[..2] == b;
    assert [row, row][..1] == [row];
    CountOne(row, Base(odd));
    CountOne(row, Base(row));
    assert Count(b, Base(odd)) == 0 && Occurrence(b, 1) == 1 && Occurrence(a, 1) == 1;
    assert Borrows(a, 2, 1);
    BorrowerHides(b, odd, 1);
    assert b + [odd] == a;
  }

  lemma {:induction false} CountOne(c: Control, base: string)
    ensures Count([c], base) == if Base(c) == base then 1 else 0
  {
    assert [c][..0] == [];
    assert Count([c][..0], base) == 0;
  }

  lemma {:induction false} AliasKeys(row: Control, odd: Control)
    requires row.role == odd.role == "button" && row.href == odd.href == None
    requires row.name == "Select" && odd.name == "Select#1"
    ensures Base(odd) == KeyOf(Base(row), 1) && Base(odd) != Base(row)
  {
    assert Decimal(1) == "1";
    assert "Select#1" == "Select" + "#" + "1";
    assert "button" + ":" + "Select#1" + "" == "button" + ":" + "Select" + "" + "#" + "1";
  }
}
