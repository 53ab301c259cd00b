/** When a row that comes or goes anywhere on the page is missing from the page delta (src/core/diff.ts). */
module RowLoss {
  import opened Controls
  import opened Delta

  function Without(cs: seq<Control>, i: nat): seq<Control>
    requires i < |cs|
  {
    cs[..i] + cs[i + 1..]
  }

  lemma {:induction false} CountWithout(cs: seq<Control>, i: nat, base: string)
    requires i < |cs|
    ensures Count(Without(cs, i), base) == Count(cs, base) - if Base(cs[i]) == base then 1 else 0
  {
    hide Base;
    var n := |cs| - 1;
    if i == n {
      assert Without(cs, i) == cs[..n];
    } else {
      CountWithout(cs[..n], i, base);
      WithoutFront(cs, i);
      hide Without;
    }
  }

  lemma {:induction false} WithoutFront(cs: seq<Control>, i: nat)
    requires i < |cs| - 1
    ensures var left, n := Without(cs, i), |cs| - 1;
            |left| == n && left[..n - 1] == Without(cs[..n], i) && left[n - 1] == cs[n] && cs[..n][i] == cs[i]
  {}

  /** The key that row `j` has once row `i` is gone: later siblings move up by one. */
  function KeyAfter(cs: seq<Control>, i: nat, j: nat): string
    requires i < |cs| && j < |cs|
  {
    if j > i && Base(cs[j]) == Base(cs[i]) && Occurrence(cs, j) > 0 then KeyOf(Base(cs[j]), Occurrence(cs, j) - 1)
    else RowKey(cs, j)
  }

  /** Where a row of the shorter page stood. */
  function Place(i: nat, j: nat): nat {
    if j < i then j else j + 1
  }

  lemma {:induction false} KeyWithout(cs: seq<Control>, i: nat, j: nat)
    requires i < |cs| && j < |cs| - 1
    ensures Without(cs, i)[j] == cs[Place(i, j)] && RowKey(Without(cs, i), j) == KeyAfter(cs, i, Place(i, j))
  {
    var left, p := Without(cs, i), Place(i, j);
    if j < i {
      assert left[..j] == cs[..j];
    } else {
      assert left[..j] == Without(cs[..p], i);
      CountWithout(cs[..p], i, Base(cs[p]));
    }
  }

  lemma {:induction false} SameBaseKeys(base: string, m: nat, n: nat)
    requires KeyOf(base, m) == KeyOf(base, n)
    ensures m == n
  {
    KeysDiffer(base, m, base, n);
  }

  /** The key that goes with row `i`: that of its last sibling. */
  function LostKey(cs: seq<Control>, i: nat): string
    requires i < |cs|
  {
    RowWithin(cs, i);
    KeyOf(Base(cs[i]), Count(cs, Base(cs[i])) - 1)
  }

  /** A row with another base key has it too. */
  predicate LostKeyHeld(cs: seq<Control>, i: nat)
    requires i < |cs|
  {
    exists j :: 0 <= j < |cs| && Base(cs[j]) != Base(cs[i]) && RowKey(cs, j) == LostKey(cs, i)
  }

  lemma {:induction false} KeyAmong(cs: seq<Control>, base: string, n: nat)
    requires n < Count(cs, base)
    ensures HasKey(cs, |cs|, KeyOf(base, n))
  {
    hide KeyOf, Count, Base;
    var i := NthRow(cs, base, n);
    assert RowKey(cs, i) == KeyOf(base, n);
  }

  /** Every other key stays, and no key is new. */
  lemma {:induction false} KeysWithout(cs: seq<Control>, i: nat, k: string)
    requires i < |cs|
    ensures var left := Without(cs, i);
            && (HasKey(left, |left|, k) ==> HasKey(cs, |cs|, k))
            && (HasKey(cs, |cs|, k) && k != LostKey(cs, i) ==> HasKey(left, |left|, k))
  {
    hide RowKey, KeyOf;
    var left := Without(cs, i);
    if HasKey(left, |left|, k) {
      var j :| 0 <= j < |left| && RowKey(left, j) == k;
      KeyWithin(left, j);
      CountWithout(cs, i, Base(left[j]));
      KeyAmong(cs, Base(left[j]), Occurrence(left, j));
    }
    if HasKey(cs, |cs|, k) && k != LostKey(cs, i) {
      var j :| 0 <= j < |cs| && RowKey(cs, j) == k;
      KeyWithin(cs, j);
      CountWithout(cs, i, Base(cs[j]));
      KeyAmong(left, Base(cs[j]), Occurrence(cs, j));
    }
  }

  lemma {:induction false} KeyWithin(cs: seq<Control>, j: nat)
    requires j < |cs|
    ensures RowKey(cs, j) == KeyOf(Base(cs[j]), Occurrence(cs, j)) && Occurrence(cs, j) < Count(cs, Base(cs[j]))
  {
    RowWithin(cs, j);
  }

  lemma {:induction false} LostKeyStaysIff(cs: seq<Control>, i: nat)
    requires i < |cs|
    ensures var left := Without(cs, i); HasKey(left, |left|, LostKey(cs, i)) <==> LostKeyHeld(cs, i)
  {
    hide RowKey, KeyOf, LostKey;
    var left, k, base := Without(cs, i), LostKey(cs, i), Base(cs[i]);
    LastSiblingKey(cs, i);
    if HasKey(left, |left|, k) {
      var j :| 0 <= j < |left| && RowKey(left, j) == k;
      KeyWithin(left, j);
      CountWithout(cs, i, Base(left[j]));
      if Base(left[j]) == base {
        SameBaseKeys(base, Occurrence(left, j), Count(cs, base) - 1);
        assert false;
      }
      var l := NthRow(cs, Base(left[j]), Occurrence(left, j));
      KeyWithin(cs, l);
    }
    if j :| 0 <= j < |cs| && Base(cs[j]) != base && RowKey(cs, j) == k {
      KeyWithin(cs, j);
      CountWithout(cs, i, Base(cs[j]));
      KeyAmong(left, Base(cs[j]), Occurrence(cs, j));
    }
  }

  lemma {:induction false} LastSiblingKey(cs: seq<Control>, i: nat)
    requires i < |cs|
    ensures Count(cs, Base(cs[i])) > 0 && LostKey(cs, i) == KeyOf(Base(cs[i]), Count(cs, Base(cs[i])) - 1)
    ensures HasKey(cs, |cs|, LostKey(cs, i))
  {
    hide KeyOf, Base, Count, HasKey, Occurrence, RowKey;
    RowWithin(cs, i);
    KeyAmong(cs, Base(cs[i]), Count(cs, Base(cs[i])) - 1);
  }

  /** Once row `i` is gone, a later row takes the entry of row `l`. */
  predicate OverwrittenAfter(cs: seq<Control>, i: nat, l: nat)
    requires i < |cs| && l < |cs|
  {
    exists m :: l < m < |cs| && m != i && KeyAfter(cs, i, m) == KeyAfter(cs, i, l)
  }

  /** Row `j` fills an entry that row `l` fills once row `i` is gone. */
  predicate SameEntry(cs: seq<Control>, i: nat, j: nat, l: nat)
    requires i < |cs| && j < |cs| && l < |cs|
  {
    l != i && RowKey(cs, j) == KeyAfter(cs, i, l) && !Overwritten(cs, j) && !OverwrittenAfter(cs, i, l)
  }

  /** The rows that fill an entry before and after row `i` goes agree. */
  predicate EntriesAgree(cs: seq<Control>, i: nat)
    requires i < |cs|
  {
    forall j, l :: 0 <= j < |cs| && 0 <= l < |cs| && SameEntry(cs, i, j, l) ==> Agree(cs[j], cs[l])
  }

  /** The row that fills an entry, before and after. */
  lemma {:induction false} FilledBefore(cs: seq<Control>, j: nat)
    requires j < |cs| && !Overwritten(cs, j)
    ensures RowKey(cs, j) in Keyed(cs).at && Keyed(cs).at[RowKey(cs, j)] == cs[j]
  {
    hide RowKey;
    KeyPresent(cs, j);
    var i := KeyedEntry(cs, |cs|, RowKey(cs, j));
  }

  lemma {:induction false} FillerBefore(cs: seq<Control>, k: string) returns (j: nat)
    requires k in Keyed(cs).at
    ensures j < |cs| && !Overwritten(cs, j) && RowKey(cs, j) == k && Keyed(cs).at[k] == cs[j]
  {
    hide RowKey;
    j := KeyedEntry(cs, |cs|, k);
  }

  lemma {:induction false} FilledAfter(cs: seq<Control>, i: nat, l: nat)
    requires i < |cs| && l < |cs| && l != i && !OverwrittenAfter(cs, i, l)
    ensures var left, k := Without(cs, i), KeyAfter(cs, i, l); k in Keyed(left).at && Keyed(left).at[k] == cs[l]
  {
    hide RowKey, KeyAfter;
    var left := Without(cs, i);
    var j: nat := if l < i then l else l - 1;
    KeyWithout(cs, i, j);
    forall m | j < m < |left|
      ensures RowKey(left, m) != RowKey(left, j)
    {
      KeyWithout(cs, i, m);
    }
    FilledBefore(left, j);
  }

  lemma {:induction false} FillerAfter(cs: seq<Control>, i: nat, k: string) returns (l: nat)
    requires i < |cs| && k in Keyed(Without(cs, i)).at
    ensures l < |cs| && l != i && !OverwrittenAfter(cs, i, l) && KeyAfter(cs, i, l) == k
    ensures Keyed(Without(cs, i)).at[k] == cs[l]
  {
    hide RowKey, KeyAfter, Keyed;
    var left := Without(cs, i);
    var j := FillerBefore(left, k);
    l := Place(i, j);
    KeyWithout(cs, i, j);
    forall m | l < m < |cs| && m != i
      ensures KeyAfter(cs, i, m) != k
    {
      var n: nat := if m < i then m else m - 1;
      KeyWithout(cs, i, n);
      assert !Overwritten(left, j);
    }
  }

  lemma {:induction false} EntriesAgreeIff(cs: seq<Control>, i: nat)
    requires i < |cs|
    ensures var before, after := Keyed(cs), Keyed(Without(cs, i));
            EntriesAgree(cs, i)
            <==> forall k :: k in after.at && k in before.at ==> Agree(before.at[k], after.at[k])
  {
    hide RowKey, KeyAfter, Keyed, Overwritten, OverwrittenAfter, Agree;
    var before, after := Keyed(cs), Keyed(Without(cs, i));
    if EntriesAgree(cs, i) {
      forall k | k in after.at && k in before.at
        ensures Agree(before.at[k], after.at[k])
      {
        var j := FillerBefore(cs, k);
        var l := FillerAfter(cs, i, k);
        assert SameEntry(cs, i, j, l);
      }
    } else {
      var j, l :| 0 <= j < |cs| && 0 <= l < |cs| && SameEntry(cs, i, j, l) && !Agree(cs[j], cs[l]);
      FilledBefore(cs, j);
      FilledAfter(cs, i, l);
    }
  }

  /** A row comes unreported exactly when it would go unreported. */
  lemma {:induction false} ComesAsGoes(before: Index, after: Index)
    requires forall k :: k in before.keys <==> k in before.at
    requires forall k :: k in after.keys <==> k in after.at
    ensures NoDifference(before, after) <==> NoDifference(after, before)
  {}

  lemma {:induction false} RowGoesIff(cs: seq<Control>, i: nat)
    requires i < |cs|
    ensures NoDifference(Keyed(cs), Keyed(Without(cs, i))) <==> LostKeyHeld(cs, i) && EntriesAgree(cs, i)
  {
    var left := Without(cs, i);
    EntriesAgreeIff(cs, i);
    KeysAreEntries(cs);
    KeysAreEntries(left);
    LastSiblingKey(cs, i);
    LostKeyStaysIff(cs, i);
    hide RowKey, LostKey, LostKeyHeld, EntriesAgree, HasKey, Agree, Without;
    forall k
      ensures k in Keyed(left).at ==> k in Keyed(cs).at
      ensures k in Keyed(cs).at && k != LostKey(cs, i) ==> k in Keyed(left).at
    {
      KeysWithout(cs, i, k);
      KeyedKeys(cs, |cs|, k);
      KeyedKeys(left, |left|, k);
    }
    KeyedKeys(cs, |cs|, LostKey(cs, i));
    KeyedKeys(left, |left|, LostKey(cs, i));
  }

  /**
    A row, wherever it stands, comes or goes unreported exactly when a row with another base key holds
    the key of its last sibling, and every entry is filled with and without it by rows that agree.
  */
  lemma {:induction false} RowLossUnseenIff(cs: seq<Control>, i: nat)
    requires i < |cs|
    ensures NoDifference(Keyed(cs), Keyed(Without(cs, i))) <==> LostKeyHeld(cs, i) && EntriesAgree(cs, i)
    ensures NoDifference(Keyed(Without(cs, i)), Keyed(cs)) <==> LostKeyHeld(cs, i) && EntriesAgree(cs, i)
  {
    var left := Without(cs, i);
    KeysAreEntries(cs);
    KeysAreEntries(left);
    hide NoDifference, LostKeyHeld, EntriesAgree, Without, Keyed;
    ComesAsGoes(Keyed(cs), Keyed(left));
    RowGoesIff(cs, i);
  }

  /** Without a row that borrows a sibling's key, no row comes or goes unreported. */
  lemma {:induction false} RowLossSeen(cs: seq<Control>, i: nat)
    requires !Aliased(cs) && i < |cs|
    ensures !NoDifference(Keyed(cs), Keyed(Without(cs, i))) && !NoDifference(Keyed(Without(cs, i)), Keyed(cs))
  {
    hide RowKey, Keyed, Without, EntriesAgree, KeyOf;
    RowLossUnseenIff(cs, i);
    if j :| 0 <= j < |cs| && Base(cs[j]) != Base(cs[i]) && RowKey(cs, j) == LostKey(cs, i) {
      LastSiblingKey(cs, i);
      var l := NthRow(cs, Base(cs[i]), Count(cs, Base(cs[i])) - 1);
      KeyWithin(cs, l);
      RowKeysClash(cs, j, l);
    }
  }

  lemma {:induction false} TopSlices(cs: seq<Control>, c: Control, m: nat)
    requires m < |cs|
    ensures var all := [c] + cs;
            all[m + 1] == cs[m] && Without(all, 0) == cs && |all[..m + 1]| > 0 && all[..m + 1][0] == c
            && Without(all[..m + 1], 0) == cs[..m]
  {}

  lemma {:induction false} BelowTop(cs: seq<Control>, c: Control, m: nat)
    requires m < |cs| && Count(cs, Base(c)) == 0
    ensures var all := [c] + cs;
            && all[m + 1] == cs[m] && Base(cs[m]) != Base(c)
            && RowKey(all, m + 1) == RowKey(cs, m) && KeyAfter(all, 0, m + 1) == RowKey(cs, m)
  {
    TopSlices(cs, c, m);
    hide KeyOf, Base, Count, Without;
    var all := [c] + cs;
    RowWithin(cs, m);
    CountWithout(all[..m + 1], 0, Base(cs[m]));
  }

  lemma {:induction false} AtTop(cs: seq<Control>, c: Control)
    requires Count(cs, Base(c)) == 0
    ensures var all := [c] + cs; RowKey(all, 0) == LostKey(all, 0) == Base(c)
  {
    hide Base;
    var all := [c] + cs;
    assert Without(all, 0) == cs && all[..0] == [];
    CountWithout(all, 0, Base(c));
  }

  /** A row at the top that is named like a later sibling hides, whatever it shows. */
  lemma {:induction false} TopRowHides(cs: seq<Control>, c: Control, j: nat)
    requires j < |cs| && Base(c) == RowKey(cs, j) && Count(cs, Base(c)) == 0
    ensures NoDifference(Keyed([c] + cs), Keyed(cs)) && NoDifference(Keyed(cs), Keyed([c] + cs))
  {
    hide RowKey, Keyed, LostKeyHeld, EntriesAgree, Base, Count, NoDifference;
    var all := [c] + cs;
    TopKeyHeld(cs, c, j);
    TopEntriesAgree(cs, c, j);
    assert Without(all, 0) == cs;
    RowLossUnseenIff(all, 0);
  }

  lemma {:induction false} TopKeyHeld(cs: seq<Control>, c: Control, j: nat)
    requires j < |cs| && Base(c) == RowKey(cs, j) && Count(cs, Base(c)) == 0
    ensures LostKeyHeld([c] + cs, 0) && Overwritten([c] + cs, 0)
  {
    hide RowKey, LostKey, KeyAfter, Base, Count;
    AtTop(cs, c);
    BelowTop(cs, c, j);
  }

  lemma {:induction false} TopEntriesAgree(cs: seq<Control>, c: Control, j: nat)
    requires j < |cs| && Base(c) == RowKey(cs, j) && Count(cs, Base(c)) == 0
    ensures EntriesAgree([c] + cs, 0)
  {
    hide RowKey, KeyAfter, Base, Count, Agree, OverwrittenAfter, LostKeyHeld;
    var all := [c] + cs;
    TopKeyHeld(cs, c, j);
    hide Overwritten;
    forall m, l | 0 <= m < |all| && 0 <= l < |all| && SameEntry(all, 0, m, l)
      ensures Agree(all[m], all[l])
    {
      SameFiller(cs, c, m - 1, l - 1);
      Agrees(all[m]);
    }
  }

  lemma {:induction false} Agrees(c: Control)
    ensures Agree(c, c)
  {}

  lemma {:induction false} SameFiller(cs: seq<Control>, c: Control, m: nat, l: nat)
    requires m < |cs| && l < |cs| && Count(cs, Base(c)) == 0 && SameEntry([c] + cs, 0, m + 1, l + 1)
    ensures m == l
  {
    hide RowKey, KeyAfter, Base, Count;
    BelowTop(cs, c, m);
    BelowTop(cs, c, l);
    if m < l {
      assert false;
    } else if l < m {
      assert false;
    }
  }
}
