/**
  What the runtime sends turn after turn (src/runtime/runtime.ts, `transformContext`) and how it
  measures it (src/runtime/prune.ts, `measureContext`). Each turn's compacted list is written
  back over the transcript, so every turn compacts the previous turn's output.
*/
module ContextFeed {
  import opened Common
  import opened Compaction

  function Bytes(ms: seq<Message>, size: Message -> nat, counted: Message -> bool): nat {
    if ms == [] then 0
    else Bytes(ms[..|ms| - 1], size, counted) + (if counted(ms[|ms| - 1]) then size(ms[|ms| - 1]) else 0)
  }

  const IsStale: Message -> bool := (m: Message) => IsPlaceholder(m.content, PLACEHOLDER)
  const IsFull: Message -> bool := (m: Message) => !IsPlaceholder(m.content, PLACEHOLDER)

  const Everything: Message -> bool := (m: Message) => true

  /** Bytes are of the messages that count, each once. */
  lemma {:induction false} BytesAdd(a: seq<Message>, b: seq<Message>, size: Message -> nat, counted: Message -> bool)
    ensures Bytes(a + b, size, counted) == Bytes(a, size, counted) + Bytes(b, size, counted)
    ensures |b| == 1 ==> Bytes(b, size, counted) == if counted(b[0]) then size(b[0]) else 0
  {
    if b == [] {
      assert a + b == a;
    } else {
      assert (a + b)[..|a + b| - 1] == a + b[..|b| - 1];
      BytesAdd(a, b[..|b| - 1], size, counted);
    }
  }

  /** A message is stale when the placeholder is its whole text; what is not stale is full, and nothing else is sent. */
  lemma {:induction false} BytesPartition(ms: seq<Message>, size: Message -> nat)
    ensures Bytes(ms, size, IsFull) + Bytes(ms, size, IsStale) == Bytes(ms, size, Everything)
    ensures forall m :: IsStale(m) <==> ExtractText(m.content) == Some(PLACEHOLDER)
  {
    if ms != [] {
      BytesPartition(ms[..|ms| - 1], size);
    }
  }

  datatype Measured = Measured(bytes: nat, liveBytes: nat, placeholderBytes: nat, rewrittenFrom: int)

  predicate SameContent(before: seq<Message>, after: seq<Message>, i: nat) {
    i < |before| && i < |after| ==> before[i].content == after[i].content
  }

  /** The first position whose content is not the one sent last time. */
  ghost predicate FirstRewrite(before: seq<Message>, after: seq<Message>, r: int) {
    if r < 0 then
      r == -1 && forall i: nat :: i < |after| ==> SameContent(before, after, i)
    else
      && r < |after| && !SameContent(before, after, r)
      && forall i: nat :: i < r ==> SameContent(before, after, i)
  }

  /** There is one first rewrite, and none exactly when the new list resends the old contents as far as both go. */
  lemma {:induction false} FirstRewriteIs(before: seq<Message>, after: seq<Message>, r: int, s: int)
    requires FirstRewrite(before, after, r)
    ensures FirstRewrite(before, after, s) ==> r == s
    ensures r == -1 || (0 <= r < |before| && r < |after| && before[r].content != after[r].content)
    ensures forall i :: 0 <= i < |before| && i < |after| && (r == -1 || i < r) ==> before[i].content == after[i].content
  {
    forall i | 0 <= i < |before| && i < |after| && (r == -1 || i < r)
      ensures before[i].content == after[i].content
    {
      assert SameContent(before, after, i);
    }
  }

  method MeasureContext(before: seq<Message>, after: seq<Message>, size: Message -> nat) returns (m: Measured)
    ensures m.bytes == m.liveBytes + m.placeholderBytes == Bytes(after, size, Everything)
    ensures m.liveBytes == Bytes(after, size, IsFull)
    ensures m.placeholderBytes == Bytes(after, size, IsStale)
    ensures FirstRewrite(before, after, m.rewrittenFrom)
  {
    var bytes, liveBytes, placeholderBytes, rewrittenFrom := 0, 0, 0, -1;
    for index := 0 to |after|
      invariant bytes == liveBytes + placeholderBytes
      invariant liveBytes == Bytes(after[..index], size, IsFull)
      invariant placeholderBytes == Bytes(after[..index], size, IsStale)
      invariant rewrittenFrom < 0 ==>
                  rewrittenFrom == -1 && forall i: nat :: i < index ==> SameContent(before, after, i)
      invariant rewrittenFrom >= 0 ==>
                  && rewrittenFrom < index && !SameContent(before, after, rewrittenFrom)
                  && forall i: nat :: i < rewrittenFrom ==> SameContent(before, after, i)
    {
      assert after[..index + 1][..index] == after[..index];
      var message := after[index];
      bytes := bytes + size(message);
      if IsPlaceholder(message.content, PLACEHOLDER) {
        placeholderBytes := placeholderBytes + size(message);
      } else {
        liveBytes := liveBytes + size(message);
      }
      if rewrittenFrom < 0 && index < |before| && before[index].content != message.content {
        rewrittenFrom := index;
      }
    }
    assert after[..|after|] == after;
    BytesPartition(after, size);
    m := Measured(bytes, liveBytes, placeholderBytes, rewrittenFrom);
  }

  /** `next` resends `sent` as it was, but for live snapshots that are now their placeholders. */
  ghost predicate OnlyDrops(sent: seq<Message>, next: seq<Message>, o: Options) {
    && |sent| <= |next|
    && forall i :: 0 <= i < |sent| ==>
         next[i] == sent[i] || (Live(sent[i], o) && next[i] == Dropped(sent[i], o))
  }

  /** The coach boundary holds at every point of the history. */
  predicate EachHolds(history: seq<Message>, o: Options) {
    forall n :: 0 <= n <= |history| ==> BoundaryHolds(history[..n], o)
  }

  lemma {:induction false} EachHoldsPrefix(a: seq<Message>, b: seq<Message>, o: Options)
    requires EachHolds(a + b, o)
    ensures EachHolds(a, o)
  {
    hide BoundaryHolds;
    forall n | 0 <= n <= |a|
      ensures BoundaryHolds(a[..n], o)
    {
      assert (a + b)[..n] == a[..n];
    }
  }

  /** The transcript of one agent and what its provider saw last. */
  class Feed {
    const o: Options
    const prune: bool
    const size: Message -> nat
    var messages: seq<Message>
    var previousSent: seq<Message>
    ghost var history: seq<Message>  // everything ever appended, never rewritten

    ghost function Exact(ms: seq<Message>): seq<Message> {
      Turn(prune, ms, o)
    }

    ghost predicate Faithful() reads this {
      AllShaped(history, o) && EachHolds(history, o)
    }

    ghost predicate Valid() reads this {
      && |previousSent| <= |messages| == |history|
      && messages == previousSent + history[|previousSent|..]
      && Reshaped(previousSent, o)
      && (Faithful() || !prune ==> previousSent == Exact(history[..|previousSent|]))
    }

    constructor (opening: seq<Message>, o: Options, prune: bool, size: Message -> nat)
      ensures Valid() && history == messages == opening && previousSent == []
      ensures this.o == o && this.prune == prune
    {
      this.o, this.prune, this.size := o, prune, size;
      messages, previousSent, history := opening, [], opening;
      new;
      assert history[..0] == [];
    }

    method Append(ms: seq<Message>)
      requires Valid()
      modifies this
      ensures Valid() && history == old(history) + ms && previousSent == old(previousSent)
      ensures messages == old(messages) + ms
    {
      hide BoundaryHolds;
      if EachHolds(history + ms, o) {
        EachHoldsPrefix(history, ms, o);
      }
      messages := messages + ms;
      history := history + ms;
      assert history[..|previousSent|] == old(history)[..|previousSent|];
      assert forall m :: m in old(history) ==> m in history;
    }

    method TransformContext() returns (sent: seq<Message>, measured: Measured)
      requires Valid()
      modifies this
      ensures Valid() && history == old(history)
      ensures sent == messages == previousSent && |sent| == |history|
      ensures Faithful() || !prune ==> sent == Exact(history)
      ensures OnlyDrops(old(previousSent), sent, o)
      ensures !prune ==> old(previousSent) <= sent
      ensures FirstRewrite(old(previousSent), sent, measured.rewrittenFrom)
      ensures var r := measured.rewrittenFrom;
              r == -1 || (0 <= r < |old(previousSent)|
                          && Live(old(previousSent)[r], o) && sent[r] == Dropped(old(previousSent)[r], o))
    {
      hide Compact, NormAll, Reshaped, OnlyDrops, AllShaped, EachHolds, FirstRewrite, Live, Dropped;
      var compacted := messages;
      if prune {
        compacted := CompactFinishedWork(messages, o);
        CompactReshaped(messages, o);
      }
      var shaped := NormAll(compacted, o);
      assert shaped == Turn(prune, messages, o) by {
        if prune {
          ReshapedFixed(compacted, o);
        }
      }
      TurnKeeps(prune, previousSent, history, o);
      measured := MeasureContext(previousSent, shaped, size);
      RewriteIsDrop(previousSent, shaped, o, measured.rewrittenFrom);
      previousSent := shaped;
      messages := shaped;
      assert history[..|shaped|] == history;
      assert history[|shaped|..] == [] && shaped + [] == shaped;
      return shaped, measured;
    }
  }

  /** What one turn makes of the transcript. */
  function Turn(prune: bool, ms: seq<Message>, o: Options): (r: seq<Message>)
    ensures |r| == |ms|
  {
    if prune then Compact(ms, o) else NormAll(ms, o)
  }

  lemma {:induction false} ReshapedFixed(ms: seq<Message>, o: Options)
    requires Reshaped(ms, o)
    ensures NormAll(ms, o) == ms
  {}

  lemma {:induction false} TurnKeeps(prune: bool, sent: seq<Message>, history: seq<Message>, o: Options)
    requires |sent| <= |history| && Reshaped(sent, o)
    ensures var next := Turn(prune, sent + history[|sent|..], o);
            && Reshaped(next, o) && OnlyDrops(sent, next, o) && (!prune ==> sent <= next)
            && ((AllShaped(history, o) && EachHolds(history, o)) || !prune ==>
                  sent == Turn(prune, history[..|sent|], o) ==> next == Turn(prune, history, o))
  {
    hide Compact, NormAll, Reshaped, OnlyDrops, AllShaped, EachHolds;
    var pending := history[|sent|..];
    SendsExact(prune, sent, history, o);
    SendsDrops(prune, sent, pending, o);
    if prune {
      CompactReshaped(sent + pending, o);
    } else {
      AllReshaped(sent + pending, o);
      ExtendedDrops(sent, NormAll(sent + pending, o), o);
    }
  }

  lemma {:induction false} ExtendedDrops(sent: seq<Message>, next: seq<Message>, o: Options)
    requires sent <= next
    ensures OnlyDrops(sent, next, o)
  {}

  /** The first position that differs is a snapshot that was live. */
  lemma {:induction false} RewriteIsDrop(sent: seq<Message>, next: seq<Message>, o: Options, r: int)
    requires OnlyDrops(sent, next, o) && FirstRewrite(sent, next, r)
    ensures r == -1 || (0 <= r < |sent| && Live(sent[r], o) && next[r] == Dropped(sent[r], o))
  {}

  lemma {:induction false} AllReshaped(ms: seq<Message>, o: Options)
    ensures Reshaped(NormAll(ms, o), o)
  {
    forall i | 0 <= i < |ms|
      ensures Norm(NormAll(ms, o)[i], o) == NormAll(ms, o)[i]
    {
      NormTwice(ms[i], o);
    }
  }

  lemma {:induction false} NormsAgain(sent: seq<Message>, history: seq<Message>, o: Options)
    requires |sent| <= |history| && sent == NormAll(history[..|sent|], o)
    ensures NormAll(sent + history[|sent|..], o) == NormAll(history, o)
  {
    hide Norm;
    forall i | 0 <= i < |history|
      ensures NormAll(sent + history[|sent|..], o)[i] == NormAll(history, o)[i]
    {
      NormTwice(history[i], o);
    }
  }

  lemma {:induction false} SendsExact(prune: bool, sent: seq<Message>, history: seq<Message>, o: Options)
    requires |sent| <= |history|
    ensures prune && AllShaped(history, o) && EachHolds(history, o) && sent == Compact(history[..|sent|], o)
            ==> Compact(sent + history[|sent|..], o) == Compact(history, o)
    ensures sent == NormAll(history[..|sent|], o)
            ==> NormAll(sent + history[|sent|..], o) == NormAll(history, o)
  {
    hide Compact, NormAll, BoundaryHolds, Shaped;
    var xs, ys := history[..|sent|], history[|sent|..];
    assert xs + ys == history;
    if AllShaped(history, o) && EachHolds(history, o) {
      assert AllShaped(xs, o);
      IncrementalExact(xs, ys, o);
    }
    if sent == NormAll(xs, o) {
      NormsAgain(sent, history, o);
    }
  }

  lemma {:induction false} SendsDrops(prune: bool, sent: seq<Message>, ys: seq<Message>, o: Options)
    requires Reshaped(sent, o)
    ensures OnlyDrops(sent, Compact(sent + ys, o), o)
    ensures sent <= NormAll(sent + ys, o)
    ensures forall i :: 0 <= i < |sent| && Compact(sent + ys, o)[i].content != sent[i].content
                        ==> Live(sent[i], o) && Compact(sent + ys, o)[i] == Dropped(sent[i], o)
  {
    forall i | 0 <= i < |sent|
      ensures var next := Compact(sent + ys, o)[i];
              next == sent[i] || (Live(sent[i], o) && next == Dropped(sent[i], o))
    {
      ResentStable(sent, ys, o, i);
    }
    assert forall i :: 0 <= i < |sent| ==> NormAll(sent + ys, o)[i] == sent[i];
  }

  // ----- whole runs

  function Flatten(turns: seq<seq<Message>>): seq<Message> {
    if turns == [] then [] else Flatten(turns[..|turns| - 1]) + turns[|turns| - 1]
  }

  /** What the last of these turns sends when every turn compacts the output of the one before. */
  function Fed(turns: seq<seq<Message>>, o: Options): seq<Message> {
    if turns == [] then []
    else Compact(Fed(turns[..|turns| - 1], o) + turns[|turns| - 1], o)
  }

  /** If boundaries hold, the write-back sends what compacting the whole history would, after any turns. */
  lemma {:induction false} RunExact(turns: seq<seq<Message>>, o: Options)
    requires AllShaped(Flatten(turns), o)
    requires forall t :: 0 <= t < |turns| ==> BoundaryHolds(Flatten(turns[..t]), o)
    ensures Fed(turns, o) == Compact(Flatten(turns), o)
  {
    if turns != [] {
      var before := turns[..|turns| - 1];
      assert forall m :: m in Flatten(before) ==> m in Flatten(turns);
      assert forall t :: 0 <= t < |before| ==> before[..t] == turns[..t];
      RunExact(before, o);
      IncrementalExact(Flatten(before), turns[|turns| - 1], o);
    }
  }

  /** The contexts sent over a run, turn by turn. */
  function Sends(turns: seq<seq<Message>>, o: Options): (r: seq<seq<Message>>)
    ensures |r| == |turns|
  {
    seq(|turns|, t requires 0 <= t < |turns| => Fed(turns[..t + 1], o))
  }

  ghost predicate Chain(sends: seq<seq<Message>>, o: Options) {
    forall t :: 0 < t < |sends| ==> OnlyDrops(sends[t - 1], sends[t], o)
  }

  lemma {:induction false} RunIsChain(turns: seq<seq<Message>>, o: Options)
    ensures Chain(Sends(turns, o), o)
  {
    forall t | 0 < t < |turns|
      ensures OnlyDrops(Fed(turns[..t], o), Fed(turns[..t + 1], o), o)
    {
      assert turns[..t + 1][..t] == turns[..t];
      CompactReshaped(Fed(turns[..t][..t - 1], o) + turns[..t][t - 1], o);
      SendsDrops(true, Fed(turns[..t], o), turns[t], o);
    }
  }

  lemma {:induction false} DroppedStays(sends: seq<seq<Message>>, t: nat, u: nat, o: Options, i: nat)
    requires Chain(sends, o)
    requires t <= u < |sends| && i < |sends[t]|
    requires !Live(sends[t][i], o)
    ensures i < |sends[u]| && sends[u][i] == sends[t][i]
    decreases u - t
  {
    if t < u {
      DroppedStays(sends, t, u - 1, o, i);
      assert OnlyDrops(sends[u - 1], sends[u], o);
    }
  }

  /** Once a message has been rewritten, no later turn of the run touches it again. */
  lemma {:induction false} RunRewritesOnce(turns: seq<seq<Message>>, t: nat, u: nat, o: Options, i: nat)
    requires t + 1 <= u < |turns|
    requires var s := Sends(turns, o); i < |s[t]| && (i < |s[t + 1]| ==> s[t + 1][i] != s[t][i])
    ensures var s := Sends(turns, o);
            && i < |s[t + 1]| && i < |s[u]|
            && Live(s[t][i], o)
            && s[u][i] == s[t + 1][i] == Dropped(s[t][i], o)
  {
    var s := Sends(turns, o);
    RunIsChain(turns, o);
    assert OnlyDrops(s[t], s[t + 1], o);
    NormTwice(s[t][i], o);
    DroppedStays(s, t + 1, u, o, i);
  }
}
