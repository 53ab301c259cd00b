/**
  Context compaction (src/runtime/prune.ts): superseded page snapshots become placeholders,
  segment by segment, and every tool result is reshaped into parts.

  Reading a text as JSON and printing a value as JSON belong to the host; they enter the model
  as the functions of `Options`.
*/
module Compaction {
  import opened Common

  datatype Part = TextPart(text: string) | ImagePart(data: string) | OtherPart(data: string)

  /** Tool result content: a string, an array, nothing, or any other value. */
  datatype Content = Text(text: string) | Parts(parts: seq<Part>) | Null | Object(data: string)

  datatype Role = User | Assistant | ToolResult | OtherRole(name: string)

  datatype Message = Message(
    role: Role, toolName: Option<string>, isError: bool, content: Content, pruned: bool)

  datatype Options = Options(
    keepLatest: int,
    perishable: set<string>,
    placeholder: string,
    byShape: bool,
    anyGroup: bool,
    snapshot: string -> bool,      // does this text parse to a value that carries a page?
    stringify: Content -> string)  // the host's JSON printer

  const PLACEHOLDER := "[stale snapshot " + "dropped; " + "observe again " + "if you need it]"

  /** How many results a `keepLatest` retains: a negative setting retains none. */
  function Quota(keep: int): nat {
    Max(keep, 0)
  }

  // ----- reading content

  function TextsOf(parts: seq<Part>): seq<string> {
    if parts == [] then []
    else (if parts[0].TextPart? then [parts[0].text] else []) + TextsOf(parts[1..])
  }

  function Concat(texts: seq<string>): string {
    if texts == [] then "" else texts[0] + Concat(texts[1..])
  }

  function ExtractText(content: Content): Option<string> {
    match content
    case Text(s) => Some(s)
    case Parts(ps) => (var ts := TextsOf(ps); if ts == [] then None else Some(Concat(ts)))
    case _ => None
  }

  predicate IsPlaceholder(content: Content, placeholder: string) {
    ExtractText(content) == Some(placeholder)
  }

  predicate IsPerishable(m: Message, o: Options) {
    || (m.toolName.Some? && m.toolName.value != "" && m.toolName.value in o.perishable)
    || (o.byShape && ExtractText(m.content).Some? && o.snapshot(ExtractText(m.content).value))
  }

  /** A result that pruning may still drop. */
  predicate Live(m: Message, o: Options) {
    m.role == ToolResult && !m.isError && !IsPlaceholder(m.content, o.placeholder) && IsPerishable(m, o)
  }

  function Group(m: Message, o: Options): string {
    if o.anyGroup then "any" else m.toolName.GetOr("unnamed")
  }

  predicate MarkedText(text: string) {
    Includes(text, "[COACH REVIEW]") || Includes(text, "STRATEGY (untrusted")
  }

  predicate Marked(m: Message) {
    MarkedText(ExtractText(m.content).GetOr(""))
  }

  // ----- reshaping

  predicate ProviderParts(content: Content) {
    content.Parts? && forall p :: p in content.parts ==> !p.OtherPart?
  }

  function AsParts(content: Content, o: Options): (r: Content)
    ensures ProviderParts(r)
    ensures ExtractText(content).Some? ==> ExtractText(r) == ExtractText(content)
  {
    if ProviderParts(content) then content
    else if content.Null? then Parts([])
    else match ExtractText(content)
      case Some(t) => OneText(t); Parts([TextPart(t)])
      case None => Parts([TextPart(o.stringify(content))])
  }

  lemma {:induction false} OneText(t: string)
    ensures ExtractText(Parts([TextPart(t)])) == Some(t)
  {
    assert TextsOf([TextPart(t)]) == [t];
    assert Concat([t]) == t;
  }

  function Norm(m: Message, o: Options): Message {
    if m.role == ToolResult then m.(content := AsParts(m.content, o)) else m
  }

  function NormAll(ms: seq<Message>, o: Options): (r: seq<Message>)
    ensures |r| == |ms|
    ensures forall i :: 0 <= i < |ms| ==> r[i] == Norm(ms[i], o)
  {
    seq(|ms|, i requires 0 <= i < |ms| => Norm(ms[i], o))
  }

  function Dropped(m: Message, o: Options): Message {
    m.(content := Parts([TextPart(o.placeholder)]), pruned := true)
  }

  // ----- pruning

  /** How many live results of group `g` a stretch of messages holds. */
  function Count(ms: seq<Message>, g: string, o: Options): nat {
    if ms == [] then 0
    else (if Live(ms[0], o) && Group(ms[0], o) == g then 1 else 0) + Count(ms[1..], g, o)
  }

  /** `m` stands before `after`: is it older than the `keep` newest of its group? */
  predicate Superseded(m: Message, after: seq<Message>, keep: int, o: Options) {
    Live(m, o) && 1 + Count(after, Group(m, o), o) > keep
  }

  function Prune(ms: seq<Message>, keep: int, o: Options): (r: seq<Message>)
    ensures |r| == |ms|
  {
    if ms == [] then []
    else [if Superseded(ms[0], ms[1..], keep, o) then Dropped(ms[0], o) else ms[0]] + Prune(ms[1..], keep, o)
  }

  /** The source's backward scan over one segment. */
  method PruneMessages(messages: seq<Message>, keep: int, o: Options) returns (out: seq<Message>)
    ensures out == Prune(messages, keep, o)
  {
    out := messages;
    var seen: map<string, nat> := map[];
    var index := |messages|;
    while index > 0
      invariant 0 <= index <= |messages| == |out|
      invariant out[..index] == messages[..index]
      invariant out[index..] == Prune(messages[index..], keep, o)
      invariant forall g :: Count(messages[index..], g, o) == if g in seen then seen[g] else 0
    {
      index := index - 1;
      var message := out[index];
      assert message == messages[..index + 1][index] == messages[index];
      assert messages[index..][1..] == messages[index + 1..];
      ghost var tail := out[index + 1..];
      if Live(message, o) {
        var group := Group(message, o);
        var count := (if group in seen then seen[group] else 0) + 1;
        seen := seen[group := count];
        if count > keep {
          out := out[index := Dropped(message, o)];
        }
      }
      assert out[index + 1..] == tail;
      assert out[index..] == [out[index]] + tail;
    }
  }

  // ----- boundaries

  /** The last position after the first whose message satisfies `p`, or -1. */
  function LastIndex(ms: seq<Message>, p: Message -> bool): (r: int)
    ensures r == -1 || 0 < r < |ms|
    ensures r > 0 ==> p(ms[r])
    ensures forall i :: Max(r, 0) < i < |ms| ==> !p(ms[i])
  {
    if |ms| <= 1 then -1
    else if p(ms[|ms| - 1]) then |ms| - 1
    else LastIndex(ms[..|ms| - 1], p)
  }

  const IsUser: Message -> bool := (m: Message) => m.role == User
  const IsMarked: Message -> bool := (m: Message) => Marked(m)

  method EpochStart(messages: seq<Message>) returns (r: int)
    ensures r == Max(LastIndex(messages, IsUser), 0)
  {
    var index := |messages| - 1;
    while index > 0
      invariant -1 <= index < |messages|
      invariant forall i :: Max(index, 0) < i < |messages| ==> !IsUser(messages[i])
    {
      if messages[index].role == User { return index; }
      index := index - 1;
    }
    return 0;
  }

  method CoachEpochStart(messages: seq<Message>) returns (r: int)
    ensures r == LastIndex(messages, IsMarked)
  {
    var index := |messages| - 1;
    while index > 0
      invariant -1 <= index < |messages|
      invariant forall i :: Max(index, 0) < i < |messages| ==> !IsMarked(messages[i])
    {
      if Marked(messages[index]) { return index; }
      index := index - 1;
    }
    return -1;
  }

  function Coach(ms: seq<Message>): int {
    LastIndex(ms, IsMarked)
  }

  /** Where the current piece of work starts. */
  function Boundary(ms: seq<Message>): (b: nat)
    ensures b <= |ms|
  {
    if Coach(ms) >= 0 then Coach(ms) else Max(LastIndex(ms, IsUser), 0)
  }

  function FinishedKeep(ms: seq<Message>, o: Options): int {
    if Coach(ms) >= 0 then 0 else o.keepLatest
  }

  /** One segment, pruned and reshaped. */
  function Segment(ms: seq<Message>, keep: int, o: Options): (r: seq<Message>)
    ensures |r| == |ms|
  {
    NormAll(Prune(ms, keep, o), o)
  }

  function Compact(ms: seq<Message>, o: Options): (r: seq<Message>)
    ensures |r| == |ms|
  {
    var b := Boundary(ms);
    Segment(ms[..b], FinishedKeep(ms, o), o) + Segment(ms[b..], o.keepLatest, o)
  }

  method CompactFinishedWork(messages: seq<Message>, o: Options) returns (out: seq<Message>)
    ensures out == Compact(messages, o)
  {
    hide Prune, Norm, LastIndex;
    var coachBoundary := CoachEpochStart(messages);
    var epoch := EpochStart(messages);
    var boundary := if coachBoundary >= 0 then coachBoundary else epoch;
    var finishedKeep := if coachBoundary >= 0 then 0 else o.keepLatest;
    var compacted;
    if boundary == 0 {
      compacted := PruneMessages(messages, o.keepLatest, o);
      assert messages[..0] == [] && messages[0..] == messages;
    } else {
      var finished := PruneMessages(messages[..boundary], finishedKeep, o);
      var current := PruneMessages(messages[boundary..], o.keepLatest, o);
      compacted := finished + current;
    }
    out := NormAll(compacted, o);
  }

  // ----- exactness of compacting what was already compacted

  /** Reshaping leaves the message as prunable as it was. */
  ghost predicate Shaped(m: Message, o: Options) {
    Live(Norm(m, o), o) == Live(m, o)
  }

  ghost predicate AllShaped(ms: seq<Message>, o: Options) {
    forall m :: m in ms ==> Shaped(m, o)
  }

  lemma {:induction false} NormTwice(m: Message, o: Options)
    ensures Norm(Norm(m, o), o) == Norm(m, o)
    ensures Norm(Dropped(m, o), o) == Dropped(m, o) == Dropped(Norm(m, o), o)
    ensures !Live(Dropped(m, o), o)
  {
    if m.role == ToolResult {
      assert ProviderParts(AsParts(m.content, o));
    }
    OneText(o.placeholder);
  }

  lemma {:induction false} CountConcat(a: seq<Message>, b: seq<Message>, g: string, o: Options)
    ensures Count(a + b, g, o) == Count(a, g, o) + Count(b, g, o)
  {
    if a == [] {
      assert a + b == b;
    } else {
      assert (a + b)[1..] == a[1..] + b;
      CountConcat(a[1..], b, g, o);
    }
  }

  /** A segment that was pruned with quota q holds the newest q of each group, or all there were. */
  lemma {:induction false} KeptCount(ms: seq<Message>, keep: int, g: string, o: Options)
    requires AllShaped(ms, o)
    ensures Count(Segment(ms, keep, o), g, o) == Min(Count(ms, g, o), Quota(keep))
  {
    if ms != [] {
      KeptCount(ms[1..], keep, g, o);
      SegmentCons(ms, keep, o);
      NormTwice(ms[0], o);
      assert ms[0] in ms && Group(Norm(ms[0], o), o) == Group(ms[0], o);
    }
  }

  /** What becomes of the first message of a segment. */
  function Head(m: Message, after: seq<Message>, keep: int, o: Options): Message {
    if Superseded(m, after, keep, o) then Dropped(m, o) else Norm(m, o)
  }

  lemma {:induction false} SegmentCons(ms: seq<Message>, keep: int, o: Options)
    requires ms != []
    ensures Segment(ms, keep, o) == [Head(ms[0], ms[1..], keep, o)] + Segment(ms[1..], keep, o)
    ensures Segment(ms, keep, o)[0] == Head(ms[0], ms[1..], keep, o)
    ensures Segment(ms, keep, o)[1..] == Segment(ms[1..], keep, o)
  {
    NormTwice(ms[0], o);
  }

  /** Pruning with the larger quota first does not change what the smaller quota leaves. */
  lemma {:induction false} Absorb(xs: seq<Message>, k: int, ys: seq<Message>, f: int, o: Options)
    requires AllShaped(xs, o)
    requires Quota(f) <= Quota(k)
    ensures Segment(Segment(xs, k, o) + ys, f, o) == Segment(xs + ys, f, o)
  {
    if xs == [] {
    } else {
      var h, t := xs[0], xs[1..];
      var g := Group(h, o);
      Absorb(t, k, ys, f, o);
      SegmentCons(xs, k, o);
      NormTwice(h, o);
      var left, right := Segment(xs, k, o) + ys, xs + ys;
      assert left[1..] == Segment(t, k, o) + ys && right[1..] == t + ys;
      SegmentCons(left, f, o);
      SegmentCons(right, f, o);
      CountConcat(Segment(t, k, o), ys, g, o);
      CountConcat(t, ys, g, o);
      KeptCount(t, k, g, o);
      assert h in xs && Group(Norm(h, o), o) == g;
      assert left[0] == Head(h, t, k, o) && right[0] == h;
    }
  }

  /** Two continuations that prune alike and saturate the quota alike are interchangeable. */
  lemma {:induction false} Interchange(xs: seq<Message>, v: seq<Message>, w: seq<Message>, f: int, o: Options)
    requires Segment(v, f, o) == Segment(w, f, o)
    requires forall g :: Min(Count(v, g, o), Quota(f)) == Min(Count(w, g, o), Quota(f))
    ensures Segment(xs + v, f, o) == Segment(xs + w, f, o)
  {
    if xs == [] {
      assert xs + v == v && xs + w == w;
    } else {
      var h, t := xs[0], xs[1..];
      Interchange(t, v, w, f, o);
      assert (xs + v)[1..] == t + v && (xs + w)[1..] == t + w;
      SegmentCons(xs + v, f, o);
      SegmentCons(xs + w, f, o);
      CountConcat(t, v, Group(h, o), o);
      CountConcat(t, w, Group(h, o), o);
    }
  }

  /** Two segments pruned apart, then merged into one finished segment. */
  lemma {:induction false} AbsorbBoth(
      x1: seq<Message>, k1: int, x2: seq<Message>, k2: int, ys: seq<Message>, f: int, o: Options)
    requires AllShaped(x1, o) && AllShaped(x2, o)
    requires Quota(f) <= Quota(k1) && Quota(f) <= Quota(k2)
    ensures Segment(Segment(x1, k1, o) + Segment(x2, k2, o) + ys, f, o) == Segment(x1 + x2 + ys, f, o)
  {
    var v, w := Segment(x2, k2, o) + ys, x2 + ys;
    Absorb(x2, k2, ys, f, o);
    forall g
      ensures Min(Count(v, g, o), Quota(f)) == Min(Count(w, g, o), Quota(f))
    {
      CountConcat(Segment(x2, k2, o), ys, g, o);
      CountConcat(x2, ys, g, o);
      KeptCount(x2, k2, g, o);
    }
    Absorb(x1, k1, v, f, o);
    Interchange(x1, v, w, f, o);
    assert Segment(x1, k1, o) + Segment(x2, k2, o) + ys == Segment(x1, k1, o) + v;
    assert x1 + x2 + ys == x1 + w;
  }

  /** Two segments that stay apart: the first is settled, the second goes on growing. */
  lemma {:induction false} AbsorbApart(x1: seq<Message>, f: int, x2: seq<Message>, k: int, ys: seq<Message>, o: Options)
    requires AllShaped(x1, o) && AllShaped(x2, o)
    ensures Segment(Segment(x1, f, o), f, o) == Segment(x1, f, o)
    ensures Segment(Segment(x2, k, o) + ys, k, o) == Segment(x2 + ys, k, o)
  {
    Absorb(x1, f, [], f, o);
    assert Segment(x1, f, o) + [] == Segment(x1, f, o) && x1 + [] == x1;
    Absorb(x2, k, ys, k, o);
  }

  /** Compaction leaves every coach marker where it was. */
  ghost predicate MarksKept(m: Message, o: Options) {
    Marked(Norm(m, o)) == Marked(m) && !(Live(m, o) && Marked(m))
  }

  ghost predicate AllMarksKept(ms: seq<Message>, o: Options) {
    !MarkedText(o.placeholder) && forall m :: m in ms ==> MarksKept(m, o)
  }

  lemma {:induction false} PruneAt(ms: seq<Message>, keep: int, o: Options, i: nat)
    requires i < |ms|
    ensures Segment(ms, keep, o)[i] == Head(ms[i], ms[i + 1..], keep, o)
  {
    SegmentCons(ms, keep, o);
    if i > 0 {
      PruneAt(ms[1..], keep, o, i - 1);
      assert ms[1..][i..] == ms[i + 1..];
      assert Segment(ms, keep, o)[i] == Segment(ms, keep, o)[1..][i - 1];
    }
  }

  /** Position by position, compaction drops or reshapes. */
  lemma {:induction false} CompactAt(ms: seq<Message>, o: Options, i: nat)
    requires i < |ms|
    ensures Compact(ms, o)[i] == Norm(ms[i], o)
            || (Live(ms[i], o) && Compact(ms, o)[i] == Dropped(ms[i], o))
  {
    var b := Boundary(ms);
    if i < b {
      PruneAt(ms[..b], FinishedKeep(ms, o), o, i);
    } else {
      PruneAt(ms[b..], o.keepLatest, o, i - b);
    }
  }

  lemma {:induction false} LastIndexCongruent(a: seq<Message>, b: seq<Message>, p: Message -> bool)
    requires |a| == |b| && forall i :: 0 <= i < |a| ==> p(a[i]) == p(b[i])
    ensures LastIndex(a, p) == LastIndex(b, p)
  {
    if a != [] {
      LastIndexCongruent(a[..|a| - 1], b[..|b| - 1], p);
    }
  }

  lemma {:induction false} LastIndexConcat(a: seq<Message>, b: seq<Message>, p: Message -> bool)
    requires a != []
    ensures LastIndex(a + b, p) < |a| ==> LastIndex(a + b, p) == LastIndex(a, p)
    ensures LastIndex(a, p) >= 0 ==> LastIndex(a + b, p) >= 0
  {
    var i, j := LastIndex(a + b, p), LastIndex(a, p);
    if j > 0 {
      assert p((a + b)[j]);
    }
    if 0 < i < |a| {
      assert p(a[i]);
    }
  }

  lemma {:induction false} MarkStays(m: Message, c: Message, o: Options)
    requires MarksKept(m, o) && !MarkedText(o.placeholder)
    requires c == Norm(m, o) || (Live(m, o) && c == Dropped(m, o))
    ensures IsMarked(c) == IsMarked(m) && IsUser(c) == IsUser(m)
  {
    OneText(o.placeholder);
  }

  lemma {:induction false} MarksStay(xs: seq<Message>, o: Options)
    requires AllMarksKept(xs, o)
    ensures Coach(Compact(xs, o)) == Coach(xs)
  {
    hide Compact, Norm, Live, Dropped, MarksKept, MarkedText, IsMarked, IsUser, LastIndex;
    var cs := Compact(xs, o);
    forall i | 0 <= i < |xs|
      ensures IsMarked(cs[i]) == IsMarked(xs[i])
    {
      CompactAt(xs, o, i);
      assert xs[i] in xs;
      MarkStays(xs[i], cs[i], o);
    }
    LastIndexCongruent(cs, xs, IsMarked);
  }

  /** Compaction leaves every role alone, so the last request stays where it is. */
  lemma {:induction false} SameRequests(xs: seq<Message>, ys: seq<Message>, o: Options)
    ensures LastIndex(Compact(xs, o) + ys, IsUser) == LastIndex(xs + ys, IsUser)
  {
    hide Compact, Live, LastIndex;
    var cs := Compact(xs, o);
    forall i | 0 <= i < |xs|
      ensures IsUser(cs[i]) == IsUser(xs[i])
    {
      CompactAt(xs, o, i);
    }
    LastIndexCongruent(cs + ys, xs + ys, IsUser);
  }

  /** A marker behind the history counts alike before and after compaction; otherwise the history's own counts. */
  lemma {:induction false} CoachBehind(a: seq<Message>, b: seq<Message>, ys: seq<Message>)
    requires |a| == |b| > 0
    ensures Coach(a + ys) >= |a| ==> Coach(b + ys) == Coach(a + ys)
    ensures Coach(a + ys) < |a| ==> Coach(a + ys) == Coach(a) && Coach(b + ys) == Coach(b)
  {
    hide IsMarked;
    LastIndexConcat(a, ys, IsMarked);
    LastIndexConcat(b, ys, IsMarked);
    var i, j := Coach(a + ys), Coach(b + ys);
    assert forall k :: |a| <= k < |a + ys| ==> (a + ys)[k] == (b + ys)[k];
  }

  // ----- moving a boundary over what is not live

  predicate Dead(ms: seq<Message>, o: Options) {
    forall i :: 0 <= i < |ms| ==> !Live(ms[i], o)
  }

  lemma {:induction false} DeadCount(ms: seq<Message>, g: string, o: Options)
    requires Dead(ms, o)
    ensures Count(ms, g, o) == 0
  {
    if ms != [] {
      DeadCount(ms[1..], g, o);
    }
  }

  lemma {:induction false} DeadFront(dead: seq<Message>, rest: seq<Message>, k: int, o: Options)
    requires Dead(dead, o)
    ensures Segment(dead + rest, k, o) == NormAll(dead, o) + Segment(rest, k, o)
  {
    hide Segment, Live, Norm;
    if dead == [] {
      assert dead + rest == rest;
    } else {
      DeadFront(dead[1..], rest, k, o);
      SegmentCons(dead + rest, k, o);
      assert (dead + rest)[1..] == dead[1..] + rest;
      assert NormAll(dead, o) == [Norm(dead[0], o)] + NormAll(dead[1..], o);
    }
  }

  lemma {:induction false} DeadBack(pre: seq<Message>, dead: seq<Message>, f: int, o: Options)
    requires Dead(dead, o)
    ensures Segment(pre + dead, f, o) == Segment(pre, f, o) + NormAll(dead, o)
  {
    hide Segment, Live, Norm, Dead;
    if pre == [] {
      assert pre + dead == dead + [];
      DeadFront(dead, [], f, o);
      assert |Segment([], f, o)| == 0;
    } else {
      DeadBack(pre[1..], dead, f, o);
      SegmentCons(pre + dead, f, o);
      SegmentCons(pre, f, o);
      assert (pre + dead)[1..] == pre[1..] + dead;
      var g := Group(pre[0], o);
      CountConcat(pre[1..], dead, g, o);
      DeadCount(dead, g, o);
    }
  }

  /** A boundary may move over messages that are not live. */
  lemma {:induction false} MoveBoundary(ms: seq<Message>, p: nat, q: nat, f: int, k: int, o: Options)
    requires p <= q <= |ms| && Dead(ms[p..q], o)
    ensures Segment(ms[..p], f, o) + Segment(ms[p..], k, o) == Segment(ms[..q], f, o) + Segment(ms[q..], k, o)
  {
    hide Segment, Dead;
    var dead := ms[p..q];
    assert ms[p..] == dead + ms[q..] && ms[..q] == ms[..p] + dead;
    DeadFront(dead, ms[q..], k, o);
    DeadBack(ms[..p], dead, f, o);
  }

  /** Before a coach boundary nothing stays live. */
  lemma {:induction false} FinishedDead(xs: seq<Message>, o: Options, i: nat)
    requires AllShaped(xs, o) && i < Coach(xs)
    ensures !Live(Compact(xs, o)[i], o)
  {
    PruneAt(xs[..Coach(xs)], 0, o, i);
    NormTwice(xs[i], o);
    assert xs[i] in xs;
  }

  /** Appending either moves the boundary past the old history or leaves it and its quota alone. */
  lemma {:induction false} BoundaryGrows(xs: seq<Message>, ys: seq<Message>, o: Options)
    requires xs != []
    ensures Boundary(xs + ys) < |xs| ==>
              Boundary(xs + ys) == Boundary(xs) && FinishedKeep(xs + ys, o) == FinishedKeep(xs, o)
    ensures Boundary(xs + ys) >= |xs| ==>
              && Quota(FinishedKeep(xs + ys, o)) <= Quota(FinishedKeep(xs, o))
              && Quota(FinishedKeep(xs + ys, o)) <= Quota(o.keepLatest)
  {
    LastIndexConcat(xs, ys, IsMarked);
    LastIndexConcat(xs, ys, IsUser);
  }

  lemma {:induction false} ExactPast(xs: seq<Message>, ys: seq<Message>, o: Options)
    requires AllShaped(xs, o)
    requires Boundary(xs + ys) >= |xs| > 0
    ensures var b, f := Boundary(xs + ys), FinishedKeep(xs + ys, o);
            Segment((Compact(xs, o) + ys)[..b], f, o) == Segment((xs + ys)[..b], f, o)
            && (Compact(xs, o) + ys)[b..] == (xs + ys)[b..]
  {
    hide Segment, Boundary, FinishedKeep, Shaped, Quota;
    var b, f := Boundary(xs + ys), FinishedKeep(xs + ys, o);
    BoundaryGrows(xs, ys, o);
    var x1, x2 := xs[..Boundary(xs)], xs[Boundary(xs)..];
    var y1 := ys[..b - |xs|];
    AbsorbBoth(x1, FinishedKeep(xs, o), x2, o.keepLatest, y1, f, o);
    assert (xs + ys)[..b] == x1 + x2 + y1;
    assert (Compact(xs, o) + ys)[..b] == Compact(xs, o) + y1;
  }

  lemma {:induction false} ExactWithin(xs: seq<Message>, ys: seq<Message>, o: Options)
    requires AllShaped(xs, o)
    requires Boundary(xs + ys) < |xs|
    ensures var b, f, k := Boundary(xs + ys), FinishedKeep(xs + ys, o), o.keepLatest;
            && Segment((Compact(xs, o) + ys)[..b], f, o) == Segment((xs + ys)[..b], f, o)
            && Segment((Compact(xs, o) + ys)[b..], k, o) == Segment((xs + ys)[b..], k, o)
  {
    hide Segment, Boundary, FinishedKeep, Shaped, Quota;
    var b, f, k := Boundary(xs + ys), FinishedKeep(xs + ys, o), o.keepLatest;
    BoundaryGrows(xs, ys, o);
    var x1, x2 := xs[..b], xs[b..];
    AbsorbApart(x1, f, x2, k, ys, o);
    assert (xs + ys)[..b] == x1 && (xs + ys)[b..] == x2 + ys;
    assert (Compact(xs, o) + ys)[..b] == Segment(x1, f, o);
    assert (Compact(xs, o) + ys)[b..] == Segment(x2, k, o) + ys;
  }

  /**
    Compaction keeps the coach boundary: there still is one if there was one, and if it has moved
    forward nothing live is left in between. Where nothing is kept, boundaries do not matter.
  */
  predicate BoundaryHolds(xs: seq<Message>, o: Options) {
    var cs := Compact(xs, o);
    o.keepLatest >= 1 ==>
    && (Coach(xs) >= 0 <==> Coach(cs) >= 0)
    && forall i :: 0 <= i < |xs| && Coach(xs) <= i < Coach(cs) ==> !Live(cs[i], o)
  }

  /** With the boundary in the old history moved by compaction, the two ways to cut agree. */
  lemma {:induction false} ExactMoved(xs: seq<Message>, ys: seq<Message>, o: Options)
    requires AllShaped(xs, o) && BoundaryHolds(xs, o) && xs != [] && o.keepLatest >= 1
    requires 0 <= Coach(xs) == Coach(xs + ys) && Coach(Compact(xs, o)) == Coach(Compact(xs, o) + ys)
    ensures Compact(Compact(xs, o) + ys, o) == Compact(xs + ys, o)
  {
    hide Segment, LastIndex, Live, Shaped;
    var cs := Compact(xs, o);
    var ws := cs + ys;
    var c, c' := Coach(xs), Coach(cs);
    ExactWithin(xs, ys, o);
    assert Compact(ws, o) == Segment(ws[..c'], 0, o) + Segment(ws[c'..], o.keepLatest, o);
    if c' <= c {
      forall i | 0 <= i < |ws[c'..c]|
        ensures !Live(ws[c'..c][i], o)
      {
        FinishedDead(xs, o, c' + i);
      }
      MoveBoundary(ws, c', c, 0, o.keepLatest, o);
    } else {
      forall i | 0 <= i < |ws[c..c']|
        ensures !Live(ws[c..c'][i], o)
      {
        assert ws[c..c'][i] == cs[c + i];
      }
      MoveBoundary(ws, c, c', 0, o.keepLatest, o);
    }
  }

  /**
    Incremental compaction is exact: compacting the compacted history with more messages
    behind it sends what compacting the untouched history would send.
  */
  lemma {:induction false} IncrementalExact(xs: seq<Message>, ys: seq<Message>, o: Options)
    requires AllShaped(xs, o) && BoundaryHolds(xs, o)
    ensures Compact(Compact(xs, o) + ys, o) == Compact(xs + ys, o)
  {
    var cs := Compact(xs, o);
    if xs == [] {
      assert cs == [];
    } else if o.keepLatest < 1 {
      NothingKeptExact(xs, ys, o);
    } else {
      CoachBehind(xs, cs, ys);
      SameRequests(xs, ys, o);
      hide Segment, LastIndex, Live, Shaped;
      if Coach(xs + ys) < |xs| && Coach(xs) >= 0 {
        ExactMoved(xs, ys, o);
      } else if Boundary(xs + ys) >= |xs| {
        ExactPast(xs, ys, o);
      } else {
        ExactWithin(xs, ys, o);
      }
    }
  }

  /** Markers kept out of what pruning may drop or print keep the boundary. */
  lemma {:induction false} MarksKeepBoundary(xs: seq<Message>, o: Options)
    requires AllMarksKept(xs, o)
    ensures BoundaryHolds(xs, o)
  {
    MarksStay(xs, o);
  }

  // ----- when exactness fails

  /** JSON text of a value is never the placeholder sentence. */
  ghost predicate PrinterSpares(o: Options) {
    forall c :: o.stringify(c) != o.placeholder
  }

  /** A result whose page only shows once the host prints the value as text. */
  predicate HidesSnapshot(m: Message, o: Options) {
    && m.role == ToolResult && !m.isError
    && o.byShape && !IsPerishable(m, o)
    && !ProviderParts(m.content) && !m.content.Null? && ExtractText(m.content) == None
    && o.snapshot(o.stringify(m.content))
  }

  lemma {:induction false} ShapedIff(m: Message, o: Options)
    requires PrinterSpares(o)
    ensures Shaped(m, o) <==> !HidesSnapshot(m, o)
    ensures !Shaped(m, o) ==> !Live(m, o)
  {
    if m.role == ToolResult && ExtractText(m.content) == None {
      if !ProviderParts(m.content) && !m.content.Null? {
        OneText(o.stringify(m.content));
      } else {
        assert TextsOf([]) == [];
      }
    }
  }

  /** A message that starts a coach review. */
  const REVIEW := Message(User, None, false, Text("[COACH REVIEW]"), false)

  lemma {:induction false} ReviewClosesEverything(ms: seq<Message>)
    requires ms != []
    ensures Coach(ms + [REVIEW]) == Boundary(ms + [REVIEW]) == |ms|
  {
    var t := "[COACH REVIEW]";
    assert t[0..] == t;
    assert IsMarked((ms + [REVIEW])[|ms|]);
  }

  /** After a coach review nothing older stays live, so a late-coming snapshot is noticed. */
  lemma {:induction false} ReviewedAt(ms: seq<Message>, o: Options, i: nat)
    requires i < |ms|
    ensures Compact(ms + [REVIEW], o)[i] == if Live(ms[i], o) then Dropped(ms[i], o) else Norm(ms[i], o)
  {
    ReviewClosesEverything(ms);
    assert (ms + [REVIEW])[..|ms|] == ms;
    PruneAt(ms, 0, o, i);
  }

  lemma {:induction false} HiddenSnapshotBreaks(xs: seq<Message>, o: Options, i: nat)
    requires PrinterSpares(o)
    requires i < |xs| && !Shaped(xs[i], o)
    ensures Compact(Compact(xs, o) + [REVIEW], o) != Compact(xs + [REVIEW], o)
  {
    var cs := Compact(xs, o);
    ShapedIff(xs[i], o);
    CompactAt(xs, o, i);
    ReviewedAt(xs, o, i);
    ReviewedAt(cs, o, i);
    NormTwice(cs[i], o);
    assert ExtractText(Dropped(cs[i], o).content) == Some(o.placeholder) by {
      OneText(o.placeholder);
    }
  }

  /** A plain request. */
  const REQUEST := Message(User, None, false, Text(""), false)

  function Copies(m: Message, n: nat): (r: seq<Message>)
    ensures |r| == n && forall i :: 0 <= i < n ==> r[i] == m
  {
    if n == 0 then [] else [m] + Copies(m, n - 1)
  }

  lemma {:induction false} CopiesCount(m: Message, n: nat, o: Options)
    requires Live(m, o)
    ensures Count(Copies(m, n), Group(m, o), o) == n
  {
    if n > 0 {
      CopiesCount(m, n - 1, o);
      assert Copies(m, n)[1..] == Copies(m, n - 1);
    }
  }

  /** A page, a request, and as many copies of the page as are kept. */
  function Probing(probe: Message, o: Options): seq<Message> {
    [probe, REQUEST] + Copies(probe, Quota(o.keepLatest))
  }

  lemma {:induction false} PlainRequest()
    ensures !Marked(REQUEST)
  {
    assert !Includes("", "[COACH REVIEW]") && !Includes("", "STRATEGY (untrusted");
  }

  lemma {:induction false} ProbingUnmarked(ms: seq<Message>, probe: Message, o: Options)
    requires ms != [] && !Marked(probe)
    ensures Coach(ms + Probing(probe, o)) == Coach(ms)
  {
    hide Marked, LastIndex, Quota;
    PlainRequest();
    var ys := Probing(probe, o);
    LastIndexConcat(ms, ys, IsMarked);
    assert forall k :: 0 <= k < |ys| ==> ys[k] == probe || ys[k] == REQUEST;
    assert forall k :: |ms| <= k < |ms + ys| ==> !IsMarked((ms + ys)[k]);
  }

  lemma {:induction false} ProbeSuperseded(ms: seq<Message>, probe: Message, o: Options)
    requires ms != [] && o.keepLatest >= 1 && Live(probe, o) && !Marked(probe) && Coach(ms) >= 0
    ensures Compact(ms + Probing(probe, o), o)[|ms|] == Dropped(probe, o)
  {
    ProbingUnmarked(ms, probe, o);
    hide Live, Norm, Dropped, Marked, Segment, LastIndex;
    var n, all, c := |ms|, ms + Probing(probe, o), Coach(ms);
    PruneAt(all[c..], o.keepLatest, o, n - c);
    var copies := Copies(probe, Quota(o.keepLatest));
    assert all[c..][n - c + 1..] == [REQUEST] + copies;
    CountConcat([REQUEST], copies, Group(probe, o), o);
    CopiesCount(probe, Quota(o.keepLatest), o);
  }

  lemma {:induction false} ProbeKept(ms: seq<Message>, probe: Message, o: Options)
    requires ms != [] && o.keepLatest >= 1 && Live(probe, o) && !Marked(probe) && Coach(ms) < 0
    ensures Compact(ms + Probing(probe, o), o)[|ms|] == Norm(probe, o)
  {
    ProbingUnmarked(ms, probe, o);
    RequestLast(ms, probe, o);
    hide Live, Norm, Dropped, Marked, Segment, LastIndex;
    var n, all := |ms|, ms + Probing(probe, o);
    PruneAt(all[..n + 1], o.keepLatest, o, n);
    assert all[..n + 1][n + 1..] == [];
    assert all[..n + 1][n] == probe;
  }

  /** Behind a coach boundary the first page is superseded; behind none the request keeps it. */
  lemma {:induction false} ProbeTells(ms: seq<Message>, probe: Message, o: Options)
    requires ms != [] && o.keepLatest >= 1 && Live(probe, o) && !Marked(probe)
    ensures Compact(ms + Probing(probe, o), o)[|ms|] == if Coach(ms) >= 0 then Dropped(probe, o) else Norm(probe, o)
  {
    hide Compact, Live, Norm, Dropped, Marked;
    if Coach(ms) >= 0 {
      ProbeSuperseded(ms, probe, o);
    } else {
      ProbeKept(ms, probe, o);
    }
  }

  lemma {:induction false} RequestLast(ms: seq<Message>, probe: Message, o: Options)
    requires Live(probe, o)
    ensures LastIndex(ms + Probing(probe, o), IsUser) == |ms| + 1
  {
    var all := ms + Probing(probe, o);
    assert IsUser(all[|ms| + 1]);
    assert forall i :: |ms| + 1 < i < |all| ==> all[i] == probe;
    assert !IsUser(probe);
  }

  /** If compaction takes the coach boundary away or makes one up, the probing continuation shows it. */
  lemma {:induction false} BoundaryLostBreaks(xs: seq<Message>, o: Options, probe: Message)
    requires PrinterSpares(o) && o.keepLatest >= 1 && Live(probe, o) && !Marked(probe)
    requires !(Coach(xs) >= 0 <==> Coach(Compact(xs, o)) >= 0)
    ensures Compact(Compact(xs, o) + Probing(probe, o), o) != Compact(xs + Probing(probe, o), o)
  {
    assert xs != [];
    hide Compact, Probing, LastIndex, Marked;
    ProbeTells(xs, probe, o);
    ProbeTells(Compact(xs, o), probe, o);
    ShapedIff(probe, o);
    NormTwice(probe, o);
  }

  /** If the boundary has moved over something live, compacting again already drops it. */
  lemma {:induction false} BoundaryMovedBreaks(xs: seq<Message>, o: Options, i: nat)
    requires i < |xs| && Coach(xs) <= i < Coach(Compact(xs, o)) && Live(Compact(xs, o)[i], o)
    ensures Compact(Compact(xs, o) + [], o) != Compact(xs + [], o)
  {
    var cs := Compact(xs, o);
    assert cs + [] == cs && xs + [] == xs;
    PruneAt(cs[..Coach(cs)], 0, o, i);
    NormTwice(cs[i], o);
  }

  /** When nothing is kept, what is live is dropped wherever the boundary falls. */
  lemma {:induction false} NothingKeptAt(ms: seq<Message>, o: Options, i: nat)
    requires o.keepLatest < 1 && i < |ms|
    ensures Compact(ms, o)[i] == if Live(ms[i], o) then Dropped(ms[i], o) else Norm(ms[i], o)
  {
    var b := Boundary(ms);
    if i < b {
      PruneAt(ms[..b], FinishedKeep(ms, o), o, i);
    } else {
      PruneAt(ms[b..], o.keepLatest, o, i - b);
    }
  }

  lemma {:induction false} NothingKeptExact(xs: seq<Message>, ys: seq<Message>, o: Options)
    requires o.keepLatest < 1 && AllShaped(xs, o)
    ensures Compact(Compact(xs, o) + ys, o) == Compact(xs + ys, o)
  {
    hide Compact, Live, Norm, Dropped;
    var cs := Compact(xs, o);
    forall i | 0 <= i < |xs + ys|
      ensures Compact(cs + ys, o)[i] == Compact(xs + ys, o)[i]
    {
      NothingKeptAt(cs + ys, o, i);
      NothingKeptAt(xs + ys, o, i);
      if i < |xs| {
        NothingKeptAt(xs, o, i);
        NormTwice(xs[i], o);
        assert xs[i] in xs;
      }
    }
  }

  lemma {:induction false} AllShapedIff(xs: seq<Message>, o: Options)
    requires PrinterSpares(o)
    ensures AllShaped(xs, o) <==> forall m :: m in xs ==> !HidesSnapshot(m, o)
  {
    forall m | m in xs
      ensures Shaped(m, o) <==> !HidesSnapshot(m, o)
    {
      ShapedIff(m, o);
    }
  }

  lemma {:induction false} UnshapedBreaks(xs: seq<Message>, o: Options)
    requires PrinterSpares(o) && !AllShaped(xs, o)
    ensures Compact(Compact(xs, o) + [REVIEW], o) != Compact(xs + [REVIEW], o)
  {
    var m :| m in xs && !Shaped(m, o);
    var i :| 0 <= i < |xs| && xs[i] == m;
    HiddenSnapshotBreaks(xs, o, i);
  }

  ghost predicate ExactWith(xs: seq<Message>, ys: seq<Message>, o: Options) {
    Compact(Compact(xs, o) + ys, o) == Compact(xs + ys, o)
  }

  /**
    Exactly when compaction may be redone on its own output, whatever comes next: when no result
    hides a page and the coach boundary holds. `probe` is any page that pruning may drop and that
    is not a marker.
  */
  lemma {:induction false} IncrementalExactIff(xs: seq<Message>, o: Options, probe: Message)
    requires PrinterSpares(o) && Live(probe, o) && !Marked(probe)
    ensures (forall ys :: ExactWith(xs, ys, o))
            <==> (forall m :: m in xs ==> !HidesSnapshot(m, o)) && BoundaryHolds(xs, o)
  {
    AllShapedIff(xs, o);
    hide HidesSnapshot, AllShaped, BoundaryHolds, ExactWith, PrinterSpares, Live, Marked;
    if !AllShaped(xs, o) {
      UnshapedShows(xs, o);
    } else if BoundaryHolds(xs, o) {
      forall ys
        ensures ExactWith(xs, ys, o)
      {
        ExactShows(xs, ys, o);
      }
    } else {
      var ys := BoundaryShows(xs, o, probe);
    }
  }

  lemma {:induction false} UnshapedShows(xs: seq<Message>, o: Options)
    requires PrinterSpares(o) && !AllShaped(xs, o)
    ensures !ExactWith(xs, [REVIEW], o)
  {
    hide AllShaped, PrinterSpares, Compact;
    UnshapedBreaks(xs, o);
  }

  lemma {:induction false} ExactShows(xs: seq<Message>, ys: seq<Message>, o: Options)
    requires AllShaped(xs, o) && BoundaryHolds(xs, o)
    ensures ExactWith(xs, ys, o)
  {
    hide AllShaped, BoundaryHolds, Compact;
    IncrementalExact(xs, ys, o);
  }

  /** A continuation that tells when the boundary does not hold. */
  lemma {:induction false} BoundaryShows(xs: seq<Message>, o: Options, probe: Message) returns (ys: seq<Message>)
    requires PrinterSpares(o) && Live(probe, o) && !Marked(probe) && !BoundaryHolds(xs, o)
    ensures !ExactWith(xs, ys, o)
  {
    hide Compact, LastIndex, Live, Marked, Probing, PrinterSpares;
    if Coach(xs) >= 0 <==> Coach(Compact(xs, o)) >= 0 {
      var i :| 0 <= i < |xs| && Coach(xs) <= i < Coach(Compact(xs, o)) && Live(Compact(xs, o)[i], o);
      BoundaryMovedBreaks(xs, o, i);
      ys := [];
    } else {
      BoundaryLostBreaks(xs, o, probe);
      ys := Probing(probe, o);
    }
  }

  // ----- the boundary, read off the history

  /** Printing and dropping make no markers and lose none but what is dropped. */
  ghost predicate PrintsMarks(xs: seq<Message>, o: Options) {
    !MarkedText(o.placeholder) && forall m :: m in xs ==> Marked(Norm(m, o)) == Marked(m)
  }

  /** A marker before the boundary that is in no droppable page. */
  predicate FastMarker(xs: seq<Message>, j: nat, o: Options) {
    0 < j < |xs| && j < Coach(xs) && Marked(xs[j]) && !Live(xs[j], o)
  }

  /** The marker that makes the boundary is not about to be dropped, or another one stays in its place. */
  ghost predicate Anchored(xs: seq<Message>, o: Options) {
    var c := Coach(xs);
    || o.keepLatest < 1 || c < 0
    || !Superseded(xs[c], xs[c + 1..], o.keepLatest, o)
    || exists j :: FastMarker(xs, j, o)
  }

  lemma {:induction false} DroppedUnmarked(m: Message, o: Options)
    requires !MarkedText(o.placeholder)
    ensures !Marked(Dropped(m, o))
  {
    OneText(o.placeholder);
  }

  /** Which markers compaction leaves. */
  lemma {:induction false} MarkedAt(xs: seq<Message>, o: Options, j: nat)
    requires PrintsMarks(xs, o) && 0 < j < |xs|
    ensures var c, m := Coach(xs), Compact(xs, o)[j];
            && (j > c ==> !IsMarked(m))
            && (j == c ==> (IsMarked(m) <==> !Superseded(xs[j], xs[j + 1..], o.keepLatest, o)))
            && (j < c ==> (IsMarked(m) <==> FastMarker(xs, j, o)))
  {
    assert xs[j] in xs;
    DroppedUnmarked(xs[j], o);
    CompactAt(xs, o, j);
    var c := Coach(xs);
    if j == c {
      PruneAt(xs[c..], o.keepLatest, o, 0);
      assert xs[c..][1..] == xs[c + 1..];
      assert IsMarked(xs[c]);
    } else if j < c {
      PruneAt(xs[..c], 0, o, j);
    } else {
      assert !IsMarked(xs[j]);
    }
  }

  /** Where markers survive printing, whether the boundary holds can be told before compacting. */
  lemma {:induction false} BoundaryHoldsIff(xs: seq<Message>, o: Options)
    requires PrintsMarks(xs, o)
    ensures BoundaryHolds(xs, o) <==> Anchored(xs, o)
    ensures Coach(Compact(xs, o)) <= Coach(xs)
  {
    hide Compact, Superseded, Live, Marked, PrintsMarks;
    var cs, c := Compact(xs, o), Coach(xs);
    forall j: nat | 0 < j < |xs|
      ensures j > c ==> !IsMarked(cs[j])
      ensures j == c ==> (IsMarked(cs[j]) <==> !Superseded(xs[j], xs[j + 1..], o.keepLatest, o))
      ensures j < c ==> (IsMarked(cs[j]) <==> FastMarker(xs, j, o))
    {
      MarkedAt(xs, o, j);
    }
    hide IsMarked, LastIndex;
    assert Coach(cs) <= c;
  }

  /** So is whether compaction may be redone on its own output. */
  lemma {:induction false} ExactIffAnchored(xs: seq<Message>, o: Options, probe: Message)
    requires PrinterSpares(o) && PrintsMarks(xs, o) && Live(probe, o) && !Marked(probe)
    ensures (forall ys :: ExactWith(xs, ys, o))
            <==> (forall m :: m in xs ==> !HidesSnapshot(m, o)) && Anchored(xs, o)
  {
    hide HidesSnapshot, ExactWith, Live, Marked, PrintsMarks, BoundaryHolds, Anchored;
    IncrementalExactIff(xs, o, probe);
    BoundaryHoldsIff(xs, o);
  }

  /**
    Coach markers must stay out of what pruning may drop. Whatever the history, if its last marker is
    in a page that newer ones supersede, and there is no other, the boundary is gone once that page
    is dropped, and after the next request a page is kept that should not be.
  */
  lemma {:induction false} MarkedSnapshotBreaks(xs: seq<Message>, i: nat, o: Options, probe: Message)
    requires PrinterSpares(o) && o.keepLatest >= 1 && Live(probe, o) && !Marked(probe)
    requires PrintsMarks(xs, o)
    requires 0 < i < |xs| && Live(xs[i], o) && Marked(xs[i])
    requires forall j :: 0 < j < |xs| && j != i ==> !Marked(xs[j])
    requires Count(xs[i + 1..], Group(xs[i], o), o) >= o.keepLatest
    ensures Compact(Compact(xs, o) + Probing(probe, o), o) != Compact(xs + Probing(probe, o), o)
  {
    assert IsMarked(xs[i]) && forall j :: i < j < |xs| ==> !IsMarked(xs[j]);
    assert Coach(xs) == i;
    assert !Anchored(xs, o);
    hide Compact, Probing, Live, Marked, LastIndex, Anchored, PrintsMarks;
    BoundaryHoldsIff(xs, o);
    BoundaryLostBreaks(xs, o, probe);
  }

  lemma {:induction false} PlaceholderLetters()
    ensures 'C' !in PLACEHOLDER && 'S' !in PLACEHOLDER
  {
    assert 'C' !in "[stale snapshot " && 'S' !in "[stale snapshot ";
    assert 'C' !in "dropped; " && 'S' !in "dropped; ";
    assert 'C' !in "observe again " && 'S' !in "observe again ";
    assert 'C' !in "if you need it]" && 'S' !in "if you need it]";
  }

  lemma {:induction false} IncludesEach(hay: string, needle: string, k: nat, c: char)
    requires k < |needle| && needle[k] == c
    requires Includes(hay, needle)
    ensures c in hay
  {
    var i: nat :| i <= |hay| && needle <= hay[i..];
    assert c == hay[i..][k] == hay[i + k];
  }

  /** The premise on the placeholder holds of the default one. */
  lemma {:induction false} DefaultPlaceholderUnmarked()
    ensures !MarkedText(PLACEHOLDER)
  {
    PlaceholderLetters();
    if Includes(PLACEHOLDER, "[COACH REVIEW]") {
      IncludesEach(PLACEHOLDER, "[COACH REVIEW]", 1, 'C');
    }
    if Includes(PLACEHOLDER, "STRATEGY (untrusted") {
      IncludesEach(PLACEHOLDER, "STRATEGY (untrusted", 0, 'S');
    }
  }

  // ----- stability of what was sent

  ghost predicate Reshaped(ms: seq<Message>, o: Options) {
    forall m :: m in ms ==> Norm(m, o) == m
  }

  lemma {:induction false} CompactReshaped(ms: seq<Message>, o: Options)
    ensures Reshaped(Compact(ms, o), o)
  {
    var cs := Compact(ms, o);
    forall i | 0 <= i < |cs|
      ensures Norm(cs[i], o) == cs[i]
    {
      CompactAt(ms, o, i);
      NormTwice(ms[i], o);
    }
  }

  /** A message already sent is resent as it was, unless it was a live snapshot and is now its placeholder. */
  lemma {:induction false} ResentStable(sent: seq<Message>, ys: seq<Message>, o: Options, i: nat)
    requires Reshaped(sent, o) && i < |sent|
    ensures var next := Compact(sent + ys, o)[i];
            next == sent[i] || (Live(sent[i], o) && next == Dropped(sent[i], o))
  {
    CompactAt(sent + ys, o, i);
    assert sent[i] in sent;
  }

  /** What is sent never holds more than two quotas of live snapshots, when they count together. */
  lemma {:induction false} LiveBound(xs: seq<Message>, o: Options)
    requires AllShaped(xs, o) && o.anyGroup
    ensures Count(Compact(xs, o), "any", o) <= 2 * Quota(o.keepLatest)
  {
    var b := Boundary(xs);
    assert AllShaped(xs[..b], o) && AllShaped(xs[b..], o);
    KeptCount(xs[..b], FinishedKeep(xs, o), "any", o);
    KeptCount(xs[b..], o.keepLatest, "any", o);
    CountConcat(Segment(xs[..b], FinishedKeep(xs, o), o), Segment(xs[b..], o.keepLatest, o), "any", o);
  }

  /** The newest live result of its group in the current piece of work is never taken away. */
  lemma {:induction false} NewestKept(xs: seq<Message>, o: Options, i: nat)
    requires Boundary(xs) <= i < |xs| && o.keepLatest >= 1
    requires Live(xs[i], o) && Count(xs[i + 1..], Group(xs[i], o), o) == 0
    ensures Compact(xs, o)[i] == Norm(xs[i], o)
  {
    var b := Boundary(xs);
    PruneAt(xs[b..], o.keepLatest, o, i - b);
    assert xs[b..][i - b + 1..] == xs[i + 1..];
  }
}
