/**
  Compaction position by position, in the fields of the messages alone (src/runtime/prune.ts): which
  results become the placeholder, what becomes of the rest, and what a content's text is.
*/
module CompactionLaw {
  import opened Common
  import opened Compaction

  // ----- the text of a content

  /** The text parts are these, in order, among whatever else there is. */
  predicate TextParts(parts: seq<Part>, texts: seq<string>) {
    if parts == [] then texts == []
    else if parts[0].TextPart? then texts != [] && texts[0] == parts[0].text && TextParts(parts[1..], texts[1..])
    else TextParts(parts[1..], texts)
  }

  function Joined(texts: seq<string>): string {
    if texts == [] then "" else texts[0] + Joined(texts[1..])
  }

  lemma {:induction false} TextsAre(parts: seq<Part>)
    ensures TextParts(parts, TextsOf(parts)) && Concat(TextsOf(parts)) == Joined(TextsOf(parts))
  {
    if parts != [] {
      TextsAre(parts[1..]);
      var rest := TextsOf(parts[1..]);
      assert parts[0].TextPart? ==> ([parts[0].text] + rest)[1..] == rest;
      assert !parts[0].TextPart? ==> [] + rest == rest;
    }
  }

  /** A string is its own text, parts have the text of their text parts, if any; nothing else has a text. */
  lemma {:induction false} TextOfContent(content: Content)
    ensures content.Text? ==> ExtractText(content) == Some(content.text)
    ensures content.Null? || content.Object? ==> ExtractText(content) == None
    ensures content.Parts? ==>
              exists texts :: TextParts(content.parts, texts)
                              && ExtractText(content) == if texts == [] then None else Some(Joined(texts))
  {
    if content.Parts? {
      TextsAre(content.parts);
      var texts := TextsOf(content.parts);
      assert TextParts(content.parts, texts);
    }
  }

  // ----- what may be dropped

  /** A tool result, not an error and not dropped before, that names a perishable tool or shows a page. */
  predicate MayDrop(m: Message, o: Options) {
    && m.role == ToolResult && !m.isError
    && ExtractText(m.content) != Some(o.placeholder)
    && (|| (m.toolName.Some? && |m.toolName.value| > 0 && m.toolName.value in o.perishable)
        || (o.byShape && ExtractText(m.content).Some? && o.snapshot(ExtractText(m.content).value)))
  }

  /** Counted together: all results, or those of one tool. */
  predicate Together(m: Message, n: Message, o: Options) {
    o.anyGroup || (if m.toolName.None? then "unnamed" else m.toolName.value)
                  == (if n.toolName.None? then "unnamed" else n.toolName.value)
  }

  lemma {:induction false} MayDropIff(m: Message, o: Options)
    ensures MayDrop(m, o) <==> Live(m, o)
  {
    if m.toolName.Some? && m.toolName.value != "" {
      assert |m.toolName.value| > 0;
    }
  }

  lemma {:induction false} TogetherIff(m: Message, n: Message, o: Options)
    ensures Together(m, n, o) <==> Group(m, o) == Group(n, o)
  {}

  /** The later results, up to `end`, that are counted with result `i`. */
  function Newer(ms: seq<Message>, i: nat, end: nat, o: Options): set<int>
    requires i < |ms| && end <= |ms|
  {
    set j: int | i < j < end && MayDrop(ms[j], o) && Together(ms[i], ms[j], o)
  }

  function Counted(ms: seq<Message>, m: Message, from: nat, end: nat, o: Options): set<int>
    requires from <= end <= |ms|
  {
    set j: int | from <= j < end && MayDrop(ms[j], o) && Together(m, ms[j], o)
  }

  lemma {:induction false} CountIsSet(ms: seq<Message>, m: Message, from: nat, end: nat, o: Options)
    requires from <= end <= |ms|
    ensures Count(ms[from..end], Group(m, o), o) == |Counted(ms, m, from, end, o)|
    decreases end - from
  {
    hide Live, MayDrop, Together, Group;
    if from < end {
      CountIsSet(ms, m, from + 1, end, o);
      MayDropIff(ms[from], o);
      TogetherIff(m, ms[from], o);
      assert ms[from..end][0] == ms[from] && ms[from..end][1..] == ms[from + 1..end];
      var rest := Counted(ms, m, from + 1, end, o);
      if MayDrop(ms[from], o) && Together(m, ms[from], o) {
        assert Counted(ms, m, from, end, o) == {from as int} + rest;
      } else {
        assert Counted(ms, m, from, end, o) == rest;
      }
    } else {
      assert Counted(ms, m, from, end, o) == {};
    }
  }

  // ----- where the current piece of work starts

  /** A message holds one of the two texts by which a coach marks it. */
  predicate HasMarker(m: Message) {
    && ExtractText(m.content).Some?
    && (Includes(ExtractText(m.content).value, "[COACH REVIEW]")
        || Includes(ExtractText(m.content).value, "STRATEGY (untrusted"))
  }

  lemma {:induction false} MarkerIff(m: Message)
    ensures HasMarker(m) <==> Marked(m)
  {
    assert !Includes("", "[COACH REVIEW]") && !Includes("", "STRATEGY (untrusted");
  }

  /** Message `b` is the last one after the first that is marked; if none is, the last request; or else the first. */
  predicate WorkStarts(ms: seq<Message>, b: nat, coach: bool) {
    if coach then
      0 < b < |ms| && HasMarker(ms[b]) && forall j :: b < j < |ms| ==> !HasMarker(ms[j])
    else
      && (forall j :: 0 < j < |ms| ==> !HasMarker(ms[j]))
      && (b == 0 || (b < |ms| && ms[b].role == User))
      && (forall j :: b < j < |ms| ==> ms[j].role != User)
  }

  lemma {:induction false} StartsAt(ms: seq<Message>, b: nat, coach: bool)
    requires WorkStarts(ms, b, coach)
    ensures b == Boundary(ms) && (coach <==> Coach(ms) >= 0)
  {
    forall j | 0 <= j < |ms|
      ensures HasMarker(ms[j]) <==> IsMarked(ms[j])
    {
      MarkerIff(ms[j]);
    }
    hide HasMarker, Marked;
    assert b > 0 && !coach ==> IsUser(ms[b]);
  }

  lemma {:induction false} WorkHasStart(ms: seq<Message>)
    ensures WorkStarts(ms, Boundary(ms), Coach(ms) >= 0)
  {
    forall j | 0 <= j < |ms|
      ensures HasMarker(ms[j]) <==> IsMarked(ms[j])
    {
      MarkerIff(ms[j]);
    }
    hide HasMarker, Marked;
    assert forall j :: 0 <= j < |ms| ==> (IsUser(ms[j]) <==> ms[j].role == User);
  }

  // ----- what becomes of each message

  /** Kept: a tool result's content is parts, the same parts or one with its text or its printed value. */
  predicate Kept(m: Message, r: Message, o: Options) {
    && r.role == m.role && r.toolName == m.toolName && r.isError == m.isError && r.pruned == m.pruned
    && if m.role != ToolResult then r.content == m.content
       else match m.content
         case Text(t) => r.content == Parts([TextPart(t)])
         case Null => r.content == Parts([])
         case Object(_) => r.content == Parts([TextPart(o.stringify(m.content))])
         case Parts(ps) =>
           if forall p :: p in ps ==> p.TextPart? || p.ImagePart? then r.content == m.content
           else r.content == Parts([TextPart(if ExtractText(m.content).Some? then ExtractText(m.content).value
                                             else o.stringify(m.content))])
  }

  predicate Replaced(m: Message, r: Message, o: Options) {
    r == Message(m.role, m.toolName, m.isError, Parts([TextPart(o.placeholder)]), true)
  }

  lemma {:induction false} NormKeeps(m: Message, o: Options)
    ensures Kept(m, Norm(m, o), o)
  {
    if m.content.Parts? {
      assert (forall p :: p in m.content.parts ==> p.TextPart? || p.ImagePart?) <==> ProviderParts(m.content);
    }
  }

  lemma {:induction false} DroppedReplaces(m: Message, o: Options)
    ensures Replaced(m, Dropped(m, o), o) && Norm(Dropped(m, o), o) == Dropped(m, o)
  {}

  /** A segment replaces a result exactly when its quota of later ones counted with it may be dropped. */
  lemma {:induction false} SegmentExactly(ms: seq<Message>, from: nat, end: nat, keep: int, o: Options, i: nat)
    requires from <= i < end <= |ms|
    ensures var r := Segment(ms[from..end], keep, o)[i - from];
            if MayDrop(ms[i], o) && |Newer(ms, i, end, o)| >= keep then Replaced(ms[i], r, o) else Kept(ms[i], r, o)
  {
    hide Segment, MayDrop, Live, Together, Group, Norm, Dropped, Kept, Replaced;
    PruneAt(ms[from..end], keep, o, i - from);
    assert ms[from..end][i - from] == ms[i] && ms[from..end][i - from + 1..] == ms[i + 1..end];
    MayDropIff(ms[i], o);
    NormKeeps(ms[i], o);
    DroppedReplaces(ms[i], o);
    CountIsSet(ms, ms[i], i + 1, end, o);
    assert Newer(ms, i, end, o) == Counted(ms, ms[i], i + 1, end, o);
  }

  /**
    What compaction makes of message `i`: the placeholder, exactly when it may be dropped and at least
    the quota of later results counted with it, up to the end of its piece of work, may be dropped too;
    and otherwise the same message in parts. Behind a coach boundary finished work has no quota.
  */
  lemma {:induction false} CompactsExactly(ms: seq<Message>, o: Options, b: nat, coach: bool, i: nat)
    requires WorkStarts(ms, b, coach) && b <= |ms| && i < |ms|
    ensures var end, keep := if i < b then b else |ms|, if i < b && coach then 0 else o.keepLatest;
            if MayDrop(ms[i], o) && |Newer(ms, i, end, o)| >= keep then Replaced(ms[i], Compact(ms, o)[i], o)
            else Kept(ms[i], Compact(ms, o)[i], o)
  {
    hide MayDrop, Newer, Kept, Replaced, WorkStarts, Segment, Coach;
    StartsAt(ms, b, coach);
    assert ms[..b] == ms[0..b] && ms[b..] == ms[b..|ms|];
    if i < b {
      SegmentExactly(ms, 0, b, FinishedKeep(ms, o), o, i);
    } else {
      SegmentExactly(ms, b, |ms|, o.keepLatest, o, i);
    }
  }
}
