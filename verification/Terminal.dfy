/**
  How a tool result is drawn on a terminal (src/host/pi-tool-view.ts). Text is a sequence of code
  points, as the host iterates it; width is counted in terminal columns.
*/
module Terminal {
  import opened Common

  type Line = seq<nat>

  const NEWLINE: nat := 10
  const ELLIPSIS: nat := 0x2026
  const MAX_EXPANDED_LINES := 200

  function CodePointWidth(code: nat): (w: nat)
    ensures w <= 2
  {
    if code == 0 || code == 0x200b then 0
    else if code < 32 || (0x7f <= code < 0xa0) then 0
    else if 0x0300 <= code <= 0x036f then 0
    else if 0x1ab0 <= code <= 0x1aff then 0
    else if 0x1dc0 <= code <= 0x1dff then 0
    else if 0x20d0 <= code <= 0x20ff then 0
    else if 0xfe00 <= code <= 0xfe0f then 0
    else if 0xfe20 <= code <= 0xfe2f then 0
    else if 0xe0100 <= code <= 0xe01ef then 0
    else if
      code >= 0x1100
      && (|| code <= 0x115f
          || code == 0x2329
          || code == 0x232a
          || (0x2e80 <= code <= 0xa4cf && code != 0x303f)
          || 0xac00 <= code <= 0xd7a3
          || 0xf900 <= code <= 0xfaff
          || 0xfe10 <= code <= 0xfe19
          || 0xfe30 <= code <= 0xfe6f
          || 0xff00 <= code <= 0xff60
          || 0xffe0 <= code <= 0xffe6
          || 0x1f300 <= code <= 0x1f64f
          || 0x1f900 <= code <= 0x1f9ff
          || 0x20000 <= code <= 0x3fffd)
    then 2
    else 1
  }

  function Width(text: Line): nat {
    if text == [] then 0 else Width(text[..|text| - 1]) + CodePointWidth(text[|text| - 1])
  }

  lemma {:induction false} WidthOne(text: Line, c: nat)
    ensures Width(text + [c]) == Width(text) + CodePointWidth(c)
  {
    assert (text + [c])[..|text + [c]| - 1] == text;
  }

  lemma {:induction false} WidthConcat(a: Line, b: Line)
    ensures Width(a + b) == Width(a) + Width(b)
  {
    if b == [] {
      assert a + b == a;
    } else {
      assert (a + b)[..|a + b| - 1] == a + b[..|b| - 1];
      WidthConcat(a, b[..|b| - 1]);
    }
  }

  method VisibleWidth(text: Line) returns (width: nat)
    ensures width == Width(text)
  {
    width := 0;
    for i := 0 to |text|
      invariant width == Width(text[..i])
    {
      width := width + CodePointWidth(text[i]);
      assert text[..i + 1][..i] == text[..i];
    }
    assert text[..|text|] == text;
  }

  // ----- one line cut to fit

  /** What `fitLine` draws: the text, or its longest prefix that leaves room for the mark. */
  predicate Fitted(text: Line, width: int, r: Line) {
    if width <= 0 then r == []
    else if Width(text) <= width then r == text
    else
      && |r| > 0 && r[|r| - 1] == ELLIPSIS && Width(r) <= width
      && |r| - 1 < |text| && r[..|r| - 1] == text[..|r| - 1]
      && (width == 1 ==> |r| == 1)
      && (width > 1 ==> Width(text[..|r|]) > width - 1)
  }

  /** The longest prefix within the budget. */
  method TakeWithin(text: Line, budget: nat) returns (k: nat)
    ensures k <= |text| && Width(text[..k]) <= budget
    ensures k < |text| ==> Width(text[..k + 1]) > budget
  {
    hide CodePointWidth, Width;
    k := 0;
    var used: nat := 0;
    WidthNone();
    assert text[..0] == [];
    while k < |text| && used + CodePointWidth(text[k]) <= budget
      invariant 0 <= k <= |text| && used == Width(text[..k]) <= budget
    {
      assert text[..k + 1] == text[..k] + [text[k]];
      WidthOne(text[..k], text[k]);
      used := used + CodePointWidth(text[k]);
      k := k + 1;
    }
    if k < |text| {
      assert text[..k + 1] == text[..k] + [text[k]];
      WidthOne(text[..k], text[k]);
    }
  }

  lemma {:induction false} WidthNone()
    ensures Width([]) == 0
  {}

  method FitLine(text: Line, width: int) returns (r: Line)
    ensures Fitted(text, width, r) && Width(r) <= Max(0, width)
  {
    hide CodePointWidth, Width;
    WidthNone();
    EllipsisWidth();
    if width <= 0 { return []; }
    var whole := VisibleWidth(text);
    if whole <= width { return text; }
    if width == 1 {
      assert |text| > 0;
      return [ELLIPSIS];
    }
    var k := TakeWithin(text, width - 1);
    assert k < |text| by {
      assert text[..|text|] == text;
    }
    WidthOne(text[..k], ELLIPSIS);
    r := text[..k] + [ELLIPSIS];
    assert r[..|r| - 1] == text[..k];
  }

  lemma {:induction false} EllipsisWidth()
    ensures Width([ELLIPSIS]) == 1 && CodePointWidth(ELLIPSIS) == 1
  {
    assert [ELLIPSIS][..0] == [];
  }

  // ----- wrapping

  /** Wrapping one paragraph: the finished lines, then the line in progress. */
  datatype Wrap = Wrap(lines: seq<Line>, current: Line)

  /** What the next code point does. A code point wider than the terminal is drawn as a mark of its own. */
  function Place(w: Wrap, c: nat, width: int): Wrap {
    var turned := if Width(w.current) > 0 && Width(w.current) + CodePointWidth(c) > width
                  then Wrap(w.lines + [w.current], []) else w;
    if CodePointWidth(c) > width && turned.current == [] then turned.(lines := turned.lines + [[ELLIPSIS]])
    else turned.(current := turned.current + [c])
  }

  function PlaceAll(text: Line, width: int): Wrap {
    if text == [] then Wrap([], []) else Place(PlaceAll(text[..|text| - 1], width), text[|text| - 1], width)
  }

  function Finished(w: Wrap): seq<Line> {
    w.lines + [w.current]
  }

  function WrapParagraph(paragraph: Line, width: int): seq<Line> {
    if paragraph == [] then [[]] else Finished(PlaceAll(paragraph, width))
  }

  function Paragraphs(text: Line): (ps: seq<Line>)
    ensures |ps| > 0
  {
    if text == [] then [[]]
    else
      var ps := Paragraphs(text[..|text| - 1]);
      if text[|text| - 1] == NEWLINE then ps + [[]]
      else ps[..|ps| - 1] + [ps[|ps| - 1] + [text[|text| - 1]]]
  }

  function WrapParagraphs(ps: seq<Line>, width: int): seq<Line> {
    if ps == [] then []
    else WrapParagraphs(ps[..|ps| - 1], width) + WrapParagraph(ps[|ps| - 1], width)
  }

  function WrapText(text: Line, width: int): seq<Line> {
    if width <= 0 then [[]] else WrapParagraphs(Paragraphs(text), width)
  }

  method WrapToWidth(text: Line, width: int) returns (lines: seq<Line>)
    ensures lines == WrapText(text, width)
  {
    hide CodePointWidth, Place, Width;
    if width <= 0 { return [[]]; }
    var paragraphs := Paragraphs(text);
    lines := [];
    for p := 0 to |paragraphs|
      invariant lines == WrapParagraphs(paragraphs[..p], width)
    {
      var paragraph := paragraphs[p];
      assert paragraphs[..p + 1][..p] == paragraphs[..p];
      if |paragraph| == 0 {
        lines := lines + [[]];
      } else {
        lines := WrapOnto(lines, paragraph, width);
      }
    }
    assert paragraphs[..|paragraphs|] == paragraphs;
  }

  method WrapOnto(before: seq<Line>, paragraph: Line, width: int) returns (lines: seq<Line>)
    requires width > 0 && |paragraph| > 0
    ensures lines == before + WrapParagraph(paragraph, width)
  {
    hide CodePointWidth, Width;
    WidthNone();
    EllipsisWidth();
    lines := before;
    var current: Line, used: nat := [], 0;
    assert before + [] == before;
    for i := 0 to |paragraph|
      invariant used == Width(current)
      invariant lines == before + PlaceAll(paragraph[..i], width).lines
      invariant current == PlaceAll(paragraph[..i], width).current
    {
      var c := paragraph[i];
      var next := CodePointWidth(c);
      ghost var was := PlaceAll(paragraph[..i], width);
      assert paragraph[..i + 1][..i] == paragraph[..i];
      assert PlaceAll(paragraph[..i + 1], width) == Place(was, c, width);
      if used > 0 && used + next > width {
        lines := lines + [current];
        current, used := [], 0;
        assert lines == before + (was.lines + [was.current]);
      }
      if next > width && |current| == 0 {
        lines := lines + [[ELLIPSIS]];
      } else {
        WidthOne(current, c);
        current := current + [c];
        used := used + next;
      }
    }
    assert paragraph[..|paragraph|] == paragraph;
    if |current| > 0 || used == 0 {
      lines := lines + [current];
    }
  }

  // ----- what wrapping promises

  function Flatten(ls: seq<Line>): Line {
    if ls == [] then [] else Flatten(ls[..|ls| - 1]) + ls[|ls| - 1]
  }

  lemma {:induction false} FlattenOne(ls: seq<Line>, l: Line)
    ensures Flatten(ls + [l]) == Flatten(ls) + l
  {
    assert (ls + [l])[..|ls + [l]| - 1] == ls;
  }

  predicate Fit(ls: seq<Line>, width: int) {
    forall i :: 0 <= i < |ls| ==> Width(ls[i]) <= width
  }

  /** Some way of breaking the text into at least one line, none too wide. */
  predicate Breaks(ls: seq<Line>, text: Line, width: int) {
    |ls| > 0 && Flatten(ls) == text && Fit(ls, width)
  }

  lemma {:induction false} PlaceWide(w: Wrap, c: nat, width: int)
    requires width >= 2 && Fit(Finished(w), width)
    ensures var w' := Place(w, c, width);
            Fit(Finished(w'), width) && Flatten(Finished(w')) == Flatten(Finished(w)) + [c]
  {
    hide CodePointWidth, Width;
    WidthNone();
    var w' := Place(w, c, width);
    assert Width(w.current) <= width by {
      assert Finished(w)[|w.lines|] == w.current;
    }
    FlattenOne(w.lines, w.current);
    FlattenOne(w.lines + [w.current], [c]);
    FlattenOne(w.lines, w.current + [c]);
    WidthOne(w.current, c);
    WidthOne([], c);
    assert [] + [c] == [c];
    assert Flatten(w.lines) + (w.current + [c]) == Flatten(w.lines) + w.current + [c];
    forall i | 0 <= i < |w.lines|
      ensures Width(w.lines[i]) <= width
    {
      assert Finished(w)[i] == w.lines[i];
    }
  }

  lemma {:induction false} PlaceAllBreaks(text: Line, width: int)
    requires width >= 2
    ensures Breaks(Finished(PlaceAll(text, width)), text, width)
  {
    hide CodePointWidth, Place, Fit;
    if text == [] {
      assert Finished(PlaceAll(text, width)) == [[]];
      assert Fit([[]], width) by { NoneFits(width); }
      FlattenOne([], []);
    } else {
      PlaceAllBreaks(text[..|text| - 1], width);
      PlaceWide(PlaceAll(text[..|text| - 1], width), text[|text| - 1], width);
    }
  }

  lemma {:induction false} NoneFits(width: int)
    requires width >= 0
    ensures Fit([[]], width)
  {}

  /** At two columns or more, the lines of a paragraph are none too wide and together are the paragraph. */
  lemma {:induction false} WrapBreaks(paragraph: Line, width: int)
    requires width >= 2
    ensures Breaks(WrapParagraph(paragraph, width), paragraph, width)
  {
    PlaceAllBreaks(paragraph, width);
    if paragraph == [] {
      NoneFits(width);
      FlattenOne([], []);
    }
  }

  /** No break is ahead of the greedy one: fewer lines it cannot have, and with as many its last starts no later. */
  predicate Behind(ls: seq<Line>, w: Wrap)
    requires |ls| > 0
  {
    |ls| > |w.lines| && (|ls| == |w.lines| + 1 ==> |ls[|ls| - 1]| >= |w.current|)
  }

  lemma {:induction false} SuffixWider(a: Line, b: Line)
    requires |b| <= |a| && a[|a| - |b|..] == b
    ensures Width(b) <= Width(a)
  {
    WidthConcat(a[..|a| - |b|], b);
    assert a[..|a| - |b|] + b == a;
  }

  /** The last line of a break is a suffix of the text. */
  lemma {:induction false} LastIsSuffix(ls: seq<Line>, text: Line)
    requires |ls| > 0 && Flatten(ls) == text
    ensures var last := ls[|ls| - 1]; |last| <= |text| && text[|text| - |last|..] == last
    ensures text == Flatten(ls[..|ls| - 1]) + ls[|ls| - 1]
  {}

  lemma {:induction false} CutFits(ls: seq<Line>, cut: Line, c: nat, width: int)
    requires |ls| > 0 && Fit(ls, width) && ls[|ls| - 1] == cut + [c]
    ensures Fit(ls[..|ls| - 1] + [cut], width)
    ensures Width(cut) + CodePointWidth(c) <= width
  {
    hide CodePointWidth, Width;
    WidthOne(cut, c);
  }

  lemma {:induction false} CutFlattens(front: seq<Line>, cut: Line, c: nat, text: Line)
    requires text == Flatten(front) + (cut + [c])
    ensures Flatten(front + [cut]) == text[..|text| - 1] && text[|text| - 1] == c
  {
    FlattenOne(front, cut);
  }

  /** Dropping the last code point of a break. */
  lemma {:induction false} Shorter(ls: seq<Line>, text: Line, width: int, last: Line)
    requires |ls| > 0 && last == ls[|ls| - 1] && |last| > 0 && Breaks(ls, text, width)
    ensures |last| <= |text| && last[|last| - 1] == text[|text| - 1] && text[|text| - |last|..] == last
    ensures Breaks(ls[..|ls| - 1] + [last[..|last| - 1]], text[..|text| - 1], width)
    ensures Width(last[..|last| - 1]) + CodePointWidth(text[|text| - 1]) <= width
  {
    hide CodePointWidth, Width, Flatten, Fit;
    var front, cut, c := ls[..|ls| - 1], last[..|last| - 1], last[|last| - 1];
    assert last == cut + [c];
    LastIsSuffix(ls, text);
    CutFlattens(front, cut, c, text);
    CutFits(ls, cut, c, width);
  }

  lemma {:induction false} GreedyAhead(text: Line, ls: seq<Line>, width: int)
    requires width >= 2 && Breaks(ls, text, width)
    ensures Behind(ls, PlaceAll(text, width))
    decreases |text|, |ls|
  {
    hide CodePointWidth, Fit;
    if text != [] {
      var last := ls[|ls| - 1];
      var front, c := text[..|text| - 1], text[|text| - 1];
      if last == [] {
        DropEmpty(ls, text, width);
        GreedyAhead(text, ls[..|ls| - 1], width);
      } else {
        Shorter(ls, text, width, last);
        var shorter := ls[..|ls| - 1] + [last[..|last| - 1]];
        GreedyAhead(front, shorter, width);
        PlaceAllBreaks(front, width);
        AheadStep(PlaceAll(front, width), front, c, ls, last, width);
      }
    }
  }

  lemma {:induction false} DropEmpty(ls: seq<Line>, text: Line, width: int)
    requires text != [] && Breaks(ls, text, width) && ls[|ls| - 1] == []
    ensures Breaks(ls[..|ls| - 1], text, width)
  {
    hide CodePointWidth, Width;
    var front := ls[..|ls| - 1];
    assert Flatten(front) + [] == Flatten(front);
    assert front != [];
  }

  lemma {:induction false} AheadStep(w: Wrap, front: Line, c: nat, ls: seq<Line>, last: Line, width: int)
    requires width >= 2 && |ls| > 0 && last == ls[|ls| - 1] && |last| > 0
    requires |last| - 1 <= |front| && last[..|last| - 1] == front[|front| - (|last| - 1)..]
    requires Width(last[..|last| - 1]) + CodePointWidth(c) <= width
    requires Flatten(Finished(w)) == front
    requires Behind(ls[..|ls| - 1] + [last[..|last| - 1]], w)
    ensures Behind(ls, Place(w, c, width))
  {
    hide CodePointWidth;
    FlattenOne(w.lines, w.current);
    WidthNone();
    if |ls| == |w.lines| + 1 {
      var cut := last[..|last| - 1];
      assert cut[|cut| - |w.current|..] == w.current;
      SuffixWider(cut, w.current);
    }
  }

  /** No way of breaking a paragraph into lines of at most `width` columns uses fewer lines. */
  lemma {:induction false} WrapMinimal(paragraph: Line, ls: seq<Line>, width: int)
    requires width >= 2 && Breaks(ls, paragraph, width)
    ensures |WrapParagraph(paragraph, width)| <= |ls|
  {
    GreedyAhead(paragraph, ls, width);
  }

  // ----- one column

  predicate Wide(c: nat) { CodePointWidth(c) == 2 }

  /** The paragraph ends in code points of no width, at least one, that start it or follow a wide one. */
  predicate Exposed(text: Line) {
    && text != []
    && CodePointWidth(text[|text| - 1]) == 0
    && (ClearEnd(text[..|text| - 1]) || Exposed(text[..|text| - 1]))
  }

  predicate ClearEnd(text: Line) {
    text == [] || Wide(text[|text| - 1])
  }

  /** Somewhere a wide code point meets such an end. */
  predicate Overflows(text: Line) {
    text != [] && (Overflows(text[..|text| - 1]) || (Wide(text[|text| - 1]) && Exposed(text[..|text| - 1])))
  }

  /** How the line in progress stands at one column, while nothing has overflowed. */
  predicate Narrow(w: Wrap, text: Line) {
    && Fit(Finished(w), 1)
    && (w.current == [] <==> ClearEnd(text))
    && (w.current != [] && Width(w.current) == 0 <==> Exposed(text))
  }

  /** The line in progress, when everything already finished fits. */
  lemma {:induction false} FitsWith(w: Wrap, w': Wrap)
    requires Fit(Finished(w), 1)
    requires w'.lines == w.lines || w'.lines == w.lines + [w.current] || w'.lines == w.lines + [[ELLIPSIS]]
             || w'.lines == w.lines + [w.current] + [[ELLIPSIS]]
    requires Width(w'.current) <= 1
    ensures Fit(Finished(w'), 1)
  {
    hide Width;
    EllipsisWidth();
    assert Finished(w)[|w.lines|] == w.current;
    assert forall i :: 0 <= i < |w.lines| ==> Finished(w)[i] == w.lines[i];
  }

  lemma {:induction false} CurrentFits(w: Wrap)
    requires Fit(Finished(w), 1)
    ensures Width(w.current) <= 1
  {
    assert Finished(w)[|w.lines|] == w.current;
  }

  /** What a code point does to the line in progress at one column. */
  lemma {:induction false} PlaceNarrow(w: Wrap, c: nat)
    requires Width(w.current) <= 1
    ensures var w', n := Place(w, c, 1), CodePointWidth(c);
            && (n == 0 ==> w' == w.(current := w.current + [c]))
            && (n == 1 && Width(w.current) == 0 ==> w' == w.(current := w.current + [c]))
            && (n == 1 && Width(w.current) == 1 ==> w' == Wrap(w.lines + [w.current], [c]))
            && (n == 2 && w.current == [] ==> w' == Wrap(w.lines + [[ELLIPSIS]], []))
            && (n == 2 && Width(w.current) == 1 ==> w' == Wrap(w.lines + [w.current] + [[ELLIPSIS]], []))
  {
    hide CodePointWidth, Width;
    WidthNone();
    CodeWidths(c);
    assert [] + [c] == [c];
  }

  lemma {:induction false} SingleWidth(c: nat)
    ensures Width([c]) == CodePointWidth(c)
  {
    hide CodePointWidth;
    assert [] + [c] == [c];
    WidthOne([], c);
  }

  /** How the end of the text stands after one more code point. */
  lemma {:induction false} EndAfter(front: Line, c: nat)
    ensures ClearEnd(front + [c]) <==> CodePointWidth(c) == 2
    ensures Exposed(front + [c]) <==> CodePointWidth(c) == 0 && (ClearEnd(front) || Exposed(front))
  {
    hide CodePointWidth;
    assert (front + [c])[..|front + [c]| - 1] == front;
  }

  lemma {:induction false} NarrowStep(w: Wrap, front: Line, c: nat)
    requires Narrow(w, front) && !(Wide(c) && Exposed(front))
    ensures Narrow(Place(w, c, 1), front + [c])
  {
    hide CodePointWidth, Width, Place, Fit, Exposed, ClearEnd, Finished;
    CurrentFits(w);
    CodeWidths(c);
    PlaceNarrow(w, c);
    EndAfter(front, c);
    WidthOne(w.current, c);
    SingleWidth(c);
    WidthNone();
    FitsWith(w, Place(w, c, 1));
  }

  lemma {:induction false} CodeWidths(c: nat)
    ensures CodePointWidth(c) <= 2
  {}

  lemma {:induction false} OverflowStays(w: Wrap, c: nat)
    requires !Fit(Finished(w), 1)
    ensures !Fit(Finished(Place(w, c, 1)), 1)
  {
    hide CodePointWidth, Width;
    var i :| 0 <= i < |Finished(w)| && Width(Finished(w)[i]) > 1;
    var w' := Place(w, c, 1);
    WidthOne(w.current, c);
    WidthNone();
    if i < |w.lines| {
      assert Finished(w')[i] == w.lines[i];
    } else {
      assert Finished(w')[|w.lines|] == w.current;
    }
  }

  lemma {:induction false} OverflowStarts(w: Wrap, front: Line, c: nat)
    requires Narrow(w, front) && Wide(c) && Exposed(front)
    ensures !Fit(Finished(Place(w, c, 1)), 1)
  {
    hide Width, Exposed;
    var w' := Place(w, c, 1);
    WidthOne(w.current, c);
    assert Finished(w')[|w.lines|] == w.current + [c];
  }

  lemma {:induction false} NarrowAll(text: Line)
    ensures if Overflows(text) then !Fit(Finished(PlaceAll(text, 1)), 1) else Narrow(PlaceAll(text, 1), text)
  {
    hide CodePointWidth, Place, Exposed, Narrow, Fit;
    if text == [] {
      NarrowEmpty();
    } else {
      var front, c := text[..|text| - 1], text[|text| - 1];
      NarrowAll(front);
      assert front + [c] == text;
      if Overflows(front) {
        OverflowStays(PlaceAll(front, 1), c);
      } else if Wide(c) && Exposed(front) {
        OverflowStarts(PlaceAll(front, 1), front, c);
      } else {
        NarrowStep(PlaceAll(front, 1), front, c);
      }
    }
  }

  lemma {:induction false} NarrowEmpty()
    ensures Narrow(Wrap([], []), [])
  {
    WidthNone();
  }

  /**
    At one column some line is too wide exactly when a wide code point comes right after code points of
    no width that start the paragraph or follow another wide one.
  */
  lemma {:induction false} OneColumnOverflowsIff(paragraph: Line)
    ensures Fit(WrapParagraph(paragraph, 1), 1) <==> !Overflows(paragraph)
  {
    NarrowAll(paragraph);
    NoneFits(1);
  }

  // ----- the whole text

  function Unlines(ps: seq<Line>): Line {
    if ps == [] then []
    else if |ps| == 1 then ps[0]
    else Unlines(ps[..|ps| - 1]) + ([NEWLINE] + ps[|ps| - 1])
  }

  /** Splitting at line breaks loses nothing and leaves none inside a paragraph. */
  lemma {:induction false} ParagraphsExact(text: Line)
    ensures Unlines(Paragraphs(text)) == text
    ensures forall i :: 0 <= i < |Paragraphs(text)| ==> '\n' as nat !in Paragraphs(text)[i]
  {
    if text != [] {
      var front, c := text[..|text| - 1], text[|text| - 1];
      ParagraphsExact(front);
      var ps := Paragraphs(front);
      var now := Paragraphs(text);
      assert front + [c] == text;
      if c == NEWLINE {
        assert now[..|now| - 1] == ps;
        assert [NEWLINE] + [] == [c];
      } else {
        assert now[..|now| - 1] == ps[..|ps| - 1];
        if |ps| > 1 {
          var body := Unlines(ps[..|ps| - 1]);
          assert body + ([NEWLINE] + (ps[|ps| - 1] + [c])) == body + ([NEWLINE] + ps[|ps| - 1]) + [c];
        }
      }
    }
  }

  lemma {:induction false} WrapParagraphsFit(ps: seq<Line>, width: int)
    requires width >= 2
    ensures Fit(WrapParagraphs(ps, width), width)
    ensures Flatten(WrapParagraphs(ps, width)) == Flatten(ps)
  {
    hide CodePointWidth, Width, WrapParagraph;
    if ps != [] {
      var front, last := ps[..|ps| - 1], ps[|ps| - 1];
      WrapParagraphsFit(front, width);
      WrapBreaks(last, width);
      FlattenConcat(WrapParagraphs(front, width), WrapParagraph(last, width));
    }
  }

  lemma {:induction false} FlattenConcat(a: seq<Line>, b: seq<Line>)
    ensures Flatten(a + b) == Flatten(a) + Flatten(b)
  {
    if b == [] {
      assert a + b == a;
    } else {
      var n := |b| - 1;
      assert (a + b)[..|a + b| - 1] == a + b[..n];
      FlattenConcat(a, b[..n]);
      assert Flatten(a) + Flatten(b[..n]) + b[n] == Flatten(a) + (Flatten(b[..n]) + b[n]);
    }
  }

  // ----- drawing a tool result

  function Codes(s: string): Line {
    seq(|s|, i requires 0 <= i < |s| => s[i] as nat)
  }

  function MoreLines(n: nat): Line {
    [ELLIPSIS] + Codes(" " + Decimal(n) + " more lines, in payloads.jsonl")
  }

  function Shown(lines: seq<Line>): seq<Line> {
    if |lines| > MAX_EXPANDED_LINES
    then lines[..MAX_EXPANDED_LINES] + [MoreLines(|lines| - MAX_EXPANDED_LINES)] else lines
  }

  /**
    `renderToolResult`: no line it draws is wider than the terminal, whatever the width; and from two
    columns on, the expanded view shows the wrapped lines as they are, up to two hundred of them.
  */
  method RenderToolResult(expanded: bool, text: Line, summary: Line, width: int) returns (drawn: seq<Line>)
    ensures Fit(drawn, Max(0, width))
    ensures !expanded ==> |drawn| == 1 && Fitted(summary, width, drawn[0])
    ensures expanded ==> |drawn| == Min(|WrapText(text, width)|, 201)
    ensures expanded ==> forall i :: 0 <= i < |drawn| ==> Fitted(Shown(WrapText(text, width))[i], width, drawn[i])
    ensures expanded && width >= 2 ==>
              forall i :: 0 <= i < |drawn| && i < 200 ==> drawn[i] == WrapText(text, width)[i]
  {
    hide CodePointWidth, Width, WrapText, MoreLines;
    if !expanded {
      var line := FitLine(summary, width);
      return [line];
    }
    var lines := WrapToWidth(text, width);
    var shown := Shown(lines);
    drawn := [];
    for i := 0 to |shown|
      invariant |drawn| == i && Fit(drawn, Max(0, width))
      invariant forall k :: 0 <= k < i ==> Fitted(shown[k], width, drawn[k])
    {
      var line := FitLine(shown[i], width);
      drawn := drawn + [line];
    }
    if width >= 2 {
      WrapTextFits(text, width);
    }
  }

  lemma {:induction false} WrapTextFits(text: Line, width: int)
    requires width >= 2
    ensures Fit(WrapText(text, width), width)
    ensures Flatten(WrapText(text, width)) == Flatten(Paragraphs(text))
  {
    WrapParagraphsFit(Paragraphs(text), width);
  }
}
