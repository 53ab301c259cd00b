/**
  What a terminal line looks like, in columns and code points (src/host/pi-tool-view.ts): the table of
  widths, the longest cut, and what wrapping keeps at any width.
*/
module TerminalLaw {
  import opened Common
  import opened Terminal

  datatype Range = Range(first: nat, last: nat)

  predicate Within(code: nat, rs: seq<Range>) {
    exists i :: 0 <= i < |rs| && rs[i].first <= code <= rs[i].last
  }

  /** Controls, joiners and combining marks. */
  const UNSEEN: seq<Range> :=
    [Range(0, 31), Range(0x7f, 0x9f), Range(0x300, 0x36f), Range(0x1ab0, 0x1aff), Range(0x1dc0, 0x1dff),
     Range(0x200b, 0x200b), Range(0x20d0, 0x20ff), Range(0xfe00, 0xfe0f), Range(0xfe20, 0xfe2f),
     Range(0xe0100, 0xe01ef)]

  /** East Asian scripts, full-width forms and pictographs. */
  const DOUBLE: seq<Range> :=
    [Range(0x1100, 0x115f), Range(0x2329, 0x232a), Range(0x2e80, 0x303e), Range(0x3040, 0xa4cf),
     Range(0xac00, 0xd7a3), Range(0xf900, 0xfaff), Range(0xfe10, 0xfe19), Range(0xfe30, 0xfe6f),
     Range(0xff00, 0xff60), Range(0xffe0, 0xffe6), Range(0x1f300, 0x1f64f), Range(0x1f900, 0x1f9ff),
     Range(0x20000, 0x3fffd)]

  predicate Ascending(rs: seq<Range>) {
    && (forall i :: 0 <= i < |rs| ==> rs[i].first <= rs[i].last)
    && (forall i, j :: 0 <= i < j < |rs| ==> rs[i].last < rs[j].first)
  }

  /** A code point takes no column, two or one as the two tables say, and no range of either meets another. */
  lemma {:induction false} WidthsByTable(code: nat)
    ensures CodePointWidth(code) == (if Within(code, UNSEEN) then 0 else if Within(code, DOUBLE) then 2 else 1)
    ensures Ascending(UNSEEN) && Ascending(DOUBLE) && !(Within(code, UNSEEN) && Within(code, DOUBLE))
  {
    hide Within, Ascending, UNSEEN, DOUBLE;
    UnseenCodes(code);
    DoubleCodes(code);
    TablesAscend();
  }

  lemma {:induction false} TablesAscend()
    ensures Ascending(UNSEEN) && Ascending(DOUBLE)
  {}

  lemma {:induction false} UnseenCodes(code: nat)
    ensures Within(code, UNSEEN) <==>
              || code <= 31 || 0x7f <= code <= 0x9f || 0x300 <= code <= 0x36f || 0x1ab0 <= code <= 0x1aff
              || 0x1dc0 <= code <= 0x1dff || code == 0x200b || 0x20d0 <= code <= 0x20ff
              || 0xfe00 <= code <= 0xfe0f || 0xfe20 <= code <= 0xfe2f || 0xe0100 <= code <= 0xe01ef
  {
    var rs := UNSEEN;
    assert |rs| == 10;
    assert rs[0] == Range(0, 31) && rs[1] == Range(0x7f, 0x9f) && rs[2] == Range(0x300, 0x36f);
    assert rs[3] == Range(0x1ab0, 0x1aff) && rs[4] == Range(0x1dc0, 0x1dff) && rs[5] == Range(0x200b, 0x200b);
    assert rs[6] == Range(0x20d0, 0x20ff) && rs[7] == Range(0xfe00, 0xfe0f) && rs[8] == Range(0xfe20, 0xfe2f);
    assert rs[9] == Range(0xe0100, 0xe01ef);
  }

  lemma {:induction false} DoubleCodes(code: nat)
    ensures Within(code, DOUBLE) <==>
              || 0x1100 <= code <= 0x115f || 0x2329 <= code <= 0x232a || 0x2e80 <= code <= 0x303e
              || 0x3040 <= code <= 0xa4cf || 0xac00 <= code <= 0xd7a3 || 0xf900 <= code <= 0xfaff
              || 0xfe10 <= code <= 0xfe19 || 0xfe30 <= code <= 0xfe6f || 0xff00 <= code <= 0xff60
              || 0xffe0 <= code <= 0xffe6 || 0x1f300 <= code <= 0x1f64f || 0x1f900 <= code <= 0x1f9ff
              || 0x20000 <= code <= 0x3fffd
  {
    var rs := DOUBLE;
    assert |rs| == 13;
    assert rs[0] == Range(0x1100, 0x115f) && rs[1] == Range(0x2329, 0x232a) && rs[2] == Range(0x2e80, 0x303e);
    assert rs[3] == Range(0x3040, 0xa4cf) && rs[4] == Range(0xac00, 0xd7a3) && rs[5] == Range(0xf900, 0xfaff);
    assert rs[6] == Range(0xfe10, 0xfe19) && rs[7] == Range(0xfe30, 0xfe6f) && rs[8] == Range(0xff00, 0xff60);
    assert rs[9] == Range(0xffe0, 0xffe6) && rs[10] == Range(0x1f300, 0x1f64f);
    assert rs[11] == Range(0x1f900, 0x1f9ff) && rs[12] == Range(0x20000, 0x3fffd);
  }

  // ----- one line cut to fit

  lemma {:induction false} WidthGrows(text: Line, j: nat, k: nat)
    requires j <= k <= |text|
    ensures Width(text[..j]) <= Width(text[..k])
  {
    WidthConcat(text[..j], text[j..k]);
    assert text[..j] + text[j..k] == text[..k];
  }

  /** The prefixes that leave room for the mark are those up to `k`. */
  ghost predicate RoomUpTo(text: Line, width: int, k: nat) {
    forall j: nat :: j <= |text| ==> (j <= k <==> Width(text[..j]) < width)
  }

  /**
    There is one way to fit a line: all of it when it fits, otherwise an ellipsis after every prefix code
    point that leaves it room, the ellipsis alone in a single column, and nothing in none.
  */
  lemma {:induction false} FittedIff(text: Line, width: int, r: Line)
    ensures Fitted(text, width, r) <==>
            if width < 1 then r == []
            else if Width(text) < width + 1 then r == text
            else if width == 1 then r == [0x2026]
            else exists k: nat :: k < |text| && RoomUpTo(text, width, k) && r == text[..k] + [0x2026]
  {
    hide CodePointWidth, Width;
    EllipsisWidth();
    if width > 1 && Width(text) > width {
      if Fitted(text, width, r) {
        var k := |r| - 1;
        assert r == text[..k] + [0x2026];
        WidthConcat(text[..k], [ELLIPSIS]);
        RoomFrom(text, width, k);
      }
      if k: nat :| k < |text| && RoomUpTo(text, width, k) && r == text[..k] + [0x2026] {
        assert r[..|r| - 1] == text[..k];
        WidthConcat(text[..k], [ELLIPSIS]);
        assert !(k + 1 <= k);
      }
    } else if width == 1 && Width(text) > width {
      WidthNone();
      assert text[..0] == [] && |text| > 0;
      assert r == [0x2026] ==> r[..0] == [];
      assert Fitted(text, width, r) ==> r == [r[0]];
    }
  }

  lemma {:induction false} RoomFrom(text: Line, width: int, k: nat)
    requires k < |text| && Width(text[..k]) < width && Width(text[..k + 1]) >= width
    ensures RoomUpTo(text, width, k)
  {
    hide CodePointWidth, Width;
    forall j: nat | j <= |text|
      ensures j <= k <==> Width(text[..j]) < width
    {
      if j <= k {
        WidthGrows(text, j, k);
      } else {
        WidthGrows(text, k + 1, j);
      }
    }
  }

  // ----- what wrapping keeps

  /** The same code points in the same order, but for marks in place of ones too wide for the terminal. */
  predicate Marked(text: Line, drawn: Line, width: int) {
    && |drawn| == |text|
    && forall i :: 0 <= i < |text| ==>
         drawn[i] == text[i] || (drawn[i] == 0x2026 && CodePointWidth(text[i]) > width)
  }

  lemma {:induction false} MarkedOne(text: Line, drawn: Line, c: nat, d: nat, width: int)
    requires Marked(text, drawn, width) && (d == c || (d == ELLIPSIS && CodePointWidth(c) > width))
    ensures Marked(text + [c], drawn + [d], width)
  {
    hide CodePointWidth;
  }

  /** A code point adds one to what is drawn, itself or a mark. */
  lemma {:induction false} PlaceDraws(w: Wrap, c: nat, width: int) returns (d: nat)
    ensures Flatten(Finished(Place(w, c, width))) == Flatten(Finished(w)) + [d]
    ensures d == c || (d == ELLIPSIS && CodePointWidth(c) > width)
  {
    hide CodePointWidth, Width, Flatten;
    var turned := Place(w, c, width);
    FlattenOne(w.lines, w.current);
    FlattenOne(turned.lines, turned.current);
    d := if turned.current == [] then ELLIPSIS else c;
    FlattenOne(w.lines, [d]);
    FlattenOne(w.lines + [w.current], [d]);
    assert [] + [c] == [c];
    assert Flatten(w.lines) + (w.current + [c]) == Flatten(w.lines) + w.current + [c];
    WidthNone();
  }

  lemma {:induction false} PlaceMarks(text: Line, w: Wrap, c: nat, width: int)
    requires width >= 1 && Marked(text, Flatten(Finished(w)), width)
    ensures Marked(text + [c], Flatten(Finished(Place(w, c, width))), width)
  {
    hide Marked, Place, Flatten, Finished, CodePointWidth, Width;
    var d := PlaceDraws(w, c, width);
    MarkedOne(text, Flatten(Finished(w)), c, d, width);
  }

  lemma {:induction false} ParagraphMarks(text: Line, width: int)
    requires width >= 1
    ensures Marked(text, Flatten(WrapParagraph(text, width)), width)
    ensures Marked(text, Flatten(Finished(PlaceAll(text, width))), width)
  {
    hide CodePointWidth, Place, Marked;
    FlattenOne([], []);
    if text == [] {
      assert Marked([], [], width) by { NothingMarked(width); }
    } else {
      var front, c := text[..|text| - 1], text[|text| - 1];
      ParagraphMarks(front, width);
      PlaceMarks(front, PlaceAll(front, width), c, width);
      assert front + [c] == text;
    }
  }

  lemma {:induction false} NothingMarked(width: int)
    ensures Marked([], [], width)
  {}

  lemma {:induction false} AllMarks(ps: seq<Line>, width: int)
    requires width >= 1
    ensures Marked(Flatten(ps), Flatten(WrapParagraphs(ps, width)), width)
  {
    hide CodePointWidth, WrapParagraph;
    if ps != [] {
      var front, last := ps[..|ps| - 1], ps[|ps| - 1];
      AllMarks(front, width);
      ParagraphMarks(last, width);
      FlattenConcat(WrapParagraphs(front, width), WrapParagraph(last, width));
    }
  }

  /**
    From one column on, wrapping keeps every code point of every paragraph in order, a mark standing for
    one too wide for the terminal; from two columns on no mark appears. Without a column there is one
    empty line.
  */
  lemma {:induction false} WrapKeeps(text: Line, width: int)
    ensures width < 1 ==> WrapText(text, width) == [[]]
    ensures width >= 1 ==> Marked(Flatten(Paragraphs(text)), Flatten(WrapText(text, width)), width)
    ensures width >= 2 ==> Flatten(WrapText(text, width)) == Flatten(Paragraphs(text))
  {
    hide CodePointWidth, Marked;
    if width >= 1 {
      AllMarks(Paragraphs(text), width);
    }
    if width >= 2 {
      WrapTextFits(text, width);
    }
  }
}
