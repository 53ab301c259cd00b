/**
  Any sequence of appends to the event file (src/core/ledger.ts), each cut short anywhere: what a
  later read makes of the file, and when it loses nothing.
*/
module LedgerRuns {
  import opened Common
  import opened LedgerFile

  predicate Wrote<E>(c: Call<E>) {
    c.lived > 0
  }

  /** The event's whole text was written, with or without its line break. */
  predicate Whole<E>(c: Call<E>, ser: Serializer<E>) {
    c.lived >= |ser(c.event)|
  }

  /** Something was written, and its line left open. */
  predicate Open<E>(c: Call<E>, ser: Serializer<E>) {
    0 < c.lived <= |ser(c.event)|
  }

  /** The events whose whole text was written. */
  function Events<E>(calls: seq<Call<E>>, ser: Serializer<E>): seq<E> {
    if calls == [] then []
    else (if Whole(calls[0], ser) then [calls[0].event] else []) + Events(calls[1..], ser)
  }

  // ----- lines made of several pieces

  ghost predicate Piece<E(!new)>(p: string, ser: Serializer<E>) {
    exists e :: PieceOf(p, e, ser)
  }

  predicate PieceOf<E>(p: string, e: E, ser: Serializer<E>) {
    0 < |p| <= |ser(e)| && p == ser(e)[..|p|]
  }

  ghost predicate Pieces<E(!new)>(ps: seq<string>, ser: Serializer<E>) {
    forall i :: 0 <= i < |ps| ==> Piece(ps[i], ser)
  }

  function Glued(ps: seq<string>): string {
    if ps == [] then [] else Glued(ps[..|ps| - 1]) + ps[|ps| - 1]
  }

  /** A line glued from the beginnings of two or more events is never the text of one. */
  ghost predicate Unjoinable<E(!new)>(ser: Serializer<E>, parse: Parser<E>) {
    forall ps :: |ps| > 1 && Pieces(ps, ser) ==> parse(Glued(ps)).None?
  }

  lemma {:induction false} GluedOne(ps: seq<string>, p: string)
    ensures Glued(ps + [p]) == Glued(ps) + p
  {
    assert (ps + [p])[..|ps + [p]| - 1] == ps;
  }

  lemma {:induction false} GluedLine<E(!new)>(ps: seq<string>, ser: Serializer<E>, parse: Parser<E>)
    requires Codec(ser, parse) && Pieces(ps, ser)
    ensures '\n' !in Glued(ps)
    ensures ps != [] ==> Glued(ps) != [] && !Space(Glued(ps)[0])
  {
    if ps != [] {
      var n := |ps| - 1;
      assert Pieces(ps[..n], ser);
      GluedLine(ps[..n], ser, parse);
      assert Piece(ps[n], ser);
      PieceText(ps[n], ser, parse);
    }
  }

  lemma {:induction false} PieceText<E(!new)>(p: string, ser: Serializer<E>, parse: Parser<E>)
    requires Codec(ser, parse) && Piece(p, ser)
    ensures p != [] && !Space(p[0]) && '\n' !in p
  {
    var e :| PieceOf(p, e, ser);
    assert LineOf(ser(e), e, parse);
    assert p[0] == ser(e)[0];
  }

  lemma {:induction false} PiecesMore<E(!new)>(ps: seq<string>, e: E, n: nat, ser: Serializer<E>)
    requires Pieces(ps, ser) && 0 < n <= |ser(e)|
    ensures Pieces(ps + [ser(e)[..n]], ser)
  {
    assert PieceOf(ser(e)[..n], e, ser);
  }

  // ----- what reading makes of the appends

  /** The line under way: none, one that is an event already, or one that is none and never will be but for its end. */
  datatype Line<+E> = Nothing | Event(event: E) | Torn

  function Of<E>(line: Line<E>): seq<E> {
    if line.Event? then [line.event] else []
  }

  function Extended<E>(line: Line<E>, c: Call<E>, ser: Serializer<E>): Line<E> {
    if line.Nothing? && c.lived == |ser(c.event)| then Event(c.event) else Torn
  }

  predicate Silent<E>(calls: seq<Call<E>>) {
    forall i :: 0 <= i < |calls| ==> !Wrote(calls[i])
  }

  /** The result of reading, call by call. */
  function ReadCalls<E>(calls: seq<Call<E>>, line: Line<E>, ser: Serializer<E>): Result<seq<E>> {
    if calls == [] then Ok(Of(line))
    else if !Wrote(calls[0]) then ReadCalls(calls[1..], line, ser)
    else if Open(calls[0], ser) then ReadCalls(calls[1..], Extended(line, calls[0], ser), ser)
    else if line.Nothing? then Prepend([calls[0].event], ReadCalls(calls[1..], Nothing, ser))
    else if Silent(calls[1..]) then Ok([])
    else Err(CORRUPT)
  }

  /** The pieces written on the line under way. */
  ghost predicate Shows<E(!new)>(ps: seq<string>, line: Line<E>, ser: Serializer<E>, parse: Parser<E>) {
    && Pieces(ps, ser)
    && (line.Nothing? <==> ps == [])
    && (ps != [] ==> parse(Glued(ps)) == if line.Event? then Some(line.event) else None)
  }

  lemma {:induction false} WrittenCons<E>(calls: seq<Call<E>>, ser: Serializer<E>)
    requires calls != []
    ensures Written(calls, ser) == Chars(calls[0], ser) + Written(calls[1..], ser)
  {
    var n := |calls| - 1;
    if n > 0 {
      WrittenCons(calls[..n], ser);
      assert calls[..n][1..] == calls[1..][..n - 1];
    } else {
      assert calls[..0] == [] && calls[1..] == [];
    }
  }

  lemma {:induction false} FirstChar<E(!new)>(c: Call<E>, ser: Serializer<E>, parse: Parser<E>)
    requires Codec(ser, parse)
    ensures !Wrote(c) ==> Chars(c, ser) == []
    ensures Wrote(c) ==> Chars(c, ser) != [] && !Space(Chars(c, ser)[0])
  {
    assert LineOf(ser(c.event), c.event, parse);
    if Wrote(c) {
      assert Chars(c, ser)[0] == ser(c.event)[0];
    }
  }

  lemma {:induction false} SilentWrites<E(!new)>(calls: seq<Call<E>>, ser: Serializer<E>, parse: Parser<E>)
    requires Codec(ser, parse)
    ensures Silent(calls) ==> Written(calls, ser) == []
    ensures !Silent(calls) ==> Written(calls, ser) != [] && !Space(Written(calls, ser)[0])
  {
    if calls != [] {
      SilentWrites(calls[1..], ser, parse);
      WrittenCons(calls, ser);
      FirstChar(calls[0], ser, parse);
      assert Silent(calls) <==> !Wrote(calls[0]) && Silent(calls[1..]);
      hide Codec, Chars, Written, Space;
    }
  }

  lemma {:induction false} FirstLine(x: string, current: string)
    ensures current <= Lines(x, current)[0]
    ensures x == [] ==> Lines(x, current) == [current]
    decreases |x|
  {
    if x != [] && x[0] != '\n' {
      FirstLine(x[1..], current + [x[0]]);
    }
  }

  lemma {:induction false} SilentLines<E(!new)>(calls: seq<Call<E>>, ser: Serializer<E>, parse: Parser<E>)
    requires Codec(ser, parse)
    ensures AllBlank(Lines(Written(calls, ser), [])) <==> Silent(calls)
  {
    SilentWrites(calls, ser, parse);
    var text := Written(calls, ser);
    if text == [] {
      FirstLine([], []);
    } else {
      assert text[0] != '\n' && Lines(text, []) == Lines(text[1..], [] + [text[0]]);
      FirstLine(text[1..], [] + [text[0]]);
      var first := Lines(text, [])[0];
      assert [text[0]] <= first && first[0] == text[0];
      assert !Blank(first);
    }
  }

  lemma {:induction false} TornChars<E>(c: Call<E>, ser: Serializer<E>)
    ensures !Wrote(c) ==> Chars(c, ser) == []
    ensures Open(c, ser) ==> Chars(c, ser) == ser(c.event)[..c.lived]
    ensures Wrote(c) && !Open(c, ser) ==> Chars(c, ser) == ser(c.event) + ['\n']
  {}

  lemma {:induction false} ShowsMore<E(!new)>(
      ps: seq<string>, line: Line<E>, c: Call<E>, ser: Serializer<E>, parse: Parser<E>)
    requires Codec(ser, parse) && Unjoinable(ser, parse) && Shows(ps, line, ser, parse) && Open(c, ser)
    ensures Shows(ps + [ser(c.event)[..c.lived]], Extended(line, c, ser), ser, parse)
  {
    var p := ser(c.event)[..c.lived];
    assert LineOf(ser(c.event), c.event, parse);
    PiecesMore(ps, c.event, c.lived, ser);
    if ps == [] {
      GluedOne(ps, p);
      assert Glued([]) + p == p;
      assert c.lived == |ser(c.event)| ==> p == ser(c.event);
    } else {
      assert parse(Glued(ps + [p])).None?;
    }
  }

  /** What a complete append makes of the line. */
  lemma {:induction false} LineOfAll<E(!new)>(
      ps: seq<string>, line: Line<E>, e: E, ser: Serializer<E>, parse: Parser<E>)
    requires Codec(ser, parse) && Unjoinable(ser, parse) && Shows(ps, line, ser, parse)
    ensures var all := Glued(ps) + ser(e);
            '\n' !in all && !Blank(all) && parse(all) == if line.Nothing? then Some(e) else None
  {
    var all := ps + [ser(e)];
    assert LineOf(ser(e), e, parse);
    assert ser(e)[..|ser(e)|] == ser(e);
    PiecesMore(ps, e, |ser(e)|, ser);
    GluedOne(ps, ser(e));
    GluedLine(all, ser, parse);
    if ps == [] {
      assert Glued([]) + ser(e) == ser(e);
    }
  }

  /** A complete append behind what the line shows. */
  lemma {:induction false} LineClosed<E(!new)>(
      ps: seq<string>, line: Line<E>, e: E, rest: string, ser: Serializer<E>, parse: Parser<E>)
    requires Codec(ser, parse) && Unjoinable(ser, parse) && Shows(ps, line, ser, parse)
    ensures ReadRaw(Glued(ps) + (ser(e) + ['\n'] + rest), parse)
            == if line.Nothing? then Prepend([e], ReadRaw(rest, parse))
               else if AllBlank(Lines(rest, [])) then Ok([]) else Err(CORRUPT)
  {
    LineOfAll(ps, line, e, ser, parse);
    hide Codec, Unjoinable, Shows, Glued, Blank, Lines, AllBlank;
    var all := Glued(ps) + ser(e);
    assert Glued(ps) + (ser(e) + ['\n'] + rest) == all + (['\n'] + rest);
    OneLine(all, rest);
    assert ([all] + Lines(rest, []))[1..] == Lines(rest, []);
  }

  lemma {:induction false} LineLeftOpen<E(!new)>(ps: seq<string>, line: Line<E>, ser: Serializer<E>, parse: Parser<E>)
    requires Codec(ser, parse) && Shows(ps, line, ser, parse)
    ensures ReadRaw(Glued(ps), parse) == Ok(Of(line))
  {
    GluedLine(ps, ser, parse);
    OneLine(Glued(ps), []);
    var rest := Lines(Glued(ps), [])[1..];
    assert rest == [];
    assert ReadLines(rest, parse) == Ok([]);
    if ps != [] {
      assert !Blank(Glued(ps));
      assert line.Event? ==> [line.event] + [] == Of(line);
    }
  }

  /** Reading the file is reading it call by call. */
  lemma {:induction false} ReadsCallByCall<E(!new)>(calls: seq<Call<E>>, ps: seq<string>, line: Line<E>,
                                                    ser: Serializer<E>, parse: Parser<E>)
    requires Codec(ser, parse) && Unjoinable(ser, parse) && Shows(ps, line, ser, parse)
    ensures ReadRaw(Glued(ps) + Written(calls, ser), parse) == ReadCalls(calls, line, ser)
    decreases |calls|
  {
    hide Codec, Unjoinable, Shows, ReadRaw, Open, Silent, Chars, Glued;
    if calls == [] {
      LineLeftOpen(ps, line, ser, parse);
      assert Glued(ps) + [] == Glued(ps);
    } else {
      var c, rest := calls[0], Written(calls[1..], ser);
      WrittenCons(calls, ser);
      TornChars(c, ser);
      if !Wrote(c) {
        assert Glued(ps) + ([] + rest) == Glued(ps) + rest;
        ReadsCallByCall(calls[1..], ps, line, ser, parse);
      } else if Open(c, ser) {
        OpenBounds(c, ser);
        var p := ser(c.event)[..c.lived];
        ShowsMore(ps, line, c, ser, parse);
        GluedOne(ps, p);
        assert Glued(ps) + (p + rest) == Glued(ps + [p]) + rest;
        ReadsCallByCall(calls[1..], ps + [p], Extended(line, c, ser), ser, parse);
      } else {
        LineClosed(ps, line, c.event, rest, ser, parse);
        SilentLines(calls[1..], ser, parse);
        if line.Nothing? {
          NoPieces(ser, parse);
          ReadsCallByCall(calls[1..], [], Nothing, ser, parse);
          assert [] + rest == rest;
        }
      }
    }
  }

  lemma {:induction false} OpenBounds<E>(c: Call<E>, ser: Serializer<E>)
    requires Open(c, ser)
    ensures 0 < c.lived <= |ser(c.event)|
  {}

  lemma {:induction false} NoPieces<E(!new)>(ser: Serializer<E>, parse: Parser<E>)
    ensures Shows([], Nothing, ser, parse) && Glued([]) == []
  {}

  // ----- when nothing is lost

  /** No two calls share a line of which either wrote its event whole. */
  predicate NoLoss<E>(calls: seq<Call<E>>, ser: Serializer<E>) {
    forall i, j :: 0 <= i < j < |calls| && Open(calls[i], ser) && Wrote(calls[j]) ==>
      !Whole(calls[i], ser) && !Whole(calls[j], ser)
  }

  /** The same, with a line under way. */
  predicate NoLossFrom<E>(calls: seq<Call<E>>, line: Line<E>, ser: Serializer<E>) {
    && NoLoss(calls, ser)
    && (line.Event? ==> Silent(calls))
    && (line.Torn? ==> forall i :: 0 <= i < |calls| && Wrote(calls[i]) ==> !Whole(calls[i], ser))
  }

  lemma {:induction false} NoLossCons<E>(calls: seq<Call<E>>, line: Line<E>, ser: Serializer<E>)
    requires calls != []
    ensures var c, rest := calls[0], calls[1..];
            NoLossFrom(calls, line, ser) <==>
              if !Wrote(c) then NoLossFrom(rest, line, ser)
              else if Open(c, ser) then
                !line.Event? && (line.Torn? ==> !Whole(c, ser)) && NoLossFrom(rest, Extended(line, c, ser), ser)
              else line.Nothing? && NoLossFrom(rest, Nothing, ser)
  {
    var c, rest := calls[0], calls[1..];
    assert forall i :: 0 < i < |calls| ==> calls[i] == rest[i - 1];
    assert forall i :: 0 <= i < |rest| ==> rest[i] == calls[i + 1];
    if NoLossFrom(calls, line, ser) {
      forall i, j | 0 <= i < j < |rest| && Open(rest[i], ser) && Wrote(rest[j])
        ensures !Whole(rest[i], ser) && !Whole(rest[j], ser)
      {
        assert Open(calls[i + 1], ser) && Wrote(calls[j + 1]);
      }
    }
  }

  lemma {:induction false} AtMostWritten<E>(calls: seq<Call<E>>, line: Line<E>, ser: Serializer<E>)
    requires forall i :: 0 <= i < |calls| ==> |ser(calls[i].event)| > 0
    ensures var r := ReadCalls(calls, line, ser); r.Ok? ==> |r.value| <= |Of(line)| + |Events(calls, ser)|
    decreases |calls|
  {
    if calls != [] {
      AtMostWritten(calls[1..], line, ser);
      AtMostWritten(calls[1..], Extended(line, calls[0], ser), ser);
      AtMostWritten(calls[1..], Nothing, ser);
    }
  }

  lemma {:induction false} ClosedIsWhole<E>(c: Call<E>, ser: Serializer<E>)
    ensures Wrote(c) && !Open(c, ser) ==> Whole(c, ser)
    ensures !Wrote(c) && |ser(c.event)| > 0 ==> !Whole(c, ser)
  {}

  /** One more piece on the line: only the first piece of a line can still become an event. */
  lemma {:induction false} OpenStep<E>(line: Line<E>, c: Call<E>, r: Result<seq<E>>, tail: seq<E>, ser: Serializer<E>)
    requires Open(c, ser)
    requires r.Ok? ==> |r.value| <= |Of(Extended(line, c, ser))| + |tail|
    ensures r == Ok(Of(line) + ((if Whole(c, ser) then [c.event] else []) + tail))
            <==> !line.Event? && (line.Torn? ==> !Whole(c, ser)) && r == Ok(Of(Extended(line, c, ser)) + tail)
  {
    if !line.Event? && (line.Torn? ==> !Whole(c, ser)) {
      assert Of(line) + ((if Whole(c, ser) then [c.event] else []) + tail) == Of(Extended(line, c, ser)) + tail;
    }
  }

  lemma {:induction false} LosesNothingIff<E>(calls: seq<Call<E>>, line: Line<E>, ser: Serializer<E>)
    requires forall i :: 0 <= i < |calls| ==> |ser(calls[i].event)| > 0
    ensures ReadCalls(calls, line, ser) == Ok(Of(line) + Events(calls, ser)) <==> NoLossFrom(calls, line, ser)
    decreases |calls|
  {
    if calls == [] {
      assert Of(line) + [] == Of(line);
    } else {
      var c, rest := calls[0], calls[1..];
      NoLossCons(calls, line, ser);
      ClosedIsWhole(c, ser);
      hide NoLossFrom, Silent, Open, Extended, Whole;
      if !Wrote(c) {
        LosesNothingIff(rest, line, ser);
        assert [] + Events(rest, ser) == Events(rest, ser);
      } else if Open(c, ser) {
        var next := Extended(line, c, ser);
        LosesNothingIff(rest, next, ser);
        AtMostWritten(rest, next, ser);
        OpenStep(line, c, ReadCalls(rest, next, ser), Events(rest, ser), ser);
      } else {
        LosesNothingIff(rest, Nothing, ser);
        if line.Nothing? {
          ConsOk(c.event, ReadCalls(rest, Nothing, ser), Events(rest, ser));
          assert Of(line) + Events(calls, ser) == [c.event] + Events(rest, ser);
          assert Of<E>(Nothing) + Events(rest, ser) == Events(rest, ser);
        } else {
          assert |Of(line) + Events(calls, ser)| > 0;
        }
      }
    }
  }

  lemma {:induction false} ConsOk<E>(e: E, r: Result<seq<E>>, es: seq<E>)
    ensures Prepend([e], r) == Ok([e] + es) <==> r == Ok(es)
  {
    if r.Ok? && [e] + r.value == [e] + es {
      assert r.value == ([e] + r.value)[1..];
      assert es == ([e] + es)[1..];
    }
  }

  /**
    Appends cut short anywhere, and more behind them: the file reads back as exactly the events whose
    whole text was written, exactly when no two calls share a line of which either wrote its event whole.
  */
  lemma {:induction false} RunReadsBackIff<E(!new)>(calls: seq<Call<E>>, ser: Serializer<E>, parse: Parser<E>)
    requires Codec(ser, parse) && Unjoinable(ser, parse)
    ensures ReadRaw(Written(calls, ser), parse) == ReadCalls(calls, Nothing, ser)
    ensures ReadRaw(Written(calls, ser), parse) == Ok(Events(calls, ser)) <==> NoLoss(calls, ser)
  {
    NoPieces(ser, parse);
    ReadsCallByCall(calls, [], Nothing, ser, parse);
    assert [] + Written(calls, ser) == Written(calls, ser);
    forall i | 0 <= i < |calls|
      ensures |ser(calls[i].event)| > 0
    {
      assert LineOf(ser(calls[i].event), calls[i].event, parse);
    }
    LosesNothingIff(calls, Nothing, ser);
    assert Of<E>(Nothing) + Events(calls, ser) == Events(calls, ser);
  }

  // ----- what is asked of the host's JSON can be met

  /** A number in braces. */
  function Braced(n: nat): (s: string)
    ensures |s| >= 3 && s[0] == '{' && s[|s| - 1] == '}'
    ensures forall i :: 0 < i < |s| - 1 ==> '0' <= s[i] <= '9'
  {
    "{" + Decimal(n) + "}"
  }

  ghost function Unbraced(s: string): Option<nat> {
    if exists n: nat :: s == Braced(n) then
      var n: nat :| s == Braced(n);
      Some(n)
    else None
  }

  lemma {:induction false} BracedInjective(m: nat, n: nat)
    requires Braced(m) == Braced(n)
    ensures m == n
  {
    assert Decimal(m) == Braced(m)[1..|Braced(m)| - 1] == Decimal(n);
    DecimalInjective(m, n);
  }

  lemma {:induction false} BracedLine(n: nat)
    ensures LineOf(Braced(n), n, Unbraced)
  {
    var s := Braced(n);
    assert Unbraced(s) == Some(n) by {
      var m: nat :| s == Braced(m) && Unbraced(s) == Some(m);
      BracedInjective(m, n);
    }
    forall k | 0 < k < |s|
      ensures Unbraced(s[..k]).None?
    {
      assert s[..k][k - 1] == s[k - 1] && s[k - 1] != '}';
    }
  }

  /** Serializing numbers in braces is such a host. */
  lemma {:induction false} HostExists()
    ensures Codec(Braced, Unbraced) && Unjoinable(Braced, Unbraced)
  {
    forall n: nat
      ensures LineOf(Braced(n), n, Unbraced)
    {
      BracedLine(n);
    }
    forall ps | |ps| > 1 && Pieces(ps, Braced)
      ensures Unbraced(Glued(ps)).None?
    {
      GluedUnbraced(ps);
    }
  }

  lemma {:induction false} GluedUnbraced(ps: seq<string>)
    requires |ps| > 1 && Pieces(ps, Braced)
    ensures Unbraced(Glued(ps)).None?
  {
    var front, last := ps[..|ps| - 1], ps[|ps| - 1];
    assert Piece(ps[0], Braced) && Piece(last, Braced);
    var n: nat :| PieceOf(last, n, Braced);
    assert last[0] == '{';
    GluedNonempty(front);
    assert Glued(ps)[|Glued(front)|] == '{';
  }

  lemma {:induction false} GluedNonempty(ps: seq<string>)
    requires |ps| > 0 && Pieces(ps, Braced)
    ensures Glued(ps) != []
  {
    assert Piece(ps[|ps| - 1], Braced);
  }
}
