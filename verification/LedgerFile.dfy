/**
  The event file (src/core/ledger.ts): one serialized event per line, appended; read back line by
  line, forgiving a torn last line. Serializing and parsing JSON are parameters.
*/
module LedgerFile {
  import opened Common

  type Serializer<!E> = E -> string
  type Parser<!E> = string -> Option<E>

  /** The host's white space: `trim` leaves nothing of a blank line. */
  predicate Space(c: char) {
    || 9 <= c as int <= 13 || c == ' ' || c as int == 0xa0 || c as int == 0x1680
    || 0x2000 <= c as int <= 0x200a || c as int == 0x2028 || c as int == 0x2029
    || c as int == 0x202f || c as int == 0x205f || c as int == 0x3000 || c as int == 0xfeff
  }

  predicate Blank(line: string) {
    forall i :: 0 <= i < |line| ==> Space(line[i])
  }

  predicate AllBlank(lines: seq<string>) {
    forall i :: 0 <= i < |lines| ==> Blank(lines[i])
  }

  function Lines(raw: string, current: string): (r: seq<string>)
    ensures |r| > 0
    decreases |raw|
  {
    if raw == [] then [current]
    else if raw[0] == '\n' then [current] + Lines(raw[1..], [])
    else Lines(raw[1..], current + [raw[0]])
  }

  const CORRUPT := "corrupt_ledger"

  function ReadLines<E>(lines: seq<string>, parse: Parser<E>): Result<seq<E>> {
    if lines == [] then Ok([])
    else if Blank(lines[0]) then ReadLines(lines[1..], parse)
    else
      match parse(lines[0])
      case None => if AllBlank(lines[1..]) then Ok([]) else Err(CORRUPT)
      case Some(e) =>
        match ReadLines(lines[1..], parse)
        case Ok(events) => Ok([e] + events)
        case Err(code) => Err(code)
  }

  function ReadRaw<E>(raw: string, parse: Parser<E>): Result<seq<E>> {
    ReadLines(Lines(raw, []), parse)
  }

  function Prepend<E>(events: seq<E>, r: Result<seq<E>>): Result<seq<E>> {
    if r.Ok? then Ok(events + r.value) else r
  }

  method ReadFrom<E>(raw: string, parse: Parser<E>) returns (r: Result<seq<E>>)
    ensures r == ReadRaw(raw, parse)
  {
    var lines := Lines(raw, []);
    var events: seq<E> := [];
    var index := 0;
    assert lines[0..] == lines;
    ghost var whole := ReadLines(lines, parse);
    assert whole.Ok? ==> [] + whole.value == whole.value;
    while index < |lines|
      invariant 0 <= index <= |lines|
      invariant Prepend(events, ReadLines(lines[index..], parse)) == ReadLines(lines, parse)
    {
      assert lines[index..][1..] == lines[index + 1..];
      var line := lines[index];
      if !Blank(line) {
        match parse(line)
        case Some(e) =>
          ghost var rest := ReadLines(lines[index + 1..], parse);
          assert rest.Ok? ==> events + ([e] + rest.value) == events + [e] + rest.value;
          events := events + [e];
        case None =>
          if AllBlank(lines[index + 1..]) {
            assert events + [] == events;
            return Ok(events);
          }
          return Err(CORRUPT);
      }
      index := index + 1;
    }
    assert events + [] == events;
    return Ok(events);
  }

  // ----- what reading makes of any file

  /** A line that does not parse, with something after it. */
  predicate BadAt<E>(lines: seq<string>, i: nat, parse: Parser<E>)
    requires i < |lines|
  {
    !Blank(lines[i]) && parse(lines[i]).None? && !AllBlank(lines[i + 1..])
  }

  /** Reading fails exactly when some line does not parse and a line after it is not blank. */
  lemma {:induction false} CorruptIff<E>(lines: seq<string>, parse: Parser<E>)
    ensures ReadLines(lines, parse).Err? <==> exists i :: 0 <= i < |lines| && BadAt(lines, i, parse)
  {
    if lines != [] {
      var rest := lines[1..];
      CorruptIff(rest, parse);
      forall i | 0 <= i < |rest|
        ensures BadAt(rest, i, parse) == BadAt(lines, i + 1, parse)
      {
        assert rest[i + 1..] == lines[i + 2..];
      }
      if Blank(lines[0]) || parse(lines[0]).Some? {
        if i :| 0 <= i < |lines| && BadAt(lines, i, parse) {
          assert BadAt(rest, i - 1, parse);
        }
        if i :| 0 <= i < |rest| && BadAt(rest, i, parse) {
          assert BadAt(lines, i + 1, parse);
        }
      } else if AllBlank(rest) {
        forall i | 0 <= i < |lines|
          ensures !BadAt(lines, i, parse)
        {
          BlankTail(lines, i, parse);
        }
      } else {
        assert BadAt(lines, 0, parse);
      }
    }
  }

  lemma {:induction false} BlankTail<E>(lines: seq<string>, i: nat, parse: Parser<E>)
    requires i < |lines| && AllBlank(lines[1..])
    ensures !BadAt(lines, i, parse)
  {
    assert lines[i + 1..] == lines[1..][i..];
  }

  // ----- the files that appending makes

  /** What the events are serialized to: one line that parses back, and no shorter text of it does. */
  ghost predicate Codec<E(!new)>(ser: Serializer<E>, parse: Parser<E>) {
    forall e :: LineOf(ser(e), e, parse)
  }

  ghost predicate LineOf<E>(text: string, e: E, parse: Parser<E>) {
    && |text| > 0 && !Space(text[0]) && '\n' !in text && parse(text) == Some(e)
    && forall n :: 0 < n < |text| ==> parse(text[..n]).None?
  }

  function File<E>(es: seq<E>, ser: Serializer<E>): string {
    if es == [] then [] else ser(es[0]) + (['\n'] + File(es[1..], ser))
  }

  /** The length of the file up to the end of the i-th event, its line break not included. */
  function EndOf<E>(es: seq<E>, i: nat, ser: Serializer<E>): nat
    requires i < |es|
  {
    |File(es[..i], ser)| + |ser(es[i])|
  }

  lemma {:induction false} LinesWalk(s: string, x: string, current: string)
    requires '\n' !in s
    ensures Lines(s + x, current) == Lines(x, current + s)
    decreases |s|
  {
    if s == [] {
      assert s + x == x && current + s == current;
    } else {
      assert (s + x)[1..] == s[1..] + x;
      assert current + [s[0]] + s[1..] == current + s;
      LinesWalk(s[1..], x, current + [s[0]]);
    }
  }

  lemma {:induction false} OneLine(s: string, x: string)
    requires '\n' !in s
    ensures Lines(s + (['\n'] + x), []) == [s] + Lines(x, [])
    ensures Lines(s, []) == [s]
  {
    LinesWalk(s, ['\n'] + x, []);
    LinesWalk(s, [], []);
    assert s + [] == s && [] + s == s;
    assert (['\n'] + x)[1..] == x;
  }

  /** Any whole events at the front are read, whatever follows. */
  lemma {:induction false} WholeEventsRead<E(!new)>(es: seq<E>, rest: string, ser: Serializer<E>, parse: Parser<E>)
    requires Codec(ser, parse)
    ensures ReadRaw(File(es, ser) + rest, parse) == Prepend(es, ReadRaw(rest, parse))
    decreases |es|
  {
    if es == [] {
      assert File(es, ser) + rest == rest;
      var r := ReadRaw(rest, parse);
      assert r.Ok? ==> [] + r.value == r.value;
    } else {
      var line := ser(es[0]);
      assert LineOf(line, es[0], parse);
      var more := File(es[1..], ser) + rest;
      assert File(es, ser) + rest == line + (['\n'] + more);
      OneLine(line, more);
      WholeEventsRead(es[1..], rest, ser, parse);
      assert ([line] + Lines(more, []))[1..] == Lines(more, []);
      var r := ReadRaw(rest, parse);
      assert r.Ok? ==> [es[0]] + (es[1..] + r.value) == es + r.value;
    }
  }

  /** A torn line alone reads as nothing, unless it lacks only its line break. */
  lemma {:induction false} TornLine<E(!new)>(e: E, n: nat, ser: Serializer<E>, parse: Parser<E>)
    requires Codec(ser, parse) && n <= |ser(e)|
    ensures ReadRaw(ser(e)[..n], parse) == Ok(if n == |ser(e)| then [e] else [])
  {
    var text := ser(e);
    assert LineOf(text, e, parse);
    var torn := text[..n];
    OneLine(torn, []);
    var rest := Lines(torn, [])[1..];
    assert rest == [];
    assert ReadLines(rest, parse) == Ok([]);
    if n > 0 {
      assert torn[0] == text[0];
      assert !Blank(torn);
      if n == |text| {
        assert torn == text;
        assert [e] + [] == [e];
      }
    }
  }

  /** How many events lie whole within the first n characters of the file. */
  function Whole<E>(es: seq<E>, n: nat, ser: Serializer<E>): (k: nat)
    ensures k <= |es|
  {
    if es == [] || n < |ser(es[0])| then 0
    else if n == |ser(es[0])| then 1
    else 1 + Whole(es[1..], n - |ser(es[0])| - 1, ser)
  }

  lemma {:induction false} WholeIff<E>(es: seq<E>, n: nat, i: nat, ser: Serializer<E>)
    requires i < |es|
    ensures i < Whole(es, n, ser) <==> EndOf(es, i, ser) <= n
    decreases |es|
  {
    var first := |ser(es[0])|;
    if i == 0 {
      assert es[..0] == [];
    } else {
      assert es[..i][0] == es[0] && es[..i][1..] == es[1..][..i - 1];
      assert EndOf(es, i, ser) == first + 1 + EndOf(es[1..], i - 1, ser);
      if n > first {
        WholeIff(es[1..], n - first - 1, i - 1, ser);
      }
    }
  }

  /** A prefix of the file is some whole lines and the first `m` characters of the next. */
  predicate Splits<E>(es: seq<E>, n: nat, k: nat, m: nat, ser: Serializer<E>)
    requires n <= |File(es, ser)| && k <= |es|
  {
    if k < |es| then
      && m <= |ser(es[k])|
      && File(es, ser)[..n] == File(es[..k], ser) + ser(es[k])[..m]
      && Whole(es, n, ser) == k + if m == |ser(es[k])| then 1 else 0
    else
      File(es, ser)[..n] == File(es, ser) && Whole(es, n, ser) == k
  }

  lemma {:induction false} PrefixSplits<E>(es: seq<E>, n: nat, ser: Serializer<E>) returns (k: nat, m: nat)
    requires n <= |File(es, ser)|
    ensures k <= |es| && Splits(es, n, k, m, ser)
    decreases |es|
  {
    if es == [] {
      k, m := 0, 0;
    } else {
      var line := ser(es[0]);
      if n <= |line| {
        k, m := 0, n;
        assert es[..0] == [];
        assert File(es, ser)[..n] == File(es[..0], ser) + line[..n];
      } else {
        var n' := n - |line| - 1;
        k, m := PrefixSplits(es[1..], n', ser);
        assert File(es, ser)[..n] == line + (['\n'] + File(es[1..], ser)[..n']);
        if k < |es[1..]| {
          assert es[..k + 1][0] == es[0] && es[..k + 1][1..] == es[1..][..k];
          var tail := ser(es[1..][k])[..m];
          assert File(es[..k + 1], ser) + tail == line + (['\n'] + (File(es[1..][..k], ser) + tail));
        }
        k := k + 1;
      }
    }
  }

  /**
    Cut the file anywhere: reading succeeds, and returns exactly the events whose whole text, with
    or without its line break, was written.
  */
  lemma {:induction false} CrashConsistent<E(!new)>(es: seq<E>, n: nat, ser: Serializer<E>, parse: Parser<E>)
    requires Codec(ser, parse) && n <= |File(es, ser)|
    ensures var k := Whole(es, n, ser);
            && ReadRaw(File(es, ser)[..n], parse) == Ok(es[..k])
            && forall i :: 0 <= i < |es| ==> (i < k <==> EndOf(es, i, ser) <= n)
  {
    var w := Whole(es, n, ser);
    forall i | 0 <= i < |es|
      ensures i < w <==> EndOf(es, i, ser) <= n
    {
      WholeIff(es, n, i, ser);
    }
    var k, m := PrefixSplits(es, n, ser);
    if k < |es| {
      WholeEventsRead(es[..k], ser(es[k])[..m], ser, parse);
      TornLine(es[k], m, ser, parse);
      assert w == k ==> es[..k] + [] == es[..w];
      assert w == k + 1 ==> es[..k] + [es[k]] == es[..w];
    } else {
      WholeEventsRead(es, [], ser, parse);
      assert File(es, ser) + [] == File(es, ser);
      OneLine([], []);
      assert es + [] == es[..w];
    }
  }

  /**
    Appending goes on after a crash without closing the torn line. The first event appended is then
    lost with it, silently; from the second on the ledger can no longer be read.
  */
  lemma {:induction false} AppendedAfterTear<E(!new)>(
      es: seq<E>, torn: string, more: seq<E>, ser: Serializer<E>, parse: Parser<E>)
    requires Codec(ser, parse)
    requires |torn| > 0 && !Space(torn[0]) && '\n' !in torn
    requires |more| > 0 && parse(torn + ser(more[0])).None?
    ensures ReadRaw(File(es, ser) + (torn + File(more, ser)), parse) == if |more| == 1 then Ok(es) else Err(CORRUPT)
  {
    var line := torn + ser(more[0]);
    assert LineOf(ser(more[0]), more[0], parse);
    var rest := File(more[1..], ser);
    assert torn + File(more, ser) == line + (['\n'] + rest);
    OneLine(line, rest);
    var lines := Lines(line + (['\n'] + rest), []);
    assert lines[1..] == Lines(rest, []);
    assert line[0] == torn[0];
    assert !Blank(line);
    if |more| == 1 {
      assert Lines(rest, []) == [[]];
      assert es + [] == es;
    } else {
      var second := ser(more[1]);
      assert LineOf(second, more[1], parse);
      assert more[1..][0] == more[1];
      OneLine(second, File(more[1..][1..], ser));
      assert Lines(rest, [])[0] == second;
      assert !Blank(second);
    }
    WholeEventsRead(es, torn + File(more, ser), ser, parse);
  }

  /** Appending goes on as if nothing had happened exactly when no line was torn. */
  lemma {:induction false} AppendedIff<E(!new)>(
      es: seq<E>, torn: string, more: seq<E>, ser: Serializer<E>, parse: Parser<E>)
    requires Codec(ser, parse) && |more| > 0
    requires torn != [] ==> !Space(torn[0]) && '\n' !in torn && parse(torn + ser(more[0])).None?
    ensures ReadRaw(File(es, ser) + (torn + File(more, ser)), parse) == Ok(es + more) <==> torn == []
  {
    if torn == [] {
      assert torn + File(more, ser) == File(more, ser) + [];
      WholeEventsRead(es, File(more, ser) + [], ser, parse);
      WholeEventsRead(more, [], ser, parse);
      OneLine([], []);
      assert more + [] == more;
    } else {
      AppendedAfterTear(es, torn, more, ser, parse);
      assert |es + more| == |es| + |more|;
    }
  }

  // ----- the file at work

  /** One call of `append`, and how many characters the process lived to write. */
  datatype Call<+E> = Call(event: E, lived: nat)

  function Chars<E>(c: Call<E>, ser: Serializer<E>): string {
    var line := ser(c.event) + ['\n'];
    if c.lived < |line| then line[..c.lived] else line
  }

  function Written<E>(calls: seq<Call<E>>, ser: Serializer<E>): string {
    if calls == [] then [] else Written(calls[..|calls| - 1], ser) + Chars(calls[|calls| - 1], ser)
  }

  class Ledger<!E> {
    var text: string
    const ser: Serializer<E>
    ghost var calls: seq<Call<E>>  // every append so far, cut short or not

    ghost predicate Valid()
      reads this
    {
      text == Written(calls, ser)
    }

    constructor (ser: Serializer<E>)
      ensures Valid() && text == [] && calls == [] && this.ser == ser
    {
      text, calls := [], [];
      this.ser := ser;
    }

    /** `append`; should the process die, only the first `lived` characters are written. */
    method Append(e: E, lived: nat)
      requires Valid()
      modifies this
      ensures Valid() && calls == old(calls) + [Call(e, lived)]
      ensures lived > |ser(e)| ==> text == old(text) + File([e], ser)
      ensures lived <= |ser(e)| ==> text == old(text) + ser(e)[..lived]
    {
      var line := ser(e) + "\n";
      assert line == File([e], ser);
      text := text + if lived < |line| then line[..lived] else line;
      assert lived <= |ser(e)| ==> line[..lived] == ser(e)[..lived];
      calls := calls + [Call(e, lived)];
      assert calls[..|calls| - 1] == old(calls);
    }

    method Read(parse: Parser<E>) returns (r: Result<seq<E>>)
      ensures r == ReadRaw(text, parse)
    {
      r := ReadFrom(text, parse);
    }
  }
}
