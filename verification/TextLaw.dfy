/** What splitting, flag parsing and reading lines do to plain text (src/cli/main.ts, src/core/ledger.ts). */
module TextLaw {
  import opened Common
  import opened FlagList
  import opened LedgerFile

  // ----- splitting

  predicate Bracketless(v: string) {
    forall i :: 0 <= i < |v| ==> v[i] !in {'{', '}', '[', ']'}
  }

  lemma {:induction false} CommasCut(current: string, v: string)
    requires Bracketless(v) && ',' !in current
    ensures forall i :: 0 <= i < |Pieces(Normal(0), current, v)| ==> ',' !in Pieces(Normal(0), current, v)[i]
    decreases |v|
  {
    if v != [] {
      if v[0] == ',' {
        CommasCut([], v[1..]);
      } else {
        assert v[0] !in {'{', '}', '[', ']'};
        CommasCut(current + [v[0]], v[1..]);
      }
    }
  }

  /** Text without brackets is cut at every comma, quotes or not; with brackets see `SplitJoinIff`. */
  lemma {:induction false} PlainTextSplits(v: string)
    requires Bracketless(v)
    ensures (forall i :: 0 <= i < |Split(v)| ==> ',' !in Split(v)[i]) && Join(Split(v)) == v
  {
    CommasCut([], v);
    JoinSplit(v);
  }

  // ----- JSON texts

  /** What a short escape stands for, in section 7 of RFC 8259. */
  function Short(c: char): Option<char> {
    if c == '"' || c == '\\' then Some(c)
    else if c == 'b' then Some(8 as char)
    else if c == 't' then Some('\t')
    else if c == 'n' then Some('\n')
    else if c == 'f' then Some(12 as char)
    else if c == 'r' then Some('\r')
    else None
  }

  function Nibble(c: char): Option<nat> {
    if '0' <= c <= '9' then Some(c as int - 48) else if 'a' <= c <= 'f' then Some(c as int - 87) else None
  }

  /** A reader of what stands between the quotes of a printed text. */
  function Unescaped(s: string): Option<string> {
    if s == [] then Some([])
    else if s[0] == '"' || s[0] < ' ' then None
    else if s[0] != '\\' then Before(s[0], Unescaped(s[1..]))
    else if |s| >= 2 && Short(s[1]).Some? then Before(Short(s[1]).value, Unescaped(s[2..]))
    else if |s| >= 6 && s[1..4] == "u00" && Nibble(s[4]).Some? && Nibble(s[5]).Some? then
      Before((16 * Nibble(s[4]).value + Nibble(s[5]).value) as char, Unescaped(s[6..]))
    else None
  }

  function Before(c: char, s: Option<string>): Option<string> {
    if s.Some? then Some([c] + s.value) else None
  }

  lemma {:induction false} HexReads(d: nat)
    requires d < 16
    ensures Nibble(Hex(d)) == Some(d)
  {}

  /** A code point is printed as itself unless it is a quote, a backslash or a control; seven have short escapes. */
  lemma {:induction false} EscapeReads(c: char, rest: string)
    ensures Unescaped(Escape(c) + rest) == Before(c, Unescaped(rest))
    ensures |Escape(c)| == 1 <==> c != '"' && c != '\\' && c as int >= 32
    ensures |Escape(c)| == 2 <==> c as int in {8, 9, 10, 12, 13, 34, 92}
  {
    if c as int < 32 {
      HexReads(c as int / 16);
      HexReads(c as int % 16);
    }
    var e := Escape(c);
    assert (e + rest)[|e|..] == rest;
  }

  /** Whatever a text holds, it can be read back from its printed form, which no list splits. */
  lemma {:induction false} QuoteReadsBack(s: string)
    ensures Unescaped(EscapeAll(s)) == Some(s)
    ensures Quote(s) == ['"'] + EscapeAll(s) + ['"']
    ensures Split(['['] + Quote(s) + [']']) == [['['] + Quote(s) + [']']]
  {
    EscapesRead(s);
    var list := List(Item(Text(s), NoItems));
    assert Print(list) == ['['] + Quote(s) + [']'];
    assert PrintableItems(NoItems) && Printable(list);
    JsonListSurvives([list], [Print(list)]);
    assert Join([Print(list)]) == Print(list);
  }

  lemma {:induction false} EscapesRead(s: string)
    ensures Unescaped(EscapeAll(s)) == Some(s)
  {
    if s != [] {
      EscapesRead(s[1..]);
      EscapeReads(s[0], EscapeAll(s[1..]));
      assert [s[0]] + s[1..] == s;
    }
  }

  /** Words are made of letters, digits, signs and points. */
  lemma {:induction false} WordCharIs(c: char)
    ensures WordChar(c) <==>
              48 <= c as int < 58 || 65 <= c as int < 91 || 97 <= c as int < 123 || c as int in {43, 45, 46}
  {}

  // ----- flags

  lemma {:induction false} FlagToken(token: string)
    ensures IsFlag(token) <==> |token| >= 2 && token[0] == '-' && token[1] == '-'
  {}

  /** The text a flag has so far, once another value is given for it. */
  function Grown(flags: map<string, Flag>, name: string, text: string): Flag {
    if name !in flags then Value(text)
    else if flags[name] == On then Value("true," + text)
    else Value(flags[name].text + "," + text)
  }

  /** A flag takes the token behind it as its value unless that is a flag too; anything else is positional. */
  lemma {:induction false} TakesNext(token: string, rest: seq<string>, args: Args)
    ensures Parsed([], args) == args
    ensures !("--" <= token) ==>
              Parsed([token] + rest, args) == Parsed(rest, Args(args.command, args.positional + [token], args.flags))
    ensures "--" <= token && (rest == [] || "--" <= rest[0]) ==>
              Parsed([token] + rest, args)
              == Parsed(rest, Args(args.command, args.positional, args.flags[token[2..] := On]))
    ensures "--" <= token && rest != [] && !("--" <= rest[0]) ==>
              Parsed([token] + rest, args)
              == Parsed(rest[1..], Args(args.command, args.positional,
                                        args.flags[token[2..] := Grown(args.flags, token[2..], rest[0])]))
  {
    FlagToken(token);
    var all := [token] + rest;
    assert all[1..] == rest;
    if rest != [] {
      FlagToken(rest[0]);
      assert all[2..] == rest[1..];
      assert forall x: string :: "true" + ([','] + x) == "true," + x;
    }
    var name := if |token| >= 2 then token[2..] else "";
    if "--" <= token && rest != [] && !("--" <= rest[0]) && name in args.flags {
      assert args.flags[name].Value? ==>
          args.flags[name].text + ([','] + rest[0]) == args.flags[name].text + "," + rest[0];
    }
  }

  // ----- lines

  /** What counts as white space: the code points that the host's `trim` removes. */
  lemma {:induction false} SpaceIs(c: char)
    ensures Space(c) <==>
              c as int in {9, 10, 11, 12, 13, 32, 160, 5760, 8192, 8193, 8194, 8195, 8196, 8197, 8198, 8199, 8200, 8201,
                           8202, 8232, 8233, 8239, 8287, 12288, 65279}
  {}

  lemma {:induction false} OnlyCorrupt<E>(lines: seq<string>, parse: Parser<E>)
    ensures ReadLines(lines, parse).Err? ==> ReadLines(lines, parse).code == "corrupt_ledger"
  {
    if lines != [] {
      OnlyCorrupt(lines[1..], parse);
    }
  }
}
