/**
  Repeated command-line flags (src/cli/main.ts): joined with commas when parsed, split again when
  read, without cutting inside a JSON value.
*/
module FlagList {
  import opened Common

  // ----- splitting

  /** Where the scan stands: between values, inside a string, or right after a backslash in one. */
  datatype Mode = Normal(depth: nat) | InString(depth: nat) | Escaped(depth: nat)

  predicate Cuts(m: Mode, c: char) {
    m == Normal(0) && c == ','
  }

  function Step(m: Mode, c: char): Mode {
    match m
    case Normal(d) =>
      if c == '"' && d > 0 then InString(d)
      else if c == '{' || c == '[' then Normal(d + 1)
      else if (c == '}' || c == ']') && d > 0 then Normal(d - 1)
      else m
    case InString(d) =>
      if c == '\\' then Escaped(d) else if c == '"' then Normal(d) else m
    case Escaped(d) => InString(d)
  }

  /** The pieces of `v`, the first of which continues `current`. */
  function Pieces(m: Mode, current: string, v: string): (r: seq<string>)
    ensures |r| > 0
    decreases |v|
  {
    if v == [] then [current]
    else if Cuts(m, v[0]) then [current] + Pieces(m, [], v[1..])
    else Pieces(Step(m, v[0]), current + [v[0]], v[1..])
  }

  function Split(v: string): seq<string> {
    Pieces(Normal(0), [], v)
  }

  method SplitFlagList(value: string) returns (entries: seq<string>)
    ensures entries == Split(value)
    ensures Join(entries) == value
  {
    entries := [];
    var depth: nat, inString, start, index := 0, false, 0, 0;
    assert value[0..0] == [] && value[0..] == value;
    while index < |value|
      invariant 0 <= start <= index && start <= |value| && index <= |value| + 1
      invariant index <= |value| ==>
                  entries
                  + Pieces(if inString then InString(depth) else Normal(depth), value[start..index], value[index..])
                  == Split(value)
      invariant index > |value| ==> entries + [value[start..]] == Split(value)
      decreases |value| + 1 - index
    {
      var c := value[index];
      assert value[start..index] + [c] == value[start..index + 1];
      assert value[index..][1..] == value[index + 1..];
      if inString {
        if c == '\\' {
          if index + 1 < |value| {
            assert value[start..index + 1] + [value[index + 1]] == value[start..index + 2];
            assert value[index + 1..][1..] == value[index + 2..];
          } else {
            assert value[index + 1..] == [] && value[start..index + 1] == value[start..];
          }
          index := index + 1;
        } else if c == '"' {
          inString := false;
        }
      } else if c == '"' && depth > 0 {
        inString := true;
      } else if c == '{' || c == '[' {
        depth := depth + 1;
      } else if (c == '}' || c == ']') && depth > 0 {
        depth := depth - 1;
      } else if c == ',' && depth == 0 {
        ghost var rest := Pieces(Normal(0), [], value[index + 1..]);
        assert entries + ([value[start..index]] + rest) == entries + [value[start..index]] + rest;
        entries := entries + [value[start..index]];
        start := index + 1;
        assert value[start..index + 1] == [];
      }
      index := index + 1;
    }
    if index == |value| {
      assert value[index..] == [] && value[start..index] == value[start..];
    }
    entries := entries + [value[start..]];
    JoinSplit(value);
  }

  function Join(ps: seq<string>): string {
    if ps == [] then [] else if |ps| == 1 then ps[0] else ps[0] + [','] + Join(ps[1..])
  }

  lemma {:induction false} JoinPieces(m: Mode, current: string, v: string)
    ensures Join(Pieces(m, current, v)) == current + v
    decreases |v|
  {
    if v == [] {
    } else if Cuts(m, v[0]) {
      JoinPieces(m, [], v[1..]);
      var rest := Pieces(m, [], v[1..]);
      assert ([current] + rest)[1..] == rest;
      assert current + [','] + v[1..] == current + v;
    } else {
      JoinPieces(Step(m, v[0]), current + [v[0]], v[1..]);
      assert current + [v[0]] + v[1..] == current + v;
    }
  }

  /** Nothing is lost: the pieces of any value join back to it. */
  lemma {:induction false} JoinSplit(v: string)
    ensures Join(Split(v)) == v
  {
    JoinPieces(Normal(0), [], v);
  }

  // ----- which lists survive a join

  /** The scan of `s` from `m` never cuts. */
  predicate Uncut(m: Mode, s: string)
    decreases |s|
  {
    s == [] || (!Cuts(m, s[0]) && Uncut(Step(m, s[0]), s[1..]))
  }

  function After(m: Mode, s: string): Mode
    decreases |s|
  {
    if s == [] then m else After(Step(m, s[0]), s[1..])
  }

  /** Every comma of the piece is inside a bracketed value, and every bracket and string it opens it closes. */
  predicate SelfContained(s: string) {
    Uncut(Normal(0), s) && After(Normal(0), s) == Normal(0)
  }

  /** What a list needs to come back: no piece is cut, and no piece but the last runs into the next. */
  predicate Survives(ps: seq<string>) {
    && (forall i :: 0 <= i < |ps| ==> Uncut(Normal(0), ps[i]))
    && (forall i :: 0 <= i < |ps| - 1 ==> After(Normal(0), ps[i]) == Normal(0))
  }

  lemma {:induction false} Walk(m: Mode, current: string, s: string, x: string)
    requires Uncut(m, s)
    ensures Pieces(m, current, s + x) == Pieces(After(m, s), current + s, x)
    decreases |s|
  {
    if s == [] {
      assert s + x == x;
      assert current + s == current;
    } else {
      assert (s + x)[1..] == s[1..] + x;
      assert current + [s[0]] + s[1..] == current + s;
      Walk(Step(m, s[0]), current + [s[0]], s[1..], x);
    }
  }

  lemma {:induction false} FirstGrows(m: Mode, current: string, v: string)
    ensures |current| <= |Pieces(m, current, v)[0]|
    decreases |v|
  {
    if v == [] || Cuts(m, v[0]) {
    } else {
      FirstGrows(Step(m, v[0]), current + [v[0]], v[1..]);
    }
  }

  lemma {:induction false} FirstCut(m: Mode, current: string, s: string, x: string)
    requires !Uncut(m, s)
    ensures |Pieces(m, current, s + x)[0]| < |current| + |s|
    decreases |s|
  {
    assert (s + x)[1..] == s[1..] + x;
    if !Cuts(m, s[0]) {
      FirstCut(Step(m, s[0]), current + [s[0]], s[1..], x);
    }
  }

  lemma {:induction false} SurvivesSplit(ps: seq<string>)
    requires |ps| > 0 && Survives(ps)
    ensures Split(Join(ps)) == ps
    decreases |ps|
  {
    if |ps| == 1 {
      Walk(Normal(0), [], ps[0], []);
      assert ps[0] + [] == ps[0];
      assert [] + ps[0] == ps[0];
    } else {
      var rest := Join(ps[1..]);
      SurvivesSplit(ps[1..]);
      Walk(Normal(0), [], ps[0], [','] + rest);
      assert ps[0] + [','] + rest == ps[0] + ([','] + rest);
      assert [] + ps[0] == ps[0];
      assert ([','] + rest)[1..] == rest;
    }
  }

  lemma {:induction false} SplitSurvives(ps: seq<string>)
    requires |ps| > 0 && Split(Join(ps)) == ps
    ensures Survives(ps)
    decreases |ps|
  {
    var p, n0 := ps[0], Normal(0);
    var x := if |ps| == 1 then [] else [','] + Join(ps[1..]);
    assert Join(ps) == p + x;
    if !Uncut(n0, p) {
      FirstCut(n0, [], p, x);
      assert false;
    }
    Walk(n0, [], p, x);
    assert [] + p == p;
    if |ps| > 1 {
      assert x[1..] == Join(ps[1..]);
      if After(n0, p) != n0 {
        FirstGrows(Step(After(n0, p), ','), p + [','], x[1..]);
        assert false;
      }
      assert ps == [p] + Split(Join(ps[1..]));
      SplitSurvives(ps[1..]);
      forall i | 1 <= i < |ps|
        ensures Uncut(n0, ps[i]) && (i < |ps| - 1 ==> After(n0, ps[i]) == n0)
      {
        assert ps[i] == ps[1..][i - 1];
      }
    }
  }

  /** Splitting undoes joining on exactly the lists that survive; lists of self-contained pieces do. */
  lemma {:induction false} SplitJoinIff(ps: seq<string>)
    requires |ps| > 0
    ensures Split(Join(ps)) == ps <==> Survives(ps)
    ensures (forall i :: 0 <= i < |ps| ==> SelfContained(ps[i])) ==> Split(Join(ps)) == ps
  {
    if Survives(ps) {
      SurvivesSplit(ps);
    }
    if Split(Join(ps)) == ps {
      SplitSurvives(ps);
    }
  }

  // ----- JSON values as the host prints them (RFC 8259, sections 4, 5 and 7)

  datatype Json =
    | Word(text: string)             // a number, true, false or null
    | Text(s: string)
    | List(items: Items)
    | Object(members: Members)

  datatype Items = NoItems | Item(value: Json, more: Items)

  datatype Members = NoMembers | Member(name: string, value: Json, more: Members)

  predicate WordChar(c: char) {
    'a' <= c <= 'z' || 'A' <= c <= 'Z' || '0' <= c <= '9' || c == '+' || c == '-' || c == '.'
  }

  predicate Printable(j: Json) {
    match j
    case Word(text) => forall i :: 0 <= i < |text| ==> WordChar(text[i])
    case Text(_) => true
    case List(items) => PrintableItems(items)
    case Object(members) => PrintableMembers(members)
  }

  predicate PrintableItems(xs: Items) {
    xs.Item? ==> Printable(xs.value) && PrintableItems(xs.more)
  }

  predicate PrintableMembers(ms: Members) {
    ms.Member? ==> Printable(ms.value) && PrintableMembers(ms.more)
  }

  function Hex(d: nat): char
    requires d < 16
  {
    "0123456789abcdef"[d]
  }

  function Escape(c: char): string {
    if c == '"' then "\\\""
    else if c == '\\' then "\\\\"
    else if c == '\n' then "\\n"
    else if c == '\r' then "\\r"
    else if c == '\t' then "\\t"
    else if c as int == 8 then "\\b"
    else if c as int == 12 then "\\f"
    else if c < ' ' then "\\u00" + [Hex(c as int / 16), Hex(c as int % 16)]
    else [c]
  }

  function EscapeAll(s: string): string {
    if s == [] then [] else Escape(s[0]) + EscapeAll(s[1..])
  }

  function Quote(s: string): string {
    ['"'] + (EscapeAll(s) + ['"'])
  }

  function Print(j: Json): string {
    match j
    case Word(text) => text
    case Text(s) => Quote(s)
    case List(items) => ['['] + (PrintItems(items) + [']'])
    case Object(members) => ['{'] + (PrintMembers(members) + ['}'])
  }

  function PrintItems(xs: Items): string {
    match xs
    case NoItems => []
    case Item(value, more) => Print(value) + ((if more.Item? then [','] else []) + PrintItems(more))
  }

  function PrintMembers(ms: Members): string {
    match ms
    case NoMembers => []
    case Member(name, value, more) =>
      Quote(name) + ([':'] + (Print(value) + ((if more.Member? then [','] else []) + PrintMembers(more))))
  }

  /** Scanned from `m`, the text is not cut and leaves the scan where it was. */
  predicate Neutral(m: Mode, s: string) {
    Uncut(m, s) && After(m, s) == m
  }

  lemma {:induction false} ScanConcat(m: Mode, a: string, b: string)
    ensures Uncut(m, a + b) <==> Uncut(m, a) && Uncut(After(m, a), b)
    ensures After(m, a + b) == After(After(m, a), b)
    decreases |a|
  {
    if a == [] {
      assert a + b == b;
    } else {
      assert (a + b)[1..] == a[1..] + b;
      ScanConcat(Step(m, a[0]), a[1..], b);
    }
  }

  lemma {:induction false} NeutralConcat(m: Mode, a: string, b: string)
    requires Neutral(m, a) && Neutral(m, b)
    ensures Neutral(m, a + b)
  {
    ScanConcat(m, a, b);
  }

  /** One character that opens, a text neutral inside, one that closes. */
  lemma {:induction false} Wrapped(m: Mode, open: char, inner: string, close: char)
    requires !Cuts(m, open) && Neutral(Step(m, open), inner)
    requires !Cuts(Step(m, open), close) && Step(Step(m, open), close) == m
    ensures Neutral(m, [open] + (inner + [close]))
  {
    var mid := Step(m, open);
    assert ([open] + (inner + [close]))[1..] == inner + [close];
    ScanConcat(mid, inner, [close]);
    assert [close][1..] == [];
  }

  lemma {:induction false} EscapeNeutral(d: nat, c: char)
    ensures Neutral(InString(d), Escape(c))
  {
    var s := Escape(c);
    if |s| > 2 {
      assert s[1..][0] == 'u' && s[2..][0] == '0' && s[3..][0] == '0';
      assert s[1..][1..] == s[2..] && s[2..][1..] == s[3..] && s[3..][1..] == s[4..] && s[4..][1..] == s[5..];
      assert s[5..][1..] == [];
      Plain(InString(d), s[2..]);
    } else if |s| == 2 {
      var t := s[1..];
      assert t[1..] == [] && t[0] == s[1];
      assert Neutral(InString(d), s) <==> Uncut(Escaped(d), t) && After(Escaped(d), t) == InString(d);
    } else {
      assert s[1..] == [];
    }
  }

  /** Characters that move no state and cut nothing. */
  lemma {:induction false} Plain(m: Mode, s: string)
    requires forall i :: 0 <= i < |s| ==> Step(m, s[i]) == m && !Cuts(m, s[i])
    ensures Neutral(m, s)
  {
    if s != [] {
      Plain(m, s[1..]);
    }
  }

  lemma {:induction false} EscapedNeutral(d: nat, s: string)
    ensures Neutral(InString(d), EscapeAll(s))
  {
    if s != [] {
      EscapeNeutral(d, s[0]);
      EscapedNeutral(d, s[1..]);
      NeutralConcat(InString(d), Escape(s[0]), EscapeAll(s[1..]));
    }
  }

  lemma {:induction false} QuoteNeutral(d: nat, s: string)
    requires d > 0
    ensures Neutral(Normal(d), Quote(s))
  {
    EscapedNeutral(d, s);
    Wrapped(Normal(d), '"', EscapeAll(s), '"');
  }

  lemma {:induction false} ValueNeutral(d: nat, j: Json)
    requires Printable(j) && (d > 0 || j.List? || j.Object?)
    ensures Neutral(Normal(d), Print(j))
    decreases j
  {
    match j
    case Word(text) => Plain(Normal(d), text);
    case Text(s) => QuoteNeutral(d, s);
    case List(items) =>
      ItemsNeutral(d + 1, items);
      Wrapped(Normal(d), '[', PrintItems(items), ']');
    case Object(members) =>
      MembersNeutral(d + 1, members);
      Wrapped(Normal(d), '{', PrintMembers(members), '}');
  }

  lemma {:induction false} MarkNeutral(d: nat, c: char, wanted: bool)
    requires d > 0 && (c == ',' || c == ':')
    ensures Neutral(Normal(d), if wanted then [c] else [])
  {
    Plain(Normal(d), if wanted then [c] else []);
  }

  lemma {:induction false} ItemsNeutral(d: nat, xs: Items)
    requires d > 0 && PrintableItems(xs)
    ensures Neutral(Normal(d), PrintItems(xs))
    decreases xs
  {
    if xs.Item? {
      ValueNeutral(d, xs.value);
      ItemsNeutral(d, xs.more);
      var mark := if xs.more.Item? then [','] else [];
      MarkNeutral(d, ',', xs.more.Item?);
      NeutralConcat(Normal(d), mark, PrintItems(xs.more));
      NeutralConcat(Normal(d), Print(xs.value), mark + PrintItems(xs.more));
    }
  }

  lemma {:induction false} MembersNeutral(d: nat, ms: Members)
    requires d > 0 && PrintableMembers(ms)
    ensures Neutral(Normal(d), PrintMembers(ms))
    decreases ms
  {
    if ms.Member? {
      QuoteNeutral(d, ms.name);
      ValueNeutral(d, ms.value);
      MembersNeutral(d, ms.more);
      var mark := if ms.more.Member? then [','] else [];
      MarkNeutral(d, ',', ms.more.Member?);
      MarkNeutral(d, ':', true);
      var tail := mark + PrintMembers(ms.more);
      NeutralConcat(Normal(d), mark, PrintMembers(ms.more));
      NeutralConcat(Normal(d), Print(ms.value), tail);
      NeutralConcat(Normal(d), [':'], Print(ms.value) + tail);
      NeutralConcat(Normal(d), Quote(ms.name), [':'] + (Print(ms.value) + tail));
    }
  }

  /** Printed JSON objects and arrays, however nested and whatever their strings hold, come back whole. */
  lemma {:induction false} JsonListSurvives(js: seq<Json>, ps: seq<string>)
    requires |ps| == |js| > 0
    requires forall i :: 0 <= i < |js| ==> Printable(js[i]) && (js[i].List? || js[i].Object?) && ps[i] == Print(js[i])
    ensures Split(Join(ps)) == ps
  {
    forall i | 0 <= i < |ps|
      ensures SelfContained(ps[i])
    {
      ValueNeutral(0, js[i]);
    }
    SplitJoinIff(ps);
  }

  // ----- parsing the command line

  datatype Flag = On | Value(text: string)

  datatype Args = Args(command: string, positional: seq<string>, flags: map<string, Flag>)

  predicate IsFlag(token: string) {
    "--" <= token
  }

  /** A flag without a value overrides; a value is appended, to the text of the override if there was one. */
  function Collected(had: Option<Flag>, given: Flag): Flag {
    match given
    case On => On
    case Value(text) =>
      match had
      case None => Value(text)
      case Some(On) => Value("true" + ([','] + text))
      case Some(Value(before)) => Value(before + ([','] + text))
  }

  function Lookup(flags: map<string, Flag>, name: string): Option<Flag> {
    if name in flags then Some(flags[name]) else None
  }

  /** The flag that starts at the head of the tokens, and how many tokens it takes. */
  function Head(rest: seq<string>): (Flag, nat)
    requires |rest| > 0
  {
    if |rest| == 1 || IsFlag(rest[1]) then (On, 1) else (Value(rest[1]), 2)
  }

  function Parsed(rest: seq<string>, args: Args): Args {
    if rest == [] then args
    else if !IsFlag(rest[0]) then Parsed(rest[1..], args.(positional := args.positional + [rest[0]]))
    else
      var name := rest[0][2..];
      var (flag, taken) := Head(rest);
      Parsed(rest[taken..], args.(flags := args.flags[name := Collected(Lookup(args.flags, name), flag)]))
  }

  method ParseArgs(argv: seq<string>) returns (args: Args)
    ensures args == if argv == [] then Args("help", [], map[]) else Parsed(argv[1..], Args(argv[0], [], map[]))
  {
    if argv == [] { return Args("help", [], map[]); }
    var rest := argv[1..];
    var positional: seq<string>, flags: map<string, Flag> := [], map[];
    var index := 0;
    while index < |rest|
      invariant 0 <= index <= |rest|
      invariant Parsed(rest[index..], Args(argv[0], positional, flags)) == Parsed(rest, Args(argv[0], [], map[]))
    {
      var token := rest[index];
      assert rest[index..][1..] == rest[index + 1..];
      if !IsFlag(token) {
        positional := positional + [token];
      } else {
        var name := token[2..];
        if index + 1 == |rest| || IsFlag(rest[index + 1]) {
          flags := flags[name := On];
        } else {
          assert rest[index..][2..] == rest[index + 2..];
          flags := flags[name := Collected(Lookup(flags, name), Value(rest[index + 1]))];
          index := index + 1;
        }
      }
      index := index + 1;
    }
    return Args(argv[0], positional, flags);
  }

  /** What the command line gives for one flag, in order. */
  function Given(rest: seq<string>, name: string): seq<Flag> {
    if rest == [] then []
    else if !IsFlag(rest[0]) then Given(rest[1..], name)
    else
      var (flag, taken) := Head(rest);
      (if rest[0][2..] == name then [flag] else []) + Given(rest[taken..], name)
  }

  function CollectAll(had: Option<Flag>, given: seq<Flag>): Option<Flag>
    decreases |given|
  {
    if given == [] then had else CollectAll(Some(Collected(had, given[0])), given[1..])
  }

  lemma {:induction false} FlagsApart(rest: seq<string>, args: Args, name: string)
    ensures Lookup(Parsed(rest, args).flags, name) == CollectAll(Lookup(args.flags, name), Given(rest, name))
    decreases |rest|
  {
    if rest == [] {
    } else if !IsFlag(rest[0]) {
      FlagsApart(rest[1..], args.(positional := args.positional + [rest[0]]), name);
    } else {
      var own := rest[0][2..];
      var (flag, taken) := Head(rest);
      var now := args.(flags := args.flags[own := Collected(Lookup(args.flags, own), flag)]);
      FlagsApart(rest[taken..], now, name);
      if own == name {
        assert ([flag] + Given(rest[taken..], name))[1..] == Given(rest[taken..], name);
      } else {
        assert [] + Given(rest[taken..], name) == Given(rest[taken..], name);
      }
    }
  }

  lemma {:induction false} CollectJoins(before: string, given: seq<Flag>, ps: seq<string>)
    requires |given| == |ps| && forall i :: 0 <= i < |ps| ==> given[i] == Value(ps[i])
    ensures CollectAll(Some(Value(before)), given) == Some(Value(Join([before] + ps)))
    decreases |given|
  {
    if given == [] {
      assert [before] + ps == [before];
    } else {
      var next := before + ([','] + ps[0]);
      CollectJoins(next, given[1..], ps[1..]);
      assert ([before] + ps)[1..] == ps && ([next] + ps[1..])[1..] == ps[1..];
      if |ps| > 1 {
        assert next + [','] + Join(ps[1..]) == before + [','] + (ps[0] + [','] + Join(ps[1..]));
      } else {
        assert next == before + [','] + ps[0];
      }
    }
  }

  /**
    A flag given several times, each time with a value, is read back as exactly those values, in
    order and whatever else is on the command line, when they survive the join; and only then.
  */
  lemma {:induction false} RepeatedFlagReadBack(rest: seq<string>, command: string, name: string, ps: seq<string>)
    requires |ps| > 0 && |Given(rest, name)| == |ps|
    requires forall i :: 0 <= i < |ps| ==> Given(rest, name)[i] == Value(ps[i])
    ensures name in Parsed(rest, Args(command, [], map[])).flags
    ensures Parsed(rest, Args(command, [], map[])).flags[name] == Value(Join(ps))
    ensures Split(Join(ps)) == ps <==> Survives(ps)
  {
    FlagsApart(rest, Args(command, [], map[]), name);
    CollectJoins(ps[0], Given(rest, name)[1..], ps[1..]);
    assert [ps[0]] + ps[1..] == ps;
    SplitJoinIff(ps);
  }
}
