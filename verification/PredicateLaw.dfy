/** What each predicate and the page hint ask of the page (src/plan/evaluate.ts), in the page's own terms. */
module PredicateLaw {
  import opened Common
  import opened PagePlan

  /** `needle` stands at place `i` of `hay`. */
  predicate StandsAt(needle: string, hay: string, i: nat) {
    i + |needle| <= |hay| && hay[i..i + |needle|] == needle
  }

  predicate Within(needle: string, hay: string) {
    exists i :: 0 <= i <= |hay| && StandsAt(needle, hay, i)
  }

  lemma {:induction false} IncludesWithin(hay: string, needle: string)
    ensures Includes(hay, needle) <==> Within(needle, hay)
  {
    if i :| 0 <= i <= |hay| && needle <= hay[i..] {
      assert hay[i..][..|needle|] == hay[i..i + |needle|];
      assert StandsAt(needle, hay, i);
    }
    if i :| 0 <= i <= |hay| && StandsAt(needle, hay, i) {
      assert hay[i..][..|needle|] == hay[i..i + |needle|];
      assert needle <= hay[i..];
    }
  }

  /** Whatever the case of either. */
  predicate Reads(b: Behaviour, hay: string, needle: string) {
    Within(b.fold(needle), b.fold(hay))
  }

  lemma {:induction false} ReadsIff(b: Behaviour, hay: string, needle: string)
    ensures IncludesInsensitive(b, hay, needle) <==> Reads(b, hay, needle)
  {
    IncludesWithin(b.fold(hay), b.fold(needle));
  }

  /** What the field a target names holds, nothing if there is no such field. */
  function FieldText(b: Behaviour, t: nat, target: Target): string {
    if b.readValue(t, target).None? then "" else b.readValue(t, target).value
  }

  /** Text, options and titles are found in any case; addresses and whole values to the letter; and so on. */
  lemma {:induction false} Asks(b: Behaviour, t: nat, text: string, target: Target)
    ensures Holds(TextVisible(text), b, t) <==> Reads(b, b.world(t).pageText, text)
    ensures Holds(OptionVisible(text), b, t) <==>
            Reads(b, b.world(t).pageText, text) || b.resolve(t, ByText(text, false)) != None
    ensures Holds(TargetExists(target), b, t) <==> b.resolve(t, target) != None
    ensures Holds(RefExists(text), b, t) <==> b.resolve(t, ByRef(text)) != None
    ensures Holds(UrlIncludes(text), b, t) <==> Within(text, b.world(t).url)
    ensures Holds(TitleIncludes(text), b, t) <==> Reads(b, b.world(t).title, text)
    ensures Holds(ValueIncludes(target, text), b, t) <==> Reads(b, FieldText(b, t, target), text)
    ensures Holds(ValueEquals(target, text), b, t) <==> FieldText(b, t, target) == text
  {
    ReadsIff(b, b.world(t).pageText, text);
    ReadsIff(b, b.world(t).title, text);
    ReadsIff(b, FieldText(b, t, target), text);
    IncludesWithin(b.world(t).url, text);
    hide Includes, Within;
  }

  function Denied(ps: seq<Predicate>): seq<Predicate> {
    seq(|ps|, i requires 0 <= i < |ps| => Not(ps[i]))
  }

  lemma {:induction false} SomeOf(b: Behaviour, t: nat, ps: seq<Predicate>)
    ensures Holds(AnyOf(ps), b, t) <==> exists q :: q in ps && Holds(q, b, t)
  {
    assert Holds(AnyOf(ps), b, t) <==> exists i :: 0 <= i < |ps| && Holds(ps[i], b, t);
    hide Holds;
    if q :| q in ps && Holds(q, b, t) {
      var i :| 0 <= i < |ps| && ps[i] == q;
    }
    if i :| 0 <= i < |ps| && Holds(ps[i], b, t) {
      assert ps[i] in ps;
    }
  }

  lemma {:induction false} EachOf(b: Behaviour, t: nat, ps: seq<Predicate>)
    ensures Holds(AllOf(ps), b, t) <==> forall q :: q in ps ==> Holds(q, b, t)
  {
    assert Holds(AllOf(ps), b, t) <==> forall i :: 0 <= i < |ps| ==> Holds(ps[i], b, t);
    hide Holds;
    if q :| q in ps && !Holds(q, b, t) {
      var i :| 0 <= i < |ps| && ps[i] == q;
    }
    if i :| 0 <= i < |ps| && !Holds(ps[i], b, t) {
      assert ps[i] in ps;
    }
  }

  lemma {:induction false} NotAny(b: Behaviour, t: nat, ps: seq<Predicate>)
    ensures Holds(Not(AnyOf(ps)), b, t) <==> Holds(AllOf(Denied(ps)), b, t)
  {
    var ds := Denied(ps);
    assert Holds(Not(AnyOf(ps)), b, t) <==> forall i :: 0 <= i < |ps| ==> !Holds(ps[i], b, t);
    assert Holds(AllOf(ds), b, t) <==> forall i :: 0 <= i < |ds| ==> Holds(ds[i], b, t);
    forall i | 0 <= i < |ps|
      ensures Holds(ds[i], b, t) <==> !Holds(ps[i], b, t)
    {
      assert ds[i] == Not(ps[i]);
    }
  }

  /** Some of several, all of several, not: with none to choose from nothing holds, and everything does. */
  lemma {:induction false} Combines(b: Behaviour, t: nat, ps: seq<Predicate>, p: Predicate)
    ensures Holds(AnyOf(ps), b, t) <==> exists q :: q in ps && Holds(q, b, t)
    ensures Holds(AllOf(ps), b, t) <==> forall q :: q in ps ==> Holds(q, b, t)
    ensures Holds(Not(p), b, t) <==> !Holds(p, b, t)
    ensures Holds(Not(AnyOf(ps)), b, t) <==> Holds(AllOf(Denied(ps)), b, t)
  {
    assert Holds(Not(p), b, t) <==> !Holds(p, b, t);
    hide Holds;
    SomeOf(b, t, ps);
    EachOf(b, t, ps);
    NotAny(b, t, ps);
  }

  /** A hint is met when the address holds its address text to the letter, and the title its title text in any case. */
  lemma {:induction false} HintMet(hint: Option<Hint>, b: Behaviour, t: nat)
    ensures OnPage(hint, b, t) <==>
              (forall h, u :: hint == Some(h) && h.urlIncludes == Some(u) && u != "" ==> Within(u, b.world(t).url))
              && forall h, n :: hint == Some(h) && h.titleIncludes == Some(n) && n != "" ==>
                   Reads(b, b.world(t).title, n)
  {
    if hint.Some? {
      var h := hint.value;
      if h.urlIncludes.Some? { IncludesWithin(b.world(t).url, h.urlIncludes.value); }
      if h.titleIncludes.Some? { ReadsIff(b, b.world(t).title, h.titleIncludes.value); }
      hide Includes, Within;
    }
  }
}
