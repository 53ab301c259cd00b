/** Small vocabulary shared by the models. */
module Common {

  datatype Option<+T> = None | Some(value: T) {
    function GetOr(default: T): T {
      match this
      case Some(v) => v
      case None => default
    }
  }

  datatype Result<+T> = Ok(value: T) | Err(code: string) {
    predicate IsFailure() { Err? }

    function PropagateFailure<U>(): Result<U>
      requires Err?
    {
      Err(code)
    }

    function Extract(): T
      requires Ok?
    {
      value
    }
  }

  /** Applies a checking function to every element; the first refusal is the result. */
  function Collect<A, B>(xs: seq<A>, f: A -> Result<B>): (r: Result<seq<B>>)
    ensures r.Ok? <==> forall i :: 0 <= i < |xs| ==> f(xs[i]).Ok?
    ensures r.Ok? ==> |r.value| == |xs| && forall i :: 0 <= i < |xs| ==> f(xs[i]) == Ok(r.value[i])
    ensures r.Err? ==> exists i :: 0 <= i < |xs| && f(xs[i]) == Err(r.code)
  {
    if xs == [] then Ok([])
    else
      var x :- f(xs[0]);
      var rest :- Collect(xs[1..], f);
      Ok([x] + rest)
  }

  function Min(a: int, b: int): int {
    if a <= b then a else b
  }

  function Max(a: int, b: int): int {
    if a >= b then a else b
  }

  /** Whether `needle` occurs somewhere in `hay`. */
  predicate Includes(hay: string, needle: string) {
    exists i :: 0 <= i <= |hay| && needle <= hay[i..]
  }

  function Digit(d: nat): char
    requires d < 10
  {
    "0123456789"[d]
  }

  /** A natural number as the host prints it. */
  function Decimal(n: nat): (s: string)
    ensures |s| > 0
    ensures forall i :: 0 <= i < |s| ==> '0' <= s[i] <= '9'
  {
    if n < 10 then [Digit(n)] else Decimal(n / 10) + [Digit(n % 10)]
  }

  lemma {:induction false} DecimalInjective(m: nat, n: nat)
    requires Decimal(m) == Decimal(n)
    ensures m == n
  {
    if m >= 10 && n >= 10 {
      DecimalFront(m);
      DecimalFront(n);
      DigitsApart(m % 10, n % 10);
      DecimalInjective(m / 10, n / 10);
    }
  }

  lemma {:induction false} DecimalFront(n: nat)
    requires n >= 10
    ensures var s := Decimal(n); s[..|s| - 1] == Decimal(n / 10) && s[|s| - 1] == Digit(n % 10)
  {}

  lemma {:induction false} DigitsApart(c: nat, d: nat)
    requires c < 10 && d < 10
    ensures Digit(c) == Digit(d) <==> c == d
  {}
}
