/** One entry of the counting game: a number a player said, or the word "box"
    said in place of a number that a divisor of the base triggers. */
module Counters {
  import opened Text

  /** ErrEmptyBase, and the syntax error strconv.Atoi reports. */
  datatype Error = EmptyBase | ParseError

  datatype Result<T> = Ok(value: T) | Err(error: Error)

  function Abs(x: int): nat
  {
    if x < 0 then -x else x
  }

  function Max(a: int, b: int): int
  {
    if a < b then b else a
  }

  /** Go's `/` on int: the quotient is truncated toward zero. */
  function GoQuo(a: int, b: int): int
    requires b != 0
  {
    var q := Abs(a) / Abs(b);
    if (a >= 0) == (b > 0) then q else -q
  }

  /** Go's `%` on int: what is left after the truncated quotient, so the
      remainder has the sign of the dividend. */
  function GoRem(a: int, b: int): (r: int)
    requires b != 0
    ensures a == GoQuo(a, b) * b + r
    ensures Abs(r) < Abs(b)
    ensures a >= 0 ==> r >= 0
    ensures a <= 0 ==> r <= 0
  {
    var k, n := Abs(b), Abs(a);
    assert n == (n / k) * k + n % k;
    assert b < 0 ==> (n / k) * b == -((n / k) * k);
    if a >= 0 then a % k else -(n % k)
  }

  lemma MulAtLeast(x: int, k: int)
    requires x >= 1 && k > 0
    ensures x * k >= k
  {
  }

  /** Euclidean division by a positive k has one quotient and one remainder. */
  lemma RemUnique(a: int, k: int, q: int, r: int)
    requires k > 0 && a == q * k + r && 0 <= r < k
    ensures a % k == r
  {
    var q', r' := a / k, a % k;
    assert (q - q') * k == r' - r;
    if q - q' >= 1 {
      MulAtLeast(q - q', k);
    } else if q' - q >= 1 {
      MulAtLeast(q' - q, k);
    }
  }

  /** Go's truncated remainder is zero exactly when Dafny's Euclidean one is,
      so the divisibility test does not depend on the sign convention. */
  lemma GoRemZero(a: int, b: int)
    requires b != 0
    ensures GoRem(a, b) == 0 <==> a % b == 0
  {
    var k := Abs(b);
    if b < 0 {
      var q := a / b;
      assert q * b == (-q) * k;
      RemUnique(a, k, -q, a % b);
    }
    assert a % b == a % k;
    if a < 0 {
      var n := -a;
      if n % k == 0 {
        var q := n / k;
        assert a == (-q) * k + 0;
        RemUnique(a, k, -q, 0);
      }
      if a % k == 0 {
        var q := a / k;
        assert n == (-q) * k + 0;
        RemUnique(n, k, -q, 0);
      }
    }
  }

  /** divides: some element of the base divides num.  The source scans the base
      front to back and stops at the first hit. */
  function Divides(num: int, base: seq<int>): (r: bool)
    requires 0 !in base
    ensures r <==> exists i :: 0 <= i < |base| && num % base[i] == 0
  {
    if |base| == 0 then
      false
    else
      GoRemZero(num, base[0]);
      assert forall i :: 1 <= i < |base| ==> base[i] == base[1..][i - 1];
      GoRem(num, base[0]) == 0 || Divides(num, base[1..])
  }

  /** Only 1 and -1 divide 1 and -1. */
  lemma UnitDivides(u: int, base: seq<int>)
    requires 0 !in base
    requires u == 1 || u == -1
    ensures Divides(u, base) <==> 1 in base || -1 in base
  {
    if Divides(u, base) {
      var i :| 0 <= i < |base| && u % base[i] == 0;
      GoRemZero(u, base[i]);
      assert Abs(base[i]) == 1;
    }
    if 1 in base || -1 in base {
      var i :| 0 <= i < |base| && (base[i] == 1 || base[i] == -1);
      assert u % base[i] == 0;
    }
  }

  /** value is meaningful only when filled; boxed marks a divisor-triggered
      number or the literal word "box".  The accessors Get, Filled and Boxed
      are the destructors value, filled and boxed. */
  datatype Counter = Counter(value: int, filled: bool, boxed: bool, base: seq<int>)
  {
    /** What the entry contributes to a sum: its number, or nothing when unfilled. */
    function Contribution(): int
    {
      if filled then value else 0
    }

    /** Merge two entries: an unfilled (placeholder) side passes the other
        through; the boxed flags of the sides that count are conjoined. */
    function Add(other: Counter): (r: Counter)
      ensures r.filled == (filled || other.filled)
      ensures r.value == Contribution() + other.Contribution()
      ensures r.boxed == ((filled || !r.filled ==> boxed) && (other.filled || !r.filled ==> other.boxed))
      ensures r.base == base
    {
      if filled && !other.filled then
        Counter(value, true, boxed, base)
      else if !filled && other.filled then
        Counter(other.value, true, other.boxed, base)
      else if filled && other.filled then
        Counter(value + other.value, true, boxed && other.boxed, base)
      else
        Counter(0, false, boxed && other.boxed, base)
    }

    /** Same table as Add, but the both-filled row subtracts, and the result is
        clamped at zero on every row. */
    function Sub(other: Counter): (r: Counter)
      ensures r.value >= 0
      ensures r.filled == Add(other).filled && r.boxed == Add(other).boxed && r.base == base
      ensures r.value == Max(0, if filled && other.filled then value - other.value else Add(other).value)
    {
      var c :=
        if filled && !other.filled then Counter(value, true, boxed, base)
        else if !filled && other.filled then Counter(other.value, true, other.boxed, base)
        else if filled && other.filled then Counter(value - other.value, true, boxed && other.boxed, base)
        else Counter(0, false, boxed && other.boxed, base);
      if c.value < 0 then c.(value := 0) else c
    }
  }

  /** The entry for the word "box": no number, always boxed. */
  function Placeholder(base: seq<int>): Counter
  {
    Counter(0, false, true, base)
  }

  /** BuildCounterFromInt: a filled entry, boxed when a base element divides it. */
  function BuildCounterFromInt(v: int, base: seq<int>): (r: Result<Counter>)
    requires 0 !in base
    ensures r.Err? <==> |base| == 0
    ensures r.Err? ==> r.error == EmptyBase
    ensures r.Ok? ==> r.value.value == v && r.value.filled && r.value.base == base
    ensures r.Ok? ==> (r.value.boxed <==> exists i :: 0 <= i < |base| && v % base[i] == 0)
  {
    if |base| <= 0 then Err(EmptyBase) else Ok(Counter(v, true, Divides(v, base), base))
  }

  /** BuildCounterFromBase: the first entry of a count, the number 1. */
  function BuildCounterFromBase(base: seq<int>): (r: Result<Counter>)
    requires 0 !in base
    ensures r == BuildCounterFromInt(1, base)
    ensures r.Err? <==> |base| == 0
    ensures r.Ok? ==> r.value.value == 1 && r.value.filled && r.value.base == base
    ensures r.Ok? ==> (r.value.boxed <==> 1 in base || -1 in base)
  {
    if |base| <= 0 then
      Err(EmptyBase)
    else
      UnitDivides(1, base);
      Ok(Counter(1, true, Divides(1, base), base))
  }

  /** BuildCounterFromStr: the word "box" in any casing gives the placeholder
      (without looking at the base); otherwise the text must be an integer,
      which is then built as by BuildCounterFromInt. */
  function BuildCounterFromStr(str: string, base: seq<int>): (r: Result<Counter>)
    requires 0 !in base
    ensures r.Ok? && !r.value.filled <==> IsBoxWord(str)
    ensures IsBoxWord(str) ==> r == Ok(Placeholder(base))
    ensures r == Err(ParseError) <==> ParseInt(str).None? && !IsBoxWord(str)
    ensures r == Err(EmptyBase) <==> ParseInt(str).Some? && |base| == 0
    ensures ParseInt(str).Some? ==> r == BuildCounterFromInt(ParseInt(str).value, base)
  {
    if IsBoxWord(str) then
      BoxWordIsNotInt(str);
      Ok(Placeholder(base))
    else
      match ParseInt(str)
      case None => Err(ParseError)
      case Some(n) => BuildCounterFromInt(n, base)
  }

  /** Typing a number's decimal form builds the same entry as the number itself. */
  lemma CounterFromFormattedInt(n: int, base: seq<int>)
    requires 0 !in base
    ensures BuildCounterFromStr(FormatInt(n), base) == BuildCounterFromInt(n, base)
  {
    ParseIntFormat(n);
  }

  /** Add ignores operand order, except that the base comes from the receiver. */
  lemma AddSymmetric(a: Counter, b: Counter)
    ensures a.Add(b).value == b.Add(a).value
    ensures a.Add(b).filled == b.Add(a).filled
    ensures a.Add(b).boxed == b.Add(a).boxed
  {
  }

  lemma AddAssociative(a: Counter, b: Counter, c: Counter)
    ensures a.Add(b).Add(c) == a.Add(b.Add(c))
  {
  }

  /** A box placeholder is neutral for Add on a filled entry. */
  lemma PlaceholderNeutral(a: Counter, base: seq<int>)
    requires a.filled
    ensures a.Add(Placeholder(base)) == a
    ensures Placeholder(base).Add(a) == Counter(a.value, a.filled, a.boxed, base)
  {
  }

  /** For two filled entries, Sub is the clamped difference. */
  lemma SubOfFilled(a: Counter, b: Counter)
    requires a.filled && b.filled
    ensures a.Sub(b).value == Max(0, a.value - b.value)
    ensures a.Sub(b).value == 1 <==> a.value == b.value + 1
  {
  }
}
