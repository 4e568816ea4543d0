/** A round of the count: the entries accepted so far, all judged against one
    base, and the rule that decides whether a new entry may follow the last. */
module Sequences {
  import opened Text
  import opened Counters

  /** isAfterMutliple: num comes right after a number the base triggers. */
  predicate IsAfterMultiple(num: int, base: seq<int>)
    requires 0 !in base
    ensures IsAfterMultiple(num, base) <==> exists i :: 0 <= i < |base| && (num - 1) % base[i] == 0
  {
    Divides(num - 1, base)
  }

  /** Rule A: after a boxed entry, any number that follows a triggered one. */
  predicate RuleA(last: Counter, candidate: Counter, base: seq<int>)
    requires 0 !in base
  {
    last.boxed && IsAfterMultiple(candidate.value, base)
  }

  /** Rule B: two numbers, the candidate one more than the last (through Sub). */
  predicate RuleB(last: Counter, candidate: Counter)
  {
    last.filled && candidate.filled && candidate.Sub(last).value == 1
  }

  predicate Accepts(last: Counter, candidate: Counter, base: seq<int>)
    requires 0 !in base
  {
    RuleA(last, candidate, base) || RuleB(last, candidate)
  }

  /** The acceptance rule in plain arithmetic: because Sub clamps at zero,
      "the difference is 1" means "exactly one more", and a decrease never
      passes. */
  lemma AcceptsIff(last: Counter, candidate: Counter, base: seq<int>)
    requires 0 !in base
    ensures Accepts(last, candidate, base) <==>
              (last.boxed && exists i :: 0 <= i < |base| && (candidate.value - 1) % base[i] == 0)
              || (last.filled && candidate.filled && candidate.value == last.value + 1)
  {
    if last.filled && candidate.filled {
      SubOfFilled(candidate, last);
    }
  }

  /** An unfilled candidate (the word "box", whose value is 0) never passes
      Rule B, and passes Rule A only after a boxed entry when the base holds
      1 or -1. */
  lemma PlaceholderCandidate(last: Counter, candidate: Counter, base: seq<int>)
    requires 0 !in base
    requires !candidate.filled && candidate.value == 0
    ensures !RuleB(last, candidate)
    ensures Accepts(last, candidate, base) <==> last.boxed && (1 in base || -1 in base)
  {
    UnitDivides(-1, base);
  }

  /** What a player typing "box" (any casing) is allowed to follow. */
  lemma TypedBoxAccepted(last: Counter, str: string, base: seq<int>)
    requires 0 !in base
    requires IsBoxWord(str)
    ensures BuildCounterFromStr(str, base).Ok?
    ensures Accepts(last, BuildCounterFromStr(str, base).value, base) <==>
              last.boxed && (1 in base || -1 in base)
  {
    PlaceholderCandidate(last, Placeholder(base), base);
  }

  /** Every entry after the first was accepted relative to its predecessor. */
  ghost predicate Chain(contents: seq<Counter>, base: seq<int>)
    requires 0 !in base
  {
    forall i :: 0 < i < |contents| ==> Accepts(contents[i - 1], contents[i], base)
  }

  class Sequence {
    const base: seq<int>
    var contents: seq<Counter>

    /** The struct literal Sequence{base, contents}. */
    constructor (base: seq<int>, contents: seq<Counter>)
      ensures this.base == base && this.contents == contents
    {
      this.base := base;
      this.contents := contents;
    }

    /** Offer a candidate entry: append it when Rule A or Rule B holds against
        the last entry, otherwise leave the sequence as it was.  The source
        reads the last entry without a guard, so the sequence must already
        hold one. */
    method Add(candidate: Counter) returns (accepted: bool)
      requires 0 !in base
      requires |contents| > 0
      modifies this`contents
      ensures accepted <==> Accepts(old(contents[|contents| - 1]), candidate, base)
      ensures contents == if accepted then old(contents) + [candidate] else old(contents)
      ensures Chain(old(contents), base) ==> Chain(contents, base)
    {
      var last := contents[|contents| - 1];
      var pass1 := last.boxed && IsAfterMultiple(candidate.value, base);
      var pass2 := last.filled && candidate.filled && candidate.Sub(last).value == 1;
      if pass1 || pass2 {
        contents := contents + [candidate];
        accepted := true;
      } else {
        accepted := false;
      }
    }
  }

  /** BuildSequenceFromBase: an empty sequence over a non-empty base. */
  method BuildSequenceFromBase(base: seq<int>) returns (r: Result<Sequence>)
    ensures r.Err? <==> |base| == 0
    ensures r.Err? ==> r.error == EmptyBase
    ensures r.Ok? ==> fresh(r.value) && r.value.base == base && r.value.contents == []
  {
    if |base| <= 0 {
      return Err(EmptyBase);
    }
    var s := new Sequence(base, []);
    return Ok(s);
  }

  /** The pair of factories NewGenerator hands out, both bound to one base. */
  datatype Generator = Generator(base: seq<int>)
  {
    /** genSequence: a fresh empty sequence over the generator's base. */
    method GenSequence() returns (s: Sequence)
      requires |base| > 0
      ensures fresh(s) && s.base == base && s.contents == []
    {
      var r := BuildSequenceFromBase(base);
      s := r.value;
    }

    /** genCounter: the starting entry for the generator's base. */
    function GenCounter(): (c: Counter)
      requires 0 !in base && |base| > 0
      ensures BuildCounterFromBase(base) == Ok(c)
      ensures c.value == 1 && c.filled && c.base == base
    {
      BuildCounterFromBase(base).value
    }
  }

  /** NewGenerator: refuses an empty base up front, so the factories it returns
      never meet the empty-base error. */
  function NewGenerator(base: seq<int>): (r: Result<Generator>)
    ensures r.Err? <==> |base| == 0
    ensures r.Err? ==> r.error == EmptyBase
    ensures r.Ok? ==> r.value.base == base && |r.value.base| > 0
  {
    if |base| <= 0 then Err(EmptyBase) else Ok(Generator(base))
  }

  /** A round with base [3], seeded with the starting entry: 2 follows 1,
      "box" may not follow 2 (2 is not boxed), the boxed 3 follows 2, and 4
      follows the boxed 3.  The seeding write to `contents` is possible only
      inside the package that declares the type: the fields are unexported,
      and no exported operation adds a first entry. */
  method PlayRound()
  {
    var base := [3];
    var g := NewGenerator(base);
    var s := g.value.GenSequence();
    s.contents := [g.value.GenCounter()];
    assert s.contents[0] == Counter(1, true, false, base);

    var ok := s.Add(BuildCounterFromInt(2, base).value);
    assert ok;
    ok := s.Add(Placeholder(base));
    assert !ok by { PlaceholderCandidate(Counter(2, true, false, base), Placeholder(base), base); }
    ok := s.Add(BuildCounterFromInt(3, base).value);
    assert ok;
    ok := s.Add(BuildCounterFromInt(4, base).value);
    assert ok && |s.contents| == 4;
  }
}
