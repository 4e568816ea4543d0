/** The two pieces of text handling the counter's string constructor relies on:
    lower-casing a token before comparing it with the word "box", and reading a
    signed decimal integer the way Go's strconv.Atoi does.  Only the ASCII
    behaviour is modelled; FormatInt is the inverse that the parser is checked
    against. */
module Text {

  datatype Option<T> = None | Some(value: T)

  function LowerChar(c: char): char
  {
    if 'A' <= c <= 'Z' then (c as int - 'A' as int + 'a' as int) as char else c
  }

  /** strings.ToLower restricted to ASCII letters. */
  function ToLower(s: string): string
  {
    seq(|s|, i requires 0 <= i < |s| => LowerChar(s[i]))
  }

  /** The token a player types instead of a number that must be skipped. */
  predicate IsBoxWord(s: string)
  {
    ToLower(s) == "box"
  }

  /** A token is the box word exactly when it spells b-o-x in any letter casing. */
  lemma BoxWordCasings(s: string)
    ensures IsBoxWord(s) <==>
              |s| == 3 && (s[0] == 'b' || s[0] == 'B') && (s[1] == 'o' || s[1] == 'O')
              && (s[2] == 'x' || s[2] == 'X')
  {
    if IsBoxWord(s) {
      var t := ToLower(s);
      assert |s| == 3;
      assert t[0] == LowerChar(s[0]) && t[1] == LowerChar(s[1]) && t[2] == LowerChar(s[2]);
      assert t[0] == 'b' && t[1] == 'o' && t[2] == 'x';
    }
    if |s| == 3 && (s[0] == 'b' || s[0] == 'B') && (s[1] == 'o' || s[1] == 'O')
       && (s[2] == 'x' || s[2] == 'X') {
      assert ToLower(s) == "box";
    }
  }

  predicate IsDigit(c: char)
  {
    '0' <= c <= '9'
  }

  predicate AllDigits(s: string)
  {
    forall i :: 0 <= i < |s| ==> IsDigit(s[i])
  }

  function DigitValue(c: char): nat
    requires IsDigit(c)
  {
    c as int - '0' as int
  }

  function DigitChar(d: nat): (c: char)
    requires d < 10
    ensures IsDigit(c) && DigitValue(c) == d
  {
    ('0' as int + d) as char
  }

  /** Value of a run of decimal digits, most significant digit first. */
  function DigitsValue(s: string): nat
    requires AllDigits(s)
  {
    if |s| == 0 then 0 else DigitsValue(s[..|s| - 1]) * 10 + DigitValue(s[|s| - 1])
  }

  /** strconv.Atoi on base 10: an optional '+' or '-' followed by at least one
      decimal digit and nothing else; any other text is a syntax error. */
  function ParseInt(s: string): (r: Option<int>)
    ensures r.Some? <==>
              |s| > 0 && (IsDigit(s[0]) || (|s| > 1 && (s[0] == '+' || s[0] == '-')))
              && forall i :: 0 < i < |s| ==> IsDigit(s[i])
    ensures r.Some? && r.value < 0 ==> s[0] == '-'
  {
    if |s| > 0 && (s[0] == '+' || s[0] == '-') then
      var digits := s[1..];
      if |digits| > 0 && AllDigits(digits) then
        var n: int := DigitsValue(digits);
        Some(if s[0] == '-' then -n else n)
      else
        None
    else if |s| > 0 && AllDigits(s) then
      Some(DigitsValue(s))
    else
      None
  }

  /** Decimal rendering of a natural number, without leading zeros. */
  function FormatNat(n: nat): string
  {
    if n < 10 then [DigitChar(n)] else FormatNat(n / 10) + [DigitChar(n % 10)]
  }

  /** Decimal rendering of an integer, with a '-' for negative values (as strconv.Itoa). */
  function FormatInt(n: int): string
  {
    if n < 0 then "-" + FormatNat(-n) else FormatNat(n)
  }

  lemma {:induction false} FormatNatDigits(n: nat)
    ensures |FormatNat(n)| > 0 && AllDigits(FormatNat(n))
    ensures DigitsValue(FormatNat(n)) == n
  {
    if n >= 10 {
      FormatNatDigits(n / 10);
      var s := FormatNat(n);
      assert s[..|s| - 1] == FormatNat(n / 10);
    }
  }

  /** Reading back a rendered integer gives the integer. */
  lemma ParseIntFormat(n: int)
    ensures ParseInt(FormatInt(n)) == Some(n)
  {
    if n < 0 {
      FormatNatDigits(-n);
      assert FormatInt(n)[1..] == FormatNat(-n);
    } else {
      FormatNatDigits(n);
    }
  }

  /** The box word is never an integer, so the order in which the string
      constructor tries the two readings does not matter. */
  lemma BoxWordIsNotInt(s: string)
    requires IsBoxWord(s)
    ensures ParseInt(s) == None
  {
    BoxWordCasings(s);
    assert !IsDigit(s[0]) && s[0] != '+' && s[0] != '-';
  }
}
