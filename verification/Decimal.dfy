/** Decimal text for integers, as Go's `strconv.Atoi` reads it and `%d`
    writes it, with Go's 64-bit `int` range made explicit. */
module Decimal {
  import opened Wrappers

  const MinInt: int := -0x8000_0000_0000_0000
  const MaxInt: int := 0x7fff_ffff_ffff_ffff

  predicate IsDigit(c: char) { '0' <= c <= '9' }

  predicate AllDigits(s: string)
  {
    forall i :: 0 <= i < |s| ==> IsDigit(s[i])
  }

  function DigitValue(c: char): nat
    requires IsDigit(c)
  {
    c as int - '0' as int
  }

  function DigitChar(d: nat): (c: char)
    requires d < 10
    ensures IsDigit(c) && DigitValue(c) == d
  {
    (d + '0' as int) as char
  }

  /** The number a run of decimal digits denotes, most significant first. */
  function DigitsValue(s: string): nat
    requires AllDigits(s)
    decreases |s|
  {
    if |s| == 0 then 0 else DigitsValue(s[..|s| - 1]) * 10 + DigitValue(s[|s| - 1])
  }

  /** `%d` of a non-negative number: shortest digit string, no leading zero. */
  function FormatNat(n: nat): (s: string)
    ensures 1 <= |s| && AllDigits(s)
    ensures DigitsValue(s) == n
    ensures |s| > 1 ==> s[0] != '0'
    decreases n
  {
    if n < 10 then [DigitChar(n)]
    else
      var hi := FormatNat(n / 10);
      var s := hi + [DigitChar(n % 10)];
      assert s[..|s| - 1] == hi;
      s
  }

  /** `%d` of any integer. */
  function FormatInt(n: int): (s: string)
    ensures 1 <= |s|
    ensures n < 0 <==> s[0] == '-'
  {
    if n < 0 then "-" + FormatNat(-n) else FormatNat(n)
  }

  /** The digits after an optional leading sign. */
  function Unsigned(s: string): string
  {
    if |s| > 0 && (s[0] == '-' || s[0] == '+') then s[1..] else s
  }

  /** What `strconv.Atoi` accepts syntactically: an optional sign, then at
      least one decimal digit and nothing else. */
  predicate IsIntegerSyntax(s: string)
  {
    |Unsigned(s)| >= 1 && AllDigits(Unsigned(s))
  }

  /** strconv.Atoi: `Some` exactly for integer syntax whose value fits Go's `int`. */
  function Atoi(s: string): (r: Option<int>)
    ensures r.Some? ==> IsIntegerSyntax(s)
    ensures r.Some? ==> MinInt <= r.value <= MaxInt
    ensures r.Some? ==> (r.value < 0 ==> s[0] == '-')
  {
    var body := Unsigned(s);
    if |body| == 0 || !AllDigits(body) then None
    else
      var d: int := DigitsValue(body);
      var v := if s[0] == '-' then 0 - d else d;
      if MinInt <= v <= MaxInt then Some(v) else None
  }

  /** Reading back what `%d` wrote gives the number, for every `int`. */
  lemma AtoiFormatInt(n: int)
    requires MinInt <= n <= MaxInt
    ensures Atoi(FormatInt(n)) == Some(n)
  {
    var s := FormatInt(n);
    if n < 0 {
      assert Unsigned(s) == FormatNat(-n);
    } else {
      assert Unsigned(s) == FormatNat(n);
    }
  }

  /** `%d` output is always integer syntax, so Atoi rejects nothing it wrote. */
  lemma FormatIntIsSyntax(n: int)
    ensures IsIntegerSyntax(FormatInt(n))
  {
    var s := FormatInt(n);
    if n < 0 {
      assert Unsigned(s) == FormatNat(-n);
    } else {
      assert Unsigned(s) == FormatNat(n);
    }
  }
}
