/** lengthfmt: the phrase used in "length of {len} characters". */
module LengthFormat {
  import opened Wrappers
  import opened Filtering

  /** The five phrases lengthfmt can produce. */
  datatype Phrase =
    | Exactly(n: int)
    | AnyNumber
    | UpTo(max: int)
    | AtLeast(min: int)
    | Between(min: int, max: int)

  /** The positive lengths a phrase speaks of. */
  predicate Admits(p: Phrase, n: int)
  {
    match p
    case Exactly(m) => n == m
    case AnyNumber => true
    case UpTo(b) => n <= b
    case AtLeast(a) => a <= n
    case Between(a, b) => a <= n <= b
  }

  /** The case split of lengthfmt; the phrase admits exactly the positive lengths in [lo, hi]. */
  function LengthPhrase(lo: int, hi: Bound): (p: Phrase)
    ensures forall n :: n >= 1 ==> (Admits(p, n) <==> lo <= n && WithinUpper(n, hi))
    ensures p.Exactly? <==> hi == Some(lo)
    ensures p.AnyNumber? <==> lo == 1 && hi.None?
    ensures p.UpTo? <==> lo == 1 && hi.Some? && hi != Some(lo)
    ensures p.AtLeast? <==> lo != 1 && hi.None?
    ensures p.Between? <==> lo != 1 && hi.Some? && hi != Some(lo)
  {
    if hi == Some(lo) then Exactly(lo)
    else if lo == 1 then
      if hi.None? then AnyNumber else UpTo(hi.value)
    else
      if hi.None? then AtLeast(lo) else Between(lo, hi.value)
  }

  /** str(n) for a Python int. */
  function Decimal(n: int): string
    decreases if n < 0 then 1 - n else n
  {
    if n < 0 then "-" + Decimal(-n)
    else if n < 10 then [DigitChar(n)]
    else Decimal(n / 10) + [DigitChar(n % 10)]
  }

  function DigitChar(d: int): char
    requires 0 <= d < 10
  {
    ['0', '1', '2', '3', '4', '5', '6', '7', '8', '9'][d]
  }

  /** The number a string of decimal digits denotes. */
  function DigitsValue(s: string): int
  {
    if s == [] then 0 else DigitsValue(s[..|s| - 1]) * 10 + (s[|s| - 1] as int - '0' as int)
  }

  /** str(n) of a non-negative int is a non-empty string of digits without a leading zero that denotes n. */
  lemma {:induction false} DecimalRoundTrip(n: nat)
    ensures |Decimal(n)| >= 1 && forall i :: 0 <= i < |Decimal(n)| ==> '0' <= Decimal(n)[i] <= '9'
    ensures Decimal(n)[0] == '0' ==> n == 0
    ensures DigitsValue(Decimal(n)) == n
    decreases n
  {
    if n < 10 {
      DigitCharValue(n);
      assert Decimal(n) == [DigitChar(n)];
      assert Decimal(n)[..0] == [];
    } else {
      var q, d := n / 10, n % 10;
      DecimalRoundTrip(q);
      DigitCharValue(d);
      var s := Decimal(q) + [DigitChar(d)];
      assert Decimal(n) == s;
      assert s[..|s| - 1] == Decimal(q) && s[0] == Decimal(q)[0];
      assert DigitsValue(s) == q * 10 + d;
    }
  }

  lemma DigitCharValue(d: int)
    requires 0 <= d < 10
    ensures '0' <= DigitChar(d) <= '9' && DigitChar(d) as int - '0' as int == d
  {
  }

  function Render(p: Phrase): string
  {
    match p
    case Exactly(n) => "exactly " + Decimal(n)
    case AnyNumber => "any number of"
    case UpTo(b) => "up to " + Decimal(b)
    case AtLeast(a) => "at least " + Decimal(a)
    case Between(a, b) => "between " + Decimal(a) + " and " + Decimal(b)
  }

  /** lengthfmt(min_length, max_length) */
  function LengthFmt(lo: int, hi: Bound): string
  {
    Render(LengthPhrase(lo, hi))
  }
}
