/** The integer type of the request language: which strings are integers, and how they are tidied. */
module Integers {
  import opened Results

  // ---- reading and printing decimal numbers ---------------------------------------------

  predicate IsDigit(c: char) {
    '0' <= c <= '9'
  }

  function DigitOf(c: char): nat
    requires IsDigit(c)
  {
    c as int - '0' as int
  }

  function CharOf(d: nat): (c: char)
    requires d < 10
    ensures IsDigit(c) && DigitOf(c) == d
  {
    ('0' as int + d) as char
  }

  predicate AllDigits(s: string) {
    forall i :: 0 <= i < |s| ==> IsDigit(s[i])
  }

  function Number(s: string): nat
    requires AllDigits(s)
  {
    if s == [] then 0 else Number(s[..|s| - 1]) * 10 + DigitOf(s[|s| - 1])
  }

  /** Digits, with at most one minus sign in front. */
  predicate IsInteger(s: string) {
    if s != [] && s[0] == '-' then AllDigits(s[1..]) else AllDigits(s)
  }

  function ValueOf(s: string): int
    requires IsInteger(s)
  {
    if s != [] && s[0] == '-' then (0 - Number(s[1..])) as int else Number(s) as int
  }

  function PrintNat(n: nat): string {
    if n < 10 then [CharOf(n)] else PrintNat(n / 10) + [CharOf(n % 10)]
  }

  function Print(n: int): string {
    if n < 0 then "-" + PrintNat(-n) else PrintNat(n)
  }

  lemma {:induction false} NumberOfPrint(n: nat)
    ensures PrintNat(n) != [] && AllDigits(PrintNat(n)) && Number(PrintNat(n)) == n
  {
    var s := PrintNat(n);
    if n >= 10 {
      NumberOfPrint(n / 10);
      assert s[..|s| - 1] == PrintNat(n / 10);
    } else {
      assert s[..0] == [];
    }
  }

  /** Printing an integer and reading it gives it back. */
  lemma ValueOfPrint(n: int)
    ensures IsInteger(Print(n)) && ValueOf(Print(n)) == n
  {
    NumberOfPrint(if n < 0 then -n else n);
    if n < 0 {
      assert Print(n)[1..] == PrintNat(-n);
    } else {
      assert IsDigit(Print(n)[0]);
    }
  }

  lemma PrintInjective(m: int, n: int)
    requires Print(m) == Print(n)
    ensures m == n
  {
    ValueOfPrint(m);
    ValueOfPrint(n);
  }

  /** The decimal value: digits in front count ten times as much for each digit after them. */
  function Power(n: nat): nat {
    if n == 0 then 1 else 10 * Power(n - 1)
  }

  lemma {:induction false} NumberOfParts(a: string, b: string)
    requires AllDigits(a) && AllDigits(b)
    ensures AllDigits(a + b) && Number(a + b) == Number(a) * Power(|b|) + Number(b)
  {
    if b == "" {
      assert a + b == a;
    } else {
      var n := |b| - 1;
      NumberOfParts(a, b[..n]);
      assert (a + b)[..|a| + n] == a + b[..n];
      Regroup(Number(a), Power(n), Number(b[..n]), DigitOf(b[n]));
    }
  }

  lemma Regroup(a: nat, p: nat, b: nat, d: nat)
    ensures (a * p + b) * 10 + d == a * (10 * p) + (b * 10 + d)
  {
  }

  lemma NumberOfDigit(s: string)
    requires |s| == 1 && AllDigits(s)
    ensures '0' <= s[0] <= '9' && Number(s) == s[0] as int - 48
  {
    assert s[..0] == "";
  }

  /** A printed number has no zeros in front. */
  lemma {:induction false} NoLeadingZero(n: nat)
    ensures PrintNat(n) != [] && (n > 0 ==> PrintNat(n)[0] != '0')
  {
    if n >= 10 {
      NoLeadingZero(n / 10);
    }
  }

  // ---- the type -------------------------------------------------------------------------

  datatype Bounds = Bounds(lower: int, upper: int)

  predicate InBounds(range: Option<Bounds>, n: int) {
    range.Some? ==> range.value.lower <= n <= range.value.upper
  }

  /** `expand`: the canonical form of an integer in the range. */
  function Canonical(range: Option<Bounds>, s: string): Option<string> {
    if IsInteger(s) && InBounds(range, ValueOf(s)) then Some(Print(ValueOf(s))) else None
  }

  /** Accepted are digits with or without a minus sign in front, of a value within both bounds. */
  lemma AcceptedExactly(range: Option<Bounds>, s: string)
    ensures var negative := s != "" && s[0] == '-';
            var digits := if negative then s[1..] else s;
            Canonical(range, s).Some? <==>
            && (forall i :: 0 <= i < |digits| ==> '0' <= digits[i] <= '9')
            && Within(range, if negative then 0 - Number(digits) as int else Number(digits) as int)
  {
    var digits := if s != "" && s[0] == '-' then s[1..] else s;
    assert AllDigits(digits) <==> forall i :: 0 <= i < |digits| ==> '0' <= digits[i] <= '9';
  }

  ghost predicate Within(range: Option<Bounds>, n: int) {
    match range
    case None => true
    case Some(b) => b.lower <= n && n <= b.upper
  }

  /** `tidy`: what cannot be expanded is left as it is. */
  function Tidy(range: Option<Bounds>, s: string): string {
    match Canonical(range, s)
    case Some(t) => t
    case None => s
  }

  /** A printed integer is tidy. */
  lemma TidyPrint(range: Option<Bounds>, n: int)
    ensures Tidy(range, Print(n)) == Print(n)
  {
    ValueOfPrint(n);
  }

  lemma TidyIsIdempotent(range: Option<Bounds>, s: string)
    ensures Tidy(range, Tidy(range, s)) == Tidy(range, s)
  {
    if Canonical(range, s).Some? {
      TidyPrint(range, ValueOf(s));
    }
  }

  /** Two integers in the range have the same tidy form exactly when they are the same number. */
  lemma TidyIsCanonical(range: Option<Bounds>, s: string, t: string)
    requires Canonical(range, s).Some? && Canonical(range, t).Some?
    ensures Tidy(range, s) == Tidy(range, t) <==> ValueOf(s) == ValueOf(t)
  {
    if Tidy(range, s) == Tidy(range, t) {
      PrintInjective(ValueOf(s), ValueOf(t));
    }
  }

  /** `ok` */
  method IsOk(range: Option<Bounds>, value: string) returns (ok: bool, n: int)
    ensures ok <==> IsInteger(value) && Within(range, ValueOf(value))
    ensures ok ==> n == ValueOf(value)
  {
    n := 0;
    var sign := 1;
    ghost var digits := if value != [] && value[0] == '-' then value[1..] else value;
    ghost var skip := |value| - |digits|;
    for j := 0 to |value|
      invariant sign == if skip == 1 && j > 0 then -1 else 1
      invariant j <= skip ==> n == 0
      invariant j >= skip ==> AllDigits(digits[..j - skip]) && n == Number(digits[..j - skip])
    {
      var c := value[j];
      if c == '-' {
        if j == 0 {
          sign := -1;
        } else {
          assert !IsDigit(digits[j - skip]);
          return false, n;
        }
      } else if IsDigit(c) {
        n := n * 10 + DigitOf(c);
        assert digits[..j - skip + 1][..j - skip] == digits[..j - skip];
      } else {
        assert !IsDigit(digits[j - skip]);
        return false, n;
      }
    }
    assert digits[..|digits|] == digits;
    n := n * sign;
    ok := InBounds(range, n);
  }

  method ExpandInteger(range: Option<Bounds>, value: string) returns (r: Option<string>)
    ensures r == Canonical(range, value)
  {
    var ok, n := IsOk(range, value);
    r := if ok then Some(Print(n)) else None;
  }
}
