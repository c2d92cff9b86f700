// Safe integers among decimal number tokens (crates/htlk-executable/src/json.rs).

module IntegralTokens {
  import opened Wrappers

  const MAX64: int := 0x7FFF_FFFF_FFFF_FFFF
  const MIN64: int := -0x8000_0000_0000_0000
  /** 2^53 - 1: up to here binary64 represents every integer. */
  const SAFE: nat := 9007199254740991

  datatype Error = Syntax | UnsafeNumber

  function Saturate(x: int): int {
    if x > MAX64 then MAX64 else if x < MIN64 then MIN64 else x
  }

  predicate IsDigit(c: char) {
    '0' <= c <= '9'
  }

  predicate AllDigits(s: string) {
    forall i :: 0 <= i < |s| ==> IsDigit(s[i])
  }

  predicate AllZero(s: string) {
    forall i :: 0 <= i < |s| ==> s[i] == '0'
  }

  function Digit(c: char): nat
    requires IsDigit(c)
  {
    c as int - '0' as int
  }

  /** The digits of a token, without sign and point. */
  function Digits(s: string): string {
    if s == [] then [] else
      Digits(s[..|s| - 1]) + if IsDigit(s[|s| - 1]) then [s[|s| - 1]] else []
  }

  /** How many characters follow the point. */
  function AfterPoint(s: string): nat {
    if s == [] then 0 else if s[0] == '.' then |s| - 1 else AfterPoint(s[1..])
  }

  function Pow10(n: nat): (p: nat)
    ensures p >= 1
  {
    if n == 0 then 1 else 10 * Pow10(n - 1)
  }

  /** The number a digit string denotes. */
  function NatOf(s: string): nat
    requires AllDigits(s)
  {
    if s == [] then 0 else 10 * NatOf(s[..|s| - 1]) + Digit(s[|s| - 1])
  }

  // ---- What a token denotes: `m` times ten to the `e` ----

  predicate IntegerValued(m: nat, e: int) {
    e >= 0 || m % Pow10(-e) == 0
  }

  function Magnitude(m: nat, e: int): nat
    requires IntegerValued(m, e)
  {
    if e >= 0 then m * Pow10(e) else m / Pow10(-e)
  }

  /** An integer-valued token is within the safe range; any other token is left alone. */
  predicate Safe(m: nat, e: int) {
    IntegerValued(m, e) ==> Magnitude(m, e) <= SAFE
  }

  // ---- Digit strings ----

  lemma {:induction false} DigitsAre(s: string)
    ensures AllDigits(Digits(s)) && |Digits(s)| <= |s|
  {
    if s != [] {
      DigitsAre(s[..|s| - 1]);
    }
  }

  lemma DigitsSnoc(s: string, k: nat)
    requires k < |s|
    ensures Digits(s[..k + 1]) == Digits(s[..k]) + if IsDigit(s[k]) then [s[k]] else []
  {
    assert s[..k + 1][..k] == s[..k];
  }

  lemma {:induction false} Pow10Add(a: nat, b: nat)
    ensures Pow10(a + b) == Pow10(a) * Pow10(b)
  {
    if a > 0 {
      Pow10Add(a - 1, b);
      Times(10, Pow10(a - 1), Pow10(b));
    }
  }

  lemma Times(a: int, b: int, c: int)
    ensures (a * b) * c == a * (b * c)
  {
  }

  lemma {:induction false} Pow10Grows(a: nat, b: nat)
    requires a <= b
    ensures Pow10(a) <= Pow10(b)
    decreases b
  {
    if a < b {
      Pow10Grows(a, b - 1);
    }
  }

  lemma {:induction false} NatOfAppend(a: string, b: string)
    requires AllDigits(a) && AllDigits(b)
    ensures AllDigits(a + b) && NatOf(a + b) == NatOf(a) * Pow10(|b|) + NatOf(b)
  {
    if b == [] {
      assert a + b == a;
    } else {
      var front := b[..|b| - 1];
      NatOfAppend(a, front);
      assert (a + b)[..|a + b| - 1] == a + front;
      assert NatOf(a + b) == 10 * NatOf(a + front) + Digit(b[|b| - 1]);
      Spread(NatOf(a), Pow10(|front|), NatOf(front), Digit(b[|b| - 1]));
    }
  }

  lemma Spread(a: nat, p: nat, f: nat, d: nat)
    ensures 10 * (a * p + f) + d == a * (10 * p) + (10 * f + d)
  {
  }

  lemma Mono(a: nat, b: nat, c: nat)
    requires a <= b
    ensures a * c <= b * c
  {
  }

  lemma Gap(a: nat, b: nat, c: nat)
    requires a < b
    ensures a * c + c <= b * c
  {
    Mono(a + 1, b, c);
    assert (a + 1) * c == a * c + c;
  }

  lemma {:induction false} NatOfBelow(s: string)
    requires AllDigits(s)
    ensures NatOf(s) < Pow10(|s|)
  {
    if s != [] {
      NatOfBelow(s[..|s| - 1]);
    }
  }

  lemma {:induction false} NatOfZeros(s: string)
    requires AllZero(s)
    ensures AllDigits(s) && NatOf(s) == 0
  {
    if s != [] {
      NatOfZeros(s[..|s| - 1]);
    }
  }

  lemma Single(c: char)
    requires IsDigit(c)
    ensures NatOf([c]) == Digit(c)
  {
  }

  lemma HeadTail(s: string)
    requires AllDigits(s) && s != []
    ensures AllDigits(s[1..]) && NatOf(s) == Digit(s[0]) * Pow10(|s| - 1) + NatOf(s[1..])
  {
    var head, tail := [s[0]], s[1..];
    assert s == head + tail;
    Single(s[0]);
    NatOfAppend(head, tail);
  }

  /** A digit string without leading zeros uses its whole width. */
  lemma NatOfWide(s: string)
    requires AllDigits(s) && s != [] && s[0] != '0'
    ensures NatOf(s) >= Pow10(|s| - 1)
  {
  }

  /** Greater as text: at the first difference. */
  predicate Greater(a: string, b: string)
    requires |a| == |b|
  {
    a != [] && (a[0] > b[0] || (a[0] == b[0] && Greater(a[1..], b[1..])))
  }

  /** For digit strings of one length, text order is numeric order. */
  lemma {:induction false} GreaterIsNumeric(a: string, b: string)
    requires |a| == |b| && AllDigits(a) && AllDigits(b)
    ensures Greater(a, b) <==> NatOf(a) > NatOf(b)
  {
    if a != [] {
      GreaterIsNumeric(a[1..], b[1..]);
      HeadTail(a);
      HeadTail(b);
      NatOfBelow(a[1..]);
      NatOfBelow(b[1..]);
      LeadDecides(Digit(a[0]), Digit(b[0]), Pow10(|a| - 1), NatOf(a[1..]), NatOf(b[1..]));
    }
  }

  lemma LeadDecides(a: nat, b: nat, p: nat, x: nat, y: nat)
    requires x < p && y < p
    ensures a * p + x > b * p + y <==> a > b || (a == b && x > y)
  {
    if a > b {
      Gap(b, a, p);
    } else if a < b {
      Gap(a, b, p);
    }
  }

  // ---- The scan ----

  /** The positions of the first and last digit other than zero. */
  ghost predicate Ends(ds: string, first: Option<nat>, last: nat) {
    if first.None? then AllZero(ds) else
      && first.value <= last < |ds| && ds[first.value] != '0' && ds[last] != '0'
      && AllZero(ds[..first.value]) && AllZero(ds[last + 1..])
  }

  lemma EndsSnoc(ds: string, first: Option<nat>, last: nat, c: char)
    requires Ends(ds, first, last)
    ensures c == '0' ==> Ends(ds + [c], first, last)
    ensures c != '0' ==> Ends(ds + [c], if first.None? then Some(|ds|) else first, |ds|)
  {
  }

  lemma NoEnds(ds: string, last: nat)
    requires Ends(ds, None, last)
    ensures AllDigits(ds) && NatOf(ds) == 0
  {
  }

  /** The significant digits carry the value: the zeros around them only shift it. */
  lemma Significant(ds: string, first: nat, last: nat)
    requires AllDigits(ds) && Ends(ds, Some(first), last)
    ensures first <= last < |ds|
    ensures
      var s := ds[first..last + 1];
      && AllDigits(s) && NatOf(ds) == NatOf(s) * Pow10(|ds| - last - 1)
      && NatOf(s) % 10 != 0 && Pow10(|s| - 1) <= NatOf(s) < Pow10(|s|)
  {
    var s := ds[first..last + 1];
    assert s[0] == ds[first] && s[|s| - 1] == ds[last];
    Surrounded(ds[..first], s, ds[last + 1..]);
    assert ds == (ds[..first] + s) + ds[last + 1..];
    NatOfWide(s);
    NatOfBelow(s);
    LastDigit(s);
  }

  lemma LastDigit(s: string)
    requires AllDigits(s) && s != [] && s[|s| - 1] != '0'
    ensures NatOf(s) % 10 != 0
  {
  }

  lemma Surrounded(a: string, s: string, b: string)
    requires AllZero(a) && AllDigits(s) && AllZero(b)
    ensures AllDigits((a + s) + b) && NatOf((a + s) + b) == NatOf(s) * Pow10(|b|)
  {
    NatOfZeros(a);
    NatOfZeros(b);
    NatOfAppend(a, s);
    NatOfAppend(a + s, b);
  }

  /** Whether significant digits `s` followed by `shift` zeros are safe. */
  lemma ShiftedSafe(m: nat, e: int, s: nat, zeros: nat, n: nat)
    requires m == s * Pow10(zeros) && s % 10 != 0 && n >= 1 && Pow10(n - 1) <= s < Pow10(n)
    ensures e + zeros < 0 ==> Safe(m, e)
    ensures e + zeros >= 0 ==> (Safe(m, e) <==> s * Pow10(e + zeros) <= SAFE)
    ensures e + zeros >= 0 ==> Pow10(n + e + zeros - 1) <= s * Pow10(e + zeros) < Pow10(n + e + zeros)
  {
    if e + zeros < 0 {
      if IntegerValued(m, e) {
        DividesDown(s, zeros, -e);
        assert false;
      }
    } else {
      ShiftUp(m, e, s, zeros);
      ShiftedWidth(s, e + zeros, n);
    }
  }

  lemma ShiftedWidth(s: nat, shift: nat, n: nat)
    requires n >= 1 && Pow10(n - 1) <= s < Pow10(n)
    ensures Pow10(n + shift - 1) <= s * Pow10(shift) < Pow10(n + shift)
  {
    Pow10Add(n - 1, shift);
    Pow10Add(n, shift);
    Mono(Pow10(n - 1), s, Pow10(shift));
    Gap(s, Pow10(n), Pow10(shift));
  }

  lemma ShiftUp(m: nat, e: int, s: nat, zeros: nat)
    requires m == s * Pow10(zeros) && e + zeros >= 0
    ensures IntegerValued(m, e) && Magnitude(m, e) == s * Pow10(e + zeros)
  {
    if e >= 0 {
      Pow10Add(zeros, e);
      Times(s, Pow10(zeros), Pow10(e));
    } else {
      var d, k := -e, zeros + e;
      Pow10Add(k, d);
      Times(s, Pow10(k), Pow10(d));
      Exact(s * Pow10(k), Pow10(d));
    }
  }

  lemma Exact(q: nat, d: nat)
    requires d >= 1
    ensures (q * d) % d == 0 && (q * d) / d == q
  {
    DivideUnique(q * d, d, q, 0);
  }

  lemma DivideUnique(n: nat, d: nat, q: nat, r: nat)
    requires d >= 1 && n == q * d + r && r < d
    ensures n / d == q && n % d == r
  {
    var q', r' := n / d, n % d;
    assert n == q' * d + r';
    if q' > q {
      Gap(q, q', d);
    } else if q' < q {
      Gap(q', q, d);
    }
  }

  /** A number not divisible by ten has no more tens than the zeros put behind it. */
  lemma DividesDown(s: nat, zeros: nat, d: nat)
    requires s % 10 != 0 && d > zeros
    ensures s * Pow10(zeros) % Pow10(d) != 0
  {
    var a, b := Pow10(zeros), Pow10(d - zeros - 1);
    Pow10Add(zeros, d - zeros);
    if s * a % Pow10(d) == 0 {
      var q := Quotient(s * a, Pow10(d));
      NotTens(s, a, b, q);
    }
  }

  lemma Quotient(n: nat, d: nat) returns (q: nat)
    requires d >= 1 && n % d == 0
    ensures n == d * q
  {
    q := n / d;
  }

  lemma NotTens(s: nat, a: nat, b: nat, q: nat)
    requires s % 10 != 0 && a >= 1
    ensures s * a != (a * (10 * b)) * q
  {
    Times(a, 10 * b, q);
    Times(10, b, q);
    if s < 10 * (b * q) {
      Gap(s, 10 * (b * q), a);
    } else if s > 10 * (b * q) {
      Gap(10 * (b * q), s, a);
    }
  }

  // ---- Checking a token ----

  const LIMIT: string := "9007199254740991"

  lemma LimitIs()
    ensures |LIMIT| == 16 && AllDigits(LIMIT) && NatOf(LIMIT) == SAFE
  {
    assert LIMIT == "90071992" + "54740991";
    Eight("90071992");
    Eight("54740991");
    NatOfAppend("90071992", "54740991");
    assert Pow10(8) == 100000000 by {
      assert Pow10(4) == 10000;
      Pow10Add(4, 4);
    }
  }

  lemma Eight(s: string)
    requires |s| == 8 && AllDigits(s)
    ensures NatOf(s) == 10000 * Four(s[..4]) + Four(s[4..])
  {
    assert s == s[..4] + s[4..];
    NatOfAppend(s[..4], s[4..]);
    NatOfFour(s[..4]);
    NatOfFour(s[4..]);
    assert Pow10(4) == 10000;
  }

  function Four(s: string): nat
    requires |s| == 4 && AllDigits(s)
  {
    1000 * Digit(s[0]) + 100 * Digit(s[1]) + 10 * Digit(s[2]) + Digit(s[3])
  }

  lemma NatOfFour(s: string)
    requires |s| == 4 && AllDigits(s)
    ensures NatOf(s) == Four(s)
  {
    assert s[..3][..2] == s[..2] && s[..2][..1] == s[..1] && s[..1][..0] == [];
    assert NatOf(s[..1]) == Digit(s[0]);
    assert NatOf(s[..2]) == 10 * Digit(s[0]) + Digit(s[1]);
    assert NatOf(s[..3]) == 100 * Digit(s[0]) + 10 * Digit(s[1]) + Digit(s[2]);
  }

  lemma ZeroIsSafe(e: int)
    ensures Safe(0, e)
  {
  }

  /** An exponent as the scan holds it: its magnitude stops at the greatest 64-bit integer. */
  function Clamp(exact: int): int {
    if exact > MAX64 then MAX64 else if exact < -MAX64 then -MAX64 else exact
  }

  function Shift(exponent: int, fraction: nat, zeros: nat): int {
    Saturate(Saturate(exponent - fraction) + zeros)
  }

  const LONGEST: nat := 0x4000_0000_0000_0000

  /** Saturation never changes what is decided about a token that fits in memory. */
  lemma ClampDecides(exact: int, fraction: nat, zeros: nat, n: nat)
    requires fraction <= LONGEST && zeros <= LONGEST && n <= LONGEST
    ensures
      var shift, exactShift := Shift(Clamp(exact), fraction, zeros), exact - fraction + zeros;
      && (shift < 0 <==> exactShift < 0)
      && (shift >= 0 ==> (Saturate(n + shift) > 16 <==> n + exactShift > 16))
      && (shift >= 0 && n + exactShift <= 16 ==> Saturate(n + shift) == n + exactShift)
  {
  }

  /** The scan over the digits. */
  method Scan(mantissa: string) returns (digits: nat, first: Option<nat>, last: nat)
    ensures digits == |Digits(mantissa)| && Ends(Digits(mantissa), first, last)
  {
    digits, first, last := 0, None, 0;
    for k := 0 to |mantissa|
      invariant digits == |Digits(mantissa[..k])| && Ends(Digits(mantissa[..k]), first, last)
    {
      DigitsSnoc(mantissa, k);
      if IsDigit(mantissa[k]) {
        EndsSnoc(Digits(mantissa[..k]), first, last, mantissa[k]);
        if mantissa[k] != '0' {
          if first.None? {
            first := Some(digits);
          }
          last := digits;
        }
        digits := digits + 1;
      }
    }
    assert mantissa[..|mantissa|] == mantissa;
  }

  /** The significant digits, padded with zeros to sixteen places. */
  method Padded(digits: string, first: nat, significant: nat) returns (decimal: array<char>)
    requires first + significant <= |digits| && significant <= 16
    ensures decimal.Length == 16
    ensures decimal[..] == digits[first..first + significant] + seq(16 - significant, _ => '0')
  {
    decimal := new char[16](_ => '0');
    for i := 0 to significant
      invariant forall k :: 0 <= k < i ==> decimal[k] == digits[first + k]
      invariant forall k :: i <= k < 16 ==> decimal[k] == '0'
    {
      decimal[i] := digits[first + i];
    }
  }

  /** Accepts exactly the tokens that are not integers beyond the safe range. */
  method CheckIntegralToken(mantissa: string, exponent: int, ghost exact: int) returns (r: Option<Error>)
    requires |mantissa| <= LONGEST && exponent == Clamp(exact)
    ensures AllDigits(Digits(mantissa))
    ensures r.None? <==> Safe(NatOf(Digits(mantissa)), exact - AfterPoint(mantissa))
  {
    hide *;
    var ds := Digits(mantissa);
    DigitsAre(mantissa);
    AfterPointShort(mantissa);
    var fraction := AfterPoint(mantissa);
    ghost var m, e := NatOf(ds), exact - fraction;
    var digits, first, last := Scan(mantissa);
    if first.None? {
      NoEnds(ds, last);
      ZeroIsSafe(e);
      return None;
    }
    Significant(ds, first.value, last);
    var significant := last - first.value + 1;
    var zeros := digits - last - 1;
    var shift := Shift(exponent, fraction, zeros);
    ghost var s := ds[first.value..last + 1];
    ShiftedSafe(m, e, NatOf(s), zeros, significant);
    ClampDecides(exact, fraction, zeros, significant);
    if shift < 0 {
      return None;
    }
    var width := Saturate(significant + shift);
    if width > 16 {
      TooWide(NatOf(s) * Pow10(e + zeros), significant + e + zeros);
      return Some(UnsafeNumber);
    }
    if width == 16 {
      var decimal := Padded(ds, first.value, significant);
      PaddedIs(s, e + zeros, decimal[..]);
      if Greater(decimal[..], LIMIT) {
        return Some(UnsafeNumber);
      }
      return None;
    }
    Narrow(NatOf(s) * Pow10(e + zeros), significant + e + zeros);
    return None;
  }

  lemma {:induction false} AfterPointShort(s: string)
    ensures AfterPoint(s) <= |s|
  {
    if s != [] {
      AfterPointShort(s[1..]);
    }
  }

  lemma TooWide(v: nat, width: nat)
    requires width > 16 && Pow10(width - 1) <= v
    ensures v > SAFE
  {
    LimitIs();
    Pow10Grows(16, width - 1);
    NatOfBelow(LIMIT);
  }

  lemma Narrow(v: nat, width: nat)
    requires width < 16 && v < Pow10(width)
    ensures v <= SAFE
  {
    LimitIs();
    Pow10Grows(width, 15);
    NatOfWide(LIMIT);
  }

  lemma PaddedIs(s: string, shift: nat, decimal: string)
    requires AllDigits(s) && |s| + shift == 16 && decimal == s + seq(shift, _ => '0')
    ensures AllDigits(decimal) && |decimal| == |LIMIT|
    ensures Greater(decimal, LIMIT) <==> NatOf(s) * Pow10(shift) > SAFE
  {
    var zeros := seq(shift, _ => '0');
    NatOfZeros(zeros);
    NatOfAppend(s, zeros);
    LimitIs();
    GreaterIsNumeric(decimal, LIMIT);
  }

  function Signed(negative: bool, n: nat): int {
    if negative then 0 - n else n
  }

  /** The digits of an exponent, saturating. */
  method Exponent(digits: string, negative: bool) returns (exponent: int)
    requires AllDigits(digits)
    ensures exponent == Clamp(Signed(negative, NatOf(digits)))
  {
    exponent := 0;
    for k := 0 to |digits|
      invariant AllDigits(digits[..k]) && exponent == Clamp(NatOf(digits[..k])) && exponent >= 0
    {
      assert digits[..k + 1][..k] == digits[..k];
      exponent := Saturate(Saturate(exponent * 10) + Digit(digits[k]));
    }
    assert digits[..|digits|] == digits;
    if negative {
      exponent := -exponent;
    }
  }

  /** A whole token: mantissa, and exponent digits of any length. */
  method CheckToken(mantissa: string, negative: bool, digits: string) returns (r: Option<Error>)
    requires |mantissa| <= LONGEST && AllDigits(digits)
    ensures AllDigits(Digits(mantissa))
    ensures r.None? <==>
      Safe(NatOf(Digits(mantissa)), Signed(negative, NatOf(digits)) - AfterPoint(mantissa))
  {
    var exponent := Exponent(digits, negative);
    r := CheckIntegralToken(mantissa, exponent, Signed(negative, NatOf(digits)));
  }
}
