/** Numbers written in digits, and the conversions of the C library the source relies on. */
module Numbers {
  import opened Bytes

  const INT_LIMIT := 0x8000_0000
  const LONG_LIMIT := 0x8000_0000_0000_0000

  /** The value of a digit; 99 is no digit in any base. */
  function DigitOf(b: int): nat {
    if 48 <= b <= 57 then b - 48
    else if 65 <= b <= 90 then b - 55
    else if 97 <= b <= 122 then b - 87
    else 99
  }

  /** The digits in order, with the letters in either case. */
  lemma DigitTable(i: nat)
    requires i < 16
    ensures DigitOf("0123456789ABCDEF"[i] as int) == i && DigitOf("0123456789abcdef"[i] as int) == i
  {
  }

  lemma DigitsOnly(b: Byte)
    requires DigitOf(b) < 16
    ensures exists i :: 0 <= i < 16 &&
              (b as int == "0123456789ABCDEF"[i] as int || b as int == "0123456789abcdef"[i] as int)
  {
    var i := DigitOf(b);
    DigitTable(i);
    assert b as int == "0123456789ABCDEF"[i] as int || b as int == "0123456789abcdef"[i] as int;
  }

  predicate IsDigit(base: nat, b: int) {
    DigitOf(b) < base
  }

  predicate AllDigits(base: nat, digits: Bytes) {
    forall i :: 0 <= i < |digits| ==> IsDigit(base, digits[i])
  }

  function ValueOf(base: nat, digits: Bytes): nat {
    if digits == [] then 0 else base * ValueOf(base, digits[..|digits| - 1]) + DigitOf(digits[|digits| - 1])
  }

  function DigitFor(v: nat): Byte
    requires v < 36
  {
    if v < 10 then v + 48 else v + 55
  }

  function Quotient(base: nat, v: nat): (q: nat)
    requires base >= 2
    ensures v >= base ==> q < v
  {
    v / base
  }

  function Remainder(base: nat, v: nat): (r: nat)
    requires base >= 2
    ensures r < base
  {
    v % base
  }

  /** A number in digits, without leading zeros. */
  function Digits(base: nat, v: nat): (digits: Bytes)
    requires 2 <= base <= 36
    ensures digits != []
  {
    if v < base then [DigitFor(v)] else Digits(base, Quotient(base, v)) + [DigitFor(Remainder(base, v))]
  }

  lemma DigitRead(base: nat, v: nat)
    requires v < base <= 36
    ensures DigitOf(DigitFor(v)) == v
  {
  }

  lemma DivMod(base: nat, v: nat)
    requires base >= 2
    ensures base * Quotient(base, v) + Remainder(base, v) == v
  {
  }

  lemma OneDigit(base: nat, d: Byte)
    ensures ValueOf(base, [d]) == DigitOf(d)
  {
    hide DigitOf;
    assert [d][..0] == [];
  }

  lemma ValueOfAppended(base: nat, digits: Bytes, d: Byte)
    ensures ValueOf(base, digits + [d]) == base * ValueOf(base, digits) + DigitOf(d)
  {
    hide DigitOf;
    assert (digits + [d])[..|digits|] == digits;
  }

  function Power(base: nat, n: nat): nat {
    if n == 0 then 1 else base * Power(base, n - 1)
  }

  /** Each digit counts as much as its place says. */
  lemma {:induction false} PlaceValue(base: nat, d: Byte, digits: Bytes)
    ensures ValueOf(base, [d] + digits) == DigitOf(d) * Power(base, |digits|) + ValueOf(base, digits)
    decreases |digits|
  {
    hide DigitOf, ValueOf, Power;
    if digits == [] {
      OneDigit(base, d);
      assert [d] + digits == [d];
      NoDigits(base);
    } else {
      var n := |digits| - 1;
      var rest, last := digits[..n], digits[n];
      PlaceValue(base, d, rest);
      assert rest + [last] == digits && ([d] + rest) + [last] == [d] + digits;
      ValueOfAppended(base, [d] + rest, last);
      ValueOfAppended(base, rest, last);
      Distributed(base, DigitOf(d), Power(base, n), ValueOf(base, rest));
      PowerNext(base, n);
    }
  }

  lemma NoDigits(base: nat)
    ensures ValueOf(base, []) == 0 && Power(base, 0) == 1
  {
  }

  lemma PowerNext(base: nat, n: nat)
    ensures Power(base, n + 1) == base * Power(base, n)
  {
  }

  lemma Distributed(base: nat, d: nat, p: nat, v: nat)
    ensures base * (d * p + v) == d * (base * p) + base * v
  {
    assert base * (d * p) == d * (base * p);
  }

  lemma {:induction false} DigitsRoundTrip(base: nat, v: nat)
    requires 2 <= base <= 36
    ensures AllDigits(base, Digits(base, v)) && ValueOf(base, Digits(base, v)) == v
  {
    hide ValueOf, DigitOf, DigitFor, Quotient, Remainder;
    if v >= base {
      var q, r := Quotient(base, v), Remainder(base, v);
      DigitRead(base, r);
      DigitsRoundTrip(base, q);
      ValueOfAppended(base, Digits(base, q), DigitFor(r));
      DivMod(base, v);
    } else {
      DigitRead(base, v);
      OneDigit(base, DigitFor(v));
    }
  }

  /** Conversion of a 64-bit number to a 32-bit signed one. */
  function ToInt(v: int): int {
    (v + INT_LIMIT) % (2 * INT_LIMIT) - INT_LIMIT
  }

  /** The one int that equals the number up to a multiple of 2 to the 32. */
  lemma ToIntExactly(v: int, r: int)
    ensures r == ToInt(v) <==> -0x8000_0000 <= r < 0x8000_0000 && (r - v) % 0x1_0000_0000 == 0
  {
  }

  /** A number out of the range of 64-bit ones is replaced by the nearest of them. */
  function Clamped(v: int): int {
    if v >= LONG_LIMIT then LONG_LIMIT - 1 else if v < -LONG_LIMIT then -LONG_LIMIT else v
  }

  lemma ClampedExactly(v: int)
    ensures -0x8000_0000_0000_0000 <= v <= 0x7fff_ffff_ffff_ffff ==> Clamped(v) == v
    ensures v > 0x7fff_ffff_ffff_ffff ==> Clamped(v) == 0x7fff_ffff_ffff_ffff
    ensures v < -0x8000_0000_0000_0000 ==> Clamped(v) == -0x8000_0000_0000_0000
  {
  }

  /** The int made of a number read as a 64-bit one. */
  function IntOf(v: int): int {
    ToInt(Clamped(v))
  }

  lemma IntOfExact(v: nat)
    ensures IntOf(v) == v <==> v < INT_LIMIT
    ensures v < INT_LIMIT ==> IntOf(v) >= 0
  {
  }

  // strtol: blanks, a sign, "0x" in base 16, then digits; nothing is read if there are no digits.

  predicate IsBlank(b: int) {
    b == 32 || 9 <= b <= 13
  }

  function SkipBlanks(s: Bytes, from: nat): (i: nat)
    requires from <= |s|
    ensures from <= i <= |s|
    decreases |s| - from
  {
    if from < |s| && IsBlank(s[from]) then SkipBlanks(s, from + 1) else from
  }

  function SkipDigits(base: nat, s: Bytes, from: nat): (i: nat)
    requires from <= |s|
    ensures from <= i <= |s| && AllDigits(base, s[from..i]) && (i < |s| ==> !IsDigit(base, s[i]))
    decreases |s| - from
  {
    if from < |s| && IsDigit(base, s[from]) then
      var i := SkipDigits(base, s, from + 1);
      assert forall k :: from + 1 <= k < i ==>
          IsDigit(base, s[from + 1..i][k - from - 1]) && s[k] == s[from + 1..i][k - from - 1];
      i
    else from
  }

  function SkipPrefix(base: nat, s: Bytes, from: nat): (i: nat)
    requires from <= |s|
    ensures from <= i <= |s|
  {
    if base == 16 && At(s, from) == 48 && ToLower(At(s, from + 1)) == 120 && IsDigit(16, At(s, from + 2)) then from + 2
    else from
  }

  /** The number read at `from`, and where what follows it begins. */
  function Strtol(base: nat, s: Bytes, from: nat): (r: (int, nat))
    requires from <= |s|
    ensures from <= r.1 <= |s| && (r.1 == from ==> r.0 == 0)
  {
    var i := SkipBlanks(s, from);
    var negative := At(s, i) == 45;
    var start := SkipPrefix(base, s, if negative || At(s, i) == 43 then i + 1 else i);
    var end := SkipDigits(base, s, start);
    var v: int := ValueOf(base, s[start..end]);
    if end == start then (0, from) else (Clamped(if negative then -v else v), end)
  }

  /** On digits, strtol reads them all. */
  lemma StrtolReads(base: nat, digits: Bytes, s: Bytes, from: nat)
    requires 2 <= base <= 16 && digits != [] && AllDigits(base, digits)
    requires from + |digits| <= |s| && s[from..from + |digits|] == digits
    requires from + |digits| < |s| ==> s[from + |digits|] == 46
    ensures Strtol(base, s, from) == (Clamped(ValueOf(base, digits)), from + |digits|)
  {
    hide ValueOf, Clamped;
    var n, end := |digits|, SkipDigits(base, s, from);
    assert forall k :: from <= k < from + n ==> s[k] == digits[k - from] && IsDigit(base, s[k]);
    assert end >= from + n;
    assert end > from + n ==> IsDigit(base, s[from..end][n]);
    assert end == from + n;
  }

  /** Where the parts of a number are: blanks up to `i`, a sign up to `j`, the prefix of base 16 up to `k` and
      digits up to `end`, each of them as long as it can be. */
  ghost predicate NumberAt(base: nat, s: Bytes, from: nat, i: nat, j: nat, k: nat, end: nat) {
    && from <= i <= j <= k <= end <= |s|
    && (forall n :: from <= n < i ==> s[n] in {9, 10, 11, 12, 13, 32})
    && (i < |s| ==> s[i] !in {9, 10, 11, 12, 13, 32})
    && j == (if i < |s| && (s[i] == '+' as int || s[i] == '-' as int) then i + 1 else i)
    && k == (if base == 16 && j + 2 < |s| && s[j] == '0' as int && s[j + 1] in {'x' as int, 'X' as int}
                && IsDigit(16, s[j + 2]) then j + 2 else j)
    && AllDigits(base, s[k..end]) && (end < |s| ==> !IsDigit(base, s[end]))
  }

  lemma {:induction false} BlanksSkipped(s: Bytes, from: nat)
    requires from <= |s|
    ensures var i := SkipBlanks(s, from);
            && (forall n :: from <= n < i ==> IsBlank(s[n])) && (i < |s| ==> !IsBlank(s[i]))
    decreases |s| - from
  {
    if from < |s| && IsBlank(s[from]) {
      BlanksSkipped(s, from + 1);
    }
  }

  lemma ZeroIsNoDigit()
    ensures !IsDigit(16, 0)
  {
  }

  /** What strtol reads, on any text. */
  lemma StrtolExactly(base: nat, s: Bytes, from: nat) returns (i: nat, j: nat, k: nat, end: nat)
    requires from <= |s|
    ensures NumberAt(base, s, from, i, j, k, end)
    ensures Strtol(base, s, from) ==
            if end == k then (0, from)
            else (Clamped(if i < |s| && s[i] == '-' as int then -(ValueOf(base, s[k..end]) as int)
                          else ValueOf(base, s[k..end])), end)
  {
    hide ValueOf, Clamped, DigitOf, AllDigits;
    i := SkipBlanks(s, from);
    BlanksSkipped(s, from);
    j := if At(s, i) == 45 || At(s, i) == 43 then i + 1 else i;
    k := SkipPrefix(base, s, j);
    ZeroIsNoDigit();
    end := SkipDigits(base, s, k);
  }
}
