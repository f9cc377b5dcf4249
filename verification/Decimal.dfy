/** Decimal text: the digit accumulators of parsing.rs, and `u64::to_string`. */
module Decimal {
  import opened Prelude

  const ZERO: u8 := 0x30
  const MAX_DIGITS := 20

  predicate IsDigit(b: u8) { ZERO <= b <= ZERO + 9 }

  predicate AllDigits(s: bytes) { forall i :: 0 <= i < |s| ==> IsDigit(s[i]) }

  /** End of the maximal run of digits that starts at `i`. */
  function RunEnd(data: bytes, i: nat): (e: nat)
    requires i <= |data|
    ensures i <= e <= |data| && AllDigits(data[i..e])
    ensures forall k :: i <= k < e ==> IsDigit(data[k])
    ensures e < |data| ==> !IsDigit(data[e])
    decreases |data| - i
  {
    if i < |data| && IsDigit(data[i]) then
      var e := RunEnd(data, i + 1);
      assert data[i..e] == [data[i]] + data[i + 1..e];
      e
    else i
  }

  lemma RunEndUnique(data: bytes, i: nat, e: nat)
    requires i <= e <= |data| && forall k :: i <= k < e ==> IsDigit(data[k])
    requires e < |data| ==> !IsDigit(data[e])
    ensures RunEnd(data, i) == e
  {}

  function Value(digits: bytes): nat
    requires AllDigits(digits)
  {
    if digits == [] then 0
    else 10 * Value(digits[..|digits| - 1]) + (digits[|digits| - 1] - ZERO)
  }

  lemma {:induction false} ValueMonotone(data: bytes, i: nat, k: nat, e: nat)
    requires i <= k <= e <= |data| && forall j :: i <= j < e ==> IsDigit(data[j])
    ensures Value(data[i..k]) <= Value(data[i..e])
    decreases e
  {
    if k < e {
      ValueMonotone(data, i, k, e - 1);
      assert data[i..e][..e - i - 1] == data[i..e - 1];
    }
  }

  datatype Scan = Overflow | Scanned(value: u64, end: nat)

  /** What every accumulate loop computes: the whole run at once, judged by length and value. */
  function ScanOf(data: bytes, start: nat): (r: Scan)
    requires start <= |data|
    ensures r.Scanned? ==> start <= r.end <= |data|
  {
    var e := RunEnd(data, start);
    var v := Value(data[start..e]);
    if e - start > MAX_DIGITS || v > U64_MAX then Overflow else Scanned(v, e)
  }

  /** A run of more than 20 digits is refused, whatever its value. */
  lemma LongRunRefused(data: bytes, start: nat)
    requires start + 21 <= |data| && forall k :: start <= k < start + 21 ==> 0x30 <= data[k] <= 0x39
    ensures ScanOf(data, start) == Overflow
  {
    RunCovers(data, start, start + 21);
  }

  lemma RunCovers(data: bytes, i: nat, k: nat)
    requires i <= k <= |data| && forall j :: i <= j < k ==> 0x30 <= data[j] <= 0x39
    ensures RunEnd(data, i) >= k
    decreases k - i
  {}

  /** The accumulate loop: digit by digit with checked multiply and add. */
  method ScanDigits(data: bytes, start: nat) returns (r: Scan)
    requires start <= |data|
    ensures r == ScanOf(data, start)
  {
    ghost var end := RunEnd(data, start);
    var num: u64 := 0;
    var i := start;
    while i < |data| && IsDigit(data[i])
      invariant start <= i <= end && i - start <= MAX_DIGITS
      invariant AllDigits(data[start..i]) && num == Value(data[start..i])
    {
      assert i < end;
      assert data[start..i + 1][..i - start] == data[start..i];
      if i + 1 - start > MAX_DIGITS { return Overflow; }
      var next := 10 * num + (data[i] - ZERO);
      assert next == Value(data[start..i + 1]);
      if next > U64_MAX {
        ValueMonotone(data, start, i + 1, end);
        return Overflow;
      }
      num := next;
      i := i + 1;
    }
    RunEndUnique(data, start, i);
    r := Scanned(num, i);
  }

  /** `u64::to_string`. */
  function Print(n: nat): (s: bytes)
    ensures |s| > 0 && AllDigits(s)
  {
    if n < 10 then [ZERO + n] else Print(n / 10) + [ZERO + n % 10]
  }

  lemma {:induction false} PrintValue(n: nat)
    ensures Value(Print(n)) == n
  {
    if n >= 10 {
      PrintValue(n / 10);
      assert Print(n)[..|Print(n)| - 1] == Print(n / 10);
    } else {
      assert Print(n)[..0] == [];
    }
  }

  function Pow10(k: nat): nat { if k == 0 then 1 else 10 * Pow10(k - 1) }

  lemma {:induction false} PrintLength(n: nat, k: nat)
    requires k >= 1
    ensures |Print(n)| <= k <==> n < Pow10(k)
  {
    if k == 1 {
      assert Pow10(1) == 10;
    } else if n >= 10 {
      PrintLength(n / 10, k - 1);
      assert n / 10 < Pow10(k - 1) <==> n < 10 * Pow10(k - 1);
    } else {
      Pow10Positive(k - 1);
    }
  }

  lemma Pow10Positive(k: nat)
    ensures Pow10(k) >= 1
  {}

  lemma PrintFits(n: u64)
    ensures |Print(n)| <= MAX_DIGITS
  {
    PrintLength(n, 20);
    assert Pow10(5) == 100_000;
    assert Pow10(10) == 10_000_000_000;
    assert Pow10(15) == 1_000_000_000_000_000;
    assert Pow10(20) == 100_000_000_000_000_000_000;
  }

  /** Scanning printed text gives the number back, whatever precedes it and whatever non-digit follows. */
  lemma ScanPrinted(data: bytes, start: nat, n: u64)
    requires start + |Print(n)| <= |data| && data[start..start + |Print(n)|] == Print(n)
    requires start + |Print(n)| < |data| ==> !IsDigit(data[start + |Print(n)|])
    ensures ScanOf(data, start) == Scanned(n, start + |Print(n)|)
  {
    var e := start + |Print(n)|;
    assert forall k :: start <= k < e ==> data[k] == Print(n)[k - start];
    RunEndUnique(data, start, e);
    PrintValue(n);
    PrintFits(n);
  }

  /** `str::parse` to an unsigned integer: an optional plus sign, then digits only, within the type. */
  function ParseUnsigned(s: bytes, max: nat): Option<nat> {
    var digits := if |s| > 1 && s[0] == '+' as int then s[1..] else s;
    if digits != [] && AllDigits(digits) && Value(digits) <= max then Some(Value(digits)) else None
  }

  lemma ParsePrinted(n: nat, max: nat)
    requires n <= max
    ensures ParseUnsigned(Print(n), max) == Some(n)
  {
    PrintValue(n);
    assert IsDigit(Print(n)[0]);
  }

  function Zeros(k: nat): (z: bytes)
    ensures |z| == k && AllDigits(z)
  {
    seq(k, _ => ZERO)
  }

  /** A number as text that parses: a plus sign or none, leading zeros, and the number. */
  function Written(plus: bool, k: nat, n: nat): bytes { (if plus then [0x2B] else []) + (Zeros(k) + Print(n)) }

  lemma {:induction false} PaddedValue(k: nat, digits: bytes)
    requires AllDigits(digits)
    ensures AllDigits(Zeros(k) + digits) && Value(Zeros(k) + digits) == Value(digits)
    decreases k + |digits|
  {
    var padded := Zeros(k) + digits;
    if digits != [] {
      PaddedValue(k, digits[..|digits| - 1]);
      assert padded[..|padded| - 1] == Zeros(k) + digits[..|digits| - 1];
    } else if k > 0 {
      PaddedValue(k - 1, []);
      assert padded[..k - 1] == Zeros(k - 1) + [];
    }
  }

  lemma {:induction false} DigitsArePadded(digits: bytes) returns (k: nat)
    requires digits != [] && AllDigits(digits)
    ensures digits == Zeros(k) + Print(Value(digits))
  {
    var n := |digits| - 1;
    var front, last := digits[..n], digits[n];
    assert digits == front + [last];
    if front == [] {
      k := 0;
    } else {
      k := DigitsArePadded(front);
      if Value(front) == 0 {
        k := k + 1;
        assert front == Zeros(k);
      } else {
        assert Print(Value(digits)) == Print(Value(front)) + [last];
      }
    }
  }

  /** Exactly the texts that parse to a number. */
  lemma ParseExact(s: bytes, max: nat, n: nat)
    ensures ParseUnsigned(s, max) == Some(n) <==> n <= max && exists plus, k :: s == Written(plus, k, n)
  {
    if ParseUnsigned(s, max) == Some(n) { ParsedIsWritten(s, max, n); }
    if plus, k: nat :| n <= max && s == Written(plus, k, n) { WrittenIsParsed(plus, k, max, n); }
  }

  lemma ParsedIsWritten(s: bytes, max: nat, n: nat)
    requires ParseUnsigned(s, max) == Some(n)
    ensures exists plus, k :: s == Written(plus, k, n)
  {
    var plus := |s| > 1 && s[0] == 0x2B;
    var digits := if plus then s[1..] else s;
    var k := DigitsArePadded(digits);
    assert s == (if plus then [0x2B] else []) + digits;
    assert s == Written(plus, k, n);
  }

  lemma WrittenIsParsed(plus: bool, k: nat, max: nat, n: nat)
    requires n <= max
    ensures ParseUnsigned(Written(plus, k, n), max) == Some(n)
  {
    var digits := Zeros(k) + Print(n);
    PaddedValue(k, Print(n));
    PrintValue(n);
    assert IsDigit(digits[0]);
    assert Written(plus, k, n) == if plus then [0x2B] + digits else digits;
    assert plus ==> Written(plus, k, n)[1..] == digits;
  }
}
