/** Integers as JSON text: uintToString, valueToString and Reader::decodeNumber of
    server/utils/jsoncpp.cpp, in 64-bit arithmetic. */
module JsonNumbers {
  import opened Util
  import opened Digits
  import opened JsonValues

  const MAX_INT := 0x7FFF_FFFF
  const MAX_LARGEST_INT := 0x7FFF_FFFF_FFFF_FFFF
  const MAX_LARGEST_UINT := 0xFFFF_FFFF_FFFF_FFFF

  newtype uint64 = x: int | 0 <= x <= 0xFFFF_FFFF_FFFF_FFFF

  // ---- writing ----

  function Decimal(n: nat): string {
    if n < 10 then [DigitChar(n)] else Decimal(n / 10) + [DigitChar(n % 10)]
  }

  /** Writes the digits from the last to the first, as into the end of a buffer. */
  method UintToString(value: uint64) returns (current: string)
    ensures current == Decimal(value as nat)
  {
    var v := value;
    current := [DigitChar((v % 10) as nat)];
    v := v / 10;
    while v != 0
      invariant Decimal(value as nat) == (if v == 0 then "" else Decimal(v as nat)) + current
      decreases v
    {
      DecimalStep(v as nat);
      ghost var was := current;
      var digit := DigitChar((v % 10) as nat);
      current := [digit] + current;
      v := v / 10;
      assert (if v == 0 then "" else Decimal(v as nat)) + [digit] + was ==
             (if v == 0 then "" else Decimal(v as nat)) + current;
    }
  }

  lemma DecimalStep(n: nat)
    requires n > 0
    ensures Decimal(n) == (if n / 10 == 0 then "" else Decimal(n / 10)) + [DigitChar(n % 10)]
  {
  }

  lemma {:induction false} DecimalRoundTrip(n: nat)
    ensures AllDigits(Decimal(n)) && Decimal(n) != "" && NumberOf(Decimal(n)) == n
  {
    if n < 10 {
      NumberOfSnoc("", DigitChar(n));
      assert "" + [DigitChar(n)] == [DigitChar(n)];
    } else {
      DecimalRoundTrip(n / 10);
      NumberOfSnoc(Decimal(n / 10), DigitChar(n % 10));
    }
  }

  /** valueToString of a signed 64-bit value. */
  function IntText(v: int): string {
    if v < 0 then "-" + Decimal(-v) else Decimal(v)
  }

  // ---- reading ----

  /** The largest magnitude that fits behind the sign. */
  function Limit(negative: bool): nat {
    if negative then MAX_LARGEST_INT + 1 else MAX_LARGEST_UINT
  }

  /** Small non-negative values are tagged Int, larger ones UInt. */
  function Tagged(negative: bool, n: nat): Value {
    if negative then Int(-(n as int)) else if n <= MAX_INT then Int(n) else UInt(n)
  }

  predicate IsMinus(token: string) {
    token != "" && token[0] == '-'
  }

  function Magnitude(token: string): string {
    if IsMinus(token) then token[1..] else token
  }

  /** The exact integer of a token of digits, if it fits in 64 bits; None sends the
      token on to decodeDouble. */
  function IntegerOf(token: string): Option<Value> {
    var digits := Magnitude(token);
    if AllDigits(digits) && NumberOf(digits) <= Limit(IsMinus(token))
    then Some(Tagged(IsMinus(token), NumberOf(digits)))
    else None
  }

  /** The threshold test is exact: past it the number cannot fit, whatever follows. */
  lemma PastThreshold(digits: string, k: nat, limit: nat)
    requires k < |digits| && AllDigits(digits)
    requires limit == Limit(true) || limit == Limit(false)
    requires var value := NumberOf(digits[..k]);
      value >= limit / 10 &&
      (value > limit / 10 || k + 1 != |digits| || DigitValue(digits[k]) > limit % 10)
    ensures NumberOf(digits) > limit
  {
    var value := NumberOf(digits[..k]);
    assert digits[..k + 1] == digits[..k] + [digits[k]];
    NumberOfSnoc(digits[..k], digits[k]);
    NumberOfPrefix(digits, k + 1);
  }

  lemma OneMoreDigit(digits: string, k: nat, next: nat, c: char)
    requires k < |digits| && next == k + 1 && c == digits[k]
    ensures NumberOf(digits[..next]) == NumberOf(digits[..k]) * 10 + DigitValue(c)
    ensures AllDigits(digits[..next]) <==> AllDigits(digits[..k]) && IsDigit(c)
    ensures !IsDigit(c) ==> !AllDigits(digits)
  {
    assert digits[..next] == digits[..k] + [c];
    NumberOfSnoc(digits[..k], c);
  }

  method DecodeNumber(token: string) returns (decoded: Option<Value>)
    requires token != ""
    ensures decoded == IntegerOf(token)
  {
    var current := 0;
    var isNegative := token[0] == '-';
    if isNegative {
      current := 1;
    }
    var maxIntegerValue: uint64 := if isNegative then 0x8000_0000_0000_0000 else 0xFFFF_FFFF_FFFF_FFFF;
    var threshold: uint64 := maxIntegerValue / 10;
    var value: uint64 := 0;
    ghost var digits := Magnitude(token);
    ghost var first := current;
    assert digits[..0] == "";
    while current < |token|
      invariant first <= current <= |token|
      invariant AllDigits(digits[..current - first])
      invariant value as int == NumberOf(digits[..current - first]) && value <= maxIntegerValue
    {
      var c := token[current];
      ghost var k := current - first;
      ghost var next := k + 1;
      OneMoreDigit(digits, k, next, c);
      current := current + 1;
      if !IsDigit(c) {
        return None;
      }
      var digit := DigitValue(c) as uint64;
      if value >= threshold {
        if value > threshold || current != |token| || digit > maxIntegerValue % 10 {
          if AllDigits(digits) {
            PastThreshold(digits, k, maxIntegerValue as nat);
          }
          return None;
        }
      }
      value := value * 10 + digit;
      assert value as int == NumberOf(digits[..next]);
    }
    assert digits[..|digits|] == digits;
    if isNegative {
      return Some(Int(-(value as int)));
    } else if value <= MAX_INT as uint64 {
      return Some(Int(value as int));
    } else {
      return Some(UInt(value as int));
    }
  }

  /** What a printed integer reads back as: the same number, retagged. */
  function Retagged(v: Value): Value
    requires v.Int? || v.UInt?
  {
    var n := if v.Int? then v.i else v.u;
    if n > MAX_INT then UInt(n) else Int(n)
  }

  predicate InLargestRange(v: Value) {
    match v
    case Int(i) => -MAX_LARGEST_INT - 1 <= i <= MAX_LARGEST_INT
    case UInt(u) => 0 <= u <= MAX_LARGEST_UINT
    case _ => true
  }

  /** decodeNumber inverts valueToString on every 64-bit value. */
  lemma NumberRoundTrip(v: Value)
    requires (v.Int? || v.UInt?) && InLargestRange(v)
    ensures IntegerOf(IntText(if v.Int? then v.i else v.u)) == Some(Retagged(v))
  {
    var n := if v.Int? then v.i else v.u;
    if n < 0 {
      NegativeRoundTrip(n);
    } else {
      DecimalRoundTrip(n);
      DecodedSigned(Decimal(n), false, n);
    }
  }

  lemma NegativeRoundTrip(n: int)
    requires -MAX_LARGEST_INT - 1 <= n < 0
    ensures IntegerOf(IntText(n)) == Some(Int(n))
  {
    DecimalRoundTrip(-n);
    DecodedSigned(Decimal(-n), true, -n);
  }

  lemma DecodedSigned(digits: string, negative: bool, n: nat)
    requires digits != "" && AllDigits(digits) && NumberOf(digits) == n <= Limit(negative)
    ensures IntegerOf(if negative then "-" + digits else digits) == Some(Tagged(negative, n))
  {
    IntegerIffFits(digits, negative);
    assert "" + digits == digits;
  }

  /** For an optional minus and digits: an integer is returned exactly when the value
      fits, and then it is the exact one. */
  lemma IntegerIffFits(digits: string, negative: bool)
    requires digits != "" && AllDigits(digits)
    ensures var token := (if negative then "-" else "") + digits;
            && (IntegerOf(token).Some? <==> NumberOf(digits) <= Limit(negative))
            && (IntegerOf(token).Some? ==> IntegerOf(token).value == Tagged(negative, NumberOf(digits)))
  {
    var token := (if negative then "-" else "") + digits;
    assert IsDigit(digits[0]);
    assert Magnitude(token) == digits;
  }

  /** The three ranges of an integer, and the decimal beyond them. */
  lemma RangesOfIntegers(digits: string, n: nat)
    requires digits != "" && AllDigits(digits) && n == NumberOf(digits)
    ensures IntegerOf(digits) ==
            if n <= 2147483647 then Some(Int(n)) else if n <= 18446744073709551615 then Some(UInt(n)) else None
    ensures IntegerOf("-" + digits) == if n <= 9223372036854775808 then Some(Int(-(n as int))) else None
  {
    IntegerIffFits(digits, false);
    IntegerIffFits(digits, true);
    assert "" + digits == digits;
  }
}
