/** Runs of decimal digits and the numbers they spell. */
module Digits {

  predicate IsDigit(c: char) {
    '0' <= c <= '9'
  }

  function DigitValue(c: char): (d: nat)
    ensures d < 10
  {
    if IsDigit(c) then c as nat - '0' as nat else 0
  }

  /** atoi of a run of digits. */
  function NumberOf(digits: string): nat {
    if digits == "" then 0
    else NumberOf(digits[..|digits| - 1]) * 10 + DigitValue(digits[|digits| - 1])
  }

  predicate AllDigits(s: string) {
    forall i :: 0 <= i < |s| ==> IsDigit(s[i])
  }

  function DigitChar(d: nat): (c: char)
    requires d < 10
    ensures IsDigit(c) && DigitValue(c) == d
  {
    ('0' as int + d) as char
  }

  lemma NumberOfSnoc(digits: string, c: char)
    ensures NumberOf(digits + [c]) == NumberOf(digits) * 10 + DigitValue(c)
  {
    assert (digits + [c])[..|digits|] == digits;
  }

  /** Reading further digits never makes a number smaller. */
  lemma {:induction false} NumberOfPrefix(digits: string, k: nat)
    requires k <= |digits|
    ensures NumberOf(digits[..k]) <= NumberOf(digits)
    ensures k < |digits| ==> NumberOf(digits[..k]) * 10 <= NumberOf(digits)
  {
    if k < |digits| {
      var front := digits[..|digits| - 1];
      NumberOfPrefix(front, k);
      assert front[..k] == digits[..k];
    } else {
      assert digits[..k] == digits;
    }
  }

  /** The ten digits, in their order. */
  lemma DigitsInOrder(k: nat)
    requires k < 10
    ensures DigitValue("0123456789"[k]) == k && DigitChar(k) == "0123456789"[k]
  {
  }

  function Power10(k: nat): nat {
    if k == 0 then 1 else 10 * Power10(k - 1)
  }

  /** Every digit counts for its place: ones at the end, tens in front of them. */
  function PlaceValue(digits: string): nat {
    if digits == "" then 0 else DigitValue(digits[0]) * Power10(|digits| - 1) + PlaceValue(digits[1..])
  }

  lemma {:induction false} NumberIsPlaceValue(digits: string)
    ensures NumberOf(digits) == PlaceValue(digits)
    decreases |digits|
  {
    if |digits| > 1 {
      var front, c := digits[..|digits| - 1], digits[|digits| - 1];
      NumberIsPlaceValue(front);
      PlaceValueSnoc(front, c);
      assert digits == front + [c];
    }
  }

  lemma {:induction false} PlaceValueSnoc(digits: string, c: char)
    ensures PlaceValue(digits + [c]) == PlaceValue(digits) * 10 + DigitValue(c)
    decreases |digits|
  {
    var more := digits + [c];
    if digits != "" {
      PlaceValueSnoc(digits[1..], c);
      assert more[1..] == digits[1..] + [c];
      var d, k := DigitValue(digits[0]), |digits| - 1;
      assert Power10(|digits|) == 10 * Power10(k);
      assert d * (10 * Power10(k)) == d * Power10(k) * 10;
    }
  }
}
