/** Line selection: the client's bit mask (client/line.h), the server's decoding
    of it into a list of line numbers, and the legacy server's big-integer decoding. */
module Lines {
  /** A line_t or the string it travels in: eight lines a byte, low bit first. */
  type Mask = seq<bv8>

  const SETSIZE := 16
  const NLINEBITS := 128

  predicate IsMask(m: Mask) {
    |m| == SETSIZE
  }

  /** 1 << b */
  function LineBit(b: nat): bv8
    requires b < 8
  {
    if b == 0 then 1 else LineBit(b - 1) << 1
  }

  predicate ByteHas(x: bv8, b: nat)
    requires b < 8
  {
    x & LineBit(b) != 0
  }

  /** LINE_ISSET: lines past the end of the mask are not set. */
  predicate IsSet(m: Mask, line: nat) {
    line / 8 < |m| && ByteHas(m[line / 8], line % 8)
  }

  /** The set lines below n, in increasing order. */
  function Selected(m: Mask, n: nat): seq<nat> {
    if n == 0 then []
    else Selected(m, n - 1) + (if IsSet(m, n - 1) then [n - 1] else [])
  }

  predicate Increasing(s: seq<nat>) {
    forall i, j :: 0 <= i < j < |s| ==> s[i] < s[j]
  }

  /** The decoded list is exactly the named lines below the device's line count,
      strictly increasing. */
  lemma {:induction false} SelectedIsExact(m: Mask, n: nat)
    ensures Increasing(Selected(m, n))
    ensures forall l: nat :: l in Selected(m, n) <==> l < n && IsSet(m, l)
  {
    if n > 0 {
      SelectedIsExact(m, n - 1);
      var s := Selected(m, n - 1);
      assert forall i :: 0 <= i < |s| ==> s[i] in s;
    }
  }

  /** Rank: a set line sits in the list behind the set lines below it. */
  lemma {:induction false} SelectedRank(m: Mask, n: nat, l: nat)
    requires l < n && IsSet(m, l)
    ensures |Selected(m, l)| < |Selected(m, n)|
    ensures Selected(m, n)[|Selected(m, l)|] == l
  {
    if l < n - 1 {
      SelectedRank(m, n - 1, l);
    }
  }

  lemma SelectedStep(m: Mask, i: nat)
    ensures Selected(m, i + 1) == if IsSet(m, i) then Selected(m, i) + [i] else Selected(m, i)
  {
  }

  lemma {:induction false} SelectedPrefix(m: Mask, k: nat, n: nat)
    requires k <= n
    ensures Selected(m, k) <= Selected(m, n)
  {
    if k < n {
      SelectedPrefix(m, k, n - 1);
    }
  }

  /** A mask whose lines all exist on the device is decoded in full. */
  lemma {:induction false} SelectedInside(m: Mask, n: nat, all: nat)
    requires n <= all
    requires forall l :: n <= l < all ==> !IsSet(m, l)
    ensures Selected(m, all) == Selected(m, n)
  {
    if n < all {
      SelectedInside(m, n, all - 1);
    }
  }

  // ---- client/line.h ----

  predicate SingleBit(q: bv8) {
    q != 0 && q & (q - 1) == 0
  }

  lemma BitFacts(x: bv8, y: bv8, p: bv8, q: bv8)
    requires SingleBit(p) && SingleBit(q)
    ensures (x | p) & q != 0 <==> p == q || x & q != 0
    ensures x & y & q != 0 <==> x & q != 0 && y & q != 0
    ensures x & !p & q != 0 <==> p != q && x & q != 0
  {
  }

  lemma LineBitTable(b: nat)
    requires b < 8
    ensures LineBit(b) == if b == 0 then 1 else if b == 1 then 2 else if b == 2 then 4 else if b == 3 then 8
                          else if b == 4 then 16 else if b == 5 then 32 else if b == 6 then 64 else 128
  {
    if b > 0 {
      LineBitTable(b - 1);
    }
  }

  lemma LineBitDistinct(b: nat, c: nat)
    requires b < 8 && c < 8
    ensures SingleBit(LineBit(b))
    ensures LineBit(b) == LineBit(c) <==> b == c
  {
    LineBitTable(b);
    LineBitTable(c);
  }

  /** Setting, clearing and intersecting act on one line of a byte at a time. */
  lemma LineBits(x: bv8, y: bv8, b: nat, c: nat)
    requires b < 8 && c < 8
    ensures ByteHas(x | LineBit(b), c) <==> b == c || ByteHas(x, c)
    ensures ByteHas(x & y, c) <==> ByteHas(x, c) && ByteHas(y, c)
    ensures ByteHas(x & !LineBit(b), c) <==> b != c && ByteHas(x, c)
    ensures !ByteHas(0, c)
  {
    var p, q := LineBit(b), LineBit(c);
    LineBitDistinct(b, c);
    LineBitDistinct(c, b);
    BitLaws(x, y, b, c, p, q);
  }

  lemma BitLaws(x: bv8, y: bv8, b: nat, c: nat, p: bv8, q: bv8)
    requires b < 8 && c < 8 && q == LineBit(c) && SingleBit(p) && SingleBit(q)
    ensures ByteHas(x | p, c) <==> p == q || ByteHas(x, c)
    ensures ByteHas(x & y, c) <==> ByteHas(x, c) && ByteHas(y, c)
    ensures ByteHas(x & !p, c) <==> p != q && ByteHas(x, c)
    ensures !ByteHas(0, c)
  {
    BitFacts(x, y, p, q);
    ByteHasMeans(x, c, q);
    ByteHasMeans(y, c, q);
    ByteHasMeans(x & y, c, q);
    ByteHasMeans(x | p, c, q);
    ByteHasMeans(x & !p, c, q);
    ByteHasMeans(0, c, q);
  }

  lemma ByteHasMeans(x: bv8, b: nat, q: bv8)
    requires b < 8 && q == LineBit(b)
    ensures ByteHas(x, b) <==> x & q != 0
  {
  }

  function SetByte(m: Mask, line: nat): Mask {
    if line < 8 * |m| then m[line / 8 := m[line / 8] | LineBit(line % 8)] else m
  }

  lemma SetByteSets(m: Mask, line: nat, l: nat)
    ensures IsSet(SetByte(m, line), l) <==> IsSet(m, l) || (l == line && line < 8 * |m|)
  {
    if line < 8 * |m| && l / 8 == line / 8 {
      LineBits(m[line / 8], 0, line % 8, l % 8);
      assert line == 8 * (line / 8) + line % 8 && l == 8 * (l / 8) + l % 8;
    }
  }

  /** LINE_CLR_ALL */
  method ClearAllLines(bits: array<bv8>)
    modifies bits
    ensures forall l: nat :: !IsSet(bits[..], l)
  {
    var i := 0;
    while i < bits.Length
      invariant 0 <= i <= bits.Length
      invariant forall j :: 0 <= j < i ==> bits[j] == 0
    {
      bits[i] := 0;
      i := i + 1;
    }
    forall l: nat ensures !IsSet(bits[..], l) {
      LineBits(0, 0, l % 8, l % 8);
    }
  }

  /** LINE_SET: sets one line and no other; a line outside the mask is ignored. */
  method SetLine(line: nat, bits: array<bv8>)
    modifies bits
    ensures forall l: nat :: IsSet(bits[..], l) <==> old(IsSet(bits[..], l)) || (l == line && line < 8 * bits.Length)
  {
    ghost var was := bits[..];
    if line < 8 * bits.Length {
      bits[line / 8] := bits[line / 8] | LineBit(line % 8);
    }
    assert bits[..] == SetByte(was, line);
    forall l: nat ensures IsSet(bits[..], l) <==> IsSet(was, l) || (l == line && line < 8 * bits.Length) {
      SetByteSets(was, line, l);
    }
  }

  /** LINE_CLR: clears one line and no other. */
  method ClearLine(line: nat, bits: array<bv8>)
    modifies bits
    ensures forall l: nat :: IsSet(bits[..], l) <==> old(IsSet(bits[..], l)) && l != line
  {
    ghost var was := bits[..];
    if line < 8 * bits.Length {
      bits[line / 8] := bits[line / 8] & !LineBit(line % 8);
    }
    forall l: nat ensures IsSet(bits[..], l) <==> IsSet(was, l) && l != line {
      if l / 8 < bits.Length && l / 8 == line / 8 {
        LineBits(was[line / 8], 0, line % 8, l % 8);
        assert line == 8 * (line / 8) + line % 8 && l == 8 * (l / 8) + l % 8;
      }
    }
  }

  function Anded(a: Mask, b: Mask): (r: Mask)
    requires |a| == |b|
    ensures |r| == |a|
  {
    seq(|a|, j requires 0 <= j < |a| => a[j] & b[j])
  }

  lemma AndedLine(a: Mask, b: Mask, l: nat)
    requires |a| == |b|
    ensures IsSet(Anded(a, b), l) <==> IsSet(a, l) && IsSet(b, l)
  {
    var i, c := l / 8, l % 8;
    if i < |a| {
      LineBits(a[i], b[i], 0, c);
      assert Anded(a, b)[i] == a[i] & b[i];
    }
  }

  /** LINE_AND: the lines in both masks. */
  method AndLines(a: Mask, b: Mask) returns (r: Mask)
    requires |a| == |b|
    ensures r == Anded(a, b)
    ensures forall l: nat :: IsSet(r, l) <==> IsSet(a, l) && IsSet(b, l)
  {
    var i := 0;
    r := [];
    while i < |a|
      invariant 0 <= i <= |a| && |r| == i
      invariant forall j :: 0 <= j < i ==> r[j] == a[j] & b[j]
    {
      r := r + [a[i] & b[i]];
      i := i + 1;
    }
    assert r == Anded(a, b);
    forall l: nat ensures IsSet(r, l) <==> IsSet(a, l) && IsSet(b, l) {
      AndedLine(a, b, l);
    }
  }

  // ---- legacy/daemon/modules/Counter.py: set_lines ----

  /** The value of bits b..7 of a byte, bit b counting one. */
  function BitsValue(x: bv8, b: nat): nat
    requires b <= 8
    decreases 8 - b
  {
    if b == 8 then 0 else (if ByteHas(x, b) then 1 else 0) + 2 * BitsValue(x, b + 1)
  }

  /** ord(c) */
  function ByteValue(x: bv8): nat {
    BitsValue(x, 0)
  }

  /** reduce(lambda x, y: (x<<8)+y, bytes, 1) */
  function BigInteger(m: Mask): nat {
    if m == [] then 1 else BigInteger(m[..|m| - 1]) * 256 + ByteValue(m[|m| - 1])
  }

  /** The digits of bin(x) after "0b", most significant first, for x >= 1. */
  function BinaryDigits(x: nat): seq<bool>
    requires x >= 1
  {
    if x == 1 then [true] else BinaryDigits(x / 2) + [x % 2 == 1]
  }

  function Reversed(s: seq<bool>): seq<bool> {
    seq(|s|, i requires 0 <= i < |s| => s[|s| - 1 - i])
  }

  /** "".join([mask[i:i+8][::-1] for i in xrange(0, len(mask), 8)]) */
  function ReversedOctets(mask: seq<bool>): seq<bool>
    requires |mask| % 8 == 0
  {
    if mask == [] then []
    else ReversedOctets(mask[..|mask| - 8]) + Reversed(mask[|mask| - 8..])
  }

  /** The line numbers whose character in nmask is '1'. */
  function TrueIndices(s: seq<bool>): seq<nat> {
    if s == [] then []
    else TrueIndices(s[..|s| - 1]) + (if s[|s| - 1] then [|s| - 1] else [])
  }

  function AllLines(n: nat): seq<nat> {
    seq(n, i => i)
  }

  function Cut(s: seq<bool>, n: nat): seq<bool> {
    if n < |s| then s[..n] else s
  }

  /** The digits of bin(reduce(...)) without the "0b1" in front. */
  function MaskDigits(m: Mask): (d: seq<bool>)
    ensures |d| % 8 == 0
  {
    DigitsOfBigInteger(m);
    BinaryDigits(BigInteger(m))[1..]
  }

  /** Counter.set_lines of the legacy server, for a device of n lines. */
  function LegacySelected(m: Mask, n: nat): seq<nat> {
    var lines := TrueIndices(Cut(ReversedOctets(MaskDigits(m)), n));
    if lines == [] then AllLines(n) else lines
  }

  /** The k low binary digits of y, most significant first. */
  function LowDigits(y: nat, k: nat): (d: seq<bool>)
    ensures |d| == k
  {
    if k == 0 then [] else LowDigits(y / 2, k - 1) + [y % 2 == 1]
  }

  function Power2(k: nat): (p: nat)
    ensures p >= 1
  {
    if k == 0 then 1 else 2 * Power2(k - 1)
  }

  function Octets(m: Mask): (d: seq<bool>)
    ensures |d| == 8 * |m|
  {
    if m == [] then [] else Octets(m[..|m| - 1]) + LowDigits(ByteValue(m[|m| - 1]), 8)
  }

  lemma {:induction false} DigitsShift(v: nat, y: nat, k: nat)
    requires v >= 1 && y < Power2(k)
    ensures v * Power2(k) + y >= 1
    ensures BinaryDigits(v * Power2(k) + y) == BinaryDigits(v) + LowDigits(y, k)
  {
    if k > 0 {
      DigitsShift(v, y / 2, k - 1);
      ShiftStep(v, y, Power2(k - 1));
    }
  }

  lemma ShiftStep(v: nat, y: nat, p: nat)
    ensures (v * (2 * p) + y) / 2 == v * p + y / 2
    ensures (v * (2 * p) + y) % 2 == y % 2
    ensures v >= 1 && p >= 1 ==> v * (2 * p) + y >= 2
  {
    assert v * (2 * p) == 2 * (v * p);
    if v >= 1 && p >= 1 {
      assert v * p >= 1;
    }
  }

  lemma {:induction false} DigitsOfBigInteger(m: Mask)
    ensures BigInteger(m) >= 1
    ensures BinaryDigits(BigInteger(m)) == [true] + Octets(m)
  {
    if m != [] {
      var front, x := m[..|m| - 1], m[|m| - 1];
      var v := BigInteger(front);
      DigitsOfBigInteger(front);
      DigitsOfByte(v, x);
      OneMoreByte(m, v, ByteValue(x), Octets(front), LowDigits(ByteValue(x), 8));
    }
  }

  lemma OneMoreByte(m: Mask, v: nat, y: nat, front: seq<bool>, octet: seq<bool>)
    requires m != [] && v >= 1 && v == BigInteger(m[..|m| - 1]) && y == ByteValue(m[|m| - 1])
    requires front == Octets(m[..|m| - 1]) && octet == LowDigits(y, 8)
    requires BinaryDigits(v) == [true] + front && BinaryDigits(v * 256 + y) == BinaryDigits(v) + octet
    ensures BigInteger(m) >= 1 && BinaryDigits(BigInteger(m)) == [true] + Octets(m)
  {
    var all := v * 256 + y;
    assert BigInteger(m) == all;
    assert Octets(m) == front + octet;
    Prepended(front, octet);
  }

  lemma Prepended(a: seq<bool>, b: seq<bool>)
    ensures [true] + a + b == [true] + (a + b)
  {
  }

  /** Digit 7-c of a byte is its bit c. */
  lemma {:induction false} OctetBit(x: bv8, b: nat, c: nat)
    requires b <= c < 8
    ensures LowDigits(BitsValue(x, b), 8 - b)[7 - c] <==> ByteHas(x, c)
    decreases 8 - b
  {
    var next := b + 1;
    var upper, bit := BitsValue(x, next), if ByteHas(x, b) then 1 else 0;
    assert BitsValue(x, b) / 2 == upper && BitsValue(x, b) % 2 == bit;
    if b < c {
      OctetBit(x, next, c);
    }
  }

  lemma {:induction false} BitsValueBound(x: bv8, b: nat)
    requires b <= 8
    ensures BitsValue(x, b) < Power2(8 - b)
    decreases 8 - b
  {
    if b < 8 {
      BitsValueBound(x, b + 1);
    }
  }

  /** One more byte appends its eight digits. */
  lemma DigitsOfByte(v: nat, x: bv8)
    requires v >= 1
    ensures BinaryDigits(v * 256 + ByteValue(x)) == BinaryDigits(v) + LowDigits(ByteValue(x), 8)
  {
    assert Power2(8) == 256 by {
      assert Power2(3) == 8;
      assert Power2(6) == 64;
    }
    BitsValueBound(x, 0);
    DigitsShift(v, ByteValue(x), 8);
  }

  /** The digits of one more byte, as the last eight characters of the string. */
  lemma OctetsStep(m: Mask) returns (octet: seq<bool>)
    requires m != []
    ensures |octet| == 8 && Octets(m) == Octets(m[..|m| - 1]) + octet
    ensures forall b: nat :: b < 8 ==> (Reversed(octet)[b] <==> ByteHas(m[|m| - 1], b))
  {
    octet := LowDigits(ByteValue(m[|m| - 1]), 8);
    ReversedOctet(m[|m| - 1], octet);
  }

  lemma ReversedOctet(x: bv8, octet: seq<bool>)
    requires octet == LowDigits(ByteValue(x), 8)
    ensures forall b: nat :: b < 8 ==> (Reversed(octet)[b] <==> ByteHas(x, b))
  {
    forall b: nat | b < 8 ensures Reversed(octet)[b] <==> ByteHas(x, b) {
      ReversedBit(x, octet, b, 7 - b);
    }
  }

  lemma ReversedBit(x: bv8, octet: seq<bool>, b: nat, c: nat)
    requires octet == LowDigits(ByteValue(x), 8) && b + c == 7
    ensures Reversed(octet)[b] <==> ByteHas(x, b)
  {
    OctetBit(x, 0, b);
    assert Reversed(octet)[b] == octet[c];
  }

  lemma ReversedOctetsSnoc(d: seq<bool>, octet: seq<bool>)
    requires |d| % 8 == 0 && |octet| == 8
    ensures ReversedOctets(d + octet) == ReversedOctets(d) + Reversed(octet)
  {
    var both := d + octet;
    assert both[..|both| - 8] == d && both[|both| - 8..] == octet;
  }

  lemma LastByteLines(m: Mask, front: seq<bool>, octet: seq<bool>, l: nat)
    requires m != [] && |front| == 8 * (|m| - 1) && |octet| == 8 && l < 8 * |m|
    requires forall k: nat :: k < |front| ==> (front[k] <==> IsSet(m[..|m| - 1], k))
    requires forall b: nat :: b < 8 ==> (octet[b] <==> ByteHas(m[|m| - 1], b))
    ensures (front + octet)[l] <==> IsSet(m, l)
  {
    if l < |front| {
      assert front[l] <==> IsSet(m[..|m| - 1], l);
    } else {
      assert octet[l % 8] <==> ByteHas(m[|m| - 1], l % 8);
    }
  }

  lemma {:induction false} ReversedOctetsAreLines(m: Mask)
    ensures |ReversedOctets(Octets(m))| == 8 * |m|
    ensures forall l: nat :: l < 8 * |m| ==> (ReversedOctets(Octets(m))[l] <==> IsSet(m, l))
  {
    if m != [] {
      var front := m[..|m| - 1];
      ReversedOctetsAreLines(front);
      var octet := OctetsStep(m);
      var digits, before := Octets(m), Octets(front);
      ReversedOctetsSnoc(before, octet);
      forall l: nat | l < 8 * |m| ensures ReversedOctets(digits)[l] <==> IsSet(m, l) {
        LastByteLines(m, ReversedOctets(before), Reversed(octet), l);
      }
    }
  }

  lemma {:induction false} TrueIndicesAreSelected(s: seq<bool>, m: Mask, n: nat)
    requires |s| <= n
    requires forall l: nat :: l < |s| ==> (s[l] <==> IsSet(m, l))
    requires forall l: nat :: |s| <= l < n ==> !IsSet(m, l)
    ensures TrueIndices(s) == Selected(m, n)
    decreases n
  {
    if |s| < n {
      TrueIndicesAreSelected(s, m, n - 1);
    } else if n > 0 {
      TrueIndicesAreSelected(s[..n - 1], m, n - 1);
    }
  }

  /** The two decoders agree exactly when the mask names a line of the device;
      when it names none the legacy server takes every line and the C++ server none. */
  lemma LegacyDecoderAgrees(m: Mask, n: nat)
    ensures LegacySelected(m, n) == if Selected(m, n) == [] then AllLines(n) else Selected(m, n)
  {
    assert MaskDigits(m) == Octets(m) by {
      DigitsOfBigInteger(m);
    }
    ReversedOctetsAreLines(m);
    TrueIndicesAreSelected(Cut(ReversedOctets(Octets(m)), n), m, n);
  }
}
