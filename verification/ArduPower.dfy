/** The frames of the ArduPower meter (legacy/daemon/devices/ArduPowerDevice.py): two
    10-bit channels in three bytes, the first byte of a frame marked by its top bit. */
module ArduPower {
  import opened Util
  import opened Framing

  /** ord() of each received byte. Masks and shifts are written as arithmetic: x & 0x7F
      is x % 128, x & 0x0380 is x / 128 % 8 * 128, and | of disjoint bits is +. */
  type Frame = seq<nat>

  // ---- layout ----

  /** Where the upper bits of channel i are, for n channels. */
  function Position(n: nat, i: nat): nat {
    if i == n - 1 && i % 2 == 0 then 3 * (i / 2) + 1 else 3 * (i / 2) + 2
  }

  /** How far they are shifted. */
  function ShiftOf(n: nat, i: nat): nat {
    if i % 2 == 0 && i < n - 1 then 4 else 7
  }

  /** Where the lower seven bits of channel i are. */
  function LowAt(i: nat): nat {
    3 * (i / 2) + i % 2
  }

  function FrameLength(n: nat): nat
    requires n >= 1
  {
    Position(n, n - 1) + 1
  }

  method Positions(channels: nat) returns (positions: seq<nat>)
    ensures |positions| == channels
    ensures forall i :: 0 <= i < channels ==> positions[i] == Position(channels, i)
  {
    positions := seq(channels, _ => 0);
    var i := 0;
    while i < channels
      invariant 0 <= i <= channels && |positions| == channels
      invariant forall k :: 0 <= k < i ==> positions[k] == Position(channels, k)
    {
      var p := 3 * (i / 2) + 2;
      if i == channels - 1 && i % 2 == 0 {
        p := p - 1;
      }
      positions := positions[i := p];
      i := i + 1;
    }
  }

  method Shifts(channels: nat) returns (shifts: seq<nat>)
    ensures |shifts| == channels
    ensures forall i :: 0 <= i < channels ==> shifts[i] == ShiftOf(channels, i)
  {
    shifts := [];
    var i := 0;
    while i < channels / 2
      invariant 0 <= i <= channels / 2 && |shifts| == 2 * i
      invariant forall k :: 0 <= k < 2 * i ==> shifts[k] == ShiftOf(channels, k)
    {
      shifts := shifts + [4];
      shifts := shifts + [7];
      i := i + 1;
    }
    if channels % 2 == 1 {
      shifts := shifts + [7];
    }
  }

  // ---- one frame ----

  /** ord(c) >> 7 == 1 */
  predicate Marked(c: nat) {
    c / 128 == 1
  }

  /** ((ord(high) << shift) & 0x0380) | (ord(low) & 0x7F) */
  function Value(high: nat, shift: nat, low: nat): nat {
    (if shift == 4 then high * 16 else high * 128) / 128 % 8 * 128 + low % 128
  }

  function Unpacked(n: nat, f: Frame): seq<nat>
    requires n >= 1 && |f| == FrameLength(n)
  {
    seq(n, i requires 0 <= i < n => (InFrame(n, i); Value(f[Position(n, i)], ShiftOf(n, i), f[LowAt(i)])))
  }

  lemma InFrame(n: nat, i: nat)
    requires i < n
    ensures LowAt(i) < Position(n, i) < FrameLength(n)
  {
  }

  /** The unpacking loop with its running index j. */
  method Unpack(lines: Frame, n_lines: nat, positions: seq<nat>, shifts: seq<nat>) returns (power: seq<nat>)
    requires n_lines >= 1 && |lines| == FrameLength(n_lines) && |positions| == |shifts| == n_lines
    requires forall i :: 0 <= i < n_lines ==> positions[i] == Position(n_lines, i) && shifts[i] == ShiftOf(n_lines, i)
    ensures power == Unpacked(n_lines, lines)
  {
    power := seq(n_lines, _ => 0);
    var i, j := 0, 0;
    while i < n_lines
      invariant 0 <= i <= n_lines && |power| == n_lines
      invariant j == LowAt(i)
      invariant forall k :: 0 <= k < i ==> power[k] == Unpacked(n_lines, lines)[k]
    {
      InFrame(n_lines, i);
      var value := Value(lines[positions[i]], shifts[i], lines[j]);
      j := j + 1;
      if (i + 1) % 2 == 0 && i != 0 {
        j := j + 1;
      }
      power := power[i := value];
      i := i + 1;
    }
  }

  lemma ValueBits(high: nat, low: nat)
    ensures Value(high, 4, low) == low % 128 + 128 * (high / 8 % 8)
    ensures Value(high, 7, low) == low % 128 + 128 * (high % 8)
  {
    assert high * 16 / 128 == high / 8;
    assert high * 128 / 128 == high;
  }

  /** Two channels are three bytes: the lower seven bits of each, and their upper three bits
      side by side; one channel is two bytes. */
  lemma SmallFrames(x: nat, y: nat, z: nat)
    ensures FrameLength(2) == 3 && Unpacked(2, [x, y, z]) == [x % 128 + 128 * (z / 8 % 8), y % 128 + 128 * (z % 8)]
    ensures FrameLength(1) == 2 && Unpacked(1, [x, y]) == [x % 128 + 128 * (y % 8)]
  {
    ValueBits(z, x);
    ValueBits(z, y);
    ValueBits(y, x);
    var two, one := [x, y, z], [x, y];
    InFrame(2, 0);
    InFrame(2, 1);
    InFrame(1, 0);
    assert Unpacked(2, two)[0] == Value(z, 4, x) && Unpacked(2, two)[1] == Value(z, 7, y);
    assert Unpacked(1, one)[0] == Value(y, 7, x);
  }

  predicate TenBits(v: nat) {
    v < 1024
  }

  function Low7(v: nat): nat {
    v % 128
  }

  function High3(v: nat): nat {
    v / 128 % 8
  }

  /** Byte b of the frame that carries the values vs. */
  function PackedByte(vs: seq<nat>, b: nat): nat
    requires vs != [] && b < FrameLength(|vs|)
  {
    var q := b / 3;
    if b == 0 then Low7(vs[0]) + 128
    else if b % 3 == 0 then Low7(vs[2 * q])
    else if b % 3 == 1 then (if 2 * q + 1 < |vs| then Low7(vs[2 * q + 1]) else High3(vs[2 * q]))
    else High3(vs[2 * q]) * 8 + High3(vs[2 * q + 1])
  }

  function Packed(vs: seq<nat>): (f: Frame)
    requires vs != []
    ensures |f| == FrameLength(|vs|)
  {
    seq(FrameLength(|vs|), b requires 0 <= b < FrameLength(|vs|) => PackedByte(vs, b))
  }

  lemma FirstOfPair(v: nat, w: nat)
    requires TenBits(v)
    ensures Value(High3(v) * 8 + High3(w), 4, Low7(v)) == v
    ensures Value(High3(v) * 8 + High3(w), 4, Low7(v) + 128) == v
  {
  }

  lemma SecondOfPair(v: nat, w: nat)
    requires TenBits(w)
    ensures Value(High3(v) * 8 + High3(w), 7, Low7(w)) == w
  {
  }

  lemma Unpaired(v: nat)
    requires TenBits(v)
    ensures Value(High3(v), 7, Low7(v)) == v && Value(High3(v), 7, Low7(v) + 128) == v
  {
  }

  lemma ByteMarks(v: nat, w: nat)
    ensures Marked(Low7(v) + 128) && !Marked(Low7(v)) && !Marked(High3(v))
    ensures !Marked(High3(v) * 8 + High3(w))
  {
  }

  /** For every channel count, unpacking the packed values returns them. */
  lemma UnpackPacked(vs: seq<nat>)
    requires vs != [] && forall i :: 0 <= i < |vs| ==> TenBits(vs[i])
    ensures Unpacked(|vs|, Packed(vs)) == vs
  {
    forall i | 0 <= i < |vs| ensures Unpacked(|vs|, Packed(vs))[i] == vs[i] {
      ChannelUnpacked(vs, i);
    }
  }

  /** The three bytes of pair q, and the two of an unpaired last channel. */
  lemma BytesOfPair(vs: seq<nat>, q: nat)
    requires 2 * q < |vs|
    ensures 3 * q + (if 2 * q + 1 < |vs| then 2 else 1) < FrameLength(|vs|)
    ensures PackedByte(vs, 3 * q) == Low7(vs[2 * q]) + (if q == 0 then 128 else 0)
    ensures 2 * q + 1 < |vs| ==>
      && PackedByte(vs, 3 * q + 1) == Low7(vs[2 * q + 1])
      && PackedByte(vs, 3 * q + 2) == High3(vs[2 * q]) * 8 + High3(vs[2 * q + 1])
    ensures 2 * q + 1 == |vs| ==> PackedByte(vs, 3 * q + 1) == High3(vs[2 * q])
  {
    InFrame(|vs|, 2 * q);
    assert 3 * q % 3 == 0 && (3 * q + 1) / 3 == q && (3 * q + 2) / 3 == q;
  }

  lemma UnpackedAt(n: nat, f: Frame, i: nat)
    requires i < n && |f| == FrameLength(n)
    ensures LowAt(i) < Position(n, i) < |f|
    ensures Unpacked(n, f)[i] == Value(f[Position(n, i)], ShiftOf(n, i), f[LowAt(i)])
  {
    InFrame(n, i);
  }

  /** The two bytes that carry channel i. */
  lemma ChannelBytes(vs: seq<nat>, i: nat)
    requires i < |vs|
    ensures LowAt(i) < Position(|vs|, i) < FrameLength(|vs|)
    ensures PackedByte(vs, LowAt(i)) == Low7(vs[i]) + (if i == 0 then 128 else 0)
    ensures PackedByte(vs, Position(|vs|, i)) ==
            if i % 2 == 1 then High3(vs[i - 1]) * 8 + High3(vs[i])
            else if i + 1 < |vs| then High3(vs[i]) * 8 + High3(vs[i + 1])
            else High3(vs[i])
  {
    var q := i / 2;
    InFrame(|vs|, i);
    BytesOfPair(vs, q);
  }

  lemma ChannelValue(vs: seq<nat>, i: nat, high: nat, low: nat)
    requires i < |vs| && TenBits(vs[i])
    requires low == Low7(vs[i]) || (i == 0 && low == Low7(vs[i]) + 128)
    requires high == if i % 2 == 1 then High3(vs[i - 1]) * 8 + High3(vs[i])
                     else if i + 1 < |vs| then High3(vs[i]) * 8 + High3(vs[i + 1])
                     else High3(vs[i])
    ensures Value(high, ShiftOf(|vs|, i), low) == vs[i]
  {
    if i % 2 == 1 {
      SecondOfPair(vs[i - 1], vs[i]);
    } else if i + 1 < |vs| {
      FirstOfPair(vs[i], vs[i + 1]);
    } else {
      Unpaired(vs[i]);
    }
  }

  lemma ChannelUnpacked(vs: seq<nat>, i: nat)
    requires i < |vs| && TenBits(vs[i])
    ensures Unpacked(|vs|, Packed(vs))[i] == vs[i]
  {
    UnpackedAt(|vs|, Packed(vs), i);
    ChannelBytes(vs, i);
    ChannelValue(vs, i, PackedByte(vs, Position(|vs|, i)), PackedByte(vs, LowAt(i)));
  }

  /** Only the first byte of a packed frame is marked. */
  lemma PackedIsMarkedOnce(vs: seq<nat>, b: nat)
    requires vs != [] && b < FrameLength(|vs|)
    ensures Marked(Packed(vs)[b]) <==> b == 0
  {
    var q := b / 3;
    ByteMarks(vs[2 * q], if 2 * q + 1 < |vs| then vs[2 * q + 1] else 0);
    if 2 * q + 1 < |vs| {
      ByteMarks(vs[2 * q + 1], 0);
    }
  }

  // ---- the reading loop ----

  function Marks(stream: Frame): (m: seq<bool>)
    ensures |m| == |stream|
  {
    seq(|stream|, i requires 0 <= i < |stream| => Marked(stream[i]))
  }

  predicate FitsFrames(size: nat, stream: Frame, starts: seq<nat>) {
    forall i :: 0 <= i < |starts| ==> starts[i] + size <= |stream|
  }

  /** The values of the frames that start at the given positions. */
  function FramesAt(n: nat, stream: Frame, starts: seq<nat>): (vss: seq<seq<nat>>)
    requires n >= 1 && FitsFrames(FrameLength(n), stream, starts)
    ensures |vss| == |starts|
  {
    seq(|starts|, i requires 0 <= i < |starts| => Unpacked(n, stream[starts[i]..starts[i] + FrameLength(n)]))
  }

  /** What read() yields from position p of the received bytes on. */
  function YieldedFrom(n: nat, stream: Frame, p: nat): seq<seq<nat>>
    requires n >= 1
  {
    StartsInside(FrameLength(n), Marks(stream), p);
    FramesAt(n, stream, Starts(FrameLength(n), Marks(stream), p))
  }

  method FindMark(lines: Frame) returns (k: nat)
    ensures k == FirstMark(Marks(lines))
  {
    k := 0;
    while k < |lines|
      invariant 0 <= k <= |lines|
      invariant forall i :: 0 <= i < k ==> !Marks(lines)[i]
    {
      if Marked(lines[k]) {
        break;
      }
      k := k + 1;
    }
    FirstMarkIs(Marks(lines), k);
  }

  method HasExtraMark(lines: Frame) returns (found: bool)
    requires lines != []
    ensures found <==> !Clean(Marks(lines))
  {
    found := false;
    var k := 0;
    while k < |lines| - 1
      invariant 0 <= k <= |lines| - 1
      invariant forall i :: 0 < i <= k ==> !Marked(lines[i])
    {
      if Marked(lines[k + 1]) {
        assert Marks(lines)[k + 1];
        return true;
      }
      k := k + 1;
    }
  }

  predicate AreBytes(stream: Frame) {
    forall i :: 0 <= i < |stream| ==> stream[i] < 256
  }

  /** The first byte of a window at p with its top bit set is at `at`. */
  predicate FirstMarked(size: nat, stream: Frame, p: nat, at: nat) {
    p <= at < p + size && at < |stream| && stream[at] >= 128 && forall i :: p <= i < at ==> stream[i] < 128
  }

  /** What one turn does, over the bytes: it blocks if the window, or the window from its
      first marked byte on, is not there; it goes on behind a window without a marked byte;
      and from a marked byte on it takes a window exactly if no other byte is marked. */
  ghost predicate TurnOverBytes(size: nat, stream: Frame, p: nat, t: Turn) {
    if p + size > |stream| then t == Blocked
    else if forall i :: p <= i < p + size ==> stream[i] < 128 then t == Turned(p + size, false, 0)
    else
      exists at: nat :: FirstMarked(size, stream, p, at) &&
        if at + size > |stream| then t == Blocked
        else t == Turned(at + size, forall i :: at < i < at + size ==> stream[i] < 128, at)
  }

  lemma BytesTurn(size: nat, stream: Frame, p: nat)
    requires size >= 1
    ensures AreBytes(stream) ==> TurnOverBytes(size, stream, p, TurnAt(size, Marks(stream), p))
  {
    var end := p + size;
    if AreBytes(stream) && end <= |stream| {
      var k := FirstMark(Marks(stream)[p..end]);
      var at, next := p + k, end + k;
      FirstMarkBytes(size, stream, p, end, k, at);
      if k < size && next <= |stream| {
        TurnWithMark(size, Marks(stream), p, k, end, at, next);
        CleanBytes(stream, at, next);
      }
    }
  }

  lemma FirstMarkBytes(size: nat, stream: Frame, p: nat, end: nat, k: nat, at: nat)
    requires end == p + size <= |stream| && k == FirstMark(Marks(stream)[p..end]) && at == p + k
    requires AreBytes(stream)
    ensures if k < size then FirstMarked(size, stream, p, at) else forall i :: p <= i < end ==> stream[i] < 128
  {
    var w := Marks(stream)[p..end];
    forall i | p <= i < end ensures w[i - p] <==> stream[i] >= 128 {
    }
    forall i | p <= i < at ensures stream[i] < 128 {
      assert !w[i - p];
    }
    if k < size {
      assert w[k];
    }
  }

  lemma CleanBytes(stream: Frame, at: nat, next: nat)
    requires at <= next <= |stream| && AreBytes(stream)
    ensures Clean(Marks(stream)[at..next]) <==> forall i :: at < i < next ==> stream[i] < 128
  {
    var w := Marks(stream)[at..next];
    forall i | at <= i < next ensures w[i - at] <==> stream[i] >= 128 {
    }
    if Clean(w) {
      forall i | at < i < next ensures stream[i] < 128 {
        assert !w[i - at];
      }
    }
  }

  lemma MarksOfSlice(stream: Frame, a: nat, b: nat)
    requires a <= b <= |stream|
    ensures Marks(stream[a..b]) == Marks(stream)[a..b]
  {
  }

  /** The bytes lines[k:] + ser.read(k) are the window that starts at the mark. */
  lemma CompletedWindow(stream: Frame, p: nat, size: nat, k: nat, end: nat, at: nat, next: nat)
    requires k <= size && end == p + size && at == p + k && next == end + k <= |stream|
    ensures stream[p..end][k..] + stream[end..next] == stream[at..next]
    ensures Marks(stream[at..next]) == Marks(stream)[at..next]
  {
  }

  /** One turn of the reading loop: read a window and, unless it starts with a mark,
      complete it from its first mark on. */
  method ReadWindow(stream: Frame, p: nat, n_bytes: nat) returns (t: Turn, lines: Frame)
    requires n_bytes >= 1 && p <= |stream|
    ensures t == TurnAt(n_bytes, Marks(stream), p)
    ensures t.Turned? && t.taken ==> lines == stream[t.at..t.next]
    ensures AreBytes(stream) ==> TurnOverBytes(n_bytes, stream, p, t)
  {
    BytesTurn(n_bytes, stream, p);
    lines := [];
    var end := p + n_bytes;
    if end > |stream| {
      return Blocked, lines;
    }
    lines := stream[p..end];
    MarksOfSlice(stream, p, end);
    var k := MarkIn(lines);
    if k == n_bytes {
      return Turned(end, false, 0), lines;
    }
    var at, next := p + k, end + k;
    if next > |stream| {
      return Blocked, lines;
    }
    CompletedWindow(stream, p, n_bytes, k, end, at, next);
    lines := lines[k..] + stream[end..next];
    t := Judge(stream, lines, p, n_bytes, k, end, at, next);
  }

  /** A window that begins with its mark is a frame if it has no other one. */
  method Judge(stream: Frame, lines: Frame, ghost p: nat, ghost n_bytes: nat, ghost k: nat, ghost end: nat, at: nat, next: nat)
    returns (t: Turn)
    requires k < n_bytes && end == p + n_bytes && at == p + k && next == end + k <= |stream|
    requires k == FirstMark(Marks(stream)[p..end]) && lines == stream[at..next] && Marks(lines) == Marks(stream)[at..next]
    ensures t == TurnAt(n_bytes, Marks(stream), p) && t.Turned? && t.at == at && t.next == next
  {
    var extra := HasExtraMark(lines);
    TurnWithMark(n_bytes, Marks(stream), p, k, end, at, next);
    t := Turned(next, !extra, at);
  }

  /** Looks for the mark only if the window does not start with it. */
  method MarkIn(lines: Frame) returns (k: nat)
    requires lines != []
    ensures k == FirstMark(Marks(lines))
  {
    k := 0;
    if !Marked(lines[0]) {
      k := FindMark(lines);
    } else {
      FirstMarkIs(Marks(lines), 0);
    }
  }

  lemma FramesSnoc(n: nat, stream: Frame, starts: seq<nat>, at: nat, next: nat, w: Frame)
    requires n >= 1 && FitsFrames(FrameLength(n), stream, starts)
    requires next == at + FrameLength(n) <= |stream| && w == stream[at..next]
    ensures FitsFrames(FrameLength(n), stream, starts + [at])
    ensures FramesAt(n, stream, starts + [at]) == FramesAt(n, stream, starts) + [Unpacked(n, w)]
  {
  }

  lemma StartsTurn(size: nat, marks: seq<bool>, p: nat, taken: seq<nat>)
    requires size >= 1
    ensures taken + Starts(size, marks, p) ==
            match TurnAt(size, marks, p)
            case Blocked => taken
            case Turned(next, ok, at) => (if ok then taken + [at] else taken) + Starts(size, marks, next)
  {
  }

  /** The readings yielded so far are those of the frames taken so far. */
  ghost predicate Progress(n: nat, stream: Frame, taken: seq<nat>, yielded: seq<seq<nat>>)
    requires n >= 1
  {
    FitsFrames(FrameLength(n), stream, taken) && yielded == FramesAt(n, stream, taken)
  }

  /** Yields the reading of an accepted frame. */
  method Yield(n_lines: nat, stream: Frame, positions: seq<nat>, shifts: seq<nat>, lines: Frame, ghost at: nat,
               ghost next: nat, ghost taken: seq<nat>, before: seq<seq<nat>>) returns (yielded: seq<seq<nat>>)
    requires n_lines >= 1 && |positions| == |shifts| == n_lines
    requires forall i :: 0 <= i < n_lines ==> positions[i] == Position(n_lines, i) && shifts[i] == ShiftOf(n_lines, i)
    requires next == at + FrameLength(n_lines) <= |stream| && lines == stream[at..next]
    requires Progress(n_lines, stream, taken, before)
    ensures Progress(n_lines, stream, taken + [at], yielded)
  {
    var power := Unpack(lines, n_lines, positions, shifts);
    FramesSnoc(n_lines, stream, taken, at, next, lines);
    yielded := before + [power];
  }

  /** The while loop of read(), over the bytes the meter sends; a read that the stream
      cannot serve blocks for ever. */
  method Read(n_lines: nat, stream: Frame) returns (yielded: seq<seq<nat>>)
    requires n_lines >= 1
    ensures yielded == YieldedFrom(n_lines, stream, 0)
  {
    var positions := Positions(n_lines);
    var shifts := Shifts(n_lines);
    var n_bytes := positions[|positions| - 1] + 1;
    assert n_bytes == FrameLength(n_lines);
    ghost var marks := Marks(stream);
    yielded := [];
    ghost var taken := [];
    var p, blocked := 0, false;
    while !blocked
      invariant p <= |stream| && Progress(n_lines, stream, taken, yielded)
      invariant blocked ==> Starts(n_bytes, marks, 0) == taken
      invariant !blocked ==> Starts(n_bytes, marks, 0) == taken + Starts(n_bytes, marks, p)
      decreases !blocked, |stream| - p
    {
      var turn, lines := ReadWindow(stream, p, n_bytes);
      StartsTurn(n_bytes, marks, p, taken);
      if turn == Blocked {
        blocked := true;
      } else {
        if turn.taken {
          yielded := Yield(n_lines, stream, positions, shifts, lines, turn.at, turn.next, taken, yielded);
          taken := taken + [turn.at];
        }
        p := turn.next;
      }
    }
    YieldedAre(n_lines, n_bytes, marks, stream, taken, yielded);
  }

  lemma YieldedAre(n: nat, size: nat, marks: seq<bool>, stream: Frame, starts: seq<nat>, yielded: seq<seq<nat>>)
    requires n >= 1 && size == FrameLength(n) && marks == Marks(stream) && starts == Starts(size, marks, 0)
    requires Progress(n, stream, starts, yielded)
    ensures yielded == YieldedFrom(n, stream, 0)
  {
  }

  // ---- synchronisation ----

  predicate Readings(n: nat, vss: seq<seq<nat>>) {
    forall f :: 0 <= f < |vss| ==> |vss[f]| == n && forall i :: 0 <= i < n ==> TenBits(vss[f][i])
  }

  function PackedFrames(n: nat, vss: seq<seq<nat>>): (fs: seq<Frame>)
    requires n >= 1 && Readings(n, vss)
    ensures |fs| == |vss| && forall f :: 0 <= f < |fs| ==> |fs[f]| == FrameLength(n) && fs[f] == Packed(vss[f])
  {
    seq(|vss|, f requires 0 <= f < |vss| => Packed(vss[f]))
  }

  /** The bytes of a run of frames. */
  function Transmission(n: nat, vss: seq<seq<nat>>): Frame
    requires n >= 1 && Readings(n, vss)
  {
    Flatten(PackedFrames(n, vss))
  }

  /** Frames of one size, marked in their first byte only, one behind the other. */
  predicate MarkedFrames(size: nat, fs: seq<Frame>) {
    forall f :: 0 <= f < |fs| ==> |fs[f]| == size && forall b :: 0 <= b < size ==> (Marked(fs[f][b]) <==> b == 0)
  }

  lemma FramesArePeriodic(size: nat, fs: seq<Frame>)
    requires MarkedFrames(size, fs)
    ensures Periodic(size, Marks(Flatten(fs)), |fs|)
  {
    FlattenLength(fs);
    SumConstant(Lengths(fs), size);
    forall f, b | 0 <= f < |fs| && 0 <= b < size
      ensures MarkOf(size, Marks(Flatten(fs)), |fs|, f, b) == (b == 0)
    {
      MarkInFrame(size, fs, f, b);
    }
  }

  lemma MarkInFrame(size: nat, fs: seq<Frame>, f: nat, b: nat)
    requires MarkedFrames(size, fs) && f < |fs| && b < size
    ensures f * size + b < |Flatten(fs)| && Marks(Flatten(fs))[f * size + b] == (b == 0)
  {
    FlattenUniformAt(fs, size, f, b);
  }

  lemma FrameAt(size: nat, fs: seq<Frame>, f: nat)
    requires MarkedFrames(size, fs) && f < |fs| && size >= 1
    ensures f * size + size <= |Flatten(fs)| && Flatten(fs)[f * size..f * size + size] == fs[f]
  {
    FlattenUniformAt(fs, size, f, size - 1);
    forall b | 0 <= b < size ensures Flatten(fs)[f * size..f * size + size][b] == fs[f][b] {
      FlattenUniformAt(fs, size, f, b);
    }
  }

  lemma PackedFramesMarked(n: nat, vss: seq<seq<nat>>)
    requires n >= 1 && Readings(n, vss)
    ensures MarkedFrames(FrameLength(n), PackedFrames(n, vss))
  {
    forall f, b | 0 <= f < |vss| && 0 <= b < FrameLength(n)
      ensures Marked(PackedFrames(n, vss)[f][b]) <==> b == 0
    {
      PackedIsMarkedOnce(vss[f], b);
    }
  }

  lemma FrameValues(n: nat, size: nat, vss: seq<seq<nat>>, f: nat, a: nat)
    requires n >= 1 && Readings(n, vss) && f < |vss| && size == FrameLength(n) && a == f * size
    ensures a + size <= |Transmission(n, vss)|
    ensures Unpacked(n, Transmission(n, vss)[a..a + size]) == vss[f]
  {
    PackedFramesMarked(n, vss);
    FrameAt(size, PackedFrames(n, vss), f);
    UnpackPacked(vss[f]);
  }

  lemma {:induction false} StartAt(size: nat, f: nat, m: nat, i: nat)
    requires f <= m
    ensures |FrameStarts(size, f, m)| == m - f
    ensures i < m - f ==> FrameStarts(size, f, m)[i] == (f + i) * size
    decreases m - f
  {
    if f < m {
      StartAt(size, f + 1, m, if i > 0 then i - 1 else 0);
    }
  }

  lemma FrameHere(n: nat, size: nat, vss: seq<seq<nat>>, f: nat, starts: seq<nat>, i: nat)
    requires n >= 1 && Readings(n, vss) && f <= |vss| && size == FrameLength(n)
    requires starts == FrameStarts(size, f, |vss|) && i < |vss| - f
    ensures i < |starts| == |vss| - f && starts[i] + size <= |Transmission(n, vss)|
    ensures Unpacked(n, Transmission(n, vss)[starts[i]..starts[i] + size]) == vss[f + i]
  {
    StartAt(size, f, |vss|, i);
    FrameValues(n, size, vss, f + i, starts[i]);
  }

  lemma FramesFit(n: nat, size: nat, vss: seq<seq<nat>>, f: nat, starts: seq<nat>)
    requires n >= 1 && Readings(n, vss) && f <= |vss| && size == FrameLength(n)
    requires starts == FrameStarts(size, f, |vss|)
    ensures |starts| == |vss| - f && FitsFrames(size, Transmission(n, vss), starts)
  {
    StartAt(size, f, |vss|, 0);
    forall i | 0 <= i < |starts| ensures starts[i] + size <= |Transmission(n, vss)| {
      FrameHere(n, size, vss, f, starts, i);
    }
  }

  lemma FramesFrom(n: nat, size: nat, vss: seq<seq<nat>>, f: nat, starts: seq<nat>)
    requires n >= 1 && Readings(n, vss) && f <= |vss| && size == FrameLength(n)
    requires starts == FrameStarts(size, f, |vss|)
    ensures FitsFrames(size, Transmission(n, vss), starts)
    ensures FramesAt(n, Transmission(n, vss), starts) == vss[f..]
  {
    FramesFit(n, size, vss, f, starts);
    var read := FramesAt(n, Transmission(n, vss), starts);
    forall i | 0 <= i < |read| ensures read[i] == vss[f..][i] {
      FrameHere(n, size, vss, f, starts, i);
    }
  }

  /** Wherever in a run of frames the reading starts, it yields exactly the readings of
      the frames that begin at or after that point. */
  lemma ReadingsAreYielded(n: nat, vss: seq<seq<nat>>, f: nat, r: nat)
    requires n >= 1 && Readings(n, vss) && f < |vss| && r < FrameLength(n)
    ensures YieldedFrom(n, Transmission(n, vss), f * FrameLength(n) + r) == if r == 0 then vss[f..] else vss[f + 1..]
  {
    PackedFramesMarked(n, vss);
    FramesArePeriodic(FrameLength(n), PackedFrames(n, vss));
    if r == 0 {
      AlignedStarts(FrameLength(n), Marks(Transmission(n, vss)), |vss|, f);
      FramesFrom(n, FrameLength(n), vss, f, FrameStarts(FrameLength(n), f, |vss|));
    } else {
      Resynchronises(FrameLength(n), Marks(Transmission(n, vss)), |vss|, f, r);
      FramesFrom(n, FrameLength(n), vss, f + 1, FrameStarts(FrameLength(n), f + 1, |vss|));
    }
  }
}
