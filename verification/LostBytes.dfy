/** The ArduPower meter over a line that loses bytes (legacy/daemon/devices/ArduPowerDevice.py). */
module LostBytes {
  import opened Util
  import opened Framing
  import opened ArduPower

  /** The first byte has its top bit set, and no other one has. */
  predicate MarkedInFront(w: Frame) {
    w != [] && w[0] >= 128 && forall k :: 0 < k < |w| ==> w[k] < 128
  }

  /** The bytes from a on are a window with exactly one marked byte, its first, and read as
      this. */
  ghost predicate ReadFrom(n: nat, stream: Frame, a: nat, reading: seq<nat>)
    requires n >= 1
  {
    var end := a + FrameLength(n);
    end <= |stream| && MarkedInFront(stream[a..end]) && reading == Unpacked(n, stream[a..end])
  }

  /** Every reading is that of such a window; the windows follow one another. */
  lemma ReadingsOfWindows(n: nat, stream: Frame, p: nat) returns (starts: seq<nat>)
    requires n >= 1 && AreBytes(stream)
    ensures |starts| == |YieldedFrom(n, stream, p)|
    ensures forall i :: 0 <= i < |starts| ==> p <= starts[i] && ReadFrom(n, stream, starts[i], YieldedFrom(n, stream, p)[i])
    ensures forall i, j :: 0 <= i < j < |starts| ==> starts[i] + FrameLength(n) <= starts[j]
  {
    var size := FrameLength(n);
    starts := Starts(size, Marks(stream), p);
    StartsMarked(size, Marks(stream), p);
    StartsInside(size, Marks(stream), p);
    forall i | 0 <= i < |starts| ensures p <= starts[i] && ReadFrom(n, stream, starts[i], YieldedFrom(n, stream, p)[i]) {
      var a := starts[i];
      assert TakenAt(size, Marks(stream), p, a);
      WindowMarked(size, stream, p, a);
    }
  }

  lemma WindowMarked(size: nat, stream: Frame, p: nat, a: nat)
    requires TakenAt(size, Marks(stream), p, a) && AreBytes(stream)
    ensures MarkedInFront(stream[a..a + size])
  {
    var w := stream[a..a + size];
    forall k | 0 < k < size ensures w[k] < 128 {
      assert !Marks(stream)[a + k];
    }
  }

  // ---- frames of which bytes were lost, but never the first one ----

  /** The places of the bytes that arrive of a frame. */
  predicate KeepsFirst(size: nat, kept: seq<nat>) {
    && kept != [] && kept[0] == 0
    && (forall i :: 0 <= i < |kept| ==> kept[i] < size)
    && forall i, j :: 0 <= i < j < |kept| ==> kept[i] < kept[j]
  }

  function Arriving(frame: Frame, kept: seq<nat>): (w: Frame)
    requires forall i :: 0 <= i < |kept| ==> kept[i] < |frame|
    ensures |w| == |kept|
  {
    seq(|kept|, i requires 0 <= i < |kept| => frame[kept[i]])
  }

  predicate LossOk(n: nat, vss: seq<seq<nat>>, kepts: seq<seq<nat>>) {
    n >= 1 && Readings(n, vss) && |kepts| == |vss| && forall f :: 0 <= f < |kepts| ==> KeepsFirst(FrameLength(n), kepts[f])
  }

  function Pieces(n: nat, vss: seq<seq<nat>>, kepts: seq<seq<nat>>): (ws: seq<Frame>)
    requires LossOk(n, vss, kepts)
    ensures |ws| == |vss|
  {
    seq(|vss|, f requires 0 <= f < |vss| => Arriving(PackedFrames(n, vss)[f], kepts[f]))
  }

  /** What arrives of a run of frames. */
  function Received(n: nat, vss: seq<seq<nat>>, kepts: seq<seq<nat>>): Frame
    requires LossOk(n, vss, kepts)
  {
    Flatten(Pieces(n, vss, kepts))
  }

  /** Places in increasing order are at least as far as they are counted. */
  lemma {:induction false} PlacesGrow(kept: seq<nat>, i: nat)
    requires i < |kept| && forall a, b :: 0 <= a < b < |kept| ==> kept[a] < kept[b]
    ensures kept[i] >= i
  {
    if i > 0 {
      PlacesGrow(kept, i - 1);
    }
  }

  /** If all arrives, nothing is moved. */
  lemma AllKept(size: nat, kept: seq<nat>)
    requires KeepsFirst(size, kept)
    ensures |kept| <= size
    ensures |kept| == size ==> forall i :: 0 <= i < size ==> kept[i] == i
  {
    PlacesGrow(kept, |kept| - 1);
    if |kept| == size {
      forall i | 0 <= i < size ensures kept[i] == i {
        PlacesGrow(kept, i);
        PlacesBound(size, kept, i);
      }
    }
  }

  lemma {:induction false} PlacesBound(size: nat, kept: seq<nat>, i: nat)
    requires |kept| == size && i < size
    requires (forall a :: 0 <= a < size ==> kept[a] < size) && forall a, b :: 0 <= a < b < size ==> kept[a] < kept[b]
    ensures kept[i] <= i
    decreases size - i
  {
    if i < size - 1 {
      PlacesBound(size, kept, i + 1);
    }
  }

  /** Where a position of the flat list lies. */
  lemma {:induction false} Locate(ws: seq<Frame>, a: nat) returns (f: nat, i: nat)
    requires a < |Flatten(ws)|
    ensures f < |ws| && i < |ws[f]| && a == Sum(Lengths(ws[..f])) + i
  {
    var front := ws[..|ws| - 1];
    if a < |Flatten(front)| {
      f, i := Locate(front, a);
      assert front[..f] == ws[..f];
    } else {
      FlattenLength(front);
      f, i := |ws| - 1, a - |Flatten(front)|;
    }
  }

  /** Only the first byte of a piece is marked. */
  lemma PieceMarks(n: nat, vss: seq<seq<nat>>, kepts: seq<seq<nat>>, f: nat, i: nat)
    requires LossOk(n, vss, kepts) && f < |vss| && i < |kepts[f]|
    ensures |Pieces(n, vss, kepts)[f]| == |kepts[f]| && (Pieces(n, vss, kepts)[f][i] >= 128 <==> i == 0)
    ensures Pieces(n, vss, kepts)[f][i] < 256
  {
    var frame, place := Packed(vss[f]), kepts[f][i];
    PackedIsMarkedOnce(vss[f], place);
    PackedByteBound(vss[f], place);
  }

  lemma PackedByteBound(vs: seq<nat>, b: nat)
    requires vs != [] && b < FrameLength(|vs|)
    ensures PackedByte(vs, b) < 256
  {
    var q := b / 3;
    InFrame(|vs|, |vs| - 1);
  }

  lemma ReceivedAt(n: nat, vss: seq<seq<nat>>, kepts: seq<seq<nat>>, f: nat, i: nat, from: nat)
    requires LossOk(n, vss, kepts) && f < |vss| && i < |kepts[f]| && from == Sum(Lengths(Pieces(n, vss, kepts)[..f]))
    ensures from + i < |Received(n, vss, kepts)| && Received(n, vss, kepts)[from + i] == Pieces(n, vss, kepts)[f][i]
    ensures Received(n, vss, kepts)[from + i] >= 128 <==> i == 0
  {
    FlattenAt(Pieces(n, vss, kepts), f, i);
    PieceMarks(n, vss, kepts, f, i);
  }

  lemma ReceivedBytes(n: nat, vss: seq<seq<nat>>, kepts: seq<seq<nat>>)
    requires LossOk(n, vss, kepts)
    ensures forall a :: 0 <= a < |Received(n, vss, kepts)| ==> Received(n, vss, kepts)[a] < 256
  {
    var ws := Pieces(n, vss, kepts);
    forall a: nat | a < |Received(n, vss, kepts)| ensures Received(n, vss, kepts)[a] < 256 {
      var f, i := Locate(ws, a);
      FlattenAt(ws, f, i);
      PieceMarks(n, vss, kepts, f, i);
    }
  }

  /** A piece behind another begins where that ends. */
  lemma NextPiece(ws: seq<Frame>, f: nat)
    requires f < |ws|
    ensures Sum(Lengths(ws[..f + 1])) == Sum(Lengths(ws[..f])) + |ws[f]|
    ensures f + 1 == |ws| ==> |Flatten(ws)| == Sum(Lengths(ws[..f])) + |ws[f]|
  {
    var next := f + 1;
    assert Lengths(ws[..next])[..f] == Lengths(ws[..f]);
    FlattenLength(ws);
    if next == |ws| {
      assert ws[..next] == ws;
    }
  }

  lemma WindowByte(stream: Frame, a: nat, size: nat, j: nat, at: nat)
    requires a + size <= |stream| && MarkedInFront(stream[a..a + size]) && j < size && at == a + j
    ensures stream[at] >= 128 <==> j == 0
  {
    assert stream[at] == stream[a..a + size][j];
  }

  /** Nothing is lost of a piece that is followed by as many bytes without a mark. */
  lemma PieceWhole(n: nat, vss: seq<seq<nat>>, kepts: seq<seq<nat>>, size: nat, a: nat, f: nat)
    requires LossOk(n, vss, kepts) && size == FrameLength(n) && a + size <= |Received(n, vss, kepts)| && f < |vss|
    requires MarkedInFront(Received(n, vss, kepts)[a..a + size]) && a == Sum(Lengths(Pieces(n, vss, kepts)[..f]))
    ensures |kepts[f]| == size
  {
    AllKept(size, kepts[f]);
    if |kepts[f]| < size {
      var next, j, at := f + 1, |kepts[f]|, a + |kepts[f]|;
      NextPiece(Pieces(n, vss, kepts), f);
      PieceMarks(n, vss, kepts, f, 0);
      ReceivedAt(n, vss, kepts, next, 0, at);
      WindowByte(Received(n, vss, kepts), a, size, j, at);
    }
  }

  /** The bytes of a whole piece are those of its frame. */
  lemma WholePiece(n: nat, vss: seq<seq<nat>>, kepts: seq<seq<nat>>, size: nat, a: nat, f: nat)
    requires LossOk(n, vss, kepts) && size == FrameLength(n) && a + size <= |Received(n, vss, kepts)| && f < |vss|
    requires |kepts[f]| == size && a == Sum(Lengths(Pieces(n, vss, kepts)[..f]))
    ensures Received(n, vss, kepts)[a..a + size] == Packed(vss[f])
  {
    var stream := Received(n, vss, kepts);
    AllKept(size, kepts[f]);
    forall k | 0 <= k < size ensures stream[a..a + size][k] == Packed(vss[f])[k] {
      ReceivedAt(n, vss, kepts, f, k, a);
      assert stream[a..a + size][k] == stream[a + k];
    }
  }

  /** A window that is marked in its first byte only is a frame of which nothing was lost. */
  lemma WindowIsFrame(n: nat, vss: seq<seq<nat>>, kepts: seq<seq<nat>>, size: nat, a: nat) returns (f: nat)
    requires LossOk(n, vss, kepts) && size == FrameLength(n) && a + size <= |Received(n, vss, kepts)|
    requires MarkedInFront(Received(n, vss, kepts)[a..a + size])
    ensures f < |vss| && |kepts[f]| == size && a == Sum(Lengths(Pieces(n, vss, kepts)[..f]))
    ensures Received(n, vss, kepts)[a..a + size] == Packed(vss[f])
  {
    var i;
    f, i := Locate(Pieces(n, vss, kepts), a);
    var from := Sum(Lengths(Pieces(n, vss, kepts)[..f]));
    ReceivedAt(n, vss, kepts, f, i, from);
    WindowByte(Received(n, vss, kepts), a, size, 0, a);
    PieceWhole(n, vss, kepts, size, a, f);
    WholePiece(n, vss, kepts, size, a, f);
  }

  /** Reading i is that of frame f, which arrived whole and begins at `start`. */
  ghost predicate IsSent(n: nat, vss: seq<seq<nat>>, kepts: seq<seq<nat>>, reading: seq<nat>, start: nat, f: nat)
    requires LossOk(n, vss, kepts)
  {
    f < |vss| && |kepts[f]| == FrameLength(n) && reading == vss[f] && start == Sum(Lengths(Pieces(n, vss, kepts)[..f]))
  }

  lemma WindowSent(n: nat, vss: seq<seq<nat>>, kepts: seq<seq<nat>>, size: nat, a: nat, reading: seq<nat>) returns (f: nat)
    requires LossOk(n, vss, kepts) && size == FrameLength(n) && ReadFrom(n, Received(n, vss, kepts), a, reading)
    ensures IsSent(n, vss, kepts, reading, a, f)
  {
    f := WindowIsFrame(n, vss, kepts, size, a);
    UnpackPacked(vss[f]);
  }

  /** However many bytes are lost of a run of frames, as long as no first byte of a frame is,
      every reading is one that was sent, of a frame that arrived whole, in the order in which
      they were sent, each at most once. */
  lemma OnlySentReadings(n: nat, vss: seq<seq<nat>>, kepts: seq<seq<nat>>, p: nat) returns (fs: seq<nat>)
    requires LossOk(n, vss, kepts)
    ensures |fs| == |YieldedFrom(n, Received(n, vss, kepts), p)|
    ensures forall i :: 0 <= i < |fs| ==>
              fs[i] < |vss| && |kepts[fs[i]]| == FrameLength(n) && YieldedFrom(n, Received(n, vss, kepts), p)[i] == vss[fs[i]]
    ensures forall i, j :: 0 <= i < j < |fs| ==> fs[i] < fs[j]
  {
    var yielded := YieldedFrom(n, Received(n, vss, kepts), p);
    ReceivedBytes(n, vss, kepts);
    var starts := ReadingsOfWindows(n, Received(n, vss, kepts), p);
    fs := FramesRead(n, vss, kepts, yielded, starts);
    forall i | 0 <= i < |fs| ensures fs[i] < |vss| && |kepts[fs[i]]| == FrameLength(n) && yielded[i] == vss[fs[i]] {
      assert IsSent(n, vss, kepts, yielded[i], starts[i], fs[i]);
    }
    forall i, j | 0 <= i < j < |fs| ensures fs[i] < fs[j] {
      SentInOrder(n, vss, kepts, yielded[i], starts[i], fs[i], yielded[j], starts[j], fs[j]);
    }
  }

  lemma {:induction false} FramesRead(n: nat, vss: seq<seq<nat>>, kepts: seq<seq<nat>>, readings: seq<seq<nat>>, starts: seq<nat>)
    returns (fs: seq<nat>)
    requires LossOk(n, vss, kepts) && |readings| == |starts|
    requires forall i :: 0 <= i < |starts| ==> ReadFrom(n, Received(n, vss, kepts), starts[i], readings[i])
    ensures |fs| == |starts| && forall i :: 0 <= i < |fs| ==> IsSent(n, vss, kepts, readings[i], starts[i], fs[i])
    decreases |starts|
  {
    if starts == [] {
      fs := [];
    } else {
      var k := |starts| - 1;
      var front := FramesRead(n, vss, kepts, readings[..k], starts[..k]);
      var f := WindowSent(n, vss, kepts, FrameLength(n), starts[k], readings[k]);
      fs := front + [f];
      forall i | 0 <= i < k ensures IsSent(n, vss, kepts, readings[i], starts[i], front[i]) {
        assert readings[..k][i] == readings[i] && starts[..k][i] == starts[i];
      }
    }
  }

  lemma SentInOrder(n: nat, vss: seq<seq<nat>>, kepts: seq<seq<nat>>, first: seq<nat>, a: nat, f: nat, second: seq<nat>, b: nat, g: nat)
    requires LossOk(n, vss, kepts) && IsSent(n, vss, kepts, first, a, f) && IsSent(n, vss, kepts, second, b, g)
    requires a + FrameLength(n) <= b
    ensures f < g
  {
    InFrame(n, n - 1);
    LaterStart(Pieces(n, vss, kepts), f, g);
  }

  lemma LaterStart(ws: seq<Frame>, f: nat, g: nat)
    requires f < |ws| && g < |ws| && Sum(Lengths(ws[..f])) < Sum(Lengths(ws[..g]))
    ensures f < g
  {
    var ls := Lengths(ws);
    assert ls[..f] == Lengths(ws[..f]) && ls[..g] == Lengths(ws[..g]);
    if g <= f {
      SumMonotone(ls, g, f);
    }
  }

  /** Where the first byte of a frame is lost, a reading can be made of two: of the readings
      0, 0 and 1, 1 the bytes that arrive without the last one of the first frame and the
      first one of the second are read as 0, 128. */
  lemma MixedReading(stream: Frame)
    requires stream == Packed([0, 0])[..2] + Packed([1, 1])[1..]
    ensures stream == [128, 0, 1, 0] && YieldedFrom(2, stream, 0) == [[0, 128]]
  {
    assert Packed([0, 0]) == [128, 0, 0] && Packed([1, 1]) == [129, 1, 0];
    assert stream == [128, 0, 1, 0];
    OneFrame(stream, Marks(stream));
    MixedValues([128, 0, 1]);
    assert stream[0..3] == [128, 0, 1];
    assert FramesAt(2, stream, [0]) == [[0, 128]];
  }

  lemma OneFrame(stream: Frame, marks: seq<bool>)
    requires |stream| == |marks| == 4 && marks[0] && !marks[1] && !marks[2]
    ensures Starts(3, marks, 0) == [0]
  {
    FirstMarkIs(marks[0..3], 0);
    TurnWithMark(3, marks, 0, 0, 3, 0, 3);
    assert Clean(marks[0..3]);
    EndBlocks(3, marks, 3);
    TurnThenStarts(3, marks, 0, 0, 3);
  }

  lemma MixedValues(w: Frame)
    requires w == [128, 0, 1]
    ensures FrameLength(2) == 3 && Unpacked(2, w) == [0, 128]
  {
    TwoChannels();
    UnpackedAt(2, w, 0);
    UnpackedAt(2, w, 1);
    MixedBytes();
    assert w[2] == 1 && w[0] == 128 && w[1] == 0;
    PairIs(Unpacked(2, w), 0, 128);
  }

  lemma PairIs(s: seq<nat>, x: nat, y: nat)
    requires |s| == 2 && s[0] == x && s[1] == y
    ensures s == [x, y]
  {
  }

  lemma TwoChannels()
    ensures FrameLength(2) == 3 && Position(2, 0) == 2 && Position(2, 1) == 2 && LowAt(0) == 0 && LowAt(1) == 1
    ensures ShiftOf(2, 0) == 4 && ShiftOf(2, 1) == 7
  {
  }

  lemma MixedBytes()
    ensures Value(1, 4, 128) == 0 && Value(1, 7, 0) == 128
  {
    FirstOfPair(0, 128);
    SecondOfPair(0, 128);
    assert High3(0) * 8 + High3(128) == 1 && Low7(0) == 0 && Low7(128) == 0;
  }
}
