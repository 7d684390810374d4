/** The self-synchronising reading loop of legacy/daemon/devices/ArduPowerDevice.py, seen
    only through the marks: which received bytes have their top bit set. */
module Framing {
  import opened Util

  /** The first mark of a window, or its length. */
  function FirstMark(w: seq<bool>): (k: nat)
    ensures k <= |w| && (k < |w| ==> w[k]) && forall i :: 0 <= i < k ==> !w[i]
  {
    if w == [] || w[0] then 0 else 1 + FirstMark(w[1..])
  }

  lemma FirstMarkIs(w: seq<bool>, k: nat)
    requires k <= |w| && (k < |w| ==> w[k]) && forall i :: 0 <= i < k ==> !w[i]
    ensures FirstMark(w) == k
  {
  }

  /** No byte but the first is marked. */
  predicate Clean(w: seq<bool>) {
    forall k :: 0 < k < |w| ==> !w[k]
  }

  /** What one turn of the loop does at position p: where it goes on, and whether it
      takes the window that starts at `at` as a frame. The stream is finite; a read that
      it cannot serve blocks for ever. */
  datatype Turn = Blocked | Turned(next: nat, taken: bool, at: nat)

  function TurnAt(size: nat, marks: seq<bool>, p: nat): (t: Turn)
    requires size >= 1
    ensures t.Turned? ==> p + size <= t.next <= |marks| && (t.taken ==> p <= t.at && t.next == t.at + size)
  {
    if p + size > |marks| then Blocked
    else
      var k := FirstMark(marks[p..p + size]);
      if k == size then Turned(p + size, false, 0)
      else if p + size + k > |marks| then Blocked
      else Turned(p + size + k, Clean(marks[p + k..p + k + size]), p + k)
  }

  lemma TurnWithMark(size: nat, marks: seq<bool>, p: nat, k: nat, end: nat, at: nat, next: nat)
    requires k < size && end == p + size && at == p + k && next == end + k <= |marks| && k == FirstMark(marks[p..end])
    ensures TurnAt(size, marks, p) == Turned(next, Clean(marks[at..next]), at)
  {
  }

  /** Where the frames start that the loop takes from position p on. */
  function Starts(size: nat, marks: seq<bool>, p: nat): seq<nat>
    requires size >= 1
    decreases |marks| - p
  {
    match TurnAt(size, marks, p)
    case Blocked => []
    case Turned(next, taken, at) => (if taken then [at] else []) + Starts(size, marks, next)
  }

  lemma {:induction false} StartsInside(size: nat, marks: seq<bool>, p: nat)
    requires size >= 1
    ensures forall i :: 0 <= i < |Starts(size, marks, p)| ==> Starts(size, marks, p)[i] + size <= |marks|
    decreases |marks| - p
  {
    if TurnAt(size, marks, p).Turned? {
      StartsInside(size, marks, TurnAt(size, marks, p).next);
    }
  }

  /** What is taken is marked in front and nowhere else, and the windows that are taken
      follow one another. */
  lemma {:induction false} StartsMarked(size: nat, marks: seq<bool>, p: nat)
    requires size >= 1
    ensures forall i :: 0 <= i < |Starts(size, marks, p)| ==> TakenAt(size, marks, p, Starts(size, marks, p)[i])
    ensures forall i, j :: 0 <= i < j < |Starts(size, marks, p)| ==> Starts(size, marks, p)[i] + size <= Starts(size, marks, p)[j]
    decreases |marks| - p
  {
    var turn := TurnAt(size, marks, p);
    if turn.Turned? {
      StartsMarked(size, marks, turn.next);
      if turn.taken {
        TurnTakes(size, marks, p, turn.at);
      }
      var rest := Starts(size, marks, turn.next);
      forall i | 0 <= i < |rest| ensures TakenAt(size, marks, p, rest[i]) {
        assert TakenAt(size, marks, turn.next, rest[i]);
      }
      forall i | 0 <= i < |rest| ensures turn.next <= rest[i] {
        assert TakenAt(size, marks, turn.next, rest[i]);
      }
    }
  }

  predicate TakenAt(size: nat, marks: seq<bool>, p: nat, a: nat) {
    p <= a && a + size <= |marks| && size >= 1 && marks[a] && forall k :: a < k < a + size ==> !marks[k]
  }

  lemma TurnTakes(size: nat, marks: seq<bool>, p: nat, a: nat)
    requires size >= 1 && TurnAt(size, marks, p).Turned? && TurnAt(size, marks, p).taken && a == TurnAt(size, marks, p).at
    ensures TakenAt(size, marks, p, a)
  {
    var end := p + size;
    var k := FirstMark(marks[p..end]);
    var next := end + k;
    assert marks[p..end][k];
    TurnWithMark(size, marks, p, k, end, a, next);
    forall i | a < i < next ensures !marks[i] {
      CleanAt(marks, a, next, i - a);
    }
  }

  lemma CleanAt(marks: seq<bool>, a: nat, next: nat, k: nat)
    requires a <= next <= |marks| && Clean(marks[a..next]) && 0 < k < next - a
    ensures !marks[a + k]
  {
    assert !marks[a..next][k];
  }

  // ---- a run of well-formed frames ----

  /** m frames of the given size, each marked in its first byte only. */
  predicate Periodic(size: nat, marks: seq<bool>, m: nat) {
    && |marks| == m * size
    && forall f, b :: 0 <= f < m && 0 <= b < size ==> MarkOf(size, marks, m, f, b) == (b == 0)
  }

  function MarkOf(size: nat, marks: seq<bool>, m: nat, f: nat, b: nat): bool
    requires |marks| == m * size && f < m && b < size
  {
    MulMono(f + 1, m, size);
    assert (f + 1) * size == f * size + size;
    marks[f * size + b]
  }

  /** The frames f, f+1, ..., m-1. */
  function FrameStarts(size: nat, f: nat, m: nat): seq<nat>
    requires f <= m
    decreases m - f
  {
    if f == m then [] else [f * size] + FrameStarts(size, f + 1, m)
  }

  lemma AlignedTurn(size: nat, marks: seq<bool>, m: nat, f: nat)
    requires size >= 1 && Periodic(size, marks, m) && f < m
    ensures TurnAt(size, marks, f * size) == Turned((f + 1) * size, true, f * size)
  {
    MulMono(f + 1, m, size);
    assert (f + 1) * size == f * size + size;
    var w := marks[f * size..f * size + size];
    forall b | 0 <= b < size ensures w[b] == (b == 0) {
      assert MarkOf(size, marks, m, f, b) == (b == 0);
    }
    assert marks[f * size + 0..f * size + 0 + size] == w;
  }

  /** A read that starts at a frame takes every frame from there on. */
  lemma {:induction false} AlignedStarts(size: nat, marks: seq<bool>, m: nat, f: nat)
    requires size >= 1 && Periodic(size, marks, m) && f <= m
    ensures Starts(size, marks, f * size) == FrameStarts(size, f, m)
    decreases m - f
  {
    if f < m {
      var g := f + 1;
      var at := Product(f, size);
      var next := Product(g, size);
      AlignedTurn(size, marks, m, f);
      AlignedStarts(size, marks, m, g);
      TurnThenStarts(size, marks, at, at, next);
    } else {
      EndBlocks(size, marks, f * size);
    }
  }

  lemma MisalignedTurn(size: nat, marks: seq<bool>, m: nat, f: nat, r: nat)
    requires Periodic(size, marks, m) && f + 1 < m && 0 < r < size
    ensures TurnAt(size, marks, f * size + r) == Turned((f + 2) * size, true, (f + 1) * size)
  {
    MulMono(f + 2, m, size);
    assert (f + 1) * size == f * size + size && (f + 2) * size == f * size + 2 * size;
    var p := f * size + r;
    var w := marks[p..p + size];
    forall i | 0 <= i < size - r ensures !w[i] {
      assert MarkOf(size, marks, m, f, r + i) == (r + i == 0);
    }
    assert MarkOf(size, marks, m, f + 1, 0);
    assert w[size - r];
    assert FirstMark(w) == size - r;
    AlignedTurn(size, marks, m, f + 1);
    var frame := marks[p + (size - r)..p + (size - r) + size];
    forall b | 0 < b < size ensures !frame[b] {
      assert !MarkOf(size, marks, m, f + 1, b);
    }
  }

  /** Inside the last frame there is too little left to read. */
  lemma LastFrameBlocks(size: nat, marks: seq<bool>, m: nat, f: nat, p: nat, start: nat)
    requires Periodic(size, marks, m) && f + 1 == m && size >= 1 && start == f * size && start < p
    ensures Starts(size, marks, p) == []
  {
    OneMore(f, m, size, start);
    EndBlocks(size, marks, p);
  }

  lemma OneMore(f: nat, g: nat, size: nat, start: nat)
    requires g == f + 1 && start == f * size
    ensures g * size == start + size
  {
  }

  lemma EndBlocks(size: nat, marks: seq<bool>, p: nat)
    requires size >= 1 && p + size > |marks|
    ensures Starts(size, marks, p) == []
  {
  }

  /** A read that starts inside frame f drops the rest of it and takes exactly the
      frames after it. */
  lemma Resynchronises(size: nat, marks: seq<bool>, m: nat, f: nat, r: nat)
    requires Periodic(size, marks, m) && f < m && 0 < r < size
    ensures Starts(size, marks, f * size + r) == FrameStarts(size, f + 1, m)
  {
    var start := Product(f, size);
    var p := start + r;
    if f + 1 < m {
      var g, h := f + 1, f + 2;
      var at := Product(g, size);
      var next := Product(h, size);
      MisalignedTurn(size, marks, m, f, r);
      AlignedStarts(size, marks, m, h);
      TurnThenStarts(size, marks, p, at, next);
      assert FrameStarts(size, g, m) == [at] + FrameStarts(size, h, m);
    } else {
      LastFrameBlocks(size, marks, m, f, p, start);
    }
  }

  lemma TurnThenStarts(size: nat, marks: seq<bool>, p: nat, at: nat, next: nat)
    requires size >= 1 && TurnAt(size, marks, p) == Turned(next, true, at)
    ensures Starts(size, marks, p) == [at] + Starts(size, marks, next)
  {
  }
}
