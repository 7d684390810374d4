/** The counters of the C++ server (server/counter.cpp) and of the legacy server
    (legacy/daemon/modules/Counter.py). */
module Counters {
  import opened Util
  import opened Lines
  import opened Buffers
  import opened Replies
  import opened Sessions

  // ---- what an operation does, as a function ----

  /** The lines, the session, whether it goes on, and the answer to the client. */
  datatype Effect = Effect(lines: seq<LineState>, session: Session, running: bool, answer: Answer)

  ghost function CppEffect(op: Operation, ls: seq<LineState>, s: Session): Effect
    requires SessionOk(ls, s)
  {
    match op
    case START =>
      if s.status == INACTIVE then
        Effect(UpdateLines(ls, s.lines, Activated), Started(s, Sizes(ls, s.lines)), true, SUCCESS)
      else Effect(ls, s, true, ERROR)
    case CONTINUE =>
      if s.status == INACTIVE then
        Effect(UpdateLines(ls, s.lines, Activated), Continued(s, Sizes(ls, s.lines)), true, SUCCESS)
      else Effect(ls, s, true, ERROR)
    case STOP =>
      if s.status == ACTIVE then
        Effect(UpdateLines(ls, s.lines, Deactivated), Stopped(s, Sizes(ls, s.lines)), true, SUCCESS)
      else Effect(ls, s, true, ERROR)
    case GET =>
      if s.status == INACTIVE then
        Effect(ls, s, true, Data(CppReply(TakesOf(ls, s), |s.lines|, s.interval, s.aggregate)))
      else Effect(ls, s, true, ERROR)
    case FINALIZE =>
      if s.status == INACTIVE then Effect(ls, s, false, SUCCESS) else Effect(ls, s, true, ERROR)
  }

  /** The legacy counter: the same but for the reply's layout and length and for
      FINALIZE, which always succeeds and stops an active session first. Taking the
      counter off the device is a separate step for both servers. */
  ghost function LegacyEffect(op: Operation, ls: seq<LineState>, s: Session): Effect
    requires SessionOk(ls, s)
  {
    match op
    case GET =>
      if s.status == INACTIVE then
        Effect(ls, s, true, Data(LegacyReply(TakesOf(ls, s), |s.lines|, s.interval, s.aggregate)))
      else Effect(ls, s, true, ERROR)
    case FINALIZE =>
      Effect(if s.status == ACTIVE then UpdateLines(ls, s.lines, Deactivated) else ls, s, false, SUCCESS)
    case _ => CppEffect(op, ls, s)
  }

  /** Activating and deactivating leave the buffers alone. */
  lemma ActivationKeepsData(ls: seq<LineState>, sel: seq<nat>, after: seq<LineState>)
    requires IsSelection(sel, |ls|)
    requires after == UpdateLines(ls, sel, Activated) || after == UpdateLines(ls, sel, Deactivated)
    ensures Sizes(after, sel) == Sizes(ls, sel)
  {
    forall l | l in sel ensures l < |ls| && after[l].data == ls[l].data {
      assert after[l] == Activated(ls[l]) || after[l] == Deactivated(ls[l]);
    }
  }

  lemma StartDone(ls: seq<LineState>, s: Session)
    requires SessionOk(ls, s) && s.status == INACTIVE
    ensures var e := Effect(UpdateLines(ls, s.lines, Activated), Started(s, Sizes(ls, s.lines)), true, SUCCESS);
            SessionOk(e.lines, e.session) && e == CppEffect(START, ls, s)
  {
    GrowthKeepsShape(ls, UpdateLines(ls, s.lines, Activated), s);
    ActivationKeepsData(ls, s.lines, UpdateLines(ls, s.lines, Activated));
    StartKeepsShape(UpdateLines(ls, s.lines, Activated), s);
  }

  lemma ContinueDone(ls: seq<LineState>, s: Session)
    requires SessionOk(ls, s) && s.status == INACTIVE
    ensures var e := Effect(UpdateLines(ls, s.lines, Activated), Continued(s, Sizes(ls, s.lines)), true, SUCCESS);
            SessionOk(e.lines, e.session) && e == CppEffect(CONTINUE, ls, s)
  {
    GrowthKeepsShape(ls, UpdateLines(ls, s.lines, Activated), s);
    ActivationKeepsData(ls, s.lines, UpdateLines(ls, s.lines, Activated));
    ContinueKeepsShape(UpdateLines(ls, s.lines, Activated), s);
  }

  lemma StopDone(ls: seq<LineState>, s: Session)
    requires SessionOk(ls, s) && s.status == ACTIVE
    ensures var e := Effect(UpdateLines(ls, s.lines, Deactivated), Stopped(s, Sizes(ls, s.lines)), true, SUCCESS);
            SessionOk(e.lines, e.session) && e == CppEffect(STOP, ls, s)
  {
    GrowthKeepsShape(ls, UpdateLines(ls, s.lines, Deactivated), s);
    ActivationKeepsData(ls, s.lines, UpdateLines(ls, s.lines, Deactivated));
    StopKeepsShape(UpdateLines(ls, s.lines, Deactivated), s);
  }

  /** Every operation of either server leaves the session in shape; the legacy
      FINALIZE is followed by taking the counter off the device. */
  lemma EffectsKeepShape(op: Operation, ls: seq<LineState>, s: Session)
    requires SessionOk(ls, s)
    ensures SessionOk(CppEffect(op, ls, s).lines, CppEffect(op, ls, s).session)
    ensures op != FINALIZE ==> SessionOk(LegacyEffect(op, ls, s).lines, LegacyEffect(op, ls, s).session)
  {
    if s.status == INACTIVE {
      StartDone(ls, s);
      ContinueDone(ls, s);
    } else {
      StopDone(ls, s);
    }
  }

  /** round((float) max / f) for non-negative operands: half rounds up. */
  function RoundedRatio(max: nat, f: nat): nat
    requires f > 0
  {
    (2 * max + f) / (2 * f)
  }

  /** set_frequency: the stride that thins the device's rate down to the requested
      one, or None where the server throws. A request of 0 means the full rate. */
  function IntervalFor(max: nat, frequency: nat): Option<nat> {
    if frequency > max then None
    else if frequency == 0 then (if max == 0 then None else Some(RoundedRatio(max, max)))
    else Some(RoundedRatio(max, frequency))
  }

  /** The same for every int: a negative request is never above the maximum, and round()
      takes halves away from zero. */
  function StrideFor(max: nat, frequency: int): Option<int> {
    if frequency >= 0 then
      match IntervalFor(max, frequency)
      case Some(stride) => Some(stride)
      case None => None
    else
      var size: int := RoundedRatio(max, -frequency);
      Some(-size)
  }

  /** Only a negative frequency gives a stride below one, which no set can be read with. It
      is the nearest whole number to the negative ratio, and of two as near ones the lower. */
  lemma StridePositive(max: nat, frequency: int)
    requires frequency <= max && max > 0
    ensures StrideFor(max, frequency).Some? && (StrideFor(max, frequency).value >= 1 <==> frequency >= 0)
    ensures frequency < 0 ==> frequency <= 2 * (max - StrideFor(max, frequency).value * frequency) < -frequency
  {
    if frequency >= 0 {
      IntervalIsNearest(max, frequency);
    } else {
      var f: nat := -frequency;
      var size := RoundedRatio(max, f);
      RoundedRatioNearest(max, f);
      assert -(size as int) * frequency == size * f;
    }
  }

  /** Exactly the frequencies above the device's are refused. */
  lemma RefusedExactly(max: nat, frequency: int)
    requires max > 0
    ensures StrideFor(max, frequency) == None <==> frequency > max
  {
  }

  /** An accepted frequency gives a stride of at least one, the nearest whole number
      to max/frequency, and of two as near ones the higher; the full rate gives stride one. */
  lemma IntervalIsNearest(max: nat, frequency: nat)
    requires frequency <= max && max > 0
    ensures IntervalFor(max, frequency).Some? && IntervalFor(max, frequency).value >= 1
    ensures var k := IntervalFor(max, frequency).value;
            if frequency == 0 then k == 1
            else -(frequency as int) <= 2 * (max - k * frequency) < frequency
  {
    if frequency == 0 {
      FullRate(max);
    } else {
      RoundedRatioMeans(max, frequency);
    }
  }

  lemma FullRate(max: nat)
    requires max > 0
    ensures RoundedRatio(max, max) == 1
  {
    DivUnique(2 * max + max, 2 * max, 1);
  }

  lemma RoundedRatioMeans(max: nat, f: nat)
    requires 0 < f <= max
    ensures RoundedRatio(max, f) >= 1
    ensures -(f as int) <= 2 * (max - RoundedRatio(max, f) * f) < f
  {
    NearestQuotient(2 * max + f, 2 * f);
    RoundedRatioNearest(max, f);
  }

  lemma RoundedRatioNearest(max: nat, f: nat)
    requires 0 < f
    ensures -(f as int) <= 2 * (max - RoundedRatio(max, f) * f) < f
  {
    DivBounds(2 * max + f, 2 * f);
    DoubledProduct(RoundedRatio(max, f), f);
  }

  lemma NearestQuotient(x: nat, d: nat)
    requires 0 < d <= x
    ensures x / d >= 1
  {
    DivUnique(d, d, 1);
    DivMono(d, x, d);
  }

  lemma DoubledProduct(k: nat, f: nat)
    ensures k * (2 * f) == 2 * (k * f)
  {
  }

  /** Both decoders give a strictly increasing list of existing lines. */
  lemma SelectionsExist(mask: Mask, n: nat)
    ensures IsSelection(Selected(mask, n), n)
    ensures IsSelection(LegacySelected(mask, n), n)
  {
    SelectedIsExact(mask, n);
    LegacyDecoderAgrees(mask, n);
    var s := Selected(mask, n);
    assert forall i :: 0 <= i < |s| ==> s[i] in s;
  }

  // ---- loops of get() over plain buffers ----

  /** The copy_if of one line: every k-th sample of the first m recorded ones. */
  method CopyLine(line: seq<real>, first: nat, second: nat, m: nat, interval: nat) returns (out: seq<real>)
    requires interval >= 1 && first <= second <= |line| && m <= second - first
    ensures out == Stride(line[first..second][..m], interval)
  {
    out := [];
    var end := Min(Min(second, first + m), |line|);
    var i, idx := 0, first;
    ghost var xs := line[first..second][..m];
    while idx < end
      invariant idx == first + i && i <= m
      invariant out == Stride(xs[..i], interval)
    {
      StrideNext(xs, interval, i);
      if i % interval == 0 {
        out := out + [line[idx]];
      }
      i := i + 1;
      idx := idx + 1;
    }
    assert xs[..m] == xs;
  }

  lemma StrideNext(xs: seq<real>, k: nat, i: nat)
    requires k >= 1 && i < |xs|
    ensures Stride(xs[..i + 1], k) == Stride(xs[..i], k) + (if i % k == 0 then [xs[i]] else [])
  {
    StrideExtends(xs, k, i);
    CeilNext(i, k);
  }

  /** One length more is compared. */
  lemma LengthCompared(lens: seq<nat>, j: nat, next: nat, m: nat, x: nat, least: nat)
    requires j < |lens| && next == j + 1 && m == MinOf(lens[..j]) && x == lens[j]
    requires least == if j == 0 || x < m then x else m
    ensures least == MinOf(lens[..next])
  {
    assert lens[..next][..j] == lens[..j];
  }

  lemma CeilNext(i: nat, k: nat)
    requires k >= 1
    ensures CeilDiv(i + 1, k) == CeilDiv(i, k) + (if i % k == 0 then 1 else 0)
    ensures i % k == 0 ==> CeilDiv(i, k) * k == i
  {
    var q, r := i / k, i % k;
    assert i == q * k + r && 0 <= r < k;
    QuotientNext(i, k, q, r);
  }

  lemma QuotientNext(i: nat, k: nat, q: nat, r: nat)
    requires k >= 1 && i == q * k + r && r < k
    ensures (i + k) / k == q + 1 && (i + k - 1) / k == if r == 0 then q else q + 1
  {
    assert (q + 1) * k == q * k + k;
    DivUnique(i + k, k, q + 1);
    DivUnique(i + k - 1, k, if r == 0 then q else q + 1);
  }

  lemma StrideExtends(xs: seq<real>, k: nat, i: nat)
    requires k >= 1 && i < |xs|
    ensures |Stride(xs[..i], k)| <= |Stride(xs[..i + 1], k)|
    ensures forall j :: 0 <= j < |Stride(xs[..i], k)| ==> Stride(xs[..i + 1], k)[j] == Stride(xs[..i], k)[j]
    ensures forall j: nat :: j < |Stride(xs[..i + 1], k)| ==> j * k < |xs| && Stride(xs[..i + 1], k)[j] == xs[j * k]
  {
    DivMono(i + k - 1, i + k, k);
    forall j: nat | j < |Stride(xs[..i + 1], k)| ensures j * k < |xs| && Stride(xs[..i + 1], k)[j] == xs[j * k] {
      CeilDivMeans(i + 1, k, j);
    }
    forall j: nat | j < |Stride(xs[..i], k)| ensures Stride(xs[..i + 1], k)[j] == Stride(xs[..i], k)[j] {
      CeilDivMeans(i, k, j);
    }
  }

  /** What the aggregate walk of one line adds to position j of sum_line. */
  function WalkShare(line: seq<real>, first: nat, second: nat, m: nat, k: nat, j: nat): real
    requires k >= 1 && first <= second <= |line| && m * k <= second - first && j < m
  {
    if j < Visits(m, k) then (WalkInside(line, first, second, m, k, j); line[first + j * k]) else 0.0
  }

  /** The aggregate walk of one line: it adds into sum_line, as many samples as it visits,
      and its iterator stays between the two recorded offsets. */
  method WalkLine(line: seq<real>, first: nat, second: nat, m: nat, interval: nat, sum_line: seq<real>)
    returns (sum: seq<real>, visited: nat)
    requires interval >= 1 && first <= second <= |line| && m * interval <= second - first
    requires |sum_line| == m
    ensures |sum| == m && visited == Visits(m, interval)
    ensures forall j :: 0 <= j < m ==> sum[j] == sum_line[j] + WalkShare(line, first, second, m, interval, j)
  {
    MulMono(1, interval, m);
    var end := Min(Min(second, first + m), |line|);
    var i, idx := 0, first;
    sum := sum_line;
    while idx != end && i < m
      invariant 0 <= i <= m && idx == first + i * interval
      invariant first <= idx <= second
      invariant i <= Visits(m, interval) && |sum| == m
      invariant forall j :: i <= j < m ==> sum[j] == sum_line[j]
      invariant forall j :: 0 <= j < i ==> sum[j] == sum_line[j] + WalkShare(line, first, second, m, interval, j)
      decreases m - i
    {
      VisitsNotYet(m, interval, i);
      WalkInside(line, first, second, m, interval, i);
      sum := sum[i := sum[i] + line[idx]];
      i := i + 1;
      assert i * interval == (i - 1) * interval + interval;
      idx := idx + interval;
    }
    WalkEnd(m, interval, i);
    visited := i;
  }

  lemma WalkInside(line: seq<real>, first: nat, second: nat, m: nat, k: nat, j: nat)
    requires k >= 1 && first <= second <= |line| && m * k <= second - first && j < m
    ensures first + j * k < |line| && first + j * k + k <= second
  {
    MulMono(j + 1, m, k);
    assert (j + 1) * k == j * k + k;
  }

  lemma VisitsNotYet(m: nat, k: nat, i: nat)
    requires k >= 1 && i <= Visits(m, k) && i < m && i * k != m
    ensures i < Visits(m, k)
  {
    DivBounds(m, k);
    assert m == m / k * k + m % k;
  }

  lemma WalkEnd(m: nat, k: nat, i: nat)
    requires k >= 1 && i <= Visits(m, k) && (i * k == m || i == m)
    ensures i == Visits(m, k)
  {
    if i * k == m {
      DivUnique(m, k, i);
    }
  }
}
