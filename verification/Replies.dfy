/** What GET answers: striding, trimming to a common length, aggregation and layout,
    for the C++ server (set by set, then line by line) and the legacy server (line by
    line, then set by set). */
module Replies {
  import opened Util

  /** The samples of one set: for each selected line, by position in the list. */
  type Take = seq<seq<real>>

  /** watts_sets, watts and the number of lines, as the client stores them. */
  datatype Reply = Reply(wattsSets: seq<nat>, watts: seq<real>, linesLen: nat)

  // ---- striding ----

  function CeilDiv(n: nat, k: nat): nat
    requires k > 0
  {
    (n + k - 1) / k
  }

  lemma CeilDivMeans(n: nat, k: nat, i: nat)
    requires k > 0
    ensures i < CeilDiv(n, k) <==> i * k < n
    ensures n / k <= CeilDiv(n, k)
  {
    var q := CeilDiv(n, k);
    DivBounds(n + k - 1, k);
    if i < q {
      MulMono(i, q - 1, k);
      assert (q - 1) * k == q * k - k;
    } else {
      MulMono(q, i, k);
    }
    DivMono(n, n + k - 1, k);
  }

  /** Every k-th sample, beginning with the first. */
  function Stride(xs: seq<real>, k: nat): (r: seq<real>)
    requires k > 0
    ensures |r| == CeilDiv(|xs|, k)
  {
    seq(CeilDiv(|xs|, k), i requires 0 <= i < CeilDiv(|xs|, k) => (CeilDivMeans(|xs|, k, i); xs[i * k]))
  }

  lemma StrideOne(xs: seq<real>)
    ensures Stride(xs, 1) == xs
  {
  }

  // ---- common length of a set ----

  function MinOf(ns: seq<nat>): nat {
    if ns == [] then 0
    else if |ns| == 1 then ns[0]
    else Min(ns[|ns| - 1], MinOf(ns[..|ns| - 1]))
  }

  lemma {:induction false} MinOfMeans(ns: seq<nat>)
    requires ns != []
    ensures MinOf(ns) in ns
    ensures forall i :: 0 <= i < |ns| ==> MinOf(ns) <= ns[i]
  {
    if |ns| > 1 {
      MinOfMeans(ns[..|ns| - 1]);
    }
  }

  function CppLengths(t: Take, k: nat): (r: seq<nat>)
    requires k > 0
  {
    seq(|t|, l requires 0 <= l < |t| => |t[l]| / k)
  }

  function LegacyLengths(t: Take, k: nat): (r: seq<nat>)
    requires k > 0
  {
    seq(|t|, l requires 0 <= l < |t| => CeilDiv(|t[l]|, k))
  }

  /** min_len: an integer quotient in the C++ server, a true ceiling in the legacy one. */
  function CppCommon(t: Take, k: nat): nat
    requires k > 0
  {
    MinOf(CppLengths(t, k))
  }

  function LegacyCommon(t: Take, k: nat): nat
    requires k > 0
  {
    MinOf(LegacyLengths(t, k))
  }

  /** Every strided sample up to the common length lies inside every line of the set. */
  lemma CppCommonInside(t: Take, k: nat, l: nat)
    requires k > 0 && l < |t|
    ensures CppCommon(t, k) * k <= |t[l]| && CppCommon(t, k) <= |t[l]|
  {
    MinOfMeans(CppLengths(t, k));
    var m, n := CppCommon(t, k), |t[l]|;
    assert CppLengths(t, k)[l] == n / k;
    MulMono(m, n / k, k);
    DivBounds(n, k);
  }

  lemma LegacyCommonInside(t: Take, k: nat, l: nat, i: nat)
    requires k > 0 && l < |t| && i < LegacyCommon(t, k)
    ensures i * k < |t[l]| && LegacyCommon(t, k) <= CeilDiv(|t[l]|, k)
  {
    MinOfMeans(LegacyLengths(t, k));
    assert LegacyLengths(t, k)[l] == CeilDiv(|t[l]|, k);
    CeilDivMeans(|t[l]|, k, i);
  }

  /** The prefix sums 0, n0, n0+n1, ... */
  function PrefixSums(ns: seq<nat>): (r: seq<nat>)
    ensures |r| == |ns| + 1
  {
    seq(|ns| + 1, i requires 0 <= i <= |ns| => Sum(ns[..i]))
  }

  // ---- aggregation ----

  /** Sample j of every line. */
  function Column(t: Take, j: nat): seq<real>
    requires forall l :: 0 <= l < |t| ==> j < |t[l]|
  {
    seq(|t|, l requires 0 <= l < |t| => t[l][j])
  }

  /** How many samples the C++ aggregate loop visits on each line: it leaves at
      offset m if a step lands there, and after m steps otherwise. */
  function Visits(m: nat, k: nat): (v: nat)
    requires k > 0
    ensures v <= m
  {
    if m % k == 0 then (DivBounds(m, k); m / k) else m
  }

  function CppAggregate(t: Take, k: nat): (r: seq<real>)
    requires k > 0
    ensures |r| == CppCommon(t, k)
  {
    var m := CppCommon(t, k);
    seq(m, i requires 0 <= i < m =>
      if i < Visits(m, k) then (CppColumnInside(t, k, i); RealSum(Column(t, i * k))) else 0.0)
  }

  lemma CppColumnInside(t: Take, k: nat, i: nat)
    requires k > 0 && i < CppCommon(t, k)
    ensures forall l :: 0 <= l < |t| ==> i * k < |t[l]|
  {
    forall l | 0 <= l < |t| ensures i * k < |t[l]| {
      CppCommonInside(t, k, l);
      MulMono(i + 1, CppCommon(t, k), k);
      assert (i + 1) * k == i * k + k;
    }
  }

  function LegacyAggregate(t: Take, k: nat): (r: seq<real>)
    requires k > 0
    ensures |r| == LegacyCommon(t, k)
  {
    var m := LegacyCommon(t, k);
    seq(m, i requires 0 <= i < m => (LegacyColumnInside(t, k, i); RealSum(Column(t, i * k))))
  }

  lemma LegacyColumnInside(t: Take, k: nat, i: nat)
    requires k > 0 && i < LegacyCommon(t, k)
    ensures forall l :: 0 <= l < |t| ==> i * k < |t[l]|
  {
    forall l | 0 <= l < |t| ensures i * k < |t[l]| {
      LegacyCommonInside(t, k, l, i);
    }
  }

  lemma LegacyTrimAt(t: Take, k: nat, l: nat, i: nat)
    requires k > 0 && l < |t| && i < LegacyCommon(t, k)
    ensures i * k < |t[l]| && LegacyTrim(t, k, l)[i] == t[l][i * k]
  {
    LegacyCommonInside(t, k, l, i);
  }

  // ---- the blocks of samples a reply is made of ----

  /** Block (s, l): the samples of line l in set s. */
  type Blocks = seq<seq<seq<real>>>

  function CppBlock(t: Take, k: nat): seq<seq<real>>
    requires k > 0
  {
    seq(|t|, l requires 0 <= l < |t| => (CppCommonInside(t, k, l); Stride(t[l][..CppCommon(t, k)], k)))
  }

  function LegacyBlock(t: Take, k: nat): seq<seq<real>>
    requires k > 0
  {
    seq(|t|, l requires 0 <= l < |t| => LegacyTrim(t, k, l))
  }

  function LegacyTrim(t: Take, k: nat, l: nat): (r: seq<real>)
    requires k > 0 && l < |t|
    ensures |r| == LegacyCommon(t, k)
  {
    MinOfMeans(LegacyLengths(t, k));
    assert LegacyLengths(t, k)[l] == CeilDiv(|t[l]|, k);
    Stride(t[l], k)[..LegacyCommon(t, k)]
  }

  function FlattenEach(bs: Blocks): seq<seq<real>> {
    seq(|bs|, s requires 0 <= s < |bs| => Flatten(bs[s]))
  }

  /** Set by set, inside a set line by line. */
  function SetMajor(bs: Blocks): seq<real> {
    Flatten(FlattenEach(bs))
  }

  /** The blocks of one line over all sets. */
  function LineBlocks(bs: Blocks, l: nat): seq<seq<real>>
    requires forall s :: 0 <= s < |bs| ==> l < |bs[s]|
  {
    seq(|bs|, s requires 0 <= s < |bs| => bs[s][l])
  }

  function FlattenLines(bs: Blocks, n: nat): (r: seq<seq<real>>)
    requires forall s :: 0 <= s < |bs| ==> |bs[s]| == n
    ensures |r| == n
  {
    seq(n, l requires 0 <= l < n => Flatten(LineBlocks(bs, l)))
  }

  /** Line by line, inside a line set by set. */
  function LineMajor(bs: Blocks, n: nat): seq<real>
    requires forall s :: 0 <= s < |bs| ==> |bs[s]| == n
  {
    Flatten(FlattenLines(bs, n))
  }

  // ---- the two replies ----

  predicate IsTakes(takes: seq<Take>, n: nat) {
    forall s :: 0 <= s < |takes| ==> |takes[s]| == n
  }

  /** What one set contributes to the C++ reply. */
  function CppPart(t: Take, k: nat, aggregate: bool): seq<real>
    requires k > 0
  {
    if aggregate then CppAggregate(t, k) else Flatten(CppBlock(t, k))
  }

  function CppParts(takes: seq<Take>, k: nat, aggregate: bool): (parts: seq<seq<real>>)
    requires k > 0
    ensures |parts| == |takes|
  {
    seq(|takes|, s requires 0 <= s < |takes| => CppPart(takes[s], k, aggregate))
  }

  function CppCommons(takes: seq<Take>, k: nat): (ms: seq<nat>)
    requires k > 0
    ensures |ms| == |takes|
  {
    seq(|takes|, s requires 0 <= s < |takes| => CppCommon(takes[s], k))
  }

  function CppReply(takes: seq<Take>, n: nat, k: nat, aggregate: bool): Reply
    requires k > 0
  {
    Reply(PrefixSums(CppCommons(takes, k)), Flatten(CppParts(takes, k, aggregate)), n)
  }

  function LegacyCommons(takes: seq<Take>, k: nat): (ms: seq<nat>)
    requires k > 0
    ensures |ms| == |takes|
  {
    seq(|takes|, s requires 0 <= s < |takes| => LegacyCommon(takes[s], k))
  }

  function LegacyAggregates(takes: seq<Take>, k: nat): (sums: seq<seq<real>>)
    requires k > 0
    ensures |sums| == |takes|
  {
    seq(|takes|, s requires 0 <= s < |takes| => LegacyAggregate(takes[s], k))
  }

  function CppBlocks(takes: seq<Take>, k: nat): (bs: Blocks)
    requires k > 0
    ensures |bs| == |takes|
  {
    seq(|takes|, s requires 0 <= s < |takes| => CppBlock(takes[s], k))
  }

  function LegacyBlocks(takes: seq<Take>, k: nat): (bs: Blocks)
    requires k > 0
    ensures |bs| == |takes|
  {
    seq(|takes|, s requires 0 <= s < |takes| => LegacyBlock(takes[s], k))
  }

  /** The per-line C++ reply is the set-major layout of its blocks. */
  lemma CppReplyIsSetMajor(takes: seq<Take>, n: nat, k: nat)
    requires k > 0
    ensures CppReply(takes, n, k, false).watts == SetMajor(CppBlocks(takes, k))
  {
    assert CppParts(takes, k, false) == FlattenEach(CppBlocks(takes, k));
  }

  function LegacyReply(takes: seq<Take>, n: nat, k: nat, aggregate: bool): Reply
    requires k > 0 && IsTakes(takes, n)
  {
    Reply(PrefixSums(LegacyCommons(takes, k)),
          if aggregate then Flatten(LegacyAggregates(takes, k))
          else LineMajor(LegacyBlocks(takes, k), n),
          n)
  }

  // ---- where the layouts put a sample ----

  /** Every line of set s has ms[s] samples, and there are n lines. */
  predicate Uniform(bs: Blocks, n: nat, ms: seq<nat>) {
    && |bs| == |ms|
    && (forall s :: 0 <= s < |bs| ==> |bs[s]| == n)
    && (forall s, l :: 0 <= s < |bs| && 0 <= l < n ==> |bs[s][l]| == ms[s])
  }

  lemma SetMajorAt(bs: Blocks, n: nat, ms: seq<nat>, s: nat, l: nat, i: nat)
    requires Uniform(bs, n, ms) && s < |bs| && l < n && i < ms[s]
    ensures n * Sum(ms[..s]) + l * ms[s] + i < |SetMajor(bs)|
    ensures SetMajor(bs)[n * Sum(ms[..s]) + l * ms[s] + i] == bs[s][l][i]
  {
    var sets, within, before := FlattenEach(bs), l * ms[s] + i, n * Sum(ms[..s]);
    FlattenUniformAt(bs[s], ms[s], l, i);
    SetLengths(bs, n, ms);
    SumScaled(Lengths(sets[..s]), ms[..s], n);
    FlattenAt(sets, s, within);
    assert before + within == before + l * ms[s] + i;
  }

  lemma SetLengths(bs: Blocks, n: nat, ms: seq<nat>)
    requires Uniform(bs, n, ms)
    ensures forall s :: 0 <= s < |bs| ==> |Flatten(bs[s])| == n * ms[s]
  {
    forall s | 0 <= s < |bs| ensures |Flatten(bs[s])| == n * ms[s] {
      FlattenLength(bs[s]);
      SumConstant(Lengths(bs[s]), ms[s]);
    }
  }

  lemma SetMajorLength(bs: Blocks, n: nat, ms: seq<nat>)
    requires Uniform(bs, n, ms)
    ensures |SetMajor(bs)| == n * Sum(ms)
  {
    SetLengths(bs, n, ms);
    FlattenLength(FlattenEach(bs));
    SumScaled(Lengths(FlattenEach(bs)), ms, n);
  }

  lemma LineMajorAt(bs: Blocks, n: nat, ms: seq<nat>, s: nat, l: nat, i: nat)
    requires Uniform(bs, n, ms) && s < |bs| && l < n && i < ms[s]
    ensures l * Sum(ms) + (Sum(ms[..s]) + i) < |LineMajor(bs, n)| == n * Sum(ms)
    ensures LineMajor(bs, n)[l * Sum(ms) + (Sum(ms[..s]) + i)] == bs[s][l][i]
  {
    var perLine := FlattenLines(bs, n);
    forall j | 0 <= j < n ensures |perLine[j]| == Sum(ms) {
      LineLength(bs, n, ms, j);
    }
    FlattenAt(LineBlocks(bs, l), s, i);
    LineLength(bs, n, ms, l);
    assert Lengths(LineBlocks(bs, l)[..s]) == ms[..s];
    FlattenUniformAt(perLine, Sum(ms), l, Sum(ms[..s]) + i);
  }

  lemma LineMajorLength(bs: Blocks, n: nat, ms: seq<nat>)
    requires Uniform(bs, n, ms)
    ensures |LineMajor(bs, n)| == n * Sum(ms)
  {
    var perLine := FlattenLines(bs, n);
    forall j | 0 <= j < n ensures |perLine[j]| == Sum(ms) {
      LineLength(bs, n, ms, j);
    }
    FlattenLength(perLine);
    SumConstant(Lengths(perLine), Sum(ms));
  }

  lemma LineLength(bs: Blocks, n: nat, ms: seq<nat>, l: nat)
    requires Uniform(bs, n, ms) && l < n
    ensures |Flatten(LineBlocks(bs, l))| == Sum(ms)
  {
    FlattenLength(LineBlocks(bs, l));
    assert Lengths(LineBlocks(bs, l)) == ms;
  }

  /** For one set the two layouts are the same sequence. */
  lemma OneSetLayoutsCoincide(bs: Blocks, n: nat)
    requires |bs| == 1 && |bs[0]| == n
    ensures SetMajor(bs) == LineMajor(bs, n)
  {
    assert FlattenEach(bs) == [] + [Flatten(bs[0])];
    FlattenSnoc([], Flatten(bs[0]));
    var perLine := FlattenLines(bs, n);
    forall j | 0 <= j < n ensures perLine[j] == bs[0][j] {
      assert LineBlocks(bs, j) == [] + [bs[0][j]];
      FlattenSnoc([], bs[0][j]);
    }
    assert perLine == bs[0];
  }
}
