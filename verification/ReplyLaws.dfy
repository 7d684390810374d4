/** What a client can rely on in a GET reply. */
module ReplyLaws {
  import opened Util
  import opened Replies

  // ---- the C++ server: three counts of samples per set ----

  /** The promised count is m, a line is copied CeilDiv(m, k) times, and the aggregate
      loop visits m/k or m samples. All three agree exactly when the stride is one or
      the set promises at most one sample. */
  lemma CppCountsAgree(t: Take, k: nat)
    requires k > 0
    ensures var m := CppCommon(t, k);
            && (forall l :: 0 <= l < |t| ==> |CppBlock(t, k)[l]| == CeilDiv(m, k))
            && (CeilDiv(m, k) == m && Visits(m, k) == m <==> k == 1 || m <= 1)
  {
    var m := CppCommon(t, k);
    forall l | 0 <= l < |t| ensures |CppBlock(t, k)[l]| == CeilDiv(m, k) {
      CppCommonInside(t, k, l);
    }
    CeilDivIsAll(m, k);
    VisitsAll(m, k);
    if m == 1 && k > 1 {
      assert 1 % k == 1;
    }
  }

  lemma CeilDivIsAll(m: nat, k: nat)
    requires k > 0
    ensures CeilDiv(m, k) == m <==> k == 1 || m <= 1
  {
    if k == 1 || m <= 1 {
      DivUnique(m + k - 1, k, m);
    } else {
      CeilDivMeans(m, k, m - 1);
      MulMono(2, k, m - 1);
    }
  }

  /** The aggregate loop visits every promised sample unless k > 1 divides their number. */
  lemma VisitsAll(m: nat, k: nat)
    requires k > 0
    ensures Visits(m, k) == m <==> k == 1 || m == 0 || m % k != 0
  {
    if k == 1 {
      DivUnique(m, 1, m);
    } else {
      DivBounds(m, k);
      MulMono(2, k, m / k);
      assert k * (m / k) == m / k * k;
    }
  }

  /** The aggregate walk never leaves the recorded set although a step of k can jump
      over its end test; what it adds up at position i is sample i*k of every line. */
  lemma CppAggregateInside(t: Take, k: nat, i: nat)
    requires k > 0 && i < CppCommon(t, k)
    ensures forall l :: 0 <= l < |t| ==> i * k < |t[l]| && i * k + k <= |t[l]|
    ensures CppAggregate(t, k)[i] == if i < Visits(CppCommon(t, k), k) then RealSum(Column(t, i * k)) else 0.0
    ensures Visits(CppCommon(t, k), k) == CppCommon(t, k) <==>
            k == 1 || CppCommon(t, k) == 0 || CppCommon(t, k) % k != 0
  {
    var m := CppCommon(t, k);
    forall l | 0 <= l < |t| ensures i * k + k <= |t[l]| {
      CppCommonInside(t, k, l);
      MulMono(i + 1, m, k);
      assert (i + 1) * k == i * k + k;
    }
    VisitsAll(m, k);
  }

  // ---- the C++ reply at stride one ----

  lemma CppUniform(takes: seq<Take>, n: nat)
    requires IsTakes(takes, n)
    ensures Uniform(CppBlocks(takes, 1), n, CppCommons(takes, 1))
    ensures forall s, l, i :: 0 <= s < |takes| && 0 <= l < n && 0 <= i < CppCommon(takes[s], 1) ==>
              i < |takes[s][l]| && CppBlocks(takes, 1)[s][l][i] == takes[s][l][i]
  {
    forall s, l | 0 <= s < |takes| && 0 <= l < n
      ensures CppCommon(takes[s], 1) <= |takes[s][l]|
      ensures CppBlocks(takes, 1)[s][l] == takes[s][l][..CppCommon(takes[s], 1)]
    {
      CppCommonInside(takes[s], 1, l);
      StrideOne(takes[s][l][..CppCommon(takes[s], 1)]);
    }
  }

  lemma PrefixSumsMean(ms: seq<nat>, s: nat)
    requires s < |ms|
    ensures PrefixSums(ms)[s + 1] == PrefixSums(ms)[s] + ms[s]
    ensures PrefixSums(ms)[|ms|] == Sum(ms)
  {
    assert ms[..s + 1][..s] == ms[..s];
    assert ms[..|ms|] == ms;
  }

  /** x is the sample at a position of the reply. */
  predicate Holds(watts: seq<real>, at: int, x: real) {
    0 <= at < |watts| && watts[at] == x
  }

  /** n*P(s) + l*m + i, where P is the prefix sum that a reply carries in watts_sets. */
  function SetMajorPosition(wattsSets: seq<nat>, n: nat, m: nat, s: nat, l: nat, i: nat): int
    requires s < |wattsSets|
  {
    n * wattsSets[s] + l * m + i
  }

  /** l*total + P(s) + i */
  function LineMajorPosition(wattsSets: seq<nat>, s: nat, l: nat, i: nat): int
    requires s < |wattsSets|
  {
    l * wattsSets[|wattsSets| - 1] + (wattsSets[s] + i)
  }

  lemma SetMajorHolds(bs: Blocks, n: nat, ms: seq<nat>, s: nat, l: nat, i: nat)
    requires Uniform(bs, n, ms) && s < |bs| && l < n && i < ms[s]
    ensures Holds(SetMajor(bs), SetMajorPosition(PrefixSums(ms), n, ms[s], s, l, i), bs[s][l][i])
  {
    SetMajorAt(bs, n, ms, s, l, i);
    assert n * Sum(ms[..s]) >= 0 && l * ms[s] >= 0;
  }

  lemma LineMajorHolds(bs: Blocks, n: nat, ms: seq<nat>, s: nat, l: nat, i: nat)
    requires Uniform(bs, n, ms) && s < |bs| && l < n && i < ms[s]
    ensures Holds(LineMajor(bs, n), LineMajorPosition(PrefixSums(ms), s, l, i), bs[s][l][i])
  {
    LineMajorAt(bs, n, ms, s, l, i);
    PrefixSumsMean(ms, s);
    assert l * Sum(ms) >= 0;
  }

  lemma CppBlockAt(t: Take, l: nat, i: nat)
    requires l < |t| && i < CppCommon(t, 1)
    ensures i < |t[l]| && |CppBlock(t, 1)[l]| == CppCommon(t, 1) && CppBlock(t, 1)[l][i] == t[l][i]
  {
    CppCommonInside(t, 1, l);
    StrideOne(t[l][..CppCommon(t, 1)]);
  }

  /** Sample i of line l in set s of the C++ reply at stride one. */
  lemma CppSampleAt(takes: seq<Take>, n: nat, s: nat, l: nat, i: nat)
    requires IsTakes(takes, n) && s < |takes| && l < n && i < CppCommon(takes[s], 1)
    ensures var r, m := CppReply(takes, n, 1, false), CppCommon(takes[s], 1);
            && r.wattsSets[s + 1] == r.wattsSets[s] + m
            && i < |takes[s][l]|
            && Holds(r.watts, SetMajorPosition(r.wattsSets, n, m, s, l, i), takes[s][l][i])
  {
    var ms, bs := CppCommons(takes, 1), CppBlocks(takes, 1);
    CppReplyIsSetMajor(takes, n, 1);
    CppUniform(takes, n);
    PrefixSumsMean(ms, s);
    SetMajorHolds(bs, n, ms, s, l, i);
    CppBlockAt(takes[s], l, i);
  }

  // ---- the legacy reply at every stride ----

  lemma LegacyUniform(takes: seq<Take>, n: nat, k: nat)
    requires IsTakes(takes, n) && k > 0
    ensures Uniform(LegacyBlocks(takes, k), n, LegacyCommons(takes, k))
  {
    forall s, l | 0 <= s < |takes| && 0 <= l < n
      ensures |LegacyBlocks(takes, k)[s][l]| == LegacyCommon(takes[s], k)
    {
      assert LegacyBlocks(takes, k)[s][l] == LegacyTrim(takes[s], k, l);
    }
  }

  lemma LegacyBlockAt(t: Take, k: nat, l: nat, i: nat)
    requires k > 0 && l < |t| && i < LegacyCommon(t, k)
    ensures i * k < |t[l]| && |LegacyBlock(t, k)[l]| == LegacyCommon(t, k)
    ensures LegacyBlock(t, k)[l][i] == t[l][i * k]
  {
    LegacyCommonInside(t, k, l, i);
    assert LegacyBlock(t, k)[l] == LegacyTrim(t, k, l);
  }

  /** Sample i of line l in set s is the i-th strided sample of the set. */
  lemma LegacySampleAt(takes: seq<Take>, n: nat, k: nat, s: nat, l: nat, i: nat, j: nat)
    requires IsTakes(takes, n) && k > 0 && s < |takes| && l < n && i < LegacyCommon(takes[s], k) && j == i * k
    ensures var r := LegacyReply(takes, n, k, false);
            && r.wattsSets[s + 1] == r.wattsSets[s] + LegacyCommon(takes[s], k)
            && j < |takes[s][l]|
            && Holds(r.watts, LineMajorPosition(r.wattsSets, s, l, i), takes[s][l][j])
  {
    var ms, bs := LegacyCommons(takes, k), LegacyBlocks(takes, k);
    LegacyUniform(takes, n, k);
    PrefixSumsMean(ms, s);
    LineMajorHolds(bs, n, ms, s, l, i);
    LegacyBlockAt(takes[s], k, l, i);
  }

  /** Sample i of set s over all lines of a per-line reply. */
  function PerLineColumn(r: Reply, n: nat, s: nat, i: nat): seq<real>
    requires s < |r.wattsSets|
    requires forall l :: 0 <= l < n ==> 0 <= LineMajorPosition(r.wattsSets, s, l, i) < |r.watts|
  {
    seq(n, l requires 0 <= l < n => r.watts[LineMajorPosition(r.wattsSets, s, l, i)])
  }

  /** The per-line reply has the strided samples of a set in one column. */
  lemma LegacyColumn(takes: seq<Take>, n: nat, k: nat, s: nat, i: nat, j: nat)
    requires IsTakes(takes, n) && k > 0 && s < |takes| && i < LegacyCommon(takes[s], k) && j == i * k
    ensures var r := LegacyReply(takes, n, k, false);
            && (forall l :: 0 <= l < n ==> 0 <= LineMajorPosition(r.wattsSets, s, l, i) < |r.watts|)
            && (forall l :: 0 <= l < n ==> j < |takes[s][l]|)
            && PerLineColumn(r, n, s, i) == Column(takes[s], j)
  {
    var r := LegacyReply(takes, n, k, false);
    forall l | 0 <= l < n
      ensures j < |takes[s][l]|
      ensures Holds(r.watts, LineMajorPosition(r.wattsSets, s, l, i), takes[s][l][j])
    {
      LegacySampleAt(takes, n, k, s, l, i, j);
    }
  }

  /** At every stride the legacy aggregate reply is the column sum of the legacy
      per-line reply, with the same watts_sets. */
  lemma LegacyAggregateIsColumnSum(takes: seq<Take>, n: nat, k: nat, s: nat, i: nat)
    requires IsTakes(takes, n) && k > 0 && s < |takes| && i < LegacyCommon(takes[s], k)
    ensures var r, a := LegacyReply(takes, n, k, false), LegacyReply(takes, n, k, true);
            && a.wattsSets == r.wattsSets
            && (forall l :: 0 <= l < n ==> 0 <= LineMajorPosition(r.wattsSets, s, l, i) < |r.watts|)
            && Holds(a.watts, a.wattsSets[s] + i, RealSum(PerLineColumn(r, n, s, i)))
  {
    LegacyColumn(takes, n, k, s, i, i * k);
    LegacyAggregateAt(takes, n, k, s, i, i * k);
  }

  lemma LegacyAggregateAt(takes: seq<Take>, n: nat, k: nat, s: nat, i: nat, j: nat)
    requires IsTakes(takes, n) && k > 0 && s < |takes| && i < LegacyCommon(takes[s], k) && j == i * k
    requires forall l :: 0 <= l < n ==> j < |takes[s][l]|
    ensures var a := LegacyReply(takes, n, k, true);
            Holds(a.watts, a.wattsSets[s] + i, RealSum(Column(takes[s], j)))
  {
    var sums := LegacyAggregates(takes, k);
    assert Lengths(sums[..s]) == LegacyCommons(takes, k)[..s];
    FlattenAt(sums, s, i);
  }

  // ---- the two servers side by side ----

  /** At stride one both servers promise the same lengths and send the same samples;
      only the position differs, and for one set not even that. */
  lemma RepliesAgreeUpToLayout(takes: seq<Take>, n: nat)
    requires IsTakes(takes, n)
    ensures var c, g := CppReply(takes, n, 1, false), LegacyReply(takes, n, 1, false);
            && c.wattsSets == g.wattsSets && |c.watts| == |g.watts|
            && (|takes| == 1 ==> c == g)
    ensures CppReply(takes, n, 1, true) == LegacyReply(takes, n, 1, true)
    ensures CppBlocks(takes, 1) == LegacyBlocks(takes, 1)
  {
    forall s | 0 <= s < |takes|
      ensures CppLengths(takes[s], 1) == LegacyLengths(takes[s], 1)
      ensures CppCommon(takes[s], 1) == LegacyCommon(takes[s], 1)
      ensures CppBlock(takes[s], 1) == LegacyBlock(takes[s], 1)
      ensures CppAggregate(takes[s], 1) == LegacyAggregate(takes[s], 1)
    {
      SetsAgree(takes[s]);
    }
    assert CppCommons(takes, 1) == LegacyCommons(takes, 1);
    assert CppBlocks(takes, 1) == LegacyBlocks(takes, 1);
    assert CppParts(takes, 1, true) == LegacyAggregates(takes, 1);
    CppReplyIsSetMajor(takes, n, 1);
    CppUniform(takes, n);
    SetMajorLength(CppBlocks(takes, 1), n, CppCommons(takes, 1));
    LineMajorLength(CppBlocks(takes, 1), n, CppCommons(takes, 1));
    if |takes| == 1 {
      OneSetLayoutsCoincide(CppBlocks(takes, 1), n);
    }
  }

  lemma SetsAgree(t: Take)
    ensures CppLengths(t, 1) == LegacyLengths(t, 1)
    ensures CppCommon(t, 1) == LegacyCommon(t, 1)
    ensures CppBlock(t, 1) == LegacyBlock(t, 1)
    ensures CppAggregate(t, 1) == LegacyAggregate(t, 1)
  {
    assert CppLengths(t, 1) == LegacyLengths(t, 1);
    forall l | 0 <= l < |t| ensures CppBlock(t, 1)[l] == LegacyBlock(t, 1)[l] {
      CppCommonInside(t, 1, l);
      StrideOne(t[l]);
      StrideOne(t[l][..CppCommon(t, 1)]);
    }
  }
}
