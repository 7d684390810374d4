/** The Counter class of the legacy server (legacy/daemon/modules/Counter.py), on the
    same device model: its Device and Line classes do the same steps. */
module LegacyCounterObjects {
  import opened Util
  import opened Lines
  import opened Buffers
  import opened Replies
  import opened Sessions
  import opened Counters
  import CounterObjects

  /** [data[w] for w in xrange(first, second, k)] */
  function Range(data: seq<real>, first: nat, second: nat, k: nat): seq<real>
    requires k >= 1 && first <= second <= |data|
  {
    seq(CeilDiv(second - first, k), i requires 0 <= i < CeilDiv(second - first, k) =>
      (CeilDivMeans(second - first, k, i); data[first + i * k]))
  }

  lemma RangeIsStride(data: seq<real>, first: nat, second: nat, k: nat)
    requires k >= 1 && first <= second <= |data|
    ensures Range(data, first, second, k) == Stride(data[first..second], k)
  {
    forall i | 0 <= i < CeilDiv(second - first, k)
      ensures Range(data, first, second, k)[i] == Stride(data[first..second], k)[i]
    {
      CeilDivMeans(second - first, k, i);
    }
  }

  class LegacyCounter {
    const id: int
    const dev: Device
    var running: bool
    var aggregate: bool
    var interval: nat
    var status: State
    var lines: seq<nat>
    var sets: seq<MeasuredSet>

    ghost function View(): Session
      reads this
    {
      Session(lines, interval, aggregate, status, sets)
    }

    ghost predicate Valid()
      reads this, dev.lines
    {
      dev.Valid() && SessionOk(dev.State(), View())
    }

    /** init_counter with an accepted device and frequency */
    constructor (dev: Device, id: int, frequency: nat, aggregate: bool, mask: Mask)
      requires dev.Valid() && dev.maxFrequency > 0
      modifies dev, dev.lines
      ensures this.dev == dev && this.id == id
      ensures running <==> frequency <= dev.maxFrequency
      ensures !running ==> dev.State() == old(dev.State()) && dev.counterMap == old(dev.counterMap)
      ensures running ==>
        && Valid()
        && View() == NewSession(LegacySelected(mask, |dev.lines|), IntervalFor(dev.maxFrequency, frequency).value, aggregate)
        && dev.State() == UpdateLines(old(dev.State()), lines, Enabled)
        && dev.counterMap == old(dev.counterMap)[id := lines]
    {
      this.id, this.dev, this.running := id, dev, false;
      this.aggregate, this.interval, this.status := aggregate, 1, INACTIVE;
      this.lines, this.sets := [], [];
      new;
      if frequency <= dev.maxFrequency {
        IntervalIsNearest(dev.maxFrequency, frequency);
        var f := if frequency == 0 then dev.maxFrequency else frequency;
        interval := RoundedRatio(dev.maxFrequency, f);
        lines := LegacySelected(mask, |dev.lines|);
        SelectionsExist(mask, |dev.lines|);
        dev.RegisterCounter(id, lines);
        running := true;
      }
    }

    predicate LastSetDone()
      reads this
    {
      sets == [] || sets[|sets| - 1].second.Some?
    }

    method OpenSet(clear: bool)
      requires dev.Valid() && IsSelection(lines, |dev.lines|)
      modifies `status, `sets, dev.lines
      ensures dev.State() == UpdateLines(old(dev.State()), lines, Activated)
      ensures View() == if clear then Started(old(View()), Sizes(old(dev.State()), lines))
                        else Continued(old(View()), Sizes(old(dev.State()), lines))
    {
      ghost var ls := dev.State();
      dev.StartCounter(lines);
      ghost var after := dev.State();
      ActivationKeepsData(ls, lines, after);
      status := ACTIVE;
      var lengths := dev.GetLinesSizes(lines);
      assert lengths == Sizes(ls, lines);
      if clear {
        sets := [MeasuredSet(lengths, None)];
      } else {
        sets := sets + [MeasuredSet(lengths, None)];
      }
    }

    method Start() returns (answer: Answer)
      requires Valid() && running
      modifies this, dev.lines
      ensures Valid()
      ensures Effect(dev.State(), View(), running, answer) == LegacyEffect(START, old(dev.State()), old(View()))
    {
      LastSetGuardRedundant(dev.State(), View());
      if status == INACTIVE && LastSetDone() {
        StartDone(dev.State(), View());
        OpenSet(true);
        answer := SUCCESS;
      } else {
        answer := ERROR;
      }
    }

    method Continue() returns (answer: Answer)
      requires Valid() && running
      modifies this, dev.lines
      ensures Valid()
      ensures Effect(dev.State(), View(), running, answer) == LegacyEffect(CONTINUE, old(dev.State()), old(View()))
    {
      LastSetGuardRedundant(dev.State(), View());
      if status == INACTIVE && LastSetDone() {
        ContinueDone(dev.State(), View());
        OpenSet(false);
        answer := SUCCESS;
      } else {
        answer := ERROR;
      }
    }

    method CloseSet()
      requires dev.Valid() && IsSelection(lines, |dev.lines|) && sets != []
      modifies `status, `sets, dev.lines
      ensures dev.State() == UpdateLines(old(dev.State()), lines, Deactivated)
      ensures View() == Stopped(old(View()), Sizes(old(dev.State()), lines))
    {
      ghost var ls := dev.State();
      dev.StopCounter(lines);
      ghost var after := dev.State();
      ActivationKeepsData(ls, lines, after);
      status := INACTIVE;
      var lengths := dev.GetLinesSizes(lines);
      assert lengths == Sizes(ls, lines);
      sets := sets[|sets| - 1 := sets[|sets| - 1].(second := Some(lengths))];
    }

    method Stop() returns (answer: Answer)
      requires Valid() && running
      modifies this, dev.lines
      ensures Valid()
      ensures Effect(dev.State(), View(), running, answer) == LegacyEffect(STOP, old(dev.State()), old(View()))
    {
      LastSetGuardRedundant(dev.State(), View());
      if status == ACTIVE && !LastSetDone() {
        StopDone(dev.State(), View());
        CloseSet();
        answer := SUCCESS;
      } else {
        answer := ERROR;
      }
    }

    /** Stops an active counter before taking it off the device, so the active counts
        stay exact whether the client finalizes or just disappears. */
    method Destroy()
      requires Valid() && id in dev.counterMap
      modifies this, dev, dev.lines
      ensures dev.State() == UpdateLines(LegacyEffect(FINALIZE, old(dev.State()), old(View())).lines, lines, Released)
      ensures dev.counterMap == old(dev.counterMap) - {id}
      ensures View() == old(View()) && !running
    {
      if status == ACTIVE {
        dev.StopCounter(lines);
      }
      dev.DeregisterCounter(id, lines);
      running := false;
    }

    method Finalize() returns (answer: Answer)
      requires Valid() && id in dev.counterMap
      modifies this, dev, dev.lines
      ensures answer == SUCCESS
      ensures dev.State() == UpdateLines(LegacyEffect(FINALIZE, old(dev.State()), old(View())).lines, lines, Released)
      ensures dev.counterMap == old(dev.counterMap) - {id}
      ensures View() == old(View()) && !running
    {
      Destroy();
      answer := SUCCESS;
    }

    // ---- GET ----

    ghost predicate Delimits(se: MeasuredSet, take: Take)
      reads this, dev.lines
    {
      && Valid() && se in sets && se.second.Some?
      && SetOk(dev.State(), lines, se) && take == TakeOf(dev.State(), lines, se)
    }

    lemma Delimited(s: nat)
      requires Valid() && status == INACTIVE && s < |sets|
      ensures Delimits(sets[s], TakesOf(dev.State(), View())[s])
    {
      InactiveSetsAreClosed(dev.State(), View(), s);
    }

    lemma LineDelimited(se: MeasuredSet, take: Take, r: nat)
      requires Delimits(se, take) && r < |lines|
      ensures lines[r] < |dev.lines| && lines[r] in se.first && lines[r] in se.second.value
      ensures se.first[lines[r]] <= se.second.value[lines[r]] <= |dev.lines[lines[r]].data|
      ensures take[r] == dev.lines[lines[r]].data[se.first[lines[r]]..se.second.value[lines[r]]]
    {
      assert lines[r] in lines;
      assert dev.State()[lines[r]].data == dev.lines[lines[r]].data;
    }

    /** How many strided samples the set has on line r. */
    method LineLength(se: MeasuredSet, r: nat, ghost take: Take) returns (length: nat)
      requires Delimits(se, take) && r < |lines|
      ensures r < |LegacyLengths(take, interval)| && length == LegacyLengths(take, interval)[r]
    {
      LineDelimited(se, take, r);
      var l := lines[r];
      var recorded: nat := se.second.value[l] - se.first[l];
      assert recorded == |take[r]|;
      length := CeilDiv(recorded, interval);
    }

    method MinLength(se: MeasuredSet, ghost take: Take) returns (m: nat)
      requires Delimits(se, take)
      ensures m == LegacyCommon(take, interval)
    {
      m := 0;
      ghost var lens := LegacyLengths(take, interval);
      var j := 0;
      while j < |lines|
        invariant 0 <= j <= |lines|
        invariant m == MinOf(lens[..j])
      {
        var length := LineLength(se, j, take);
        var least := if j == 0 || length < m then length else m;
        var next := j + 1;
        LengthCompared(lens, j, next, m, length, least);
        m, j := least, next;
      }
      assert lens[..|lines|] == lens;
    }

    method LengthOfSet(s: nat, ghost ms: seq<nat>) returns (m: nat)
      requires Valid() && status == INACTIVE && s < |sets|
      requires ms == LegacyCommons(TakesOf(dev.State(), View()), interval)
      ensures s < |ms| && m == ms[s]
    {
      Delimited(s);
      m := MinLength(sets[s], TakesOf(dev.State(), View())[s]);
    }

    method SetLengths() returns (min_len: seq<nat>, watts_sets: seq<nat>)
      requires Valid() && status == INACTIVE
      ensures min_len == LegacyCommons(TakesOf(dev.State(), View()), interval)
      ensures watts_sets == PrefixSums(min_len)
    {
      ghost var ms := LegacyCommons(TakesOf(dev.State(), View()), interval);
      min_len, watts_sets := [], [0];
      var s := 0;
      while s < |sets|
        invariant 0 <= s <= |sets|
        invariant min_len == ms[..s] && watts_sets == PrefixSums(ms[..s])
      {
        var m := LengthOfSet(s, ms);
        CounterObjects.PrefixSumsTake(ms, s);
        assert |watts_sets| - 1 == s;
        watts_sets := watts_sets + [m + watts_sets[|watts_sets| - 1]];
        min_len := min_len + [m];
        s := s + 1;
      }
    }

    /** [power_data[w] for w in xrange(first, second, interval)][:min_len] */
    method LineOfSet(se: MeasuredSet, r: nat, m: nat, ghost take: Take) returns (out: seq<real>)
      requires Delimits(se, take) && r < |lines| && m == LegacyCommon(take, interval)
      ensures out == LegacyBlock(take, interval)[r]
    {
      LineDelimited(se, take, r);
      var l := lines[r];
      RangeIsStride(dev.lines[l].data, se.first[l], se.second.value[l], interval);
      MinOfMeans(LegacyLengths(take, interval));
      assert LegacyLengths(take, interval)[r] == CeilDiv(|take[r]|, interval);
      out := Range(dev.lines[l].data, se.first[l], se.second.value[l], interval)[..m];
    }

    method SumSet(se: MeasuredSet, m: nat, ghost take: Take) returns (sum_line: seq<real>)
      requires Delimits(se, take) && m == LegacyCommon(take, interval)
      ensures sum_line == LegacyAggregate(take, interval)
    {
      sum_line := seq(m, _ => 0.0);
      var r := 0;
      assert sum_line == PartialSums(take, interval, 0);
      while r < |lines|
        invariant 0 <= r <= |lines|
        invariant sum_line == PartialSums(take, interval, r)
      {
        var line := LineOfSet(se, r, m, take);
        var idx := 0;
        ghost var before := sum_line;
        while idx < m
          invariant 0 <= idx <= m && |sum_line| == m
          invariant forall i :: 0 <= i < idx ==> sum_line[i] == before[i] + line[i]
          invariant forall i :: idx <= i < m ==> sum_line[i] == before[i]
        {
          sum_line := sum_line[idx := sum_line[idx] + line[idx]];
          idx := idx + 1;
        }
        PartialSumsNext(take, interval, r, sum_line);
        r := r + 1;
      }
      PartialSumsAll(take, interval);
    }

    method SumSets(min_len: seq<nat>) returns (watts: seq<real>)
      requires Valid() && status == INACTIVE && min_len == LegacyCommons(TakesOf(dev.State(), View()), interval)
      ensures watts == LegacyReply(TakesOf(dev.State(), View()), |lines|, interval, true).watts
    {
      ghost var takes := TakesOf(dev.State(), View());
      ghost var parts := LegacyAggregates(takes, interval);
      watts := [];
      var s := 0;
      while s < |sets|
        invariant 0 <= s <= |sets|
        invariant watts == Flatten(parts[..s])
      {
        Delimited(s);
        var sum_line := SumSet(sets[s], min_len[s], takes[s]);
        FlattenTake(parts, s);
        watts := watts + sum_line;
        s := s + 1;
      }
      assert parts[..|sets|] == parts;
    }

    method LineOfSets(r: nat, min_len: seq<nat>) returns (watts: seq<real>)
      requires Valid() && status == INACTIVE && min_len == LegacyCommons(TakesOf(dev.State(), View()), interval)
      requires r < |lines|
      ensures watts == Flatten(LineBlocks(LegacyBlocks(TakesOf(dev.State(), View()), interval), r))
    {
      ghost var takes := TakesOf(dev.State(), View());
      ghost var parts := LineBlocks(LegacyBlocks(takes, interval), r);
      watts := [];
      var s := 0;
      while s < |sets|
        invariant 0 <= s <= |sets|
        invariant watts == Flatten(parts[..s])
      {
        Delimited(s);
        var part := LineOfSet(sets[s], r, min_len[s], takes[s]);
        FlattenTake(parts, s);
        watts := watts + part;
        s := s + 1;
      }
      assert parts[..|sets|] == parts;
    }

    method LinesOfSets(min_len: seq<nat>) returns (watts: seq<real>)
      requires Valid() && status == INACTIVE && min_len == LegacyCommons(TakesOf(dev.State(), View()), interval)
      ensures watts == LegacyReply(TakesOf(dev.State(), View()), |lines|, interval, false).watts
    {
      ghost var bs := LegacyBlocks(TakesOf(dev.State(), View()), interval);
      ghost var parts := FlattenLines(bs, |lines|);
      watts := [];
      var r := 0;
      while r < |lines|
        invariant 0 <= r <= |lines|
        invariant watts == Flatten(parts[..r])
      {
        var part := LineOfSets(r, min_len);
        FlattenTake(parts, r);
        watts := watts + part;
        r := r + 1;
      }
      assert parts[..|lines|] == parts;
    }

    method Get() returns (answer: Answer)
      requires Valid() && running
      ensures Effect(dev.State(), View(), running, answer) == LegacyEffect(GET, dev.State(), View())
    {
      LastSetGuardRedundant(dev.State(), View());
      if status == INACTIVE && LastSetDone() {
        var min_len, watts_sets := SetLengths();
        var watts: seq<real>;
        if aggregate {
          watts := SumSets(min_len);
        } else {
          watts := LinesOfSets(min_len);
        }
        answer := Data(Reply(watts_sets, watts, |lines|));
      } else {
        answer := ERROR;
      }
    }
  }

  /** sum_line after the first r lines. */
  ghost function PartialSums(t: Take, k: nat, r: nat): (sum: seq<real>)
    requires k > 0 && r <= |t|
    ensures |sum| == LegacyCommon(t, k)
  {
    var m := LegacyCommon(t, k);
    seq(m, i requires 0 <= i < m => (LegacyColumnInside(t, k, i); RealSum(Column(t, i * k)[..r])))
  }

  lemma PartialSumsAll(t: Take, k: nat)
    requires k > 0
    ensures PartialSums(t, k, |t|) == LegacyAggregate(t, k)
  {
    forall i | 0 <= i < LegacyCommon(t, k) ensures PartialSums(t, k, |t|)[i] == LegacyAggregate(t, k)[i] {
      LegacyColumnInside(t, k, i);
      assert Column(t, i * k)[..|t|] == Column(t, i * k);
    }
  }

  lemma PartialSumsNext(t: Take, k: nat, r: nat, after: seq<real>)
    requires k > 0 && r < |t| && |after| == LegacyCommon(t, k)
    requires forall i :: 0 <= i < |after| ==> after[i] == PartialSums(t, k, r)[i] + LegacyTrim(t, k, r)[i]
    ensures after == PartialSums(t, k, r + 1)
  {
    forall i | 0 <= i < |after| ensures after[i] == PartialSums(t, k, r + 1)[i] {
      PartialSumsStep(t, k, r, i);
    }
  }

  lemma PartialSumsStep(t: Take, k: nat, r: nat, i: nat)
    requires k > 0 && r < |t| && i < LegacyCommon(t, k)
    ensures PartialSums(t, k, r + 1)[i] == PartialSums(t, k, r)[i] + LegacyTrim(t, k, r)[i]
  {
    LegacyColumnInside(t, k, i);
    LegacyTrimAt(t, k, r, i);
    var column := Column(t, i * k);
    assert column[..r + 1] == column[..r] + [column[r]];
    RealSumSnoc(column[..r], column[r]);
  }
}
