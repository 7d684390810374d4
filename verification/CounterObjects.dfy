/** The Counter classes of both servers, each method proved against the function that
    describes it. Operations are atomic. */
module CounterObjects {
  import opened Util
  import opened Lines
  import opened Buffers
  import opened Replies
  import opened Sessions
  import opened Counters

  /** server/counter.cpp */
  class Counter {
    const id: int
    const dev: Device
    var running: bool
    var registered: bool
    var aggregate: bool
    var interval: int
    var status: State
    var lines: seq<nat>
    var sets: seq<MeasuredSet>
    var sizes: map<nat, nat>

    ghost function View(): Session
      reads this
    {
      Session(lines, if interval > 0 then interval else 0, aggregate, status, sets)
    }

    ghost predicate Valid()
      reads this, dev.lines
    {
      dev.Valid() && SessionOk(dev.State(), View())
    }

    /** Reads the creation request; a frequency above the device's leaves the counter
        unregistered, anything else registers it with the lines the mask names. A negative
        frequency passes, and leaves the counter with a stride below one. */
    constructor (dev: Device, id: int, frequency: int, aggregate: bool, mask: Mask)
      requires dev.Valid() && dev.maxFrequency > 0
      modifies dev, dev.lines
      ensures this.dev == dev && this.id == id && running
      ensures registered <==> frequency <= dev.maxFrequency
      ensures !registered ==> dev.State() == old(dev.State()) && dev.counterMap == old(dev.counterMap)
      ensures registered ==>
        && dev.Valid() && (Valid() <==> frequency >= 0)
        && StrideFor(dev.maxFrequency, frequency) == Some(interval)
        && lines == Selected(mask, |dev.lines|)
        && this.aggregate == aggregate && status == INACTIVE && sets == []
        && (frequency >= 0 ==> View() == NewSession(lines, IntervalFor(dev.maxFrequency, frequency).value, aggregate))
        && dev.State() == UpdateLines(old(dev.State()), lines, Enabled)
        && dev.counterMap == old(dev.counterMap)[id := lines]
    {
      this.id, this.dev, this.running, this.registered := id, dev, true, false;
      this.aggregate, this.interval, this.status := aggregate, 1, INACTIVE;
      this.lines, this.sets, this.sizes := [], [], map[];
      new;
      if frequency <= dev.maxFrequency {
        SetFrequency(frequency);
        SetLines(mask);
        SelectionsExist(mask, |dev.lines|);
        dev.RegisterCounter(id, lines);
        registered := true;
      }
    }

    method SetFrequency(frequency: int)
      requires frequency <= dev.maxFrequency && dev.maxFrequency > 0
      modifies this`interval
      ensures StrideFor(dev.maxFrequency, frequency) == Some(interval) && (interval >= 1 <==> frequency >= 0)
      ensures frequency >= 0 ==> IntervalFor(dev.maxFrequency, frequency) == Some(interval)
    {
      StridePositive(dev.maxFrequency, frequency);
      var f := if frequency == 0 then dev.maxFrequency else frequency;
      interval := if f > 0 then RoundedRatio(dev.maxFrequency, f) else 0 - RoundedRatio(dev.maxFrequency, -f);
    }

    /** Decodes the received mask byte by byte, bit by bit. */
    method SetLines(mask: Mask)
      modifies this`lines
      ensures lines == Selected(mask, |dev.lines|)
    {
      lines := [];
      var i := 0;
      while i < |mask|
        invariant 0 <= i <= |mask|
        invariant lines == Selected(mask, Min(8 * i, |dev.lines|))
      {
        SetLinesOfByte(mask, i);
        i := i + 1;
      }
      if 8 * |mask| < |dev.lines| {
        SelectedInside(mask, 8 * |mask|, |dev.lines|);
      }
    }

    /** The eight bits of byte i. */
    method SetLinesOfByte(mask: Mask, i: nat)
      requires i < |mask| && lines == Selected(mask, Min(8 * i, |dev.lines|))
      modifies this`lines
      ensures lines == Selected(mask, Min(8 * (i + 1), |dev.lines|))
    {
      ghost var at := 8 * i;
      var b := 0;
      while b < 8
        invariant 0 <= b <= 8 && at == 8 * i + b
        invariant lines == Selected(mask, Min(at, |dev.lines|))
      {
        var l := i * 8 + b;
        ghost var next := at + 1;
        BitDecoded(mask, i, b, l, next, |dev.lines|, lines);
        if ByteHas(mask[i], b) && l < |dev.lines| {
          lines := lines + [l];
        }
        at, b := next, b + 1;
      }
    }

    /** ~Counter */
    method Destroy()
      requires Valid()
      modifies dev, dev.lines
      ensures dev.State() == if registered && id in old(dev.counterMap) then UpdateLines(old(dev.State()), lines, Released)
                             else old(dev.State())
      ensures dev.counterMap == if registered then old(dev.counterMap) - {id} else old(dev.counterMap)
    {
      if registered {
        dev.DeregisterCounter(id, lines);
      }
    }

    /** sizes.clear() and get_lines_sizes */
    method RecordSizes(ghost ls: seq<LineState>)
      requires dev.Valid() && IsSelection(lines, |dev.lines|) && dev.State() == ls
      modifies `sizes
      ensures sizes == Sizes(ls, lines)
    {
      var found := dev.GetLinesSizes(lines);
      sizes := found;
    }

    /** Activates the lines and records a set that begins at the current offsets;
        start() drops the earlier sets first, restart() keeps them. */
    method OpenSet(clear: bool)
      requires dev.Valid() && IsSelection(lines, |dev.lines|)
      modifies `status, `sizes, `sets, dev.lines
      ensures dev.State() == UpdateLines(old(dev.State()), lines, Activated)
      ensures View() == if clear then Started(old(View()), Sizes(old(dev.State()), lines))
                        else Continued(old(View()), Sizes(old(dev.State()), lines))
    {
      ghost var ls := dev.State();
      dev.StartCounter(lines);
      ghost var after := dev.State();
      ActivationKeepsData(ls, lines, after);
      status := ACTIVE;
      RecordSizes(after);
      if clear {
        sets := [];
      }
      sets := sets + [MeasuredSet(sizes, None)];
      assert clear ==> sets == [MeasuredSet(sizes, None)];
    }

    /** Deactivates the lines and ends the last set at the current offsets. */
    method CloseSet()
      requires dev.Valid() && IsSelection(lines, |dev.lines|) && sets != []
      modifies `status, `sizes, `sets, dev.lines
      ensures dev.State() == UpdateLines(old(dev.State()), lines, Deactivated)
      ensures View() == Stopped(old(View()), Sizes(old(dev.State()), lines))
    {
      ghost var ls := dev.State();
      dev.StopCounter(lines);
      ghost var after := dev.State();
      ActivationKeepsData(ls, lines, after);
      status := INACTIVE;
      RecordSizes(after);
      sets := sets[|sets| - 1 := sets[|sets| - 1].(second := Some(sizes))];
    }

    method Start() returns (answer: Answer)
      requires Valid() && running
      modifies this, dev.lines
      ensures Valid() && registered == old(registered)
      ensures Effect(dev.State(), View(), running, answer) == CppEffect(START, old(dev.State()), old(View()))
    {
      if status == INACTIVE {
        StartDone(dev.State(), View());
        OpenSet(true);
        answer := SUCCESS;
      } else {
        answer := ERROR;
      }
    }

    method Restart() returns (answer: Answer)
      requires Valid() && running
      modifies this, dev.lines
      ensures Valid() && registered == old(registered)
      ensures Effect(dev.State(), View(), running, answer) == CppEffect(CONTINUE, old(dev.State()), old(View()))
    {
      if status == INACTIVE {
        ContinueDone(dev.State(), View());
        OpenSet(false);
        answer := SUCCESS;
      } else {
        answer := ERROR;
      }
    }

    method Stop() returns (answer: Answer)
      requires Valid() && running
      modifies this, dev.lines
      ensures Valid() && registered == old(registered)
      ensures Effect(dev.State(), View(), running, answer) == CppEffect(STOP, old(dev.State()), old(View()))
    {
      if status == ACTIVE {
        StopDone(dev.State(), View());
        CloseSet();
        answer := SUCCESS;
      } else {
        answer := ERROR;
      }
    }

    method Finalize() returns (answer: Answer)
      requires Valid() && running
      modifies this
      ensures Valid() && registered == old(registered)
      ensures Effect(dev.State(), View(), running, answer) == CppEffect(FINALIZE, old(dev.State()), old(View()))
    {
      if status == INACTIVE {
        running := false;
        answer := SUCCESS;
      } else {
        answer := ERROR;
      }
    }

    // ---- GET ----

    /** A closed set of this counter, with the samples it delimits. */
    ghost predicate Delimits(se: MeasuredSet, take: Take)
      reads this, dev.lines
    {
      && Valid() && se in sets && se.second.Some?
      && SetOk(dev.State(), lines, se) && take == TakeOf(dev.State(), lines, se)
    }

    lemma Delimited(s: nat)
      requires Valid() && status == INACTIVE && s < |sets|
      ensures Delimits(sets[s], TakesOf(dev.State(), View())[s])
    {
      InactiveSetsAreClosed(dev.State(), View(), s);
    }

    lemma LineDelimited(se: MeasuredSet, take: Take, r: nat)
      requires Delimits(se, take) && r < |lines|
      ensures lines[r] < |dev.lines| && lines[r] in se.first && lines[r] in se.second.value
      ensures se.first[lines[r]] <= se.second.value[lines[r]] <= |dev.lines[lines[r]].data|
      ensures take[r] == dev.lines[lines[r]].data[se.first[lines[r]]..se.second.value[lines[r]]]
    {
      assert lines[r] in lines;
      assert dev.State()[lines[r]].data == dev.lines[lines[r]].data;
    }

    /** recorded / interval */
    method LineLength(se: MeasuredSet, r: nat, ghost take: Take) returns (length: nat)
      requires Delimits(se, take) && r < |lines|
      ensures r < |CppLengths(take, interval)| && length == CppLengths(take, interval)[r]
    {
      LineDelimited(se, take, r);
      var l := lines[r];
      var recorded: nat := se.second.value[l] - se.first[l];
      assert recorded == |take[r]|;
      DivBounds(recorded, interval);
      length := recorded / interval;
    }

    method MinLength(se: MeasuredSet, ghost take: Take) returns (m: nat)
      requires Delimits(se, take)
      ensures m == CppCommon(take, interval)
    {
      m := 0;
      ghost var lens := CppLengths(take, interval);
      var j := 0;
      while j < |lines|
        invariant 0 <= j <= |lines|
        invariant m == MinOf(lens[..j])
      {
        var length := LineLength(se, j, take);
        var least := if j == 0 || length < m then length else m;
        var next := j + 1;
        LengthCompared(lens, j, next, m, length, least);
        m, j := least, next;
      }
      assert lens[..|lines|] == lens;
    }

    method AggregateSet(se: MeasuredSet, m: nat, ghost take: Take) returns (out: seq<real>)
      requires Delimits(se, take) && m == CppCommon(take, interval)
      ensures out == CppAggregate(take, interval)
    {
      var sum_line := seq(m, _ => 0.0);
      assert sum_line == PartialAggregate(take, interval, 0);
      var r := 0;
      while r < |lines|
        invariant 0 <= r <= |lines|
        invariant sum_line == PartialAggregate(take, interval, r)
      {
        LineDelimited(se, take, r);
        CppCommonInside(take, interval, r);
        var l := lines[r];
        var sum, visited := WalkLine(dev.lines[l].data, se.first[l], se.second.value[l], m, interval, sum_line);
        PartialNext(take, interval, r, dev.lines[l].data, se.first[l], se.second.value[l], sum);
        sum_line := sum;
        r := r + 1;
      }
      PartialAll(take, interval);
      out := sum_line;
    }

    method CopySet(se: MeasuredSet, m: nat, ghost take: Take) returns (out: seq<real>)
      requires Delimits(se, take) && m == CppCommon(take, interval)
      ensures out == Flatten(CppBlock(take, interval))
    {
      out := [];
      ghost var block := CppBlock(take, interval);
      var r := 0;
      while r < |lines|
        invariant 0 <= r <= |lines|
        invariant out == Flatten(block[..r])
      {
        LineDelimited(se, take, r);
        CppCommonInside(take, interval, r);
        var l := lines[r];
        var copied := CopyLine(dev.lines[l].data, se.first[l], se.second.value[l], m, interval);
        assert copied == block[r];
        FlattenTake(block, r);
        out := out + copied;
        r := r + 1;
      }
      assert block[..|lines|] == block;
    }

    method LengthOfSet(s: nat, ghost ms: seq<nat>) returns (m: nat)
      requires Valid() && status == INACTIVE && s < |sets|
      requires ms == CppCommons(TakesOf(dev.State(), View()), interval)
      ensures s < |ms| && m == ms[s]
    {
      Delimited(s);
      m := MinLength(sets[s], TakesOf(dev.State(), View())[s]);
    }

    /** The first loop of get(): min_len and watts_sets. */
    method SetSizes() returns (min_len: seq<nat>, watts_sets: seq<nat>)
      requires Valid() && status == INACTIVE
      ensures min_len == CppCommons(TakesOf(dev.State(), View()), interval)
      ensures watts_sets == PrefixSums(min_len)
    {
      ghost var ms := CppCommons(TakesOf(dev.State(), View()), interval);
      min_len, watts_sets := [], [0];
      var s := 0;
      while s < |sets|
        invariant 0 <= s <= |sets|
        invariant min_len == ms[..s] && watts_sets == PrefixSums(ms[..s])
      {
        var m := LengthOfSet(s, ms);
        SizesNext(ms, s, m, watts_sets);
        watts_sets := watts_sets + [m + watts_sets[|watts_sets| - 1]];
        min_len := min_len + [m];
        s := s + 1;
      }
    }

    /** get() in aggregate mode: one summed series per set. */
    method AggregateSets(min_len: seq<nat>) returns (watts: seq<real>)
      requires Valid() && status == INACTIVE && min_len == CppCommons(TakesOf(dev.State(), View()), interval)
      ensures watts == Flatten(CppParts(TakesOf(dev.State(), View()), interval, true))
    {
      ghost var takes := TakesOf(dev.State(), View());
      ghost var parts := CppParts(takes, interval, true);
      watts := [];
      var s := 0;
      while s < |sets|
        invariant 0 <= s <= |sets|
        invariant watts == Flatten(parts[..s])
      {
        Delimited(s);
        var sum_line := AggregateSet(sets[s], min_len[s], takes[s]);
        FlattenTake(parts, s);
        watts := watts + sum_line;
        s := s + 1;
      }
      assert parts[..|sets|] == parts;
    }

    /** get() otherwise: set by set, line by line. */
    method CopySets(min_len: seq<nat>) returns (watts: seq<real>)
      requires Valid() && status == INACTIVE && min_len == CppCommons(TakesOf(dev.State(), View()), interval)
      ensures watts == Flatten(CppParts(TakesOf(dev.State(), View()), interval, false))
    {
      ghost var takes := TakesOf(dev.State(), View());
      ghost var parts := CppParts(takes, interval, false);
      watts := [];
      var s := 0;
      while s < |sets|
        invariant 0 <= s <= |sets|
        invariant watts == Flatten(parts[..s])
      {
        Delimited(s);
        var part := CopySet(sets[s], min_len[s], takes[s]);
        FlattenTake(parts, s);
        watts := watts + part;
        s := s + 1;
      }
      assert parts[..|sets|] == parts;
    }

    method Get() returns (answer: Answer)
      requires Valid() && running
      ensures Effect(dev.State(), View(), running, answer) == CppEffect(GET, dev.State(), View())
    {
      if status == INACTIVE {
        var min_len, watts_sets := SetSizes();
        var watts: seq<real>;
        if aggregate {
          watts := AggregateSets(min_len);
        } else {
          watts := CopySets(min_len);
        }
        answer := Data(Reply(watts_sets, watts, |lines|));
      } else {
        answer := ERROR;
      }
    }
  }

  /** One bit more is decoded. */
  lemma BitDecoded(mask: Mask, i: nat, b: nat, l: nat, next: nat, n: nat, lines: seq<nat>)
    requires i < |mask| && b < 8 && l == i * 8 + b && next == l + 1 && lines == Selected(mask, Min(l, n))
    ensures Selected(mask, Min(next, n)) == if ByteHas(mask[i], b) && l < n then lines + [l] else lines
  {
    assert l / 8 == i && l % 8 == b;
    SelectedStep(mask, l);
  }

  /** sum_line after the first r lines. */
  ghost function PartialAggregate(t: Take, k: nat, r: nat): (sum: seq<real>)
    requires k > 0 && r <= |t|
    ensures |sum| == CppCommon(t, k)
  {
    var m := CppCommon(t, k);
    seq(m, i requires 0 <= i < m =>
      if i < Visits(m, k) then (CppColumnInside(t, k, i); RealSum(Column(t, i * k)[..r])) else 0.0)
  }

  lemma PartialAll(t: Take, k: nat)
    requires k > 0
    ensures PartialAggregate(t, k, |t|) == CppAggregate(t, k)
  {
    forall i | 0 <= i < Visits(CppCommon(t, k), k) ensures PartialAggregate(t, k, |t|)[i] == CppAggregate(t, k)[i] {
      CppColumnInside(t, k, i);
      assert Column(t, i * k)[..|t|] == Column(t, i * k);
    }
  }

  /** Walking line r turns the partial sums of r lines into those of r+1. */
  lemma PartialNext(t: Take, k: nat, r: nat, line: seq<real>, first: nat, second: nat, after: seq<real>)
    requires k > 0 && r < |t| && first <= second <= |line| && t[r] == line[first..second]
    requires CppCommon(t, k) * k <= second - first && |after| == CppCommon(t, k)
    requires forall j :: 0 <= j < |after| ==>
      after[j] == PartialAggregate(t, k, r)[j] + WalkShare(line, first, second, |after|, k, j)
    ensures after == PartialAggregate(t, k, r + 1)
  {
    forall i | 0 <= i < |after| ensures after[i] == PartialAggregate(t, k, r + 1)[i] {
      if i < Visits(|after|, k) {
        WalkInside(line, first, second, |after|, k, i);
        PartialStep(t, k, r, i);
        assert t[r][i * k] == line[first + i * k];
      }
    }
  }

  lemma PartialStep(t: Take, k: nat, r: nat, i: nat)
    requires k > 0 && r < |t| && i < Visits(CppCommon(t, k), k)
    ensures i * k < |t[r]|
    ensures PartialAggregate(t, k, r + 1)[i] == PartialAggregate(t, k, r)[i] + t[r][i * k]
  {
    CppColumnInside(t, k, i);
    var column := Column(t, i * k);
    assert column[..r + 1] == column[..r] + [column[r]];
    RealSumSnoc(column[..r], column[r]);
  }

  /** One set more is counted. */
  lemma SizesNext(ms: seq<nat>, s: nat, m: nat, sizes: seq<nat>)
    requires s < |ms| && m == ms[s] && sizes == PrefixSums(ms[..s])
    ensures |sizes| == s + 1 && sizes + [m + sizes[|sizes| - 1]] == PrefixSums(ms[..s + 1])
    ensures ms[..s] + [m] == ms[..s + 1]
  {
    PrefixSumsTake(ms, s);
  }

  lemma PrefixSumsTake(ns: seq<nat>, s: nat)
    requires s < |ns|
    ensures PrefixSums(ns[..s + 1]) == PrefixSums(ns[..s]) + [ns[s] + PrefixSums(ns[..s])[s]]
    ensures ns[..s + 1] == ns[..s] + [ns[s]]
  {
    var all := ns[..s + 1];
    forall i | 0 <= i <= s ensures PrefixSums(all)[i] == PrefixSums(ns[..s])[i] {
      assert all[..i] == ns[..s][..i];
    }
    assert all[..s + 1] == all && all[..s] == ns[..s] == ns[..s][..s];
  }
}
