/** What the printed rows should say: the samples of the sets that the reply was made of. */
module PrintedRows {
  import opened Util
  import opened Lines
  import opened PrintColumns
  import opened Printers
  import opened Replies
  import opened ReplyLaws

  // ---- rows of blocks of samples ----

  function SetRows(block: seq<seq<real>>, s: nat, m: nat, ranks: seq<nat>): (rows: seq<Row>)
    requires forall j :: 0 <= j < |ranks| ==> ranks[j] < |block| && |block[ranks[j]]| == m
    ensures |rows| == m
  {
    seq(m, i requires 0 <= i < m => SampleRow(block, s, i, ranks))
  }

  function SampleRow(block: seq<seq<real>>, s: nat, i: nat, ranks: seq<nat>): Row
    requires forall j :: 0 <= j < |ranks| ==> ranks[j] < |block| && i < |block[ranks[j]]|
  {
    var values := seq(|ranks|, j requires 0 <= j < |ranks| => block[ranks[j]][i]);
    Row(s, values, RealSum(values))
  }

  function AllRows(bs: Blocks, n: nat, ms: seq<nat>, ranks: seq<nat>): (rows: seq<seq<Row>>)
    requires Uniform(bs, n, ms) && forall j :: 0 <= j < |ranks| ==> ranks[j] < n
    ensures |rows| == |bs|
  {
    seq(|bs|, s requires 0 <= s < |bs| => SetRows(bs[s], s, ms[s], ranks))
  }

  /** The reply carries these blocks, laid out set by set. */
  ghost predicate CarriesSetMajor(r: Reply, bs: Blocks, ms: seq<nat>) {
    Uniform(bs, r.linesLen, ms) && r.wattsSets == PrefixSums(ms) && r.watts == SetMajor(bs)
  }

  /** The reply carries these blocks, laid out line by line. */
  ghost predicate CarriesLineMajor(r: Reply, bs: Blocks, ms: seq<nat>) {
    Uniform(bs, r.linesLen, ms) && r.wattsSets == PrefixSums(ms) && r.watts == LineMajor(bs, r.linesLen)
  }

  lemma PrefixSumsAscend(ms: seq<nat>, watts: seq<real>, n: nat)
    ensures Ascending(Reply(PrefixSums(ms), watts, n))
  {
    var sums := PrefixSums(ms);
    forall i, j | 0 <= i <= j < |sums| ensures sums[i] <= sums[j] {
      SumMonotone(ms, i, j);
    }
  }

  /** The positions that are read hold the samples of a block. */
  ghost predicate ReadsBlock(watts: seq<real>, block: seq<seq<real>>, base: nat, m: nat, stride: nat, ranks: seq<nat>) {
    && (forall j :: 0 <= j < |ranks| ==> ranks[j] < |block| && |block[ranks[j]]| == m)
    && forall at, j :: base <= at < base + m && 0 <= j < |ranks| ==>
         Holds(watts, Position(at, stride, ranks[j]), block[ranks[j]][at - base])
  }

  lemma RowsAreSamples(watts: seq<real>, block: seq<seq<real>>, s: nat, base: nat, m: nat, stride: nat, ranks: seq<nat>)
    requires ReadsBlock(watts, block, base, m, stride, ranks)
    ensures RowsOf(watts, s, base, m, stride, ranks) == Some(SetRows(block, s, m, ranks))
  {
    forall at | base <= at < base + m
      ensures RowInside(watts, at, stride, ranks)
      ensures RowOf(watts, s, at, stride, ranks) == SampleRow(block, s, at - base, ranks)
    {
      RowIsSample(watts, block, s, base, m, stride, ranks, at);
    }
    RowsAre(watts, s, base, m, stride, ranks, SetRows(block, s, m, ranks));
  }

  lemma RowIsSample(watts: seq<real>, block: seq<seq<real>>, s: nat, base: nat, m: nat, stride: nat, ranks: seq<nat>, at: nat)
    requires ReadsBlock(watts, block, base, m, stride, ranks) && base <= at < base + m
    ensures RowInside(watts, at, stride, ranks)
    ensures RowOf(watts, s, at, stride, ranks) == SampleRow(block, s, at - base, ranks)
  {
    forall j | 0 <= j < |ranks| ensures Holds(watts, Position(at, stride, ranks[j]), block[ranks[j]][at - base]) {
    }
    assert RowOf(watts, s, at, stride, ranks).values == SampleRow(block, s, at - base, ranks).values;
  }

  lemma {:induction false} SetsFromParts(r: Reply, layout: Layout, ranks: seq<nat>, parts: seq<seq<Row>>, init: nat, last: nat)
    requires Ascending(r) && init <= last < |r.wattsSets| && last <= |parts|
    requires forall s :: init <= s < last ==> PartOf(r, layout, ranks, init, s) == Some(parts[s])
    ensures SetsOf(r, layout, ranks, init, last) == Some(Flatten(parts[init..last]))
    decreases last
  {
    if init < last {
      SetsFromParts(r, layout, ranks, parts, init, last - 1);
      assert parts[init..last][..last - init - 1] == parts[init..last - 1];
    }
  }

  /** The reply has one prefix sum more than sets, and set s has ms[s] samples. */
  lemma LengthIs(r: Reply, ms: seq<nat>, s: nat)
    requires r.wattsSets == PrefixSums(ms) && s < |ms|
    ensures Ascending(r) && LengthOf(r, s) == ms[s]
    ensures r.wattsSets[s] == Sum(ms[..s]) && r.wattsSets[0] == 0 && r.wattsSets[|ms|] == Sum(ms)
  {
    PrefixSumsAscend(ms, r.watts, r.linesLen);
    PrefixSumsMean(ms, s);
    assert ms[..0] == [];
  }

  lemma SetMajorPlaced(bs: Blocks, n: nat, ms: seq<nat>, s: nat, rank: nat, i: nat, at: nat, m: nat)
    requires Uniform(bs, n, ms) && s < |bs| && i < m && rank < n && at == n * Sum(ms[..s]) + i && m == ms[s]
    ensures Holds(SetMajor(bs), Position(at, m, rank), bs[s][rank][i])
  {
    SetMajorAt(bs, n, ms, s, rank, i);
    assert rank * m == m * rank;
  }

  lemma SetMajorReads(bs: Blocks, n: nat, ms: seq<nat>, s: nat, ranks: seq<nat>, base: nat, m: nat)
    requires Uniform(bs, n, ms) && s < |bs| && base == n * Sum(ms[..s]) && m == ms[s]
    requires forall j :: 0 <= j < |ranks| ==> ranks[j] < n
    ensures ReadsBlock(SetMajor(bs), bs[s], base, m, m, ranks)
  {
    forall at, j | base <= at < base + m && 0 <= j < |ranks|
      ensures Holds(SetMajor(bs), Position(at, m, ranks[j]), bs[s][ranks[j]][at - base])
    {
      SetMajorPlaced(bs, n, ms, s, ranks[j], at - base, at, m);
    }
  }

  lemma LineMajorPlaced(bs: Blocks, n: nat, ms: seq<nat>, s: nat, rank: nat, i: nat, at: nat, total: nat)
    requires Uniform(bs, n, ms) && s < |bs| && i < ms[s] && rank < n && at == Sum(ms[..s]) + i && total == Sum(ms)
    ensures Holds(LineMajor(bs, n), Position(at, total, rank), bs[s][rank][i])
  {
    LineMajorAt(bs, n, ms, s, rank, i);
    assert rank * total == total * rank;
  }

  lemma LineMajorReads(bs: Blocks, n: nat, ms: seq<nat>, s: nat, ranks: seq<nat>, base: nat, m: nat, total: nat)
    requires Uniform(bs, n, ms) && s < |bs| && base == Sum(ms[..s]) && m == ms[s] && total == Sum(ms)
    requires forall j :: 0 <= j < |ranks| ==> ranks[j] < n
    ensures ReadsBlock(LineMajor(bs, n), bs[s], base, m, total, ranks)
  {
    forall at, j | base <= at < base + m && 0 <= j < |ranks|
      ensures Holds(LineMajor(bs, n), Position(at, total, ranks[j]), bs[s][ranks[j]][at - base])
    {
      LineMajorPlaced(bs, n, ms, s, ranks[j], at - base, at, total);
    }
  }

  // ---- aggregate mode ----

  function SeriesRows(series: seq<real>, s: nat): (rows: seq<Row>) {
    seq(|series|, i requires 0 <= i < |series| => Row(s, [series[i]], series[i]))
  }

  function AllSeriesRows(series: seq<seq<real>>): (rows: seq<seq<Row>>)
    ensures |rows| == |series|
  {
    seq(|series|, s requires 0 <= s < |series| => SeriesRows(series[s], s))
  }

  /** The reply carries one series per set, one behind the other. */
  ghost predicate CarriesSeries(r: Reply, series: seq<seq<real>>) {
    r.wattsSets == PrefixSums(Lengths(series)) && r.watts == Flatten(series)
  }

  /** The values from `base` on are those of xs. */
  ghost predicate ReadsSeries(watts: seq<real>, base: nat, xs: seq<real>) {
    forall i :: 0 <= i < |xs| ==> Holds(watts, base + i, xs[i])
  }

  lemma SeriesPart(r: Reply, series: seq<seq<real>>, init: nat, s: nat)
    requires CarriesSeries(r, series) && init <= s < |series|
    ensures Ascending(r) && PartOf(r, Aggregate, [0], init, s) == Some(SeriesRows(series[s], s))
  {
    var base := Sum(Lengths(series[..s]));
    LengthIs(r, Lengths(series), s);
    assert Lengths(series)[..s] == Lengths(series[..s]);
    forall i | 0 <= i < |series[s]| ensures Holds(r.watts, base + i, series[s][i]) {
      FlattenAt(series, s, i);
    }
    ValuesRead(r.watts, s, base, series[s], SeriesRows(series[s], s));
  }

  lemma ValuesRead(watts: seq<real>, s: nat, base: nat, xs: seq<real>, rows: seq<Row>)
    requires ReadsSeries(watts, base, xs) && rows == SeriesRows(xs, s)
    ensures RowsOf(watts, s, base, |xs|, 0, [0]) == Some(rows)
  {
    forall at | base <= at < base + |xs|
      ensures RowInside(watts, at, 0, [0]) && rows[at - base] == RowOf(watts, s, at, 0, [0])
    {
      var i := at - base;
      assert Holds(watts, base + i, xs[i]);
      OneValue(watts, s, at, xs[i]);
    }
    RowsAre(watts, s, base, |xs|, 0, [0], rows);
  }

  lemma OneValue(watts: seq<real>, s: nat, at: nat, x: real)
    requires at < |watts| && watts[at] == x
    ensures RowInside(watts, at, 0, [0]) && RowOf(watts, s, at, 0, [0]) == Row(s, [x], x)
  {
    assert RowOf(watts, s, at, 0, [0]).values == [x];
    assert [x] == [] + [x];
    RealSumSnoc([], x);
  }

  /** An aggregate reply is printed series by series, for every choice of sets. */
  lemma AggregatePrintsSeries(r: Reply, series: seq<seq<real>>, set_: int)
    requires CarriesSeries(r, series) && -1 <= set_ < |series|
    ensures Ascending(r)
    ensures var (init, last) := if set_ == -1 then (0, |series|) else (set_, set_ + 1);
            PrintingOf(r, Aggregate, AGGREGATE, set_) == Printed([], Flatten(AllSeriesRows(series)[init..last]))
  {
    PrefixSumsAscend(Lengths(series), r.watts, r.linesLen);
    var init: nat, last: nat := if set_ == -1 then 0 else set_, if set_ == -1 then |series| else set_ + 1;
    forall s | init <= s < last ensures PartOf(r, Aggregate, [0], init, s) == Some(AllSeriesRows(series)[s]) {
      SeriesPart(r, series, init, s);
    }
    SetsFromParts(r, Aggregate, [0], AllSeriesRows(series), init, last);
  }

  /** The aggregate replies of both servers carry one series per set. */
  lemma AggregateRepliesCarrySeries(takes: seq<Take>, n: nat, k: nat)
    requires k >= 1 && IsTakes(takes, n)
    ensures CarriesSeries(CppReply(takes, n, k, true), CppParts(takes, k, true))
    ensures CarriesSeries(LegacyReply(takes, n, k, true), LegacyAggregates(takes, k))
  {
    assert Lengths(CppParts(takes, k, true)) == CppCommons(takes, k);
    assert Lengths(LegacyAggregates(takes, k)) == LegacyCommons(takes, k);
  }

  // ---- the printed file means the recorded samples ----

  /** Row base+i belongs to set s and shows, for every line of the heading, sample x of
      that line in the take; its sum is the sum of what it shows. */
  ghost predicate RowShows(rows: seq<Row>, base: nat, i: nat, s: nat, heading: seq<nat>, selected: seq<nat>, take: Take, x: nat) {
    && base + i < |rows| && rows[base + i].set_ == s
    && |rows[base + i].values| == |heading| && rows[base + i].sum == RealSum(rows[base + i].values)
    && forall j, rank :: 0 <= j < |heading| && 0 <= rank < |selected| && selected[rank] == heading[j] && rank < |take| ==>
         x < |take[rank]| && rows[base + i].values[j] == take[rank][x]
  }

  /** The m rows of set s, from row `base` on, show every k-th sample of its take. */
  ghost predicate SetShown(rows: seq<Row>, base: nat, s: nat, m: nat, heading: seq<nat>, selected: seq<nat>, take: Take, k: nat) {
    forall i :: 0 <= i < m ==> RowShows(rows, base, i, s, heading, selected, take, i * k)
  }

  /** The rows of the sets init..last, and no others. */
  ghost predicate Shows(rows: seq<Row>, init: nat, last: nat, ms: seq<nat>, heading: seq<nat>, selected: seq<nat>, takes: seq<Take>, k: nat)
    requires |ms| == |takes| && init <= last <= |takes|
  {
    && |rows| == Sum(ms[init..last])
    && forall s :: init <= s < last ==> SetShown(rows, Sum(ms[init..s]), s, ms[s], heading, selected, takes[s], k)
  }

  lemma RowAt(bs: Blocks, n: nat, ms: seq<nat>, ranks: seq<nat>, init: nat, last: nat, s: nat, i: nat)
    requires Uniform(bs, n, ms) && forall j :: 0 <= j < |ranks| ==> ranks[j] < n
    requires init <= s < last <= |bs| && i < ms[s]
    ensures Sum(ms[init..s]) + i < |Flatten(AllRows(bs, n, ms, ranks)[init..last])|
    ensures Flatten(AllRows(bs, n, ms, ranks)[init..last])[Sum(ms[init..s]) + i] == SampleRow(bs[s], s, i, ranks)
  {
    var parts, j, k := AllRows(bs, n, ms, ranks)[init..last], s - init, Sum(ms[init..s]);
    RowLengths(bs, n, ms, ranks, init, last, s);
    assert parts[j] == SetRows(bs[s], s, ms[s], ranks) && i < |parts[j]|;
    FlattenAt(parts, j, i);
    assert k == Sum(Lengths(parts[..j]));
    assert Flatten(parts)[k + i] == parts[j][i];
  }

  lemma RowLengths(bs: Blocks, n: nat, ms: seq<nat>, ranks: seq<nat>, init: nat, last: nat, s: nat)
    requires Uniform(bs, n, ms) && forall j :: 0 <= j < |ranks| ==> ranks[j] < n
    requires init <= s <= last <= |bs|
    ensures Lengths(AllRows(bs, n, ms, ranks)[init..last][..s - init]) == ms[init..s]
  {
    var lengths := Lengths(AllRows(bs, n, ms, ranks)[init..last][..s - init]);
    forall q | 0 <= q < s - init ensures lengths[q] == ms[init..s][q] {
      assert AllRows(bs, n, ms, ranks)[init..last][q] == SetRows(bs[init + q], init + q, ms[init + q], ranks);
    }
  }

  lemma RowCount(bs: Blocks, n: nat, ms: seq<nat>, ranks: seq<nat>, init: nat, last: nat)
    requires Uniform(bs, n, ms) && forall j :: 0 <= j < |ranks| ==> ranks[j] < n
    requires init <= last <= |bs|
    ensures |Flatten(AllRows(bs, n, ms, ranks)[init..last])| == Sum(ms[init..last])
  {
    var parts := AllRows(bs, n, ms, ranks)[init..last];
    RowLengths(bs, n, ms, ranks, init, last, last);
    assert parts[..last - init] == parts;
    FlattenLength(parts);
  }

  /** Every k-th sample of a line, m of them. */
  ghost predicate LineOf(line: seq<real>, xs: seq<real>, m: nat, k: nat) {
    |line| == m && forall i :: 0 <= i < m ==> i * k < |xs| && line[i] == xs[i * k]
  }

  ghost predicate BlockOf(block: seq<seq<real>>, take: Take, m: nat, k: nat) {
    |block| == |take| && forall l :: 0 <= l < |block| ==> LineOf(block[l], take[l], m, k)
  }

  ghost predicate BlocksOf(bs: Blocks, takes: seq<Take>, n: nat, ms: seq<nat>, k: nat) {
    && |bs| == |takes| == |ms| && IsTakes(takes, n)
    && forall s :: 0 <= s < |bs| ==> BlockOf(bs[s], takes[s], ms[s], k)
  }

  lemma BlocksAreUniform(bs: Blocks, takes: seq<Take>, n: nat, ms: seq<nat>, k: nat)
    requires BlocksOf(bs, takes, n, ms, k)
    ensures Uniform(bs, n, ms)
  {
    forall s, l | 0 <= s < |bs| && 0 <= l < n ensures |bs[s]| == n && |bs[s][l]| == ms[s] {
      assert BlockOf(bs[s], takes[s], ms[s], k);
      assert LineOf(bs[s][l], takes[s][l], ms[s], k);
    }
    forall s | 0 <= s < |bs| ensures |bs[s]| == n {
      assert BlockOf(bs[s], takes[s], ms[s], k);
    }
  }

  /** Reading the blocks at the found columns shows the takes the blocks were made of. */
  lemma RowsShow(bs: Blocks, takes: seq<Take>, k: nat, ms: seq<nat>, ind_print: seq<nat>, heading: seq<nat>, selected: seq<nat>, init: nat, last: nat)
    requires Uniform(bs, |selected|, ms) && BlocksOf(bs, takes, |selected|, ms, k)
    requires ColumnsFound(ind_print, heading, selected) && init <= last <= |bs|
    ensures Shows(Flatten(AllRows(bs, |selected|, ms, ind_print)[init..last]), init, last, ms, heading, selected, takes, k)
  {
    var rows := Flatten(AllRows(bs, |selected|, ms, ind_print)[init..last]);
    RowCount(bs, |selected|, ms, ind_print, init, last);
    forall s | init <= s < last
      ensures SetShown(rows, Sum(ms[init..s]), s, ms[s], heading, selected, takes[s], k)
    {
      forall i | 0 <= i < ms[s]
        ensures RowShows(rows, Sum(ms[init..s]), i, s, heading, selected, takes[s], i * k)
      {
        RowAt(bs, |selected|, ms, ind_print, init, last, s, i);
        assert BlockOf(bs[s], takes[s], ms[s], k);
        SampleRowShows(bs[s], s, i, ind_print, heading, selected, takes[s], ms[s], k);
      }
    }
  }

  lemma SampleRowShows(block: seq<seq<real>>, s: nat, i: nat, ind_print: seq<nat>, heading: seq<nat>, selected: seq<nat>, take: Take, m: nat, k: nat)
    requires ColumnsFound(ind_print, heading, selected) && |block| == |selected|
    requires BlockOf(block, take, m, k) && i < m
    ensures forall j :: 0 <= j < |ind_print| ==> ind_print[j] < |block| && i < |block[ind_print[j]]|
    ensures var row := SampleRow(block, s, i, ind_print);
            && |row.values| == |heading|
            && forall j, rank :: 0 <= j < |heading| && 0 <= rank < |selected| && selected[rank] == heading[j] ==>
              i * k < |take[rank]| && row.values[j] == take[rank][i * k]
  {
    forall j, rank | 0 <= j < |heading| && 0 <= rank < |selected| && selected[rank] == heading[j]
      ensures rank == ind_print[j] && LineOf(block[rank], take[rank], m, k)
    {
      assert selected[ind_print[j]] == heading[j];
    }
    forall j | 0 <= j < |ind_print| ensures i < |block[ind_print[j]]| {
      assert LineOf(block[ind_print[j]], take[ind_print[j]], m, k);
    }
  }

  // ---- a printed file ----

  /** It has the requested lines of the device in its heading, and the rows of the sets
      init..last with their samples. */
  ghost predicate PrintedRight(p: Printing, lines: Mask, counterLines: Mask, n: nat, selected: seq<nat>, init: nat, last: nat,
                               ms: seq<nat>, takes: seq<Take>, k: nat)
    requires |ms| == |takes| && init <= last <= |takes|
  {
    p.Printed? && HeadingNames(p.heading, lines, counterLines, n) && Shows(p.rows, init, last, ms, p.heading, selected, takes, k)
  }

  lemma SetsPrinted(r: Reply, layout: Layout, cols: Columns, set_: int, init: nat, last: nat)
    requires Ascending(r) && -1 <= set_ < |r.wattsSets| - 1 && |cols.lines| == cols.printed
    requires init == (if set_ == -1 then 0 else set_) && last == (if set_ == -1 then |r.wattsSets| - 1 else set_ + 1)
    requires SetsOf(r, layout, cols.ranks, init, last).Some?
    ensures PrintingOf(r, layout, cols, set_) == Printed(cols.lines, SetsOf(r, layout, cols.ranks, init, last).value)
  {
  }
}
