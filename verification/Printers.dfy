/** The client's printers (client/pm_print_data_text.c, client/pm_print_data_csv.c): the index
    arithmetic that finds a sample in the reply, on any reply. Times are left out of the
    rows. */
module Printers {
  import opened Util
  import opened Lines
  import opened PrintColumns
  import opened Replies

  /** One output line: set, the values of the printed lines, and their sum. */
  datatype Row = Row(set_: nat, values: seq<real>, sum: real)

  /** The set number is refused; or reading runs past the end of watts_sets or watts, or
      prints columns that were never filled; or a heading and rows are printed. */
  datatype Printing = Refused | PastEnd | Unfilled | Printed(heading: seq<nat>, rows: seq<Row>)

  // ---- which sets ----

  /** The printers' guard and choice: -1 is all sets. */
  function ChosenSets(r: Reply, set_: int): Option<(nat, nat)>
    requires r.wattsSets != []
  {
    if set_ > |r.wattsSets| - 1 || set_ < -1 then None
    else if set_ == -1 then Some((0, |r.wattsSets| - 1))
    else Some((set_, set_ + 1))
  }

  /** What passes the guard stays inside watts_sets, unless it is the number one past the
      last set. */
  lemma GuardExactly(r: Reply, set_: int)
    requires r.wattsSets != []
    ensures ChosenSets(r, set_).Some? ==> (ChosenSets(r, set_).value.1 < |r.wattsSets| <==> set_ != |r.wattsSets| - 1)
    ensures ChosenSets(r, |r.wattsSets| - 1) == Some((|r.wattsSets| - 1, |r.wattsSets|))
  {
  }

  // ---- the positions that are read ----

  /** watts[at + stride * rank] */
  function Position(at: nat, stride: nat, rank: nat): nat {
    at + stride * rank
  }

  predicate RowInside(watts: seq<real>, at: nat, stride: nat, ranks: seq<nat>) {
    forall j :: 0 <= j < |ranks| ==> Position(at, stride, ranks[j]) < |watts|
  }

  function RowOf(watts: seq<real>, s: nat, at: nat, stride: nat, ranks: seq<nat>): Row
    requires RowInside(watts, at, stride, ranks)
  {
    var values := seq(|ranks|, j requires 0 <= j < |ranks| => watts[Position(at, stride, ranks[j])]);
    Row(s, values, RealSum(values))
  }

  predicate RowsInside(watts: seq<real>, base: nat, m: nat, stride: nat, ranks: seq<nat>) {
    forall at :: base <= at < base + m ==> RowInside(watts, at, stride, ranks)
  }

  /** The m rows of one set, or None where reading them runs past the end. */
  function RowsOf(watts: seq<real>, s: nat, base: nat, m: nat, stride: nat, ranks: seq<nat>): Option<seq<Row>> {
    if RowsInside(watts, base, m, stride, ranks) then
      Some(seq(m, i requires 0 <= i < m => RowOf(watts, s, base + i, stride, ranks)))
    else None
  }

  lemma RowsAre(watts: seq<real>, s: nat, base: nat, m: nat, stride: nat, ranks: seq<nat>, rows: seq<Row>)
    requires |rows| == m
    requires forall at :: base <= at < base + m ==>
               RowInside(watts, at, stride, ranks) && rows[at - base] == RowOf(watts, s, at, stride, ranks)
    ensures RowsOf(watts, s, base, m, stride, ranks) == Some(rows)
  {
    assert RowsInside(watts, base, m, stride, ranks);
    var read := RowsOf(watts, s, base, m, stride, ranks).value;
    forall i | 0 <= i < m ensures read[i] == rows[i] {
      var at := base + i;
      assert RowInside(watts, at, stride, ranks);
      assert rows[at - base] == RowOf(watts, s, at, stride, ranks);
    }
    assert read == rows;
  }

  /** watts_sets never decreases. */
  predicate Ascending(r: Reply) {
    r.wattsSets != [] && forall i, j :: 0 <= i <= j < |r.wattsSets| ==> r.wattsSets[i] <= r.wattsSets[j]
  }

  /** How a printer takes the reply to be laid out: the text printer set by set, n_lines_counter
      lines each, beginning with the first chosen set; the csv printer line by line; both
      an aggregate one sample behind the other. */
  datatype Layout = Text(counted: nat) | Csv | Aggregate

  function BaseOf(r: Reply, layout: Layout, init: nat, s: nat): nat
    requires Ascending(r) && init <= s < |r.wattsSets|
  {
    match layout
    case Text(counted) => counted * (r.wattsSets[s] - r.wattsSets[init])
    case _ => r.wattsSets[s]
  }

  function StrideOf(r: Reply, layout: Layout, m: nat): nat
    requires Ascending(r)
  {
    match layout
    case Text(_) => m
    case Csv => r.wattsSets[|r.wattsSets| - 1] - r.wattsSets[0]
    case Aggregate => 0
  }

  function LengthOf(r: Reply, s: nat): nat
    requires Ascending(r) && s + 1 < |r.wattsSets|
  {
    r.wattsSets[s + 1] - r.wattsSets[s]
  }

  /** The rows of set s, the first chosen set being init. */
  function PartOf(r: Reply, layout: Layout, ranks: seq<nat>, init: nat, s: nat): Option<seq<Row>>
    requires Ascending(r) && init <= s && s + 1 < |r.wattsSets|
  {
    RowsOf(r.watts, s, BaseOf(r, layout, init, s), LengthOf(r, s), StrideOf(r, layout, LengthOf(r, s)), ranks)
  }

  function Appended(rows: Option<seq<Row>>, part: Option<seq<Row>>): Option<seq<Row>> {
    if rows.Some? && part.Some? then Some(rows.value + part.value) else None
  }

  /** The rows of the sets init..last. */
  function SetsOf(r: Reply, layout: Layout, ranks: seq<nat>, init: nat, last: nat): Option<seq<Row>>
    requires Ascending(r) && init <= last < |r.wattsSets|
    decreases last
  {
    if last == init then Some([])
    else Appended(SetsOf(r, layout, ranks, init, last - 1), PartOf(r, layout, ranks, init, last - 1))
  }

  /** What is printed of a reply, once the columns are found. */
  function PrintingOf(r: Reply, layout: Layout, cols: Columns, set_: int): Printing
    requires Ascending(r)
  {
    match ChosenSets(r, set_)
    case None => Refused
    case Some(chosen) =>
      if chosen.1 >= |r.wattsSets| then PastEnd
      else if |cols.lines| < cols.printed then Unfilled
      else
        match SetsOf(r, layout, cols.ranks, chosen.0, chosen.1)
        case None => PastEnd
        case Some(rows) => Printed(cols.lines, rows)
  }

  /** Both printers run past the end of watts_sets for the set number one past the last,
      and refuse every number outside -1 and up to it. */
  lemma OnePastTheLast(r: Reply, layout: Layout, cols: Columns, set_: int)
    requires Ascending(r)
    ensures PrintingOf(r, layout, cols, |r.wattsSets| - 1) == PastEnd
    ensures PrintingOf(r, layout, cols, set_) == Refused <==> set_ < -1 || set_ > |r.wattsSets| - 1
  {
    GuardExactly(r, set_);
  }

  // ---- the printers ----

  /** The innermost loop. */
  method ReadRow(watts: seq<real>, s: nat, at: nat, stride: nat, ranks: seq<nat>) returns (row: Option<Row>)
    ensures row == if RowInside(watts, at, stride, ranks) then Some(RowOf(watts, s, at, stride, ranks)) else None
  {
    var values, sum := [], 0.0;
    var j := 0;
    while j < |ranks|
      invariant 0 <= j <= |ranks| && |values| == j && sum == RealSum(values)
      invariant forall q :: 0 <= q < j ==> Position(at, stride, ranks[q]) < |watts| && values[q] == watts[Position(at, stride, ranks[q])]
    {
      var position := Position(at, stride, ranks[j]);
      if position >= |watts| {
        return None;
      }
      var value := watts[position];
      RealSumSnoc(values, value);
      values := values + [value];
      sum := sum + value;
      j := j + 1;
    }
    assert values == RowOf(watts, s, at, stride, ranks).values;
    row := Some(Row(s, values, sum));
  }

  /** The rows of one set. */
  method ReadSet(watts: seq<real>, s: nat, base: nat, m: nat, stride: nat, ranks: seq<nat>) returns (rows: Option<seq<Row>>)
    ensures rows == RowsOf(watts, s, base, m, stride, ranks)
  {
    var printed := [];
    var at := base;
    while at < base + m
      invariant base <= at <= base + m && |printed| == at - base
      invariant forall q :: base <= q < at ==>
        RowInside(watts, q, stride, ranks) && printed[q - base] == RowOf(watts, s, q, stride, ranks)
    {
      var row := ReadRow(watts, s, at, stride, ranks);
      if row.None? {
        return None;
      }
      printed := printed + [row.value];
      at := at + 1;
    }
    RowsAre(watts, s, base, m, stride, ranks, printed);
    rows := Some(printed);
  }

  /** A set that runs past the end spoils the rest. */
  lemma {:induction false} SpoiledSets(r: Reply, layout: Layout, ranks: seq<nat>, init: nat, s: nat, last: nat)
    requires Ascending(r) && init <= s < last < |r.wattsSets| && PartOf(r, layout, ranks, init, s) == None
    ensures SetsOf(r, layout, ranks, init, last) == None
    decreases last
  {
    if s + 1 < last {
      SpoiledSets(r, layout, ranks, init, s, last - 1);
    }
  }

  /** pm_print_data_text, per-line mode: the running offset. */
  method TextRows(r: Reply, init: nat, last: nat, counted: nat, ranks: seq<nat>) returns (rows: Option<seq<Row>>)
    requires Ascending(r) && init <= last < |r.wattsSets|
    ensures rows == SetsOf(r, Text(counted), ranks, init, last)
  {
    var printed := [];
    var offset, s := 0, init;
    while s < last
      invariant init <= s <= last && offset == BaseOf(r, Text(counted), init, s)
      invariant SetsOf(r, Text(counted), ranks, init, s) == Some(printed)
    {
      var interval := r.wattsSets[s + 1] - r.wattsSets[s];
      var part := ReadSet(r.watts, s, offset, interval, interval, ranks);
      if part.None? {
        SpoiledSets(r, Text(counted), ranks, init, s, last);
        return None;
      }
      printed := printed + part.value;
      OffsetNext(r, counted, init, s);
      offset := offset + counted * interval;
      s := s + 1;
    }
    rows := Some(printed);
  }

  lemma OffsetNext(r: Reply, counted: nat, init: nat, s: nat)
    requires Ascending(r) && init <= s && s + 1 < |r.wattsSets|
    ensures BaseOf(r, Text(counted), init, s + 1) == BaseOf(r, Text(counted), init, s) + counted * LengthOf(r, s)
  {
    assert counted * (r.wattsSets[s + 1] - r.wattsSets[init]) ==
      counted * (r.wattsSets[s] - r.wattsSets[init]) + counted * (r.wattsSets[s + 1] - r.wattsSets[s]);
  }

  /** pm_print_data_csv, per-line mode. */
  method CsvRows(r: Reply, init: nat, last: nat, ranks: seq<nat>) returns (rows: Option<seq<Row>>)
    requires Ascending(r) && init <= last < |r.wattsSets|
    ensures rows == SetsOf(r, Csv, ranks, init, last)
  {
    var interval := r.wattsSets[|r.wattsSets| - 1] - r.wattsSets[0];
    var printed := [];
    var s := init;
    while s < last
      invariant init <= s <= last && SetsOf(r, Csv, ranks, init, s) == Some(printed)
    {
      var ini, fin := r.wattsSets[s], r.wattsSets[s + 1];
      var part := ReadSet(r.watts, s, ini, fin - ini, interval, ranks);
      if part.None? {
        SpoiledSets(r, Csv, ranks, init, s, last);
        return None;
      }
      printed := printed + part.value;
      s := s + 1;
    }
    rows := Some(printed);
  }

  /** Aggregate mode of both printers. */
  method AggregateRows(r: Reply, init: nat, last: nat) returns (rows: Option<seq<Row>>)
    requires Ascending(r) && init <= last < |r.wattsSets|
    ensures rows == SetsOf(r, Aggregate, [0], init, last)
  {
    var printed := [];
    var s := init;
    while s < last
      invariant init <= s <= last && SetsOf(r, Aggregate, [0], init, s) == Some(printed)
    {
      var ini, fin := r.wattsSets[s], r.wattsSets[s + 1];
      var part := ReadSet(r.watts, s, ini, fin - ini, 0, [0]);
      if part.None? {
        SpoiledSets(r, Aggregate, [0], init, s, last);
        return None;
      }
      printed := printed + part.value;
      s := s + 1;
    }
    rows := Some(printed);
  }

  /** An aggregate has one column and no line in its heading. */
  const AGGREGATE := Columns(0, 0, [], [0])

  method PrintAggregate(r: Reply, set_: int) returns (p: Printing)
    requires Ascending(r)
    ensures p == PrintingOf(r, Aggregate, AGGREGATE, set_)
  {
    var chosen := ChosenSets(r, set_);
    if chosen.None? {
      return Refused;
    }
    var (init, last) := chosen.value;
    if last >= |r.wattsSets| {
      return PastEnd;
    }
    var rows := AggregateRows(r, init, last);
    p := if rows.None? then PastEnd else Printed([], rows.value);
  }

  /** pm_print_data_text, on any reply. */
  method PrintText(r: Reply, lines: Mask, counterLines: Mask, set_: int) returns (p: Printing, cols: Columns)
    requires Ascending(r) && IsMask(lines) && IsMask(counterLines)
    ensures cols == ColumnsOf(lines, counterLines, r.linesLen)
    ensures p == PrintingOf(r, Text(cols.counted), cols, set_)
  {
    cols := FindColumns(lines, counterLines, r.linesLen);
    var chosen := ChosenSets(r, set_);
    if chosen.None? {
      return Refused, cols;
    }
    var (init, last) := chosen.value;
    if last >= |r.wattsSets| {
      return PastEnd, cols;
    }
    if |cols.lines| < cols.printed {
      return Unfilled, cols;
    }
    var rows := TextRows(r, init, last, cols.counted, cols.ranks);
    p := if rows.None? then PastEnd else Printed(cols.lines, rows.value);
  }

  /** pm_print_data_csv, on any reply. */
  method PrintCsv(r: Reply, lines: Mask, counterLines: Mask, set_: int) returns (p: Printing, cols: Columns)
    requires Ascending(r) && IsMask(lines) && IsMask(counterLines)
    ensures cols == ColumnsOf(lines, counterLines, r.linesLen)
    ensures p == PrintingOf(r, Csv, cols, set_)
  {
    cols := FindColumns(lines, counterLines, r.linesLen);
    var chosen := ChosenSets(r, set_);
    if chosen.None? {
      return Refused, cols;
    }
    var (init, last) := chosen.value;
    if last >= |r.wattsSets| {
      return PastEnd, cols;
    }
    if |cols.lines| < cols.printed {
      return Unfilled, cols;
    }
    var rows := CsvRows(r, init, last, cols.ranks);
    p := if rows.None? then PastEnd else Printed(cols.lines, rows.value);
  }
}
