/** Inputs at which a printer prints a wrong file: one for every way in which the conditions
    of TextLaws and CsvLaws fail. */
module Misprints {
  import opened Util
  import opened Lines
  import opened PrintColumns
  import opened Printers
  import opened PrintedRows
  import opened Replies
  import opened ReplyLaws
  import opened TextLaws
  import opened CsvLaws

  /** The mask has exactly these lines. */
  ghost predicate Names(m: Mask, lineNumbers: set<nat>) {
    IsMask(m) && forall l: nat :: IsSet(m, l) <==> l in lineNumbers
  }

  lemma StopAt(m: Mask, wanted: nat, stop: nat)
    requires stop <= NLINEBITS && (stop == NLINEBITS || |Selected(m, stop)| >= wanted)
    requires stop == 0 || |Selected(m, stop - 1)| < wanted
    ensures Stop(m, wanted, 0) == stop
  {
    var found := Stop(m, wanted, 0);
    if found < stop {
      SelectedMonotone(m, found, stop - 1);
    }
  }

  lemma OneLine(m: Mask, l: nat)
    requires Names(m, {l}) && l < NLINEBITS
    ensures forall i: nat :: i <= l ==> Selected(m, i) == []
    ensures forall i: nat :: l < i <= NLINEBITS ==> Selected(m, i) == [l]
  {
    forall i: nat | i <= l ensures Selected(m, i) == [] {
      SelectedInside(m, 0, i);
    }
    forall i: nat | l < i <= NLINEBITS ensures Selected(m, i) == [l] {
      SelectedInside(m, l + 1, i);
    }
  }

  lemma FirstTwo(m: Mask)
    requires IsMask(m) && IsSet(m, 0) && IsSet(m, 1)
    ensures Selected(m, 0) == [] && Selected(m, 1) == [0] && Selected(m, 2) == [0, 1]
  {
  }

  lemma ThreeLines(m: Mask, l: nat)
    requires Names(m, {0, 1, l}) && 2 <= l < NLINEBITS
    ensures Selected(m, 1) == [0] && Selected(m, 2) == [0, 1] && Selected(m, NLINEBITS) == [0, 1, l]
  {
    FirstTwo(m);
    SelectedInside(m, 2, l);
    SelectedStep(m, l);
    SelectedInside(m, l + 1, NLINEBITS);
  }

  /** One of two lines requested. */
  lemma FirstOfTwo(lines: Mask, counterLines: Mask, l: nat)
    requires Names(lines, {0}) && Names(counterLines, {0, 1, l}) && (l == 0 || 2 <= l < NLINEBITS)
    ensures Selected(counterLines, 2) == [0, 1]
    ensures ColumnsOf(lines, counterLines, 2) == Columns(1, if l == 0 then 2 else 3, [0], [0])
  {
    var both := Anded(lines, counterLines);
    BothAreCommon(lines, counterLines);
    assert Names(both, {0});
    OneLine(both, 0);
    FirstTwo(counterLines);
    StopAt(counterLines, 2, 2);
    StopAt(both, 2, NLINEBITS);
    LinesCounted(counterLines, l);
    ColumnsFrom(lines, counterLines, 2, NLINEBITS, 2);
    NoRank(counterLines, 0);
  }

  lemma LinesCounted(m: Mask, l: nat)
    requires Names(m, {0, 1, l}) && (l == 0 || 2 <= l < NLINEBITS)
    ensures |Selected(m, NLINEBITS)| == if l == 0 then 2 else 3
  {
    if l == 0 {
      FirstTwo(m);
      SelectedInside(m, 2, NLINEBITS);
    } else {
      ThreeLines(m, l);
    }
  }

  lemma NoRank(m: Mask, l: nat)
    requires Selected(m, l) == []
    ensures Ranks(m, [l]) == [0]
  {
  }

  lemma ColumnsFrom(lines: Mask, counterLines: Mask, lines_len: nat, counting: nat, selecting: nat)
    requires IsMask(lines) && IsMask(counterLines) && counting <= NLINEBITS && selecting <= NLINEBITS
    requires Stop(Anded(lines, counterLines), lines_len, 0) == counting && Stop(counterLines, lines_len, 0) == selecting
    ensures var both := Anded(lines, counterLines);
            ColumnsOf(lines, counterLines, lines_len) ==
            Columns(|Selected(both, counting)|, |Selected(counterLines, counting)|, Selected(both, selecting),
                    Ranks(counterLines, Selected(both, selecting)))
  {
  }

  /** A single column of rank 0 is a stretch of the reply. */
  lemma FirstColumn(watts: seq<real>, s: nat, base: nat, m: nat, stride: nat)
    requires base + m <= |watts|
    ensures RowsOf(watts, s, base, m, stride, [0]) == Some(SeriesRows(watts[base..base + m], s))
  {
    var rows := SeriesRows(watts[base..base + m], s);
    forall at | base <= at < base + m
      ensures RowInside(watts, at, stride, [0]) && rows[at - base] == RowOf(watts, s, at, stride, [0])
    {
      FirstValue(watts, s, at, stride);
    }
    RowsAre(watts, s, base, m, stride, [0], rows);
  }

  lemma FirstValue(watts: seq<real>, s: nat, at: nat, stride: nat)
    requires at < |watts|
    ensures RowInside(watts, at, stride, [0]) && RowOf(watts, s, at, stride, [0]) == Row(s, [watts[at]], watts[at])
  {
    assert Position(at, stride, 0) == at;
    assert RowOf(watts, s, at, stride, [0]).values == [watts[at]];
    RealSumSnoc([], watts[at]);
    assert [] + [watts[at]] == [watts[at]];
  }

  // ---- a C++ reply above stride one ----

  lemma PairFlat(xs: seq<seq<real>>)
    requires |xs| == 2
    ensures Flatten(xs) == xs[0] + xs[1]
  {
    assert xs[..1][..0] == [];
    assert Flatten(xs[..1]) == [] + xs[0];
  }

  /** A set of two lines that promises m samples of each. */
  lemma PairPart(t: Take, k: nat, m: nat, x: seq<real>, y: seq<real>)
    requires |t| == 2 && k >= 1 && |t[0]| == |t[1]| && |t[0]| / k == m <= |t[0]|
    requires x == Stride(t[0][..m], k) && y == Stride(t[1][..m], k)
    ensures CppCommon(t, k) == m && CppPart(t, k, false) == x + y
  {
    assert CppLengths(t, k) == [m, m];
    assert MinOf([m, m]) == m;
    assert CppBlock(t, k)[0] == x && CppBlock(t, k)[1] == y;
    PairFlat(CppBlock(t, k));
  }

  /** Two lines of four samples at stride 2: two samples a line are promised, one is sent. */
  lemma StrideReply(takes: seq<Take>)
    requires takes == [[[1.0, 2.0, 3.0, 4.0], [5.0, 6.0, 7.0, 8.0]]]
    ensures CppReply(takes, 2, 2, false) == Reply([0, 2], [1.0, 5.0], 2)
  {
    var t, parts := takes[0], CppParts(takes, 2, false);
    assert CeilDiv(2, 2) == 1;
    assert Stride(t[0][..2], 2) == [1.0] && Stride(t[1][..2], 2) == [5.0];
    PairPart(t, 2, 2, [1.0], [5.0]);
    assert [1.0] + [5.0] == [1.0, 5.0];
    assert parts[0] == [1.0, 5.0];
    assert Flatten(parts) == [] + parts[0] by {
      assert parts[..0] == [];
    }
    assert CppCommons(takes, 2) == [2];
    assert PrefixSums([2]) == [0, 2] by {
      assert [2][..1] == [2] && [2][..0] == [];
    }
  }

  /** Printing the first line does not run past the end; its second row shows a sample of
      the other line, where the third sample of its own is 3. */
  lemma StrideMisprinted(lines: Mask, mask: Mask, takes: seq<Take>)
    requires Names(lines, {0}) && Names(mask, {0, 1}) && takes == [[[1.0, 2.0, 3.0, 4.0], [5.0, 6.0, 7.0, 8.0]]]
    ensures Selected(mask, 2) == [0, 1]
    ensures TextPrinting(lines, mask, 2, 2, takes) == Printed([0], [Row(0, [1.0], 1.0), Row(0, [5.0], 5.0)])
  {
    assert {0, 1, 0} == {0, 1};
    FirstOfTwo(lines, mask, 0);
    StrideReply(takes);
    StridePrinted(Reply([0, 2], [1.0, 5.0], 2), Columns(1, 2, [0], [0]));
  }

  lemma StridePrinted(r: Reply, cols: Columns)
    requires r == Reply([0, 2], [1.0, 5.0], 2) && cols == Columns(1, 2, [0], [0])
    ensures Ascending(r) && PrintingOf(r, Text(2), cols, -1) == Printed([0], [Row(0, [1.0], 1.0), Row(0, [5.0], 5.0)])
  {
    FirstColumn(r.watts, 0, 0, 2, 2);
    assert SeriesRows(r.watts[0..2], 0) == [Row(0, [1.0], 1.0), Row(0, [5.0], 5.0)];
    assert SetsOf(r, Text(2), [0], 0, 1) == Appended(SetsOf(r, Text(2), [0], 0, 0), PartOf(r, Text(2), [0], 0, 0));
  }

  // ---- masks that name lines the device lacks ----

  lemma TwoSetsReply(a: real, b: real, c: real, d: real, takes: seq<Take>)
    requires takes == [[[a], [b]], [[c], [d]]]
    ensures CppReply(takes, 2, 1, false) == Reply([0, 1, 2], [a, b, c, d], 2)
  {
    PairAtOne(takes[0], a, b);
    PairAtOne(takes[1], c, d);
    var parts := CppParts(takes, 1, false);
    PairFlat(parts);
    assert parts[0] + parts[1] == [a, b, c, d];
    assert CppCommons(takes, 1)[0] == 1 && CppCommons(takes, 1)[1] == 1;
    assert CppCommons(takes, 1) == [1, 1];
    assert PrefixSums([1, 1]) == [0, 1, 2] by {
      assert [1, 1][..2] == [1, 1] && [1, 1][..1] == [1] && [1][..0] == [];
    }
  }

  lemma PairAtOne(t: Take, x: real, y: real)
    requires t == [[x], [y]]
    ensures CppCommon(t, 1) == 1 && CppPart(t, 1, false) == [x, y]
  {
    StrideOne([x]);
    StrideOne([y]);
    assert t[0][..1] == [x] && t[1][..1] == [y];
    PairPart(t, 1, 1, [x], [y]);
  }

  /** A counter of lines 0, 1 and 100 on a device of two lines: the text printer counts
      three lines a set, and prints of the second set the sample of line 1 under line 0. */
  lemma ForeignLineMisprinted(lines: Mask, mask: Mask, a: real, b: real, c: real, d: real)
    requires Names(lines, {0}) && Names(mask, {0, 1, 100})
    ensures Selected(mask, 2) == [0, 1]
    ensures TextPrinting(lines, mask, 2, 1, [[[a], [b]], [[c], [d]]]) == Printed([0], [Row(0, [a], a), Row(1, [d], d)])
  {
    FirstOfTwo(lines, mask, 100);
    TwoSetsReply(a, b, c, d, [[[a], [b]], [[c], [d]]]);
    TwoSetsPrinted(a, b, c, d, Reply([0, 1, 2], [a, b, c, d], 2), Columns(1, 3, [0], [0]));
  }

  lemma TwoSetsPrinted(a: real, b: real, c: real, d: real, r: Reply, cols: Columns)
    requires r == Reply([0, 1, 2], [a, b, c, d], 2) && cols == Columns(1, 3, [0], [0])
    ensures Ascending(r) && PrintingOf(r, Text(3), cols, -1) == Printed([0], [Row(0, [a], a), Row(1, [d], d)])
  {
    FirstColumn(r.watts, 0, 0, 1, 1);
    FirstColumn(r.watts, 1, 3, 1, 1);
    assert SeriesRows(r.watts[0..1], 0) == [Row(0, [a], a)] && SeriesRows(r.watts[3..4], 1) == [Row(1, [d], d)];
    assert SetsOf(r, Text(3), [0], 0, 2) == Appended(Appended(Some([]), PartOf(r, Text(3), [0], 0, 0)), PartOf(r, Text(3), [0], 0, 1));
  }

  /** If the missing line is requested too, its column is never filled. */
  lemma ForeignLineUnfilled(lines: Mask, mask: Mask, k: nat, takes: seq<Take>)
    requires Names(lines, {0, 100}) && Names(mask, {0, 1, 100}) && k >= 1 && IsTakes(takes, |Selected(mask, 2)|)
    ensures TextPrinting(lines, mask, 2, k, takes) == Unfilled
  {
    assert !Common(lines, mask, 1) && Common(lines, mask, 100);
    ThreeLines(mask, 100);
    NotFilled(lines, mask, Selected(mask, 2));
    var r, cols := CppReply(takes, |Selected(mask, 2)|, k, false), ColumnsOf(lines, mask, |Selected(mask, 2)|);
    PrefixSumsAscend(CppCommons(takes, k), r.watts, r.linesLen);
    StopsUnfilled(r, Text(cols.counted), cols);
  }

  lemma NotFilled(lines: Mask, mask: Mask, selected: seq<nat>)
    requires IsMask(lines) && IsMask(mask) && selected == Selected(mask, 2) && selected == [0, 1]
    requires !Common(lines, mask, 1) && Common(lines, mask, 100)
    ensures |ColumnsOf(lines, mask, |selected|).lines| < ColumnsOf(lines, mask, |selected|).printed
  {
    assert selected[1] == 1;
    FilledExactly(lines, mask, 2);
    ColumnsMean(lines, mask, |selected|);
  }

  lemma StopsUnfilled(r: Reply, layout: Layout, cols: Columns)
    requires Ascending(r) && |cols.lines| < cols.printed
    ensures PrintingOf(r, layout, cols, -1) == Unfilled
  {
  }

  lemma LineMissing(mask: Mask)
    requires Names(mask, {100})
    ensures LegacySelected(mask, 1) == [0]
  {
    OneLine(mask, 100);
    LegacyDecoderAgrees(mask, 1);
    assert AllLines(1) == [0];
  }

  /** Line 100 alone, on a reply of one line. */
  lemma ForeignColumn(mask: Mask)
    requires Names(mask, {100})
    ensures ColumnsOf(mask, mask, 1) == Columns(1, 1, [100], [0])
  {
    var both := Anded(mask, mask);
    BothAreCommon(mask, mask);
    assert Names(both, {100});
    OneLine(mask, 100);
    OneLine(both, 100);
    StopAt(mask, 1, 101);
    StopAt(both, 1, 101);
    ColumnsFrom(mask, mask, 1, 101, 101);
    NoRank(mask, 100);
  }

  /** A counter of line 100 only, on a device of one line: the legacy server measures that
      one, and the csv printer prints its sample under line 100. */
  lemma ForeignHeadingPrinted(mask: Mask, x: real)
    requires Names(mask, {100})
    ensures LegacySelected(mask, 1) == [0]
    ensures CsvPrinting(mask, mask, 1, 1, [[[x]]], -1) == Printed([100], [Row(0, [x], x)])
  {
    LineMissing(mask);
    ForeignColumn(mask);
    OneSampleReply(x, [[[x]]]);
    OneSamplePrinted(x, Reply([0, 1], [x], 1), Columns(1, 1, [100], [0]));
  }

  lemma OneSamplePrinted(x: real, r: Reply, cols: Columns)
    requires r == Reply([0, 1], [x], 1) && cols == Columns(1, 1, [100], [0])
    ensures Ascending(r) && PrintingOf(r, Csv, cols, -1) == Printed([100], [Row(0, [x], x)])
  {
    FirstColumn(r.watts, 0, 0, 1, 1);
    assert SeriesRows(r.watts[0..1], 0) == [Row(0, [x], x)];
    assert SetsOf(r, Csv, [0], 0, 1) == Appended(SetsOf(r, Csv, [0], 0, 0), PartOf(r, Csv, [0], 0, 0));
  }

  lemma OneSampleReply(x: real, takes: seq<Take>)
    requires takes == [[[x]]]
    ensures LegacyReply(takes, 1, 1, false) == Reply([0, 1], [x], 1)
  {
    RepliesAgreeUpToLayout(takes, 1);
    var t, parts := takes[0], CppParts(takes, 1, false);
    assert CppLengths(t, 1) == [1];
    StrideOne([x]);
    assert t[0][..1] == [x];
    assert CppBlock(t, 1)[0] == [x];
    assert Flatten(CppBlock(t, 1)) == [] + [x] by {
      assert CppBlock(t, 1)[..0] == [];
    }
    assert Flatten(parts) == [] + parts[0] by {
      assert parts[..0] == [];
    }
    assert CppCommons(takes, 1) == [1];
    assert PrefixSums([1]) == [0, 1] by {
      assert [1][..1] == [1] && [1][..0] == [];
    }
  }
}
