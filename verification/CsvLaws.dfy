/** What the csv printer prints of the replies of the legacy server. */
module CsvLaws {
  import opened Util
  import opened Lines
  import opened PrintColumns
  import opened Printers
  import opened PrintedRows
  import opened Replies

  /** Whichever sets are chosen, the csv printer reads the blocks of a line-major reply. */
  lemma CsvPart(r: Reply, bs: Blocks, ms: seq<nat>, ranks: seq<nat>, init: nat, s: nat)
    requires CarriesLineMajor(r, bs, ms) && init <= s < |bs| && forall j :: 0 <= j < |ranks| ==> ranks[j] < r.linesLen
    ensures Ascending(r) && PartOf(r, Csv, ranks, init, s) == Some(SetRows(bs[s], s, ms[s], ranks))
  {
    var base, m, total := Sum(ms[..s]), ms[s], Sum(ms);
    LengthIs(r, ms, s);
    LineMajorReads(bs, r.linesLen, ms, s, ranks, base, m, total);
    RowsAreSamples(r.watts, bs[s], s, base, m, total, ranks);
  }

  lemma LegacyBlocksShow(takes: seq<Take>, n: nat, k: nat)
    requires IsTakes(takes, n) && k >= 1
    ensures BlocksOf(LegacyBlocks(takes, k), takes, n, LegacyCommons(takes, k), k)
  {
    forall s, l | 0 <= s < |takes| && 0 <= l < n
      ensures LineOf(LegacyBlock(takes[s], k)[l], takes[s][l], LegacyCommon(takes[s], k), k)
    {
      LegacyLineShows(takes[s], l, k);
    }
  }

  lemma LegacyLineShows(t: Take, l: nat, k: nat)
    requires l < |t| && k >= 1
    ensures LineOf(LegacyBlock(t, k)[l], t[l], LegacyCommon(t, k), k)
  {
    assert LegacyBlock(t, k)[l] == LegacyTrim(t, k, l);
    forall i | 0 <= i < LegacyCommon(t, k) ensures i * k < |t[l]| && LegacyBlock(t, k)[l][i] == t[l][i * k] {
      LegacyTrimAt(t, k, l, i);
    }
  }

  lemma CsvSetsShow(r: Reply, ranks: seq<nat>, heading: seq<nat>, selected: seq<nat>, k: nat, takes: seq<Take>, init: nat, last: nat)
    requires k >= 1 && IsTakes(takes, |selected|) && init <= last <= |takes| && r == LegacyReply(takes, |selected|, k, false)
    requires ColumnsFound(ranks, heading, selected)
    ensures Ascending(r) && SetsOf(r, Csv, ranks, init, last).Some?
    ensures Shows(SetsOf(r, Csv, ranks, init, last).value, init, last, LegacyCommons(takes, k), heading, selected, takes, k)
  {
    var bs, ms := LegacyBlocks(takes, k), LegacyCommons(takes, k);
    LegacyBlocksShow(takes, |selected|, k);
    BlocksAreUniform(bs, takes, |selected|, ms, k);
    PrefixSumsAscend(ms, r.watts, r.linesLen);
    var parts := AllRows(bs, |selected|, ms, ranks);
    forall s | init <= s < last ensures PartOf(r, Csv, ranks, init, s) == Some(parts[s]) {
      CsvPart(r, bs, ms, ranks, init, s);
    }
    SetsFromParts(r, Csv, ranks, parts, init, last);
    RowsShow(bs, takes, k, ms, ranks, heading, selected, init, last);
  }

  /** What the csv printer prints of a legacy reply. */
  ghost function CsvPrinting(lines: Mask, counterLines: Mask, n: nat, k: nat, takes: seq<Take>, set_: int): Printing
    requires IsMask(lines) && IsMask(counterLines) && k >= 1 && IsTakes(takes, |LegacySelected(counterLines, n)|)
  {
    var selected := LegacySelected(counterLines, n);
    var r := LegacyReply(takes, |selected|, k, false);
    PrefixSumsAscend(LegacyCommons(takes, k), r.watts, r.linesLen);
    PrintingOf(r, Csv, ColumnsOf(lines, counterLines, |selected|), set_)
  }

  /** With columns in their places the samples are printed. */
  lemma CsvFilled(lines: Mask, counterLines: Mask, n: nat, k: nat, takes: seq<Take>, set_: int, selected: seq<nat>, cols: Columns,
                  init: nat, last: nat)
    requires IsMask(lines) && IsMask(counterLines) && k >= 1 && selected == LegacySelected(counterLines, n)
    requires IsTakes(takes, |selected|) && -1 <= set_ < |takes| && cols == ColumnsOf(lines, counterLines, |selected|)
    requires init == (if set_ == -1 then 0 else set_) && last == (if set_ == -1 then |takes| else set_ + 1)
    requires |cols.lines| == cols.printed && ColumnsFound(cols.ranks, cols.lines, selected)
    ensures var p := CsvPrinting(lines, counterLines, n, k, takes, set_);
            p.Printed? && p.heading == cols.lines && Shows(p.rows, init, last, LegacyCommons(takes, k), cols.lines, selected, takes, k)
  {
    var r := LegacyReply(takes, |selected|, k, false);
    CsvSetsShow(r, cols.ranks, cols.lines, selected, k, takes, init, last);
    SetsPrinted(r, Csv, cols, set_, init, last);
  }

  lemma PrintedFilled(r: Reply, layout: Layout, cols: Columns, set_: int)
    requires Ascending(r) && PrintingOf(r, layout, cols, set_).Printed?
    ensures |cols.lines| >= cols.printed && PrintingOf(r, layout, cols, set_).heading == cols.lines
  {
  }

  lemma CsvHeading(lines: Mask, counterLines: Mask, n: nat, k: nat, takes: seq<Take>, set_: int, selected: seq<nat>, cols: Columns)
    requires IsMask(lines) && IsMask(counterLines) && k >= 1 && selected == LegacySelected(counterLines, n)
    requires IsTakes(takes, |selected|) && cols == ColumnsOf(lines, counterLines, |selected|)
    requires CsvPrinting(lines, counterLines, n, k, takes, set_).Printed?
    ensures |cols.lines| == cols.printed && CsvPrinting(lines, counterLines, n, k, takes, set_).heading == cols.lines
  {
    var r := LegacyReply(takes, |selected|, k, false);
    PrefixSumsAscend(LegacyCommons(takes, k), r.watts, r.linesLen);
    PrintedFilled(r, Csv, cols, set_);
    ColumnsMean(lines, counterLines, |selected|);
  }

  /** Of a reply of the legacy server the csv printer prints the requested lines that the
      device has, with their samples, at every stride and for every choice of sets, exactly
      when the request fits: no requested line of the counter is missing on the device, or
      all lines of the reply are requested. */
  lemma CsvPrintsExactly(lines: Mask, counterLines: Mask, n: nat, k: nat, takes: seq<Take>, set_: int)
    requires IsMask(lines) && IsMask(counterLines) && k >= 1
    requires IsTakes(takes, |LegacySelected(counterLines, n)|) && -1 <= set_ < |takes|
    ensures var selected, p := LegacySelected(counterLines, n), CsvPrinting(lines, counterLines, n, k, takes, set_);
            var (init, last) := if set_ == -1 then (0, |takes|) else (set_, set_ + 1);
            PrintedRight(p, lines, counterLines, n, selected, init, last, LegacyCommons(takes, k), takes, k) <==>
            Fits(lines, counterLines, n, selected)
  {
    var selected, p := LegacySelected(counterLines, n), CsvPrinting(lines, counterLines, n, k, takes, set_);
    var cols := ColumnsOf(lines, counterLines, |selected|);
    var init: nat, last: nat := if set_ == -1 then 0 else set_, if set_ == -1 then |takes| else set_ + 1;
    LegacyColumnsExactly(lines, counterLines, n);
    if Fits(lines, counterLines, n, selected) {
      CsvFilled(lines, counterLines, n, k, takes, set_, selected, cols, init, last);
    } else if p.Printed? {
      CsvHeading(lines, counterLines, n, k, takes, set_, selected, cols);
    }
  }
}
