/** Which lines a printer prints, and where they stand in the reply: the two rank/select
    loops in front of the printing (client/pm_print_data_text.c, client/pm_print_data_csv.c). */
module PrintColumns {
  import opened Util
  import opened Lines

  /** n_lines_print and n_lines_counter, and the entries of ind_lines and ind_print that the
      second loop has filled; both arrays are `printed` long. */
  datatype Columns = Columns(printed: nat, counted: nat, lines: seq<nat>, ranks: seq<nat>)

  predicate Common(lines: Mask, counterLines: Mask, l: nat) {
    IsSet(lines, l) && IsSet(counterLines, l)
  }

  /** How many lines of the mask are in front of each of the given ones. */
  function Ranks(mask: Mask, lineNumbers: seq<nat>): (r: seq<nat>)
    ensures |r| == |lineNumbers|
  {
    seq(|lineNumbers|, j requires 0 <= j < |lineNumbers| => |Selected(mask, lineNumbers[j])|)
  }

  lemma RanksSnoc(mask: Mask, lineNumbers: seq<nat>, l: nat)
    ensures Ranks(mask, lineNumbers + [l]) == Ranks(mask, lineNumbers) + [|Selected(mask, l)|]
  {
  }

  /** The first line at or behind i in front of which the mask has `wanted` lines. */
  function Stop(m: Mask, wanted: nat, i: nat): (stop: nat)
    requires i <= NLINEBITS
    ensures i <= stop <= NLINEBITS && (stop == NLINEBITS || |Selected(m, stop)| >= wanted)
    ensures forall l: nat :: i <= l < stop ==> |Selected(m, l)| < wanted
    decreases NLINEBITS - i
  {
    if i == NLINEBITS || |Selected(m, i)| >= wanted then i else Stop(m, wanted, i + 1)
  }

  /** What the two loops find on a reply of lines_len lines. The first counts the common
      lines and the counter's lines until it has lines_len common ones; the second passes
      the first lines_len lines of the counter and takes down the common ones among them,
      each with its rank among the counter's lines. */
  function ColumnsOf(lines: Mask, counterLines: Mask, lines_len: nat): Columns
    requires IsMask(lines) && IsMask(counterLines)
  {
    var both := Anded(lines, counterLines);
    var counting, selecting := Stop(both, lines_len, 0), Stop(counterLines, lines_len, 0);
    Columns(|Selected(both, counting)|, |Selected(counterLines, counting)|, Selected(both, selecting), Ranks(counterLines, Selected(both, selecting)))
  }

  lemma {:induction false} SelectedFewer(p: Mask, c: Mask, n: nat)
    requires forall l :: 0 <= l < n ==> IsSet(p, l) ==> IsSet(c, l)
    ensures |Selected(p, n)| <= |Selected(c, n)|
    ensures |Selected(p, n)| == |Selected(c, n)| <==> forall l :: 0 <= l < n && IsSet(c, l) ==> IsSet(p, l)
  {
    if n > 0 {
      SelectedFewer(p, c, n - 1);
    }
  }

  lemma {:induction false} SelectedMonotone(m: Mask, i: nat, n: nat)
    requires i <= n
    ensures |Selected(m, i)| <= |Selected(m, n)|
    ensures |Selected(m, i)| == |Selected(m, n)| <==> forall l :: i <= l < n ==> !IsSet(m, l)
  {
    if i < n {
      SelectedMonotone(m, i, n - 1);
    }
  }

  lemma StopCount(m: Mask, wanted: nat)
    ensures |Selected(m, Stop(m, wanted, 0))| == Min(wanted, |Selected(m, NLINEBITS)|)
  {
    var stop := Stop(m, wanted, 0);
    SelectedMonotone(m, stop, NLINEBITS);
    if stop > 0 {
      SelectedStep(m, stop - 1);
    }
  }

  /** Every common line with fewer than lines_len lines of the counter in front of it has a
      column, in order; there is room for at most lines_len. */
  lemma ColumnsMean(lines: Mask, counterLines: Mask, lines_len: nat)
    requires IsMask(lines) && IsMask(counterLines)
    ensures var cols := ColumnsOf(lines, counterLines, lines_len);
            && |cols.lines| <= cols.printed == Min(lines_len, |Selected(Anded(lines, counterLines), NLINEBITS)|)
            && Increasing(cols.lines)
            && (forall l: nat :: l in cols.lines <==> Common(lines, counterLines, l) && |Selected(counterLines, l)| < lines_len)
  {
    var both, stop := Anded(lines, counterLines), Stop(counterLines, lines_len, 0);
    SelectedIsExact(both, stop);
    forall l: nat
      ensures l in Selected(both, stop) <==> Common(lines, counterLines, l) && |Selected(counterLines, l)| < lines_len
    {
      AndedLine(lines, counterLines, l);
      if stop <= l {
        SelectedMonotone(counterLines, stop, l);
      }
    }
    forall l ensures IsSet(both, l) ==> IsSet(counterLines, l) {
      AndedLine(lines, counterLines, l);
    }
    StopCount(both, lines_len);
    StopCount(counterLines, lines_len);
    SelectedFewer(both, counterLines, stop);
    SelectedMonotone(both, stop, NLINEBITS);
  }

  lemma CountedStep(m: Mask, i: nat, next: nat, count: nat)
    requires next == i + 1 && count == |Selected(m, i)|
    ensures |Selected(m, next)| == if IsSet(m, i) then count + 1 else count
  {
    SelectedStep(m, i);
  }

  /** The first loop counts lines until it has lines_len of them to print. */
  method CountLines(p_lines: Mask, counterLines: Mask, lines_len: nat) returns (printed: nat, counted: nat)
    ensures printed == |Selected(p_lines, Stop(p_lines, lines_len, 0))|
    ensures counted == |Selected(counterLines, Stop(p_lines, lines_len, 0))|
  {
    counted, printed := 0, 0;
    var i := 0;
    while i < NLINEBITS && printed < lines_len
      invariant 0 <= i <= NLINEBITS && Stop(p_lines, lines_len, i) == Stop(p_lines, lines_len, 0)
      invariant printed == |Selected(p_lines, i)| && counted == |Selected(counterLines, i)|
    {
      var next := i + 1;
      CountedStep(p_lines, i, next, printed);
      CountedStep(counterLines, i, next, counted);
      if IsSet(p_lines, i) {
        printed := printed + 1;
      }
      if IsSet(counterLines, i) {
        counted := counted + 1;
      }
      i := next;
    }
  }

  /** a[k] = x, behind the entries stored so far. */
  method Store(a: array<nat>, k: nat, x: nat)
    requires k < a.Length
    modifies a
    ensures a[..k + 1] == old(a[..k]) + [x]
  {
    a[k] := x;
    assert a[..k] == old(a[..k]);
  }

  method StoreBoth(ind_print: array<nat>, ind_lines: array<nat>, k: nat, rank: nat, line: nat)
    requires ind_print != ind_lines && k < ind_print.Length && k < ind_lines.Length
    modifies ind_print, ind_lines
    ensures ind_print[..k + 1] == old(ind_print[..k]) + [rank]
    ensures ind_lines[..k + 1] == old(ind_lines[..k]) + [line]
  {
    Store(ind_print, k, rank);
    Store(ind_lines, k, line);
  }

  /** The first i lines are passed: the printed ones among them are `chosen`, the counter
      has j, and the loop does not stop in front of i. */
  ghost predicate Chosen(p: Mask, c: Mask, lines_len: nat, i: nat, j: nat, chosen: seq<nat>) {
    && i <= NLINEBITS && chosen == Selected(p, i) && j == |Selected(c, i)|
    && Stop(c, lines_len, i) == Stop(c, lines_len, 0)
  }

  /** There is room for the next column. */
  lemma ChosenNext(p: Mask, c: Mask, lines_len: nat, i: nat, next: nat, j: nat, chosen: seq<nat>, printed: nat)
    requires Chosen(p, c, lines_len, i, j, chosen) && i < NLINEBITS && next == i + 1 && j < lines_len
    requires forall l: nat :: IsSet(p, l) ==> IsSet(c, l)
    requires printed == Min(lines_len, |Selected(p, NLINEBITS)|)
    ensures Chosen(p, c, lines_len, next, if IsSet(c, i) then j + 1 else j, if IsSet(p, i) then chosen + [i] else chosen)
    ensures IsSet(p, i) ==> |chosen| < printed && Ranks(c, chosen + [i]) == Ranks(c, chosen) + [j]
  {
    SelectedStep(p, i);
    SelectedStep(c, i);
    SelectedFewer(p, c, i);
    SelectedMonotone(p, next, NLINEBITS);
    RanksSnoc(c, chosen, i);
  }

  /** The second loop fills the arrays. */
  method SelectRanks(p_lines: Mask, counterLines: Mask, lines_len: nat, printed: nat) returns (filledLines: seq<nat>, filledRanks: seq<nat>)
    requires forall l: nat :: IsSet(p_lines, l) ==> IsSet(counterLines, l)
    requires printed == Min(lines_len, |Selected(p_lines, NLINEBITS)|)
    ensures filledLines == Selected(p_lines, Stop(counterLines, lines_len, 0))
    ensures filledRanks == Ranks(counterLines, filledLines)
  {
    var ind_print, ind_lines := new nat[printed], new nat[printed];
    var i, j, ii := 0, 0, 0;
    ghost var chosen: seq<nat> := [];
    while i < NLINEBITS && j < lines_len
      invariant i <= NLINEBITS && Chosen(p_lines, counterLines, lines_len, i, j, chosen)
      invariant ii == |chosen| <= printed
      invariant ind_lines[..ii] == chosen && ind_print[..ii] == Ranks(counterLines, chosen)
    {
      var next := i + 1;
      ChosenNext(p_lines, counterLines, lines_len, i, next, j, chosen, printed);
      if IsSet(p_lines, i) && IsSet(counterLines, i) {
        StoreBoth(ind_print, ind_lines, ii, j, i);
        ii := ii + 1;
        j := j + 1;
        chosen := chosen + [i];
      } else if !IsSet(p_lines, i) && IsSet(counterLines, i) {
        j := j + 1;
      }
      i := next;
    }
    filledLines, filledRanks := ind_lines[..ii], ind_print[..ii];
  }

  method FindColumns(lines: Mask, counterLines: Mask, lines_len: nat) returns (cols: Columns)
    requires IsMask(lines) && IsMask(counterLines)
    ensures cols == ColumnsOf(lines, counterLines, lines_len)
  {
    var p_lines := AndLines(lines, counterLines);
    var printed, counted := CountLines(p_lines, counterLines, lines_len);
    StopCount(p_lines, lines_len);
    var filledLines, filledRanks := SelectRanks(p_lines, counterLines, lines_len, printed);
    cols := Columns(printed, counted, filledLines, filledRanks);
  }

  // ---- the columns of a reply whose lines are those of a device of n lines ----

  /** No line of the mask is missing on the device. */
  predicate OnDevice(m: Mask, n: nat) {
    forall l :: n <= l < NLINEBITS ==> !IsSet(m, l)
  }

  /** Every requested line of the counter is on the device, or every line of the reply is
      requested: the arrays are filled then. */
  predicate Fits(lines: Mask, counterLines: Mask, n: nat, selected: seq<nat>) {
    || (forall l :: n <= l < NLINEBITS ==> !Common(lines, counterLines, l))
    || AllCommon(lines, counterLines, selected)
  }

  predicate AllCommon(lines: Mask, counterLines: Mask, selected: seq<nat>) {
    forall i :: 0 <= i < |selected| ==> Common(lines, counterLines, selected[i])
  }

  /** The heading: the requested lines of the counter that the device has, in order. */
  ghost predicate HeadingNames(heading: seq<nat>, lines: Mask, counterLines: Mask, n: nat) {
    Increasing(heading) && forall l: nat :: l in heading <==> l < n && Common(lines, counterLines, l)
  }

  lemma MaskEnds(m: Mask, l: nat)
    requires IsMask(m) && IsSet(m, l)
    ensures l < NLINEBITS
  {
  }

  /** Lines past the end of a mask are not set. */
  lemma SelectedUpTo(m: Mask, n: nat) returns (end: nat)
    requires IsMask(m)
    ensures end == Min(n, NLINEBITS) && Selected(m, n) == Selected(m, end)
  {
    end := Min(n, NLINEBITS);
    SelectedInside(m, end, n);
  }

  /** The second loop stops behind the counter's last line on the device. */
  lemma StopOnDevice(m: Mask, n: nat, stop: nat, end: nat)
    requires IsMask(m) && stop == Stop(m, |Selected(m, n)|, 0) && end == Min(n, NLINEBITS)
    ensures stop <= end && forall l :: stop <= l < end ==> !IsSet(m, l)
  {
    var e := SelectedUpTo(m, n);
    StopCount(m, |Selected(m, n)|);
    SelectedMonotone(m, end, NLINEBITS);
    SelectedMonotone(m, stop, end);
  }

  /** The columns are the common lines of the device. */
  lemma ColumnsOnDevice(lines: Mask, counterLines: Mask, n: nat)
    requires IsMask(lines) && IsMask(counterLines)
    ensures ColumnsOf(lines, counterLines, |Selected(counterLines, n)|).lines == Selected(Anded(lines, counterLines), n)
    ensures HeadingNames(Selected(Anded(lines, counterLines), n), lines, counterLines, n)
  {
    var both, stop := Anded(lines, counterLines), Stop(counterLines, |Selected(counterLines, n)|, 0);
    var end := SelectedUpTo(both, n);
    BothAreCommon(lines, counterLines);
    StopOnDevice(counterLines, n, stop, end);
    SelectedInside(both, stop, end);
    SelectedIsExact(both, n);
  }

  lemma BothAreCommon(lines: Mask, counterLines: Mask)
    requires IsMask(lines) && IsMask(counterLines)
    ensures forall l: nat :: IsSet(Anded(lines, counterLines), l) <==> Common(lines, counterLines, l)
  {
    forall l: nat ensures IsSet(Anded(lines, counterLines), l) <==> Common(lines, counterLines, l) {
      AndedLine(lines, counterLines, l);
    }
  }

  /** The lines of the mask that the device has are all its lines, or not. */
  lemma OnDeviceCount(m: Mask, n: nat)
    requires IsMask(m)
    ensures |Selected(m, n)| <= |Selected(m, NLINEBITS)|
    ensures |Selected(m, n)| == |Selected(m, NLINEBITS)| <==> OnDevice(m, n)
  {
    var end := SelectedUpTo(m, n);
    SelectedMonotone(m, end, NLINEBITS);
  }

  /** Of the counter's lines on the device all are common, or not. */
  lemma AllCommonCount(lines: Mask, counterLines: Mask, n: nat)
    requires IsMask(lines) && IsMask(counterLines)
    ensures |Selected(Anded(lines, counterLines), n)| <= |Selected(counterLines, n)|
    ensures |Selected(Anded(lines, counterLines), n)| == |Selected(counterLines, n)| <==>
            AllCommon(lines, counterLines, Selected(counterLines, n))
  {
    BothAreCommon(lines, counterLines);
    SelectedFewer(Anded(lines, counterLines), counterLines, n);
    SelectedIsExact(counterLines, n);
    var selected := Selected(counterLines, n);
    if AllCommon(lines, counterLines, selected) {
      forall l: nat | l < n && IsSet(counterLines, l) ensures Common(lines, counterLines, l) {
        assert l in selected;
      }
    } else {
      var i :| 0 <= i < |selected| && !Common(lines, counterLines, selected[i]);
      assert selected[i] in selected;
    }
  }

  /** The arrays are filled exactly when the request fits. */
  lemma FilledExactly(lines: Mask, counterLines: Mask, n: nat)
    requires IsMask(lines) && IsMask(counterLines)
    ensures var cols := ColumnsOf(lines, counterLines, |Selected(counterLines, n)|);
            |cols.lines| == cols.printed <==> Fits(lines, counterLines, n, Selected(counterLines, n))
  {
    var both := Anded(lines, counterLines);
    ColumnsOnDevice(lines, counterLines, n);
    StopCount(both, |Selected(counterLines, n)|);
    BothAreCommon(lines, counterLines);
    OnDeviceCount(both, n);
    AllCommonCount(lines, counterLines, n);
  }

  /** Then the counter's lines are counted right exactly when its mask names only lines of
      the device, or every line of the reply is requested; else there are too many. */
  lemma CountedExactly(lines: Mask, counterLines: Mask, n: nat)
    requires IsMask(lines) && IsMask(counterLines)
    requires Fits(lines, counterLines, n, Selected(counterLines, n))
    ensures var cols, selected := ColumnsOf(lines, counterLines, |Selected(counterLines, n)|), Selected(counterLines, n);
            && cols.counted >= |selected|
            && (cols.counted == |selected| <==> OnDevice(counterLines, n) || AllCommon(lines, counterLines, selected))
  {
    var both, selected := Anded(lines, counterLines), Selected(counterLines, n);
    var stop := Stop(both, |selected|, 0);
    StopCount(both, |selected|);
    BothAreCommon(lines, counterLines);
    OnDeviceCount(both, n);
    OnDeviceCount(counterLines, n);
    AllCommonCount(lines, counterLines, n);
    SelectedFewer(both, counterLines, stop);
    if AllCommon(lines, counterLines, selected) {
      CountedAll(both, counterLines, n, stop);
    }
  }

  lemma CountedAll(both: Mask, counterLines: Mask, n: nat, stop: nat)
    requires IsMask(both) && |Selected(both, n)| == |Selected(counterLines, n)| && stop == Stop(both, |Selected(both, n)|, 0)
    ensures |Selected(counterLines, stop)| <= |Selected(counterLines, n)|
  {
    var end := SelectedUpTo(both, n);
    SelectedMonotone(counterLines, stop, end);
    SelectedMonotone(counterLines, end, n);
  }

  /** The columns stand where the reply has these lines. */
  ghost predicate ColumnsFound(ranks: seq<nat>, heading: seq<nat>, selected: seq<nat>) {
    && |ranks| == |heading| && Increasing(selected)
    && forall j :: 0 <= j < |ranks| ==> ranks[j] < |selected| && selected[ranks[j]] == heading[j]
  }

  /** Lines of the mask are found by their rank. */
  lemma RanksFound(m: Mask, n: nat, heading: seq<nat>)
    requires forall j :: 0 <= j < |heading| ==> heading[j] < n && IsSet(m, heading[j])
    ensures ColumnsFound(Ranks(m, heading), heading, Selected(m, n))
  {
    SelectedIsExact(m, n);
    forall j | 0 <= j < |heading|
      ensures |Selected(m, heading[j])| < |Selected(m, n)| && Selected(m, n)[|Selected(m, heading[j])|] == heading[j]
    {
      SelectedRank(m, n, heading[j]);
    }
  }

  lemma FoundAmongSelected(lines: Mask, counterLines: Mask, n: nat)
    requires IsMask(lines) && IsMask(counterLines)
    ensures var cols := ColumnsOf(lines, counterLines, |Selected(counterLines, n)|);
            ColumnsFound(cols.ranks, cols.lines, Selected(counterLines, n))
  {
    var heading := Selected(Anded(lines, counterLines), n);
    ColumnsOnDevice(lines, counterLines, n);
    forall j | 0 <= j < |heading| ensures heading[j] < n && IsSet(counterLines, heading[j]) {
      assert heading[j] in heading;
    }
    RanksFound(counterLines, n, heading);
  }

  // ---- the legacy server takes all lines where the mask selects none ----

  predicate NoneCommon(lines: Mask, counterLines: Mask) {
    forall l :: 0 <= l < NLINEBITS ==> !Common(lines, counterLines, l)
  }

  /** Without a common line there is no column. */
  lemma NothingCommon(lines: Mask, counterLines: Mask, lines_len: nat)
    requires IsMask(lines) && IsMask(counterLines)
    requires lines_len == 0 || NoneCommon(lines, counterLines)
    ensures ColumnsOf(lines, counterLines, lines_len).lines == [] && ColumnsOf(lines, counterLines, lines_len).printed == 0
  {
    var both := Anded(lines, counterLines);
    if lines_len > 0 {
      BothAreCommon(lines, counterLines);
      SelectedInside(both, 0, NLINEBITS);
      SelectedInside(both, 0, Stop(counterLines, lines_len, 0));
      SelectedInside(both, 0, Stop(both, lines_len, 0));
    }
  }

  /** A common line that the device lacks is in the heading, or leaves it unfilled. */
  lemma ForeignCommon(lines: Mask, counterLines: Mask, n: nat, l: nat)
    requires IsMask(lines) && IsMask(counterLines) && Selected(counterLines, n) == []
    requires n > 0 && l < NLINEBITS && Common(lines, counterLines, l)
    ensures var cols := ColumnsOf(lines, counterLines, n);
            |cols.lines| == cols.printed ==> !HeadingNames(cols.lines, lines, counterLines, n)
  {
    var cols, both := ColumnsOf(lines, counterLines, n), Anded(lines, counterLines);
    ColumnsMean(lines, counterLines, n);
    BothAreCommon(lines, counterLines);
    SelectedIsExact(both, NLINEBITS);
    assert l in Selected(both, NLINEBITS);
    if cols.lines != [] {
      ForeignHeading(cols.lines, lines, counterLines, n);
    }
  }

  lemma ForeignHeading(heading: seq<nat>, lines: Mask, counterLines: Mask, n: nat)
    requires heading != [] && Selected(counterLines, n) == []
    ensures !HeadingNames(heading, lines, counterLines, n)
  {
    assert heading[0] in heading;
    SelectedIsExact(counterLines, n);
  }

  lemma NothingFits(lines: Mask, counterLines: Mask, n: nat)
    requires Selected(counterLines, n) == []
    ensures Fits(lines, counterLines, n, AllLines(n)) <==> n == 0 || NoneCommon(lines, counterLines)
  {
    SelectedIsExact(counterLines, n);
    if n > 0 {
      assert AllLines(n)[0] == 0;
    }
  }

  lemma EmptyHeading(lines: Mask, counterLines: Mask, n: nat)
    requires Selected(counterLines, n) == []
    ensures HeadingNames([], lines, counterLines, n)
  {
    SelectedIsExact(counterLines, n);
  }

  lemma NothingSelected(lines: Mask, counterLines: Mask, n: nat)
    requires IsMask(lines) && IsMask(counterLines) && Selected(counterLines, n) == []
    ensures var cols := ColumnsOf(lines, counterLines, n);
            |cols.lines| == cols.printed && HeadingNames(cols.lines, lines, counterLines, n) <==>
            Fits(lines, counterLines, n, AllLines(n))
    ensures Fits(lines, counterLines, n, AllLines(n)) ==> ColumnsOf(lines, counterLines, n).lines == []
  {
    NothingFits(lines, counterLines, n);
    if n == 0 || NoneCommon(lines, counterLines) {
      NothingCommon(lines, counterLines, n);
      EmptyHeading(lines, counterLines, n);
    } else {
      var l: nat :| l < NLINEBITS && Common(lines, counterLines, l);
      ForeignCommon(lines, counterLines, n, l);
    }
  }

  /** The columns are filled and name the common lines exactly when the request fits. */
  lemma LegacyColumnsExactly(lines: Mask, counterLines: Mask, n: nat)
    requires IsMask(lines) && IsMask(counterLines)
    ensures var selected := LegacySelected(counterLines, n);
            var cols := ColumnsOf(lines, counterLines, |selected|);
            |cols.lines| == cols.printed && HeadingNames(cols.lines, lines, counterLines, n) <==> Fits(lines, counterLines, n, selected)
    ensures var selected := LegacySelected(counterLines, n);
            var cols := ColumnsOf(lines, counterLines, |selected|);
            Fits(lines, counterLines, n, selected) ==> ColumnsFound(cols.ranks, cols.lines, selected)
  {
    LegacyDecoderAgrees(counterLines, n);
    var selected := LegacySelected(counterLines, n);
    if Selected(counterLines, n) == [] {
      NothingSelected(lines, counterLines, n);
      SelectedAll(selected);
    } else {
      FilledExactly(lines, counterLines, n);
      ColumnsOnDevice(lines, counterLines, n);
      FoundAmongSelected(lines, counterLines, n);
    }
  }

  lemma SelectedAll(selected: seq<nat>)
    requires selected == AllLines(|selected|)
    ensures Increasing(selected)
  {
  }

  /** And where the mask selects nothing there are none. */
  lemma LegacyNothing(lines: Mask, counterLines: Mask, n: nat)
    requires IsMask(lines) && IsMask(counterLines) && Selected(counterLines, n) == []
    requires Fits(lines, counterLines, n, LegacySelected(counterLines, n))
    ensures ColumnsOf(lines, counterLines, |LegacySelected(counterLines, n)|).lines == []
  {
    LegacyDecoderAgrees(counterLines, n);
    NothingSelected(lines, counterLines, n);
  }
}
