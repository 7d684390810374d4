/** From the device to the printed file: what a printer prints of the answer to GET is what
    the device produced between the start and the stop of the counter. */
module EndToEnd {
  import opened Util
  import opened Lines
  import opened Replies
  import opened Sessions
  import opened Counters
  import opened Runs
  import opened Isolation
  import opened RunLaws
  import opened PrintColumns
  import opened Printers
  import opened PrintedRows
  import opened TextLaws
  import opened CsvLaws

  // ---- how much is produced ----

  function Samples(es: seq<Event>): nat {
    if es == [] then 0 else (if es[0].Sample? then 1 else 0) + Samples(es[1..])
  }

  /** Every line gets one value a sample. */
  lemma {:induction false} ProducedEverywhere(n: nat, es: seq<Event>, l: nat)
    requires EventsOk(n, es) && l < n
    ensures |Produced(es, l)| == Samples(es)
    decreases |es|
  {
    if es != [] {
      assert EventOk(n, es[0]);
      ProducedEverywhere(n, es[1..], l);
    }
  }

  lemma {:induction false} MinOfSame(ns: seq<nat>, m: nat)
    requires ns != [] && forall i :: 0 <= i < |ns| ==> ns[i] == m
    ensures MinOf(ns) == m
  {
    if |ns| > 1 {
      MinOfSame(ns[..|ns| - 1], m);
    }
  }

  /** How many samples a set of `samples` values a line promises: none without lines. */
  function Promised(legacy: bool, lines: seq<nat>, samples: nat, k: nat): nat
    requires k >= 1
  {
    if lines == [] then 0 else if legacy then CeilDiv(samples, k) else samples / k
  }

  lemma CommonOfProduced(legacy: bool, n: nat, lines: seq<nat>, es: seq<Event>, k: nat)
    requires k >= 1 && EventsOk(n, es) && forall i :: 0 <= i < |lines| ==> lines[i] < n
    ensures (if legacy then LegacyCommon(ProducedTake(es, lines), k) else CppCommon(ProducedTake(es, lines), k)) ==
            Promised(legacy, lines, Samples(es), k)
  {
    var t := ProducedTake(es, lines);
    forall i | 0 <= i < |lines| ensures |t[i]| == Samples(es) {
      ProducedEverywhere(n, es, lines[i]);
    }
    if lines != [] {
      if legacy {
        MinOfSame(LegacyLengths(t, k), CeilDiv(Samples(es), k));
      } else {
        MinOfSame(CppLengths(t, k), Samples(es) / k);
      }
    }
  }

  // ---- the printed rows ----

  /** Row base+i belongs to set s and shows, for every line of the heading, value x of those
      that the events produced for the line; its sum is the sum of what it shows. */
  ghost predicate RowProduced(rows: seq<Row>, base: nat, i: nat, s: nat, heading: seq<nat>, es: seq<Event>, x: nat) {
    && base + i < |rows| && rows[base + i].set_ == s
    && |rows[base + i].values| == |heading| && rows[base + i].sum == RealSum(rows[base + i].values)
    && forall j :: 0 <= j < |heading| ==>
         x < |Produced(es, heading[j])| && rows[base + i].values[j] == Produced(es, heading[j])[x]
  }

  /** The m rows of set s, from row `base` on, show every k-th value that was produced. */
  ghost predicate SetProduced(rows: seq<Row>, base: nat, s: nat, m: nat, heading: seq<nat>, es: seq<Event>, k: nat) {
    forall i :: 0 <= i < m ==> RowProduced(rows, base, i, s, heading, es, i * k)
  }

  lemma ShownIsProduced(rows: seq<Row>, base: nat, s: nat, m: nat, heading: seq<nat>, ranks: seq<nat>, selected: seq<nat>, es: seq<Event>, k: nat)
    requires SetShown(rows, base, s, m, heading, selected, ProducedTake(es, selected), k)
    requires ColumnsFound(ranks, heading, selected)
    ensures SetProduced(rows, base, s, m, heading, es, k)
  {
    forall i | 0 <= i < m ensures RowProduced(rows, base, i, s, heading, es, i * k) {
      assert RowShows(rows, base, i, s, heading, selected, ProducedTake(es, selected), i * k);
      forall j | 0 <= j < |heading|
        ensures i * k < |Produced(es, heading[j])| && rows[base + i].values[j] == Produced(es, heading[j])[i * k]
      {
        var rank := ranks[j];
        assert selected[rank] == heading[j] && ProducedTake(es, selected)[rank] == Produced(es, selected[rank]);
      }
    }
  }

  /** An INACTIVE per-line counter, created with this mask, and the events of one set. */
  ghost predicate Measures(w: World, id: nat, mask: Mask, op: Operation, mid: seq<Event>) {
    && WorldOk(w) && EventsOk(|w.lines|, mid)
    && id in w.sessions && w.sessions[id].status == INACTIVE && !w.sessions[id].aggregate
    && w.sessions[id].lines == SelectLines(w.legacy, mask, |w.lines|)
    && (op == START || op == CONTINUE)
    && forall i :: 0 <= i < |mid| ==> !Ends(w.legacy, mid[i], id)
  }

  /** Creating a counter makes such a session. */
  lemma CreatedMeasures(w: World, frequency: nat, mask: Mask, op: Operation, mid: seq<Event>)
    requires WorldOk(w) && EventsOk(|w.lines|, mid) && frequency <= w.maxFrequency
    requires op == START || op == CONTINUE
    requires forall i :: 0 <= i < |mid| ==> !Ends(w.legacy, mid[i], w.nextId + 1)
    ensures Measures(After(w, Create(frequency, false, mask)), w.nextId + 1, mask, op, mid)
  {
  }

  /** The recording behind the new set, which is its last one. */
  ghost function Measured(w: World, id: nat, op: Operation, mid: seq<Event>): (r: Recording)
    requires WorldOk(w) && id in w.sessions
    ensures r.interval >= 1
  {
    WithSet(RecordingOf(w.lines, w.sessions[id]), op, mid)
  }

  lemma MeasuredOk(w: World, id: nat, mask: Mask, op: Operation, mid: seq<Event>)
    requires Measures(w, id, mask, op, mid)
    ensures NewSet(Measured(w, id, op, mid), |w.lines|, w.legacy, mask, mid)
  {
    SelectionsExist(mask, |w.lines|);
  }

  /** A per-line recording of the lines that the mask selects; the last of its sets is what
      the events produced. */
  ghost predicate NewSet(r: Recording, n: nat, legacy: bool, mask: Mask, mid: seq<Event>) {
    && r.interval >= 1 && IsTakes(r.takes, |r.lines|) && r.takes != [] && !r.aggregate
    && r.lines == SelectLines(legacy, mask, n) && (forall i :: 0 <= i < |r.lines| ==> r.lines[i] < n)
    && r.takes[|r.takes| - 1] == ProducedTake(mid, r.lines)
    && EventsOk(n, mid)
  }

  /** What a printer prints of the answer to the GET behind the set. */
  ghost function PrintedAnswer(w: World, id: nat, op: Operation, mid: seq<Event>, layout: Layout, cols: Columns, set_: int): Printing
    requires WorldOk(w) && EventsOk(|w.lines|, mid)
  {
    match AnswerTo(AfterSet(w, id, op, mid), Request(id, GET))
    case Some(Data(r)) => if Ascending(r) then PrintingOf(r, layout, cols, set_) else Refused
    case _ => Refused
  }

  lemma AnswerPrinted(w: World, id: nat, mask: Mask, op: Operation, mid: seq<Event>, layout: Layout, cols: Columns, set_: int,
                      r: Recording, reply: Reply)
    requires Measures(w, id, mask, op, mid) && r == Measured(w, id, op, mid)
    requires r.interval >= 1 && IsTakes(r.takes, |r.lines|) && reply == RecordedReply(w.legacy, r) && Ascending(reply)
    ensures PrintedAnswer(w, id, op, mid, layout, cols, set_) == PrintingOf(reply, layout, cols, set_)
  {
    ReplyCarriesProducedSamples(w, id, op, mid);
  }

  /** The heading has the requested lines of the device, and the rows of the last set come
      last, behind `base` others. */
  ghost predicate NewSetPrinted(p: Printing, r: Recording, n: nat, base: nat, m: nat, lines: Mask, mask: Mask, mid: seq<Event>) {
    && p.Printed? && HeadingNames(p.heading, lines, mask, n) && |p.rows| == base + m
    && r.takes != [] && SetProduced(p.rows, base, |r.takes| - 1, m, p.heading, mid, r.interval)
  }

  lemma TextSetProduced(r: Recording, reply: Reply, n: nat, mask: Mask, mid: seq<Event>, lines: Mask, cols: Columns, base: nat, m: nat)
    requires IsMask(lines) && IsMask(mask) && NewSet(r, n, false, mask, mid) && TextFits(lines, mask, n, r.interval, r.takes)
    requires cols == ColumnsOf(lines, mask, |r.lines|) && reply == CppReply(r.takes, |r.lines|, r.interval, false)
    requires base == Sum(CppCommons(r.takes[..|r.takes| - 1], r.interval)) && m == Promised(false, r.lines, Samples(mid), r.interval)
    ensures Ascending(reply) && NewSetPrinted(PrintingOf(reply, Text(cols.counted), cols, -1), r, n, base, m, lines, mask, mid)
  {
    var k, s, selected, ms := r.interval, |r.takes| - 1, r.lines, CppCommons(r.takes, r.interval);
    TextPrintsTakes(lines, mask, n, k, r.takes);
    RightMeans(lines, mask, n, k, r.takes, selected, reply, cols);
    CommonOfProduced(false, n, selected, mid, k);
    FoundAmongSelected(lines, mask, n);
    LastOfAll(ms, CppCommons(r.takes[..s], k), s);
    var p := PrintingOf(reply, Text(cols.counted), cols, -1);
    assert SetShown(p.rows, base, s, m, p.heading, selected, r.takes[s], k);
    ShownIsProduced(p.rows, base, s, m, p.heading, cols.ranks, selected, mid, k);
  }

  /** The C++ server and the text printer, all sets: if the request fits, the rows of the
      new set come last, and show in each column every k-th value that the device produced
      for the line of the heading between the start and the stop. */
  lemma TextShowsProduced(w: World, id: nat, mask: Mask, op: Operation, mid: seq<Event>, lines: Mask, cols: Columns)
    requires IsMask(lines) && IsMask(mask) && Measures(w, id, mask, op, mid) && !w.legacy
    requires cols == ColumnsOf(lines, mask, |w.sessions[id].lines|)
    requires TextFits(lines, mask, |w.lines|, Measured(w, id, op, mid).interval, Measured(w, id, op, mid).takes)
    ensures var r := Measured(w, id, op, mid);
            r.takes != [] &&
            NewSetPrinted(PrintedAnswer(w, id, op, mid, Text(cols.counted), cols, -1), r, |w.lines|,
                          Sum(CppCommons(r.takes[..|r.takes| - 1], r.interval)), Promised(false, r.lines, Samples(mid), r.interval), lines, mask, mid)
  {
    var r := Measured(w, id, op, mid);
    MeasuredOk(w, id, mask, op, mid);
    var reply := CppReply(r.takes, |r.lines|, r.interval, false);
    var base, m := Sum(CppCommons(r.takes[..|r.takes| - 1], r.interval)), Promised(false, r.lines, Samples(mid), r.interval);
    TextSetProduced(r, reply, |w.lines|, mask, mid, lines, cols, base, m);
    AnswerPrinted(w, id, mask, op, mid, Text(cols.counted), cols, -1, r, reply);
  }

  lemma LastOfAll(ms: seq<nat>, front: seq<nat>, s: nat)
    requires |ms| == s + 1 && front == ms[..s]
    ensures ms[0..s] == front && ms[0..|ms|] == ms && Sum(ms) == Sum(front) + ms[s]
  {
  }

  lemma CsvSetProduced(r: Recording, reply: Reply, n: nat, mask: Mask, mid: seq<Event>, lines: Mask, cols: Columns, set_: int, base: nat, m: nat)
    requires IsMask(lines) && IsMask(mask) && NewSet(r, n, true, mask, mid) && Fits(lines, mask, n, r.lines)
    requires cols == ColumnsOf(lines, mask, |r.lines|) && (set_ == -1 || set_ == |r.takes| - 1)
    requires reply == LegacyReply(r.takes, |r.lines|, r.interval, false) && m == Promised(true, r.lines, Samples(mid), r.interval)
    requires base == if set_ == -1 then Sum(LegacyCommons(r.takes[..|r.takes| - 1], r.interval)) else 0
    ensures Ascending(reply) && NewSetPrinted(PrintingOf(reply, Csv, cols, set_), r, n, base, m, lines, mask, mid)
  {
    var k, s, selected, ms := r.interval, |r.takes| - 1, r.lines, LegacyCommons(r.takes, r.interval);
    PrefixSumsAscend(ms, reply.watts, reply.linesLen);
    CsvPrintsExactly(lines, mask, n, k, r.takes, set_);
    CommonOfProduced(true, n, selected, mid, k);
    LegacyColumnsExactly(lines, mask, n);
    LastOfAll(ms, LegacyCommons(r.takes[..s], k), s);
    LastAlone(ms, s);
    var p := PrintingOf(reply, Csv, cols, set_);
    CsvHeading(lines, mask, n, k, r.takes, set_, selected, cols);
    assert SetShown(p.rows, base, s, m, p.heading, selected, r.takes[s], k);
    ShownIsProduced(p.rows, base, s, m, p.heading, cols.ranks, selected, mid, k);
  }

  lemma CsvSetWrong(r: Recording, reply: Reply, n: nat, mask: Mask, mid: seq<Event>, lines: Mask, cols: Columns, set_: int, base: nat, m: nat)
    requires IsMask(lines) && IsMask(mask) && NewSet(r, n, true, mask, mid) && !Fits(lines, mask, n, r.lines)
    requires cols == ColumnsOf(lines, mask, |r.lines|) && reply == LegacyReply(r.takes, |r.lines|, r.interval, false)
    ensures Ascending(reply) && !NewSetPrinted(PrintingOf(reply, Csv, cols, set_), r, n, base, m, lines, mask, mid)
  {
    PrefixSumsAscend(LegacyCommons(r.takes, r.interval), reply.watts, reply.linesLen);
    LegacyColumnsExactly(lines, mask, n);
    if PrintingOf(reply, Csv, cols, set_).Printed? {
      CsvHeading(lines, mask, n, r.interval, r.takes, set_, r.lines, cols);
    }
  }

  /** The legacy server and the csv printer, at every stride, the new set or all sets: the
      same, exactly if the request fits. */
  lemma CsvShowsProduced(w: World, id: nat, mask: Mask, op: Operation, mid: seq<Event>, lines: Mask, cols: Columns, set_: int)
    requires IsMask(lines) && IsMask(mask) && Measures(w, id, mask, op, mid) && w.legacy
    requires cols == ColumnsOf(lines, mask, |w.sessions[id].lines|)
    requires (set_ == -1 || set_ == |Measured(w, id, op, mid).takes| - 1)
    ensures var r := Measured(w, id, op, mid);
            r.takes != [] &&
            (NewSetPrinted(PrintedAnswer(w, id, op, mid, Csv, cols, set_), r, |w.lines|,
                           if set_ == -1 then Sum(LegacyCommons(r.takes[..|r.takes| - 1], r.interval)) else 0,
                           Promised(true, r.lines, Samples(mid), r.interval), lines, mask, mid) <==>
             Fits(lines, mask, |w.lines|, r.lines))
  {
    var r := Measured(w, id, op, mid);
    MeasuredOk(w, id, mask, op, mid);
    var reply := LegacyReply(r.takes, |r.lines|, r.interval, false);
    var base := if set_ == -1 then Sum(LegacyCommons(r.takes[..|r.takes| - 1], r.interval)) else 0;
    var m := Promised(true, r.lines, Samples(mid), r.interval);
    if Fits(lines, mask, |w.lines|, r.lines) {
      CsvSetProduced(r, reply, |w.lines|, mask, mid, lines, cols, set_, base, m);
    } else {
      CsvSetWrong(r, reply, |w.lines|, mask, mid, lines, cols, set_, base, m);
    }
    AnswerPrinted(w, id, mask, op, mid, Csv, cols, set_, r, reply);
  }

  lemma LastAlone(ms: seq<nat>, s: nat)
    requires |ms| == s + 1
    ensures Sum(ms[s..s]) == 0 && Sum(ms[s..s + 1]) == ms[s]
  {
    assert ms[s..s + 1] == [ms[s]] && [ms[s]][..0] == [];
  }
}
