/** What the text printer prints of the replies of the C++ server. */
module TextLaws {
  import opened Util
  import opened Lines
  import opened PrintColumns
  import opened Printers
  import opened PrintedRows
  import opened Replies
  import opened ReplyLaws

  // ---- what a C++ reply promises, and what it carries ----

  /** The C++ reply carries what it promises when the stride is one or no set promises more
      than one sample. */
  predicate Carried(takes: seq<Take>, k: nat)
    requires k >= 1
  {
    k == 1 || forall s :: 0 <= s < |takes| ==> CppCommon(takes[s], k) <= 1
  }

  lemma CppBlocksShow(takes: seq<Take>, n: nat, k: nat)
    requires IsTakes(takes, n) && k >= 1 && Carried(takes, k)
    ensures BlocksOf(CppBlocks(takes, k), takes, n, CppCommons(takes, k), k)
  {
    forall s, l | 0 <= s < |takes| && 0 <= l < n ensures LineOf(CppBlock(takes[s], k)[l], takes[s][l], CppCommon(takes[s], k), k) {
      CppLineShows(takes[s], l, k);
    }
  }

  lemma CppLineShows(t: Take, l: nat, k: nat)
    requires l < |t| && k >= 1 && (k == 1 || CppCommon(t, k) <= 1)
    ensures LineOf(CppBlock(t, k)[l], t[l], CppCommon(t, k), k)
  {
    var m := CppCommon(t, k);
    CppCommonInside(t, k, l);
    CeilDivIsAll(m, k);
    assert CppBlock(t, k)[l] == Stride(t[l][..m], k);
    forall i | 0 <= i < m ensures i * k < |t[l]| && CppBlock(t, k)[l][i] == t[l][i * k] {
      CeilDivMeans(m, k, i);
    }
  }

  /** The samples a set promises of each line: every k-th, as many as watts_sets says. */
  function PromisedBlock(t: Take, k: nat): (b: seq<seq<real>>)
    requires k >= 1
    ensures |b| == |t|
  {
    seq(|t|, l requires 0 <= l < |t| => PromisedLine(t, k, l))
  }

  function PromisedLine(t: Take, k: nat, l: nat): (xs: seq<real>)
    requires k >= 1 && l < |t|
    ensures |xs| == CppCommon(t, k)
  {
    seq(CppCommon(t, k), i requires 0 <= i < CppCommon(t, k) => (CppColumnInside(t, k, i); t[l][i * k]))
  }

  function PromisedBlocks(takes: seq<Take>, k: nat): (bs: Blocks)
    requires k >= 1
    ensures |bs| == |takes|
  {
    seq(|takes|, s requires 0 <= s < |takes| => PromisedBlock(takes[s], k))
  }

  lemma PromisedLineOf(t: Take, k: nat, l: nat)
    requires k >= 1 && l < |t|
    ensures LineOf(PromisedBlock(t, k)[l], t[l], CppCommon(t, k), k)
  {
    forall i | 0 <= i < CppCommon(t, k) ensures i * k < |t[l]| && PromisedLine(t, k, l)[i] == t[l][i * k] {
      CppColumnInside(t, k, i);
    }
  }

  lemma PromisedShow(takes: seq<Take>, n: nat, k: nat)
    requires IsTakes(takes, n) && k >= 1
    ensures BlocksOf(PromisedBlocks(takes, k), takes, n, CppCommons(takes, k), k)
  {
    forall s, l | 0 <= s < |takes| && 0 <= l < n
      ensures LineOf(PromisedBlocks(takes, k)[s][l], takes[s][l], CppCommon(takes[s], k), k)
    {
      PromisedLineOf(takes[s], k, l);
    }
  }

  lemma PromisedIsCarried(takes: seq<Take>, n: nat, k: nat)
    requires IsTakes(takes, n) && k >= 1 && Carried(takes, k)
    ensures CppBlocks(takes, k) == PromisedBlocks(takes, k)
  {
    var bs, ps, ms := CppBlocks(takes, k), PromisedBlocks(takes, k), CppCommons(takes, k);
    CppBlocksShow(takes, n, k);
    PromisedShow(takes, n, k);
    forall s | 0 <= s < |takes| ensures bs[s] == ps[s] {
      assert BlockOf(bs[s], takes[s], ms[s], k) && BlockOf(ps[s], takes[s], ms[s], k);
      SameBlock(bs[s], ps[s], takes[s], ms[s], k);
    }
  }

  lemma SameBlock(a: seq<seq<real>>, b: seq<seq<real>>, take: Take, m: nat, k: nat)
    requires BlockOf(a, take, m, k) && BlockOf(b, take, m, k)
    ensures a == b
  {
    forall l | 0 <= l < |take| ensures a[l] == b[l] {
      assert LineOf(a[l], take[l], m, k) && LineOf(b[l], take[l], m, k);
    }
  }

  lemma CeilDivSmaller(m: nat, k: nat)
    requires k >= 1
    ensures CeilDiv(m, k) <= m
  {
    if m > 0 {
      CeilDivMeans(m, k, m);
      MulMono(1, k, m);
      assert m * k == k * m;
    } else {
      DivUnique(k - 1, k, 0);
    }
  }

  lemma CppPartLength(t: Take, k: nat, n: nat)
    requires k >= 1 && |t| == n
    ensures |CppPart(t, k, false)| == n * CeilDiv(CppCommon(t, k), k)
  {
    var block := CppBlock(t, k);
    forall l | 0 <= l < n ensures Lengths(block)[l] == CeilDiv(CppCommon(t, k), k) {
      CppCommonInside(t, k, l);
      assert block[l] == Stride(t[l][..CppCommon(t, k)], k);
    }
    FlattenLength(block);
    SumConstant(Lengths(block), CeilDiv(CppCommon(t, k), k));
  }

  /** How many samples of a line are copied of each set. */
  function Copied(takes: seq<Take>, k: nat): (cs: seq<nat>)
    requires k >= 1
    ensures |cs| == |takes|
  {
    seq(|takes|, s requires 0 <= s < |takes| => CeilDiv(CppCommon(takes[s], k), k))
  }

  lemma {:induction false} SumsCompare(cs: seq<nat>, ms: seq<nat>)
    requires |cs| == |ms| && forall s :: 0 <= s < |cs| ==> cs[s] <= ms[s]
    ensures Sum(cs) <= Sum(ms)
    ensures Sum(cs) == Sum(ms) <==> cs == ms
  {
    if cs != [] {
      var front, front', x := cs[..|cs| - 1], ms[..|ms| - 1], |cs| - 1;
      SumsCompare(front, front');
      assert cs == front + [cs[x]] && ms == front' + [ms[x]];
      assert Sum(cs) == Sum(front) + cs[x] && Sum(ms) == Sum(front') + ms[x];
      if cs[x] == ms[x] && front == front' {
        assert cs == ms;
      }
    }
  }

  /** The reply is as long as the lengths it promises exactly when it carries them. */
  lemma PromiseKept(takes: seq<Take>, n: nat, k: nat)
    requires k >= 1 && IsTakes(takes, n)
    ensures |CppReply(takes, n, k, false).watts| <= n * Sum(CppCommons(takes, k))
    ensures |CppReply(takes, n, k, false).watts| == n * Sum(CppCommons(takes, k)) <==> n == 0 || Carried(takes, k)
  {
    var cs, ms := Copied(takes, k), CppCommons(takes, k);
    CopiedLength(takes, n, k);
    CopiedIsAll(takes, k);
    SumsCompare(cs, ms);
    PartShort(n, Sum(cs), Sum(ms));
  }

  lemma CopiedLength(takes: seq<Take>, n: nat, k: nat)
    requires k >= 1 && IsTakes(takes, n)
    ensures |CppReply(takes, n, k, false).watts| == n * Sum(Copied(takes, k))
  {
    var parts := CppParts(takes, k, false);
    forall s | 0 <= s < |takes| ensures Lengths(parts)[s] == n * Copied(takes, k)[s] {
      CppPartLength(takes[s], k, n);
    }
    FlattenLength(parts);
    SumScaled(Lengths(parts), Copied(takes, k), n);
  }

  lemma CopiedIsAll(takes: seq<Take>, k: nat)
    requires k >= 1
    ensures forall s :: 0 <= s < |takes| ==> Copied(takes, k)[s] <= CppCommons(takes, k)[s]
    ensures Copied(takes, k) == CppCommons(takes, k) <==> Carried(takes, k)
  {
    var cs, ms := Copied(takes, k), CppCommons(takes, k);
    forall s | 0 <= s < |takes| ensures cs[s] <= ms[s] && (cs[s] == ms[s] <==> k == 1 || CppCommon(takes[s], k) <= 1) {
      CeilDivSmaller(ms[s], k);
      CeilDivIsAll(ms[s], k);
    }
    if cs == ms {
      assert forall s :: 0 <= s < |takes| ==> cs[s] == ms[s];
    }
  }

  lemma PartShort(n: nat, c: nat, m: nat)
    requires c <= m
    ensures n * c <= n * m
    ensures n * c == n * m <==> n == 0 || c == m
  {
    MulMono(c, m, n);
    assert c * n == n * c && m * n == n * m;
    if n > 0 && c < m {
      MulMono(c + 1, m, n);
      assert (c + 1) * n == c * n + n;
    }
  }

  // ---- how much is in front of a set ----

  predicate NothingBefore(ms: seq<nat>, s: nat)
    requires s <= |ms|
  {
    forall t :: 0 <= t < s ==> ms[t] == 0
  }

  lemma {:induction false} SumZero(ns: seq<nat>)
    ensures Sum(ns) == 0 <==> forall t :: 0 <= t < |ns| ==> ns[t] == 0
  {
    if ns != [] {
      SumZero(ns[..|ns| - 1]);
    }
  }

  lemma BeforeIsSum(ms: seq<nat>, s: nat)
    requires s <= |ms|
    ensures NothingBefore(ms, s) <==> Sum(ms[..s]) == 0
  {
    SumZero(ms[..s]);
    assert forall t :: 0 <= t < s ==> ms[..s][t] == ms[t];
  }

  /** At most one set promises samples. */
  predicate OneFull(ms: seq<nat>) {
    forall s :: 0 <= s < |ms| && ms[s] > 0 ==> NothingBefore(ms, s)
  }

  // ---- the reply whose values are their own positions ----

  function NumberedBlock(m: nat, n: nat, base: nat): (b: seq<seq<real>>)
    ensures |b| == n && forall l :: 0 <= l < n ==> |b[l]| == m
  {
    seq(n, l requires 0 <= l < n => seq(m, i requires 0 <= i < m => Numbered(base, m, l, i)))
  }

  function Numbered(base: nat, m: nat, l: nat, i: nat): real {
    (base + l * m + i) as real
  }

  function NumberedBlocks(ms: seq<nat>, n: nat): (bs: Blocks)
    ensures Uniform(bs, n, ms)
  {
    seq(|ms|, s requires 0 <= s < |ms| => NumberedBlock(ms[s], n, n * Sum(ms[..s])))
  }

  /** Block j counts on from `from`. */
  ghost predicate CountsFrom(xs: seq<real>, from: nat) {
    forall i :: 0 <= i < |xs| ==> xs[i] == (from + i) as real
  }

  ghost predicate CountsAt(xs: seq<seq<real>>, base: nat, j: nat)
    requires j < |xs|
  {
    CountsFrom(xs[j], base + Sum(Lengths(xs[..j])))
  }

  lemma CountsBoth(a: seq<real>, b: seq<real>, from: nat, next: nat)
    requires CountsFrom(a, from) && CountsFrom(b, next) && next == from + |a|
    ensures CountsFrom(a + b, from)
  {
  }

  lemma {:induction false} CountsUp(xs: seq<seq<real>>, base: nat)
    requires forall j :: 0 <= j < |xs| ==> CountsAt(xs, base, j)
    ensures CountsFrom(Flatten(xs), base)
  {
    if xs != [] {
      var front, end := xs[..|xs| - 1], |xs| - 1;
      forall j | 0 <= j < |front| ensures CountsAt(front, base, j) {
        assert front[..j] == xs[..j];
        assert CountsAt(xs, base, j);
      }
      CountsUp(front, base);
      FlattenLength(front);
      assert CountsAt(xs, base, end);
      CountsBoth(Flatten(front), xs[end], base, base + Sum(Lengths(front)));
    }
  }

  lemma NumberedSet(m: nat, n: nat, base: nat)
    ensures |Flatten(NumberedBlock(m, n, base))| == n * m
    ensures CountsFrom(Flatten(NumberedBlock(m, n, base)), base)
  {
    var b := NumberedBlock(m, n, base);
    forall l | 0 <= l < n ensures CountsAt(b, base, l) {
      SumConstant(Lengths(b[..l]), m);
    }
    CountsUp(b, base);
    FlattenLength(b);
    SumConstant(Lengths(b), m);
  }

  lemma NumberedSetAt(ms: seq<nat>, n: nat, s: nat)
    requires s < |ms|
    ensures CountsAt(FlattenEach(NumberedBlocks(ms, n)), 0, s)
  {
    var bs, base := NumberedBlocks(ms, n), n * Sum(ms[..s]);
    var before := FlattenEach(bs)[..s];
    SetLengths(bs, n, ms);
    SumScaled(Lengths(before), ms[..s], n);
    NumberedSet(ms[s], n, base);
  }

  lemma NumberedReply(ms: seq<nat>, n: nat)
    ensures |SetMajor(NumberedBlocks(ms, n))| == n * Sum(ms)
    ensures CountsFrom(SetMajor(NumberedBlocks(ms, n)), 0)
  {
    var sets := FlattenEach(NumberedBlocks(ms, n));
    forall s | 0 <= s < |sets| ensures CountsAt(sets, 0, s) {
      NumberedSetAt(ms, n, s);
    }
    CountsUp(sets, 0);
    SetMajorLength(NumberedBlocks(ms, n), n, ms);
  }

  // ---- all sets: where the printer is right ----

  /** Where no column and no row is read, any blocks will do. */
  lemma NothingRead(r: Reply, bs: Blocks, n: nat, ms: seq<nat>, ranks: seq<nat>, counted: nat, s: nat)
    requires Uniform(bs, n, ms) && r.wattsSets == PrefixSums(ms) && s < |ms| && forall j :: 0 <= j < |ranks| ==> ranks[j] < n
    requires ranks == [] || ms[s] == 0
    ensures Ascending(r) && PartOf(r, Text(counted), ranks, 0, s) == Some(SetRows(bs[s], s, ms[s], ranks))
  {
    LengthIs(r, ms, s);
    RowsAreSamples(r.watts, bs[s], s, BaseOf(r, Text(counted), 0, s), ms[s], ms[s], ranks);
  }

  /** A set-major reply is read right where the counter's lines are counted right, and in
      the first set that has samples. */
  lemma TextPart(r: Reply, bs: Blocks, ms: seq<nat>, ranks: seq<nat>, counted: nat, s: nat)
    requires CarriesSetMajor(r, bs, ms) && s < |bs| && forall j :: 0 <= j < |ranks| ==> ranks[j] < r.linesLen
    requires counted == r.linesLen || Sum(ms[..s]) == 0
    ensures Ascending(r) && PartOf(r, Text(counted), ranks, 0, s) == Some(SetRows(bs[s], s, ms[s], ranks))
  {
    var base, m := r.linesLen * Sum(ms[..s]), ms[s];
    LengthIs(r, ms, s);
    assert base == counted * Sum(ms[..s]);
    SetMajorReads(bs, r.linesLen, ms, s, ranks, base, m);
    RowsAreSamples(r.watts, bs[s], s, base, m, m, ranks);
  }

  /** The positions that the text printer reads are those of the promised samples. */
  predicate PositionsRight(takes: seq<Take>, n: nat, k: nat, counted: nat)
    requires k >= 1
  {
    Carried(takes, k) && (counted == n || OneFull(CppCommons(takes, k)))
  }

  lemma PromisedPart(r: Reply, takes: seq<Take>, n: nat, k: nat, ranks: seq<nat>, counted: nat, s: nat)
    requires k >= 1 && IsTakes(takes, n) && r == CppReply(takes, n, k, false) && s < |takes|
    requires forall j :: 0 <= j < |ranks| ==> ranks[j] < n
    requires ranks == [] || PositionsRight(takes, n, k, counted)
    ensures Uniform(PromisedBlocks(takes, k), n, CppCommons(takes, k)) && Ascending(r)
    ensures PartOf(r, Text(counted), ranks, 0, s) == Some(AllRows(PromisedBlocks(takes, k), n, CppCommons(takes, k), ranks)[s])
  {
    var bs, ms := PromisedBlocks(takes, k), CppCommons(takes, k);
    PromisedShow(takes, n, k);
    BlocksAreUniform(bs, takes, n, ms, k);
    if ranks == [] || ms[s] == 0 {
      NothingRead(r, bs, n, ms, ranks, counted, s);
    } else {
      PromisedIsCarried(takes, n, k);
      CppReplyIsSetMajor(takes, n, k);
      BeforeIsSum(ms, s);
      TextPart(r, bs, ms, ranks, counted, s);
    }
  }

  lemma TextSetsShow(r: Reply, takes: seq<Take>, k: nat, ranks: seq<nat>, heading: seq<nat>, selected: seq<nat>, counted: nat)
    requires k >= 1 && IsTakes(takes, |selected|) && r == CppReply(takes, |selected|, k, false)
    requires ColumnsFound(ranks, heading, selected) && (ranks == [] || PositionsRight(takes, |selected|, k, counted))
    ensures Ascending(r) && SetsOf(r, Text(counted), ranks, 0, |takes|).Some?
    ensures Shows(SetsOf(r, Text(counted), ranks, 0, |takes|).value, 0, |takes|, CppCommons(takes, k), heading, selected, takes, k)
  {
    var bs, ms, n := PromisedBlocks(takes, k), CppCommons(takes, k), |selected|;
    PrefixSumsAscend(ms, r.watts, n);
    PromisedShow(takes, n, k);
    BlocksAreUniform(bs, takes, n, ms, k);
    var parts := AllRows(bs, n, ms, ranks);
    forall s | 0 <= s < |takes| ensures PartOf(r, Text(counted), ranks, 0, s) == Some(parts[s]) {
      PromisedPart(r, takes, n, k, ranks, counted, s);
    }
    SetsFromParts(r, Text(counted), ranks, parts, 0, |takes|);
    RowsShow(bs, takes, k, ms, ranks, heading, selected, 0, |takes|);
  }

  /** What the text printer prints of all sets of a C++ reply. */
  ghost function TextPrinting(lines: Mask, counterLines: Mask, n: nat, k: nat, takes: seq<Take>): Printing
    requires IsMask(lines) && IsMask(counterLines) && k >= 1 && IsTakes(takes, |Selected(counterLines, n)|)
  {
    var r := CppReply(takes, |Selected(counterLines, n)|, k, false);
    var cols := ColumnsOf(lines, counterLines, |Selected(counterLines, n)|);
    PrefixSumsAscend(CppCommons(takes, k), r.watts, r.linesLen);
    PrintingOf(r, Text(cols.counted), cols, -1)
  }

  ghost predicate TextRight(lines: Mask, counterLines: Mask, n: nat, k: nat, takes: seq<Take>)
    requires IsMask(lines) && IsMask(counterLines) && k >= 1 && IsTakes(takes, |Selected(counterLines, n)|)
  {
    PrintedRight(TextPrinting(lines, counterLines, n, k, takes), lines, counterLines, n, Selected(counterLines, n), 0, |takes|,
                 CppCommons(takes, k), takes, k)
  }

  predicate NoneRequested(lines: Mask, counterLines: Mask, n: nat) {
    forall l :: 0 <= l < n ==> !Common(lines, counterLines, l)
  }

  /** The arrays are filled; and no line is printed, or the reply carries what it promises
      and the counter's lines are counted right or count for nothing. */
  predicate TextFits(lines: Mask, counterLines: Mask, n: nat, k: nat, takes: seq<Take>)
    requires k >= 1
  {
    var selected := Selected(counterLines, n);
    && Fits(lines, counterLines, n, selected)
    && (|| NoneRequested(lines, counterLines, n)
        || (Carried(takes, k) &&
            (OnDevice(counterLines, n) || AllCommon(lines, counterLines, selected) || OneFull(CppCommons(takes, k)))))
  }

  lemma HeadingEmpty(lines: Mask, counterLines: Mask, n: nat)
    requires IsMask(lines) && IsMask(counterLines)
    ensures ColumnsOf(lines, counterLines, |Selected(counterLines, n)|).lines == [] <==> NoneRequested(lines, counterLines, n)
  {
    var heading := Selected(Anded(lines, counterLines), n);
    ColumnsOnDevice(lines, counterLines, n);
    if heading != [] {
      assert heading[0] in heading;
    }
  }

  /** Once the columns are filled, the printer fits exactly when its positions are right or
      it reads none. */
  lemma FilledFits(lines: Mask, counterLines: Mask, n: nat, k: nat, takes: seq<Take>, selected: seq<nat>, cols: Columns)
    requires IsMask(lines) && IsMask(counterLines) && k >= 1
    requires selected == Selected(counterLines, n) && cols == ColumnsOf(lines, counterLines, |selected|)
    requires Fits(lines, counterLines, n, selected)
    ensures TextFits(lines, counterLines, n, k, takes) <==> cols.ranks == [] || PositionsRight(takes, |selected|, k, cols.counted)
  {
    CountedExactly(lines, counterLines, n);
    HeadingEmpty(lines, counterLines, n);
  }

  lemma TextPrintsTakes(lines: Mask, counterLines: Mask, n: nat, k: nat, takes: seq<Take>)
    requires IsMask(lines) && IsMask(counterLines) && k >= 1 && IsTakes(takes, |Selected(counterLines, n)|)
    requires TextFits(lines, counterLines, n, k, takes)
    ensures TextRight(lines, counterLines, n, k, takes)
  {
    var selected := Selected(counterLines, n);
    var r, cols := CppReply(takes, |selected|, k, false), ColumnsOf(lines, counterLines, |selected|);
    FilledFits(lines, counterLines, n, k, takes, selected, cols);
    FilledExactly(lines, counterLines, n);
    ColumnsOnDevice(lines, counterLines, n);
    FoundAmongSelected(lines, counterLines, n);
    TextSetsShow(r, takes, k, cols.ranks, cols.lines, selected, cols.counted);
    SetsPrinted(r, Text(cols.counted), cols, -1, 0, |takes|);
  }

  // ---- all sets: where it is wrong ----

  /** The sets from the first on are printed one behind the other. */
  lemma {:induction false} SetsRow(r: Reply, layout: Layout, ranks: seq<nat>, last: nat, s: nat, i: nat)
    requires Ascending(r) && r.wattsSets[0] == 0 && s < last < |r.wattsSets| && i < LengthOf(r, s)
    requires SetsOf(r, layout, ranks, 0, last).Some?
    ensures |SetsOf(r, layout, ranks, 0, last).value| == r.wattsSets[last]
    ensures r.wattsSets[s] + i < r.wattsSets[last] && PartOf(r, layout, ranks, 0, s).Some?
    ensures SetsOf(r, layout, ranks, 0, last).value[r.wattsSets[s] + i] == PartOf(r, layout, ranks, 0, s).value[i]
    decreases last
  {
    SetsLength(r, layout, ranks, last - 1);
    if s < last - 1 {
      SetsRow(r, layout, ranks, last - 1, s, i);
    }
  }

  lemma {:induction false} SetsLength(r: Reply, layout: Layout, ranks: seq<nat>, last: nat)
    requires Ascending(r) && r.wattsSets[0] == 0 && last < |r.wattsSets| && SetsOf(r, layout, ranks, 0, last).Some?
    ensures |SetsOf(r, layout, ranks, 0, last).value| == r.wattsSets[last]
  {
    if last > 0 {
      SetsLength(r, layout, ranks, last - 1);
    }
  }

  lemma RowsFirst(watts: seq<real>, s: nat, base: nat, m: nat, ranks: seq<nat>, i: nat, at: nat)
    requires RowsOf(watts, s, base, m, m, ranks).Some? && ranks != [] && i < m && at == base + i
    ensures |RowsOf(watts, s, base, m, m, ranks).value[i].values| == |ranks|
    ensures Holds(watts, Position(at, m, ranks[0]), RowsOf(watts, s, base, m, m, ranks).value[i].values[0])
  {
    assert RowInside(watts, at, m, ranks);
    assert RowsOf(watts, s, base, m, m, ranks).value[i] == RowOf(watts, s, at, m, ranks);
  }

  lemma RowRead(r: Reply, counted: nat, ranks: seq<nat>, ms: seq<nat>, s: nat, i: nat, base: nat, at: nat, m: nat, row: nat)
    requires r.wattsSets == PrefixSums(ms) && s < |ms| && ranks != [] && m == ms[s] && i < m
    requires base == counted * Sum(ms[..s]) && at == base + i && row == Sum(ms[..s]) + i
    requires Ascending(r) && SetsOf(r, Text(counted), ranks, 0, |ms|).Some?
    ensures var rows := SetsOf(r, Text(counted), ranks, 0, |ms|).value;
            row < |rows| && |rows[row].values| == |ranks| && Holds(r.watts, Position(at, m, ranks[0]), rows[row].values[0])
  {
    LengthIs(r, ms, s);
    SetsRow(r, Text(counted), ranks, |ms|, s, i);
    RowsFirst(r.watts, s, base, m, ranks, i, at);
  }

  /** A row that shows its set has the promised sample in its first column. */
  lemma ShownFirst(rows: seq<Row>, ms: seq<nat>, ranks: seq<nat>, heading: seq<nat>, selected: seq<nat>, takes: seq<Take>, k: nat,
                   s: nat, i: nat, x: nat, row: nat)
    requires |ms| == |takes| && Shows(rows, 0, |takes|, ms, heading, selected, takes, k) && IsTakes(takes, |selected|)
    requires ColumnsFound(ranks, heading, selected) && ranks != [] && s < |ms| && i < ms[s] && x == i * k && row == Sum(ms[..s]) + i
    ensures row < |rows| && |rows[row].values| == |ranks|
    ensures x < |takes[s][ranks[0]]| && rows[row].values[0] == takes[s][ranks[0]][x]
  {
    assert ms[0..s] == ms[..s];
    assert SetShown(rows, Sum(ms[0..s]), s, ms[s], heading, selected, takes[s], k);
    assert RowShows(rows, Sum(ms[0..s]), i, s, heading, selected, takes[s], x);
    assert selected[ranks[0]] == heading[0];
  }

  lemma RightMeans(lines: Mask, counterLines: Mask, n: nat, k: nat, takes: seq<Take>, selected: seq<nat>, r: Reply, cols: Columns)
    requires IsMask(lines) && IsMask(counterLines) && k >= 1 && selected == Selected(counterLines, n) && IsTakes(takes, |selected|)
    requires cols == ColumnsOf(lines, counterLines, |selected|) && r == CppReply(takes, |selected|, k, false)
    requires TextRight(lines, counterLines, n, k, takes)
    ensures Ascending(r) && SetsOf(r, Text(cols.counted), cols.ranks, 0, |takes|).Some?
    ensures Shows(SetsOf(r, Text(cols.counted), cols.ranks, 0, |takes|).value, 0, |takes|, CppCommons(takes, k), cols.lines, selected, takes, k)
    ensures |cols.lines| == cols.printed
  {
    PrefixSumsAscend(CppCommons(takes, k), r.watts, r.linesLen);
    ColumnsMean(lines, counterLines, |selected|);
  }

  /** Where the printer is right, the first column of row i of set s is read from a place
      that holds the promised sample. */
  lemma RightReads(lines: Mask, counterLines: Mask, n: nat, k: nat, takes: seq<Take>, selected: seq<nat>, r: Reply, cols: Columns,
                   ms: seq<nat>, s: nat, i: nat, x: nat, base: nat, at: nat, m: nat, rank: nat)
    requires IsMask(lines) && IsMask(counterLines) && k >= 1 && selected == Selected(counterLines, n) && IsTakes(takes, |selected|)
    requires cols == ColumnsOf(lines, counterLines, |selected|) && r == CppReply(takes, |selected|, k, false)
    requires ms == CppCommons(takes, k) && s < |takes| && m == ms[s] && i < m && x == i * k
    requires cols.ranks != [] && rank == cols.ranks[0] && base == cols.counted * Sum(ms[..s]) && at == base + i
    requires TextRight(lines, counterLines, n, k, takes)
    ensures rank < |takes[s]| && x < |takes[s][rank]| && Holds(r.watts, Position(at, m, rank), takes[s][rank][x])
  {
    RightMeans(lines, counterLines, n, k, takes, selected, r, cols);
    FoundAmongSelected(lines, counterLines, n);
    var row, rows := Sum(ms[..s]) + i, SetsOf(r, Text(cols.counted), cols.ranks, 0, |takes|).value;
    RowRead(r, cols.counted, cols.ranks, ms, s, i, base, at, m, row);
    ShownFirst(rows, ms, cols.ranks, cols.lines, selected, takes, k, s, i, x, row);
  }

  /** The same sets with the same numbers of samples. */
  ghost predicate SameLengths(a: seq<Take>, b: seq<Take>) {
    && |a| == |b|
    && (forall s :: 0 <= s < |a| ==> |a[s]| == |b[s]|)
    && forall s, l :: 0 <= s < |a| && 0 <= l < |a[s]| ==> |a[s][l]| == |b[s][l]|
  }

  lemma SamePromise(a: seq<Take>, b: seq<Take>, k: nat)
    requires SameLengths(a, b) && k >= 1
    ensures CppCommons(a, k) == CppCommons(b, k) && (Carried(a, k) <==> Carried(b, k))
  {
    forall s | 0 <= s < |a| ensures CppCommon(a[s], k) == CppCommon(b[s], k) {
      assert CppLengths(a[s], k) == CppLengths(b[s], k);
    }
  }

  // a sample that is promised and not sent

  /** The takes with another value for sample x of a line. */
  function Touched(takes: seq<Take>, s: nat, l: nat, x: nat): (r: seq<Take>)
    requires s < |takes| && l < |takes[s]| && x < |takes[s][l]|
  {
    takes[s := takes[s][l := takes[s][l][x := takes[s][l][x] + 1.0]]]
  }

  lemma TouchedBlock(a: Take, b: Take, k: nat)
    requires k >= 1 && |a| == |b| && CppCommon(a, k) == CppCommon(b, k)
    requires forall l :: 0 <= l < |a| ==> |a[l]| == |b[l]|
    requires forall l, x :: 0 <= l < |a| && 0 <= x < CppCommon(a, k) && x < |a[l]| ==> a[l][x] == b[l][x]
    ensures CppBlock(a, k) == CppBlock(b, k)
  {
    var m := CppCommon(a, k);
    forall l | 0 <= l < |a| ensures CppBlock(a, k)[l] == CppBlock(b, k)[l] {
      CppCommonInside(a, k, l);
      assert a[l][..m] == b[l][..m];
    }
  }

  /** Behind the common length a sample does not change the reply. */
  lemma TouchedReply(takes: seq<Take>, n: nat, k: nat, s: nat, l: nat, x: nat)
    requires k >= 1 && IsTakes(takes, n) && s < |takes| && l < n && CppCommon(takes[s], k) <= x < |takes[s][l]|
    ensures var touched := Touched(takes, s, l, x);
            SameLengths(takes, touched) && IsTakes(touched, n) && CppReply(touched, n, k, false) == CppReply(takes, n, k, false)
  {
    var touched := Touched(takes, s, l, x);
    SamePromise(takes, touched, k);
    assert CppCommons(takes, k)[s] == CppCommons(touched, k)[s];
    TouchedBlock(takes[s], touched[s], k);
    assert CppParts(takes, k, false) == CppParts(touched, k, false);
  }

  /** The sample that row CeilDiv(m, k) should show lies behind what is copied of the line. */
  lemma NotSent(t: Take, k: nat, l: nat, m: nat, i: nat, x: nat)
    requires k > 1 && l < |t| && m == CppCommon(t, k) && m > 1 && i == CeilDiv(m, k) && x == i * k
    ensures i < m <= x < |t[l]|
  {
    CeilDivSmaller(m, k);
    CeilDivIsAll(m, k);
    CeilDivMeans(m, k, i);
    CppColumnInside(t, k, i);
  }

  /** Two takes with one reply, of which both are printed right, have the same sample where
      the reply promises it. */
  lemma OneReply(lines: Mask, counterLines: Mask, n: nat, k: nat, takes: seq<Take>, other: seq<Take>, selected: seq<nat>, r: Reply,
                 cols: Columns, ms: seq<nat>, s: nat, i: nat, x: nat, rank: nat)
    requires IsMask(lines) && IsMask(counterLines) && k >= 1 && selected == Selected(counterLines, n)
    requires IsTakes(takes, |selected|) && IsTakes(other, |selected|) && |takes| == |other|
    requires ms == CppCommons(takes, k) && ms == CppCommons(other, k) && s < |takes| && i < ms[s] && x == i * k
    requires cols == ColumnsOf(lines, counterLines, |selected|) && cols.ranks != [] && rank == cols.ranks[0]
    requires r == CppReply(takes, |selected|, k, false) && r == CppReply(other, |selected|, k, false)
    requires TextRight(lines, counterLines, n, k, takes) && TextRight(lines, counterLines, n, k, other)
    ensures rank < |selected| && x < |takes[s][rank]| && x < |other[s][rank]| && takes[s][rank][x] == other[s][rank][x]
  {
    var m, before := ms[s], Sum(ms[..s]);
    var base := Product(cols.counted, before);
    var at := base + i;
    RightReads(lines, counterLines, n, k, takes, selected, r, cols, ms, s, i, x, base, at, m, rank);
    RightReads(lines, counterLines, n, k, other, selected, r, cols, ms, s, i, x, base, at, m, rank);
  }

  /** One of two takes that differ only there is printed wrong. */
  lemma NotCarriedWrong(lines: Mask, counterLines: Mask, n: nat, k: nat, takes: seq<Take>, selected: seq<nat>, cols: Columns,
                        s: nat, rank: nat) returns (other: seq<Take>)
    requires IsMask(lines) && IsMask(counterLines) && k > 1 && selected == Selected(counterLines, n) && IsTakes(takes, |selected|)
    requires cols == ColumnsOf(lines, counterLines, |selected|) && cols.ranks != [] && rank == cols.ranks[0] && rank < |selected|
    requires s < |takes| && CppCommon(takes[s], k) > 1
    ensures SameLengths(other, takes) && IsTakes(other, |selected|) && !TextRight(lines, counterLines, n, k, other)
  {
    var ms := CppCommons(takes, k);
    var m := ms[s];
    var i := CeilDiv(m, k);
    var x := Product(i, k);
    NotSent(takes[s], k, rank, m, i, x);
    TouchedReply(takes, |selected|, k, s, rank, x);
    other := Touched(takes, s, rank, x);
    assert other[s][rank][x] != takes[s][rank][x];
    SamePromise(takes, other, k);
    if TextRight(lines, counterLines, n, k, takes) {
      if TextRight(lines, counterLines, n, k, other) {
        OneReply(lines, counterLines, n, k, takes, other, selected, CppReply(takes, |selected|, k, false), cols, ms, s, i, x, rank);
        assert false;
      }
    } else {
      other := takes;
    }
  }

  // a set that is read from the wrong place

  /** Takes of these lengths whose reply, if it carries them, has each position as its
      value. */
  function NumberedTake(t: Take, k: nat, m: nat, base: nat): (r: Take)
    requires k >= 1
    ensures |r| == |t| && forall l :: 0 <= l < |t| ==> |r[l]| == |t[l]|
  {
    seq(|t|, l requires 0 <= l < |t| => seq(|t[l]|, x requires 0 <= x < |t[l]| => Numbered(base, m, l, x / k)))
  }

  function NumberedTakes(takes: seq<Take>, n: nat, k: nat): (r: seq<Take>)
    requires k >= 1
    ensures |r| == |takes|
  {
    var ms := CppCommons(takes, k);
    seq(|takes|, s requires 0 <= s < |takes| => NumberedTake(takes[s], k, ms[s], n * Sum(ms[..s])))
  }

  lemma NumberedSample(t: Take, k: nat, m: nat, base: nat, l: nat, i: nat, x: nat)
    requires k >= 1 && l < |t| && x == i * k && x < |t[l]|
    ensures NumberedTake(t, k, m, base)[l][x] == Numbered(base, m, l, i)
  {
    DivUnique(x, k, i);
  }

  lemma NumberedBlockIs(t: Take, k: nat, m: nat, base: nat)
    requires k >= 1 && m == CppCommon(t, k) && CppCommon(NumberedTake(t, k, m, base), k) == m
    ensures PromisedBlock(NumberedTake(t, k, m, base), k) == NumberedBlock(m, |t|, base)
  {
    var a, b := PromisedBlock(NumberedTake(t, k, m, base), k), NumberedBlock(m, |t|, base);
    forall l, i | 0 <= l < |t| && 0 <= i < m ensures a[l][i] == b[l][i] {
      CppColumnInside(t, k, i);
      NumberedSample(t, k, m, base, l, i, i * k);
    }
    forall l | 0 <= l < |t| ensures a[l] == b[l] {
    }
  }

  lemma NumberedBlocksAre(takes: seq<Take>, n: nat, k: nat, ms: seq<nat>)
    requires k >= 1 && IsTakes(takes, n) && ms == CppCommons(takes, k) && CppCommons(NumberedTakes(takes, n, k), k) == ms
    ensures PromisedBlocks(NumberedTakes(takes, n, k), k) == NumberedBlocks(ms, n)
  {
    var other := NumberedTakes(takes, n, k);
    forall s | 0 <= s < |takes| ensures PromisedBlocks(other, k)[s] == NumberedBlocks(ms, n)[s] {
      var m := ms[s];
      var base := Product(n, Sum(ms[..s]));
      assert CppCommons(other, k)[s] == m;
      NumberedBlockIs(takes[s], k, m, base);
    }
  }

  lemma NumberedLengths(takes: seq<Take>, n: nat, k: nat)
    requires k >= 1 && IsTakes(takes, n)
    ensures SameLengths(NumberedTakes(takes, n, k), takes) && IsTakes(NumberedTakes(takes, n, k), n)
  {
  }

  lemma NumberedTakesReply(takes: seq<Take>, n: nat, k: nat, other: seq<Take>)
    requires k >= 1 && IsTakes(takes, n) && Carried(takes, k) && other == NumberedTakes(takes, n, k)
    ensures IsTakes(other, n) && CountsFrom(CppReply(other, n, k, false).watts, 0)
  {
    var ms := CppCommons(takes, k);
    NumberedLengths(takes, n, k);
    SamePromise(other, takes, k);
    NumberedBlocksAre(takes, n, k, ms);
    PromisedIsCarried(other, n, k);
    CppReplyIsSetMajor(other, n, k);
    NumberedReply(ms, n);
  }

  /** Where the counter's lines are counted wrong and a set with samples stands behind
      another, the takes with the numbered reply are printed wrong. */
  lemma WrongPlace(lines: Mask, counterLines: Mask, n: nat, k: nat, takes: seq<Take>, selected: seq<nat>, cols: Columns,
                   s: nat, rank: nat) returns (other: seq<Take>)
    requires IsMask(lines) && IsMask(counterLines) && k >= 1 && selected == Selected(counterLines, n) && IsTakes(takes, |selected|)
    requires cols == ColumnsOf(lines, counterLines, |selected|) && cols.ranks != [] && rank == cols.ranks[0] && rank < |selected|
    requires Carried(takes, k) && cols.counted != |selected|
    requires s < |takes| && CppCommon(takes[s], k) > 0 && !NothingBefore(CppCommons(takes, k), s)
    ensures SameLengths(other, takes) && IsTakes(other, |selected|) && !TextRight(lines, counterLines, n, k, other)
  {
    var ms := CppCommons(takes, k);
    var m, before := ms[s], Sum(ms[..s]);
    other := NumberedTakes(takes, |selected|, k);
    NumberedLengths(takes, |selected|, k);
    SamePromise(other, takes, k);
    NumberedTakesReply(takes, |selected|, k, other);
    BeforeIsSum(ms, s);
    if TextRight(lines, counterLines, n, k, other) {
      var r := CppReply(other, |selected|, k, false);
      var base := Product(cols.counted, before);
      RightReads(lines, counterLines, n, k, other, selected, r, cols, ms, s, 0, 0, base, base, m, rank);
      var from := Product(|selected|, before);
      NumberedSample(takes[s], k, m, from, rank, 0, 0);
      OtherPlace(r.watts, cols.counted, |selected|, before, base, from, m, rank);
      assert false;
    }
  }

  lemma OtherPlace(watts: seq<real>, counted: nat, n: nat, before: nat, base: nat, from: nat, m: nat, rank: nat)
    requires CountsFrom(watts, 0) && counted != n && before > 0 && base == counted * before && from == n * before
    ensures !Holds(watts, Position(base, m, rank), Numbered(from, m, rank, 0))
  {
    if counted < n {
      MulMono(counted + 1, n, before);
      assert (counted + 1) * before == counted * before + before;
    } else {
      MulMono(n + 1, counted, before);
      assert (n + 1) * before == n * before + before;
    }
    assert m * rank == rank * m;
  }

  // ---- all sets, exactly ----

  /** Of a C++ reply the text printer prints all sets right, whatever the samples were, as
      long as there are as many of them, exactly when the request fits: the arrays are
      filled; and no line is printed, or the stride is one or no set promises more than one
      sample, and the counter's mask names only lines of the device, or every line of the
      reply is requested, or at most one set promises samples. */
  lemma TextPrintsExactly(lines: Mask, counterLines: Mask, n: nat, k: nat, takes: seq<Take>)
    requires IsMask(lines) && IsMask(counterLines) && k >= 1 && IsTakes(takes, |Selected(counterLines, n)|)
    ensures (forall other :: SameLengths(other, takes) ==> TextRight(lines, counterLines, n, k, other)) <==>
            TextFits(lines, counterLines, n, k, takes)
  {
    if TextFits(lines, counterLines, n, k, takes) {
      forall other | SameLengths(other, takes) ensures TextRight(lines, counterLines, n, k, other) {
        SamePromise(other, takes, k);
        TextPrintsTakes(lines, counterLines, n, k, other);
      }
    } else {
      var other := TextWrong(lines, counterLines, n, k, takes, Selected(counterLines, n));
    }
  }

  lemma SameTakes(takes: seq<Take>)
    ensures SameLengths(takes, takes)
  {
  }

  lemma TextWrong(lines: Mask, counterLines: Mask, n: nat, k: nat, takes: seq<Take>, selected: seq<nat>) returns (other: seq<Take>)
    requires IsMask(lines) && IsMask(counterLines) && k >= 1 && selected == Selected(counterLines, n) && IsTakes(takes, |selected|)
    requires !TextFits(lines, counterLines, n, k, takes)
    ensures SameLengths(other, takes) && IsTakes(other, |selected|) && !TextRight(lines, counterLines, n, k, other)
  {
    var cols, ms := ColumnsOf(lines, counterLines, |selected|), CppCommons(takes, k);
    FilledExactly(lines, counterLines, n);
    other := takes;
    SameTakes(takes);
    if !Fits(lines, counterLines, n, selected) {
      if TextRight(lines, counterLines, n, k, takes) {
        RightMeans(lines, counterLines, n, k, takes, selected, CppReply(takes, |selected|, k, false), cols);
        assert false;
      }
    } else {
      FilledFits(lines, counterLines, n, k, takes, selected, cols);
      FoundAmongSelected(lines, counterLines, n);
      var rank := cols.ranks[0];
      if !Carried(takes, k) {
        var s: nat :| s < |takes| && CppCommon(takes[s], k) > 1;
        other := NotCarriedWrong(lines, counterLines, n, k, takes, selected, cols, s, rank);
      } else {
        var s: nat :| s < |ms| && ms[s] > 0 && !NothingBefore(ms, s);
        other := WrongPlace(lines, counterLines, n, k, takes, selected, cols, s, rank);
      }
    }
  }

  // ---- running past the end ----

  /** The last set that has samples. */
  lemma {:induction false} LastSet(ms: seq<nat>) returns (s: nat)
    requires Sum(ms) > 0
    ensures s < |ms| && ms[s] > 0 && Sum(ms[..s]) + ms[s] == Sum(ms)
  {
    var front := ms[..|ms| - 1];
    if ms[|ms| - 1] > 0 {
      s := |ms| - 1;
    } else {
      s := LastSet(front);
      assert front[..s] == ms[..s];
    }
  }

  /** Where it does not, printing all sets with the counter's last line runs past the end. */
  lemma TextRunsPastTheEnd(r: Reply, cols: Columns, n: nat, k: nat, takes: seq<Take>, j: nat)
    requires n >= 1 && k >= 1 && IsTakes(takes, n) && !Carried(takes, k) && r == CppReply(takes, n, k, false)
    requires |cols.lines| == cols.printed && cols.counted == n && j < |cols.ranks| && cols.ranks[j] == n - 1
    ensures Ascending(r) && PrintingOf(r, Text(n), cols, -1) == PastEnd
  {
    var ms := CppCommons(takes, k);
    PromiseKept(takes, n, k);
    PrefixSumsAscend(ms, r.watts, n);
    SomePromised(takes, n, k);
    var s := LastSet(ms);
    var m, before := ms[s], Sum(ms[..s]);
    var at := n * before + m - 1;
    LengthIs(r, ms, s);
    LastPosition(n, m, before, Sum(ms), at, |r.watts|);
    RowPastTheEnd(r.watts, s, n * before, m, at, cols.ranks, j);
    SpoiledSets(r, Text(n), cols.ranks, 0, s, |takes|);
  }

  lemma LastPosition(n: nat, m: nat, before: nat, total: nat, at: nat, length: nat)
    requires n >= 1 && m >= 1 && before + m == total && at == n * before + m - 1 && length < n * total
    ensures Position(at, m, n - 1) >= length
  {
    assert n * total == n * before + n * m;
    assert m * (n - 1) == m * n - m && m * n == n * m;
  }

  lemma RowPastTheEnd(watts: seq<real>, s: nat, base: nat, m: nat, at: nat, ranks: seq<nat>, j: nat)
    requires base <= at < base + m && j < |ranks| && Position(at, m, ranks[j]) >= |watts|
    ensures RowsOf(watts, s, base, m, m, ranks) == None
  {
    assert !RowInside(watts, at, m, ranks);
  }

  lemma SomePromised(takes: seq<Take>, n: nat, k: nat)
    requires k >= 1 && !Carried(takes, k)
    ensures Sum(CppCommons(takes, k)) > 0
  {
    var ms := CppCommons(takes, k);
    var s :| 0 <= s < |takes| && CppCommon(takes[s], k) > 1;
    SumZero(ms);
    assert ms[s] > 1;
  }

  // ---- a single set ----

  /** The rows that the text printer prints of the single set s. */
  function SingleSet(bs: Blocks, n: nat, ms: seq<nat>, s: nat, ranks: seq<nat>): Option<seq<Row>>
    requires Uniform(bs, n, ms) && s < |ms|
  {
    var r := Reply(PrefixSums(ms), SetMajor(bs), n);
    LengthIs(r, ms, s);
    PartOf(r, Text(n), ranks, s, s)
  }

  lemma SingleSetReads(bs: Blocks, n: nat, ms: seq<nat>, s: nat, ranks: seq<nat>)
    requires Uniform(bs, n, ms) && s < |ms|
    ensures SingleSet(bs, n, ms, s, ranks) == RowsOf(SetMajor(bs), s, 0, ms[s], ms[s], ranks)
  {
    LengthIs(Reply(PrefixSums(ms), SetMajor(bs), n), ms, s);
  }

  lemma SingleSetRight(bs: Blocks, n: nat, ms: seq<nat>, s: nat, ranks: seq<nat>)
    requires Uniform(bs, n, ms) && s < |ms| && forall j :: 0 <= j < |ranks| ==> ranks[j] < n
    requires NothingBefore(ms, s)
    ensures SingleSet(bs, n, ms, s, ranks) == Some(SetRows(bs[s], s, ms[s], ranks))
  {
    var m := ms[s];
    SingleSetReads(bs, n, ms, s, ranks);
    BeforeIsSum(ms, s);
    assert n * Sum(ms[..s]) == 0;
    SetMajorReads(bs, n, ms, s, ranks, 0, m);
    RowsAreSamples(SetMajor(bs), bs[s], s, 0, m, m, ranks);
  }

  /** Reading a single set at offset 0 stays inside the reply. */
  lemma SingleSetInside(bs: Blocks, n: nat, ms: seq<nat>, s: nat, ranks: seq<nat>)
    requires Uniform(bs, n, ms) && s < |ms| && forall j :: 0 <= j < |ranks| ==> ranks[j] < n
    ensures RowsInside(SetMajor(bs), 0, ms[s], ms[s], ranks)
  {
    var m := ms[s];
    forall at | 0 <= at < m ensures RowInside(SetMajor(bs), at, m, ranks) {
      forall j | 0 <= j < |ranks| ensures Position(at, m, ranks[j]) < |SetMajor(bs)| {
        SetMajorAt(bs, n, ms, s, ranks[j], at);
        assert ranks[j] * m == m * ranks[j] && n * Sum(ms[..s]) >= 0;
      }
    }
  }

  /** A reply of which a wrong value is printed: its values are their own positions. */
  lemma SingleSetWrong(n: nat, ms: seq<nat>, s: nat, ranks: seq<nat>)
    requires s < |ms| && ms[s] > 0 && ranks != [] && !NothingBefore(ms, s)
    requires forall j :: 0 <= j < |ranks| ==> ranks[j] < n
    ensures var bs := NumberedBlocks(ms, n);
            && SingleSet(bs, n, ms, s, ranks).Some? && |SingleSet(bs, n, ms, s, ranks).value| == ms[s]
            && |SingleSet(bs, n, ms, s, ranks).value[0].values| == |ranks|
            && SingleSet(bs, n, ms, s, ranks).value[0].values[0] == (ranks[0] * ms[s]) as real
            && SetRows(bs[s], s, ms[s], ranks)[0].values[0] == (n * Sum(ms[..s]) + ranks[0] * ms[s]) as real
            && n * Sum(ms[..s]) > 0
  {
    var bs, m, rank := NumberedBlocks(ms, n), ms[s], ranks[0];
    SingleSetReads(bs, n, ms, s, ranks);
    SingleSetInside(bs, n, ms, s, ranks);
    BeforeIsSum(ms, s);
    MulMono(1, n, Sum(ms[..s]));
    NumberedReply(ms, n);
    assert RowInside(SetMajor(bs), 0, m, ranks);
    assert SingleSet(bs, n, ms, s, ranks).value[0] == RowOf(SetMajor(bs), s, 0, m, ranks);
    assert Position(0, m, rank) == rank * m;
    assert SetRows(bs[s], s, m, ranks)[0].values[0] == Numbered(n * Sum(ms[..s]), m, rank, 0);
  }

  /** A single set is printed right, of every reply with these set lengths, exactly when
      there is nothing to print or no sample in front of the set. */
  lemma SingleSetExactly(n: nat, ms: seq<nat>, s: nat, ranks: seq<nat>)
    requires s < |ms| && forall j :: 0 <= j < |ranks| ==> ranks[j] < n
    ensures (forall bs: Blocks :: Uniform(bs, n, ms) ==> SingleSet(bs, n, ms, s, ranks) == Some(SetRows(bs[s], s, ms[s], ranks))) <==>
            ms[s] == 0 || ranks == [] || NothingBefore(ms, s)
  {
    if ms[s] == 0 || ranks == [] || NothingBefore(ms, s) {
      forall bs: Blocks | Uniform(bs, n, ms)
        ensures SingleSet(bs, n, ms, s, ranks) == Some(SetRows(bs[s], s, ms[s], ranks))
      {
        if ms[s] == 0 || ranks == [] {
          SingleSetReads(bs, n, ms, s, ranks);
          RowsAreSamples(SetMajor(bs), bs[s], s, 0, ms[s], ms[s], ranks);
        } else {
          SingleSetRight(bs, n, ms, s, ranks);
        }
      }
    } else {
      SingleSetWrong(n, ms, s, ranks);
      assert Uniform(NumberedBlocks(ms, n), n, ms);
    }
  }
}
