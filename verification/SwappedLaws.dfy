/** Each printer on the layout of the other server: the csv printer on replies that are laid
    out set by set, the text printer on replies that are laid out line by line. */
module SwappedLaws {
  import opened Util
  import opened Printers
  import opened PrintedRows
  import opened Replies
  import opened ReplyLaws
  import opened TextLaws

  predicate Ranked(ranks: seq<nat>, n: nat) {
    forall j :: 0 <= j < |ranks| ==> ranks[j] < n
  }

  /** All sets are printed as the rows of these blocks. */
  ghost predicate PrintsBlocks(r: Reply, layout: Layout, ranks: seq<nat>, bs: Blocks, n: nat, ms: seq<nat>)
    requires Uniform(bs, n, ms) && r.wattsSets == PrefixSums(ms) && Ranked(ranks, n)
  {
    PrefixSumsAscend(ms, r.watts, r.linesLen);
    SetsOf(r, layout, ranks, 0, |ms|) == Some(Flatten(AllRows(bs, n, ms, ranks)[0..|ms|]))
  }

  /** Where the layouts differ: more than one line, more than one set with samples, and a
      line to print. */
  predicate LayoutsDiffer(n: nat, ms: seq<nat>, ranks: seq<nat>) {
    ranks != [] && n != 1 && !OneFull(ms)
  }

  // ---- where they do not, the two layouts are one ----

  lemma SameWhere(bs: Blocks, n: nat, ms: seq<nat>, ranks: seq<nat>, s: nat, rank: nat, i: nat)
    requires Uniform(bs, n, ms) && s < |ms| && i < ms[s] && rank < n && (n == 1 || OneFull(ms))
    ensures n * Sum(ms[..s]) + rank * ms[s] + i == rank * Sum(ms) + (Sum(ms[..s]) + i)
  {
    if n > 1 {
      BeforeIsSum(ms, s);
      OnlySet(ms, s);
    }
  }

  /** A set that is the only one with samples has all of them. */
  lemma OnlySet(ms: seq<nat>, s: nat)
    requires s < |ms| && ms[s] > 0 && OneFull(ms)
    ensures Sum(ms) == ms[s]
  {
    forall t | s < t < |ms| ensures ms[t] == 0 {
    }
    SumUpTo(ms, s);
    assert NothingBefore(ms, s);
    BeforeIsSum(ms, s);
  }

  lemma {:induction false} SumUpTo(ms: seq<nat>, s: nat)
    requires s < |ms| && forall t :: s < t < |ms| ==> ms[t] == 0
    ensures Sum(ms) == Sum(ms[..s]) + ms[s]
  {
    var front := ms[..|ms| - 1];
    if s < |ms| - 1 {
      SumUpTo(front, s);
      assert front[..s] == ms[..s];
    } else {
      assert front == ms[..s];
    }
  }

  lemma CsvBlock(bs: Blocks, n: nat, ms: seq<nat>, ranks: seq<nat>, s: nat, base: nat, m: nat, total: nat)
    requires Uniform(bs, n, ms) && Ranked(ranks, n) && s < |ms| && base == Sum(ms[..s]) && m == ms[s] && total == Sum(ms)
    requires n == 1 || OneFull(ms)
    ensures ReadsBlock(SetMajor(bs), bs[s], base, m, total, ranks)
  {
    forall at, j | base <= at < base + m && 0 <= j < |ranks|
      ensures Holds(SetMajor(bs), Position(at, total, ranks[j]), bs[s][ranks[j]][at - base])
    {
      var i, rank := at - base, ranks[j];
      SetMajorAt(bs, n, ms, s, rank, i);
      SameWhere(bs, n, ms, ranks, s, rank, i);
      assert rank * total == total * rank;
    }
  }

  lemma TextBlock(bs: Blocks, n: nat, ms: seq<nat>, ranks: seq<nat>, s: nat, base: nat, m: nat)
    requires Uniform(bs, n, ms) && Ranked(ranks, n) && s < |ms| && base == n * Sum(ms[..s]) && m == ms[s]
    requires n == 1 || OneFull(ms)
    ensures ReadsBlock(LineMajor(bs, n), bs[s], base, m, m, ranks)
  {
    forall at, j | base <= at < base + m && 0 <= j < |ranks|
      ensures Holds(LineMajor(bs, n), Position(at, m, ranks[j]), bs[s][ranks[j]][at - base])
    {
      var i, rank := at - base, ranks[j];
      LineMajorAt(bs, n, ms, s, rank, i);
      SameWhere(bs, n, ms, ranks, s, rank, i);
      assert rank * m == m * rank;
    }
  }

  lemma AllSets(r: Reply, layout: Layout, ranks: seq<nat>, bs: Blocks, n: nat, ms: seq<nat>)
    requires Uniform(bs, n, ms) && r.wattsSets == PrefixSums(ms) && Ranked(ranks, n) && Ascending(r)
    requires forall s :: 0 <= s < |ms| ==> PartOf(r, layout, ranks, 0, s) == Some(SetRows(bs[s], s, ms[s], ranks))
    ensures PrintsBlocks(r, layout, ranks, bs, n, ms)
  {
    var parts := AllRows(bs, n, ms, ranks);
    forall s | 0 <= s < |ms| ensures PartOf(r, layout, ranks, 0, s) == Some(parts[s]) {
    }
    SetsFromParts(r, layout, ranks, parts, 0, |ms|);
  }

  lemma CsvPrintsSetMajor(r: Reply, ranks: seq<nat>, bs: Blocks, n: nat, ms: seq<nat>)
    requires Uniform(bs, n, ms) && Ranked(ranks, n) && !LayoutsDiffer(n, ms, ranks)
    requires r == Reply(PrefixSums(ms), SetMajor(bs), n)
    ensures PrintsBlocks(r, Csv, ranks, bs, n, ms)
  {
    PrefixSumsAscend(ms, r.watts, n);
    forall s | 0 <= s < |ms| ensures PartOf(r, Csv, ranks, 0, s) == Some(SetRows(bs[s], s, ms[s], ranks)) {
      var base, total := Sum(ms[..s]), Sum(ms);
      LengthIs(r, ms, s);
      if ranks != [] {
        CsvBlock(bs, n, ms, ranks, s, base, ms[s], total);
      }
      RowsAreSamples(r.watts, bs[s], s, base, ms[s], total, ranks);
    }
    AllSets(r, Csv, ranks, bs, n, ms);
  }

  lemma TextPrintsLineMajor(r: Reply, ranks: seq<nat>, bs: Blocks, n: nat, ms: seq<nat>)
    requires Uniform(bs, n, ms) && Ranked(ranks, n) && !LayoutsDiffer(n, ms, ranks)
    requires r == Reply(PrefixSums(ms), LineMajor(bs, n), n)
    ensures PrintsBlocks(r, Text(n), ranks, bs, n, ms)
  {
    PrefixSumsAscend(ms, r.watts, n);
    forall s | 0 <= s < |ms| ensures PartOf(r, Text(n), ranks, 0, s) == Some(SetRows(bs[s], s, ms[s], ranks)) {
      var base := Product(n, Sum(ms[..s]));
      LengthIs(r, ms, s);
      if ranks != [] {
        TextBlock(bs, n, ms, ranks, s, base, ms[s]);
      }
      RowsAreSamples(r.watts, bs[s], s, base, ms[s], ms[s], ranks);
    }
    AllSets(r, Text(n), ranks, bs, n, ms);
  }

  // ---- where they do ----

  /** What is printed first of a set is read from where the set begins. */
  lemma FirstRead(r: Reply, layout: Layout, ranks: seq<nat>, bs: Blocks, n: nat, ms: seq<nat>, s: nat, base: nat, stride: nat)
    requires Uniform(bs, n, ms) && r.wattsSets == PrefixSums(ms) && Ranked(ranks, n) && Ascending(r)
    requires PrintsBlocks(r, layout, ranks, bs, n, ms) && s < |ms| && ms[s] > 0 && ranks != []
    requires base == BaseOf(r, layout, 0, s) && stride == StrideOf(r, layout, ms[s])
    ensures Holds(r.watts, Position(base, stride, ranks[0]), bs[s][ranks[0]][0])
  {
    LengthIs(r, ms, s);
    SetsRow(r, layout, ranks, |ms|, s, 0);
    assert ms[0..s] == ms[..s];
    RowAt(bs, n, ms, ranks, 0, |ms|, s, 0);
    FirstOfRows(r.watts, s, base, ms[s], stride, ranks);
    assert SampleRow(bs[s], s, 0, ranks).values[0] == bs[s][ranks[0]][0];
  }

  lemma FirstOfRows(watts: seq<real>, s: nat, base: nat, m: nat, stride: nat, ranks: seq<nat>)
    requires RowsOf(watts, s, base, m, stride, ranks).Some? && ranks != [] && m > 0
    ensures |RowsOf(watts, s, base, m, stride, ranks).value[0].values| == |ranks|
    ensures Holds(watts, Position(base, stride, ranks[0]), RowsOf(watts, s, base, m, stride, ranks).value[0].values[0])
  {
    assert RowInside(watts, base, stride, ranks);
    assert RowsOf(watts, s, base, m, stride, ranks).value[0] == RowOf(watts, s, base, stride, ranks);
  }

  /** Two sets with samples: the first one, which has less than all, and a later one. */
  lemma TwoFull(ms: seq<nat>) returns (t: nat, s: nat)
    requires !OneFull(ms)
    ensures t < s < |ms| && ms[t] > 0 && ms[s] > 0 && Sum(ms[..t]) == 0 && Sum(ms[..s]) > 0 && ms[t] < Sum(ms)
  {
    s :| s < |ms| && ms[s] > 0 && !NothingBefore(ms, s);
    t := FirstFull(ms, s);
    BeforeIsSum(ms, t);
    BeforeIsSum(ms, s);
    var next, behind := t + 1, s + 1;
    SumMonotone(ms, next, s);
    SumMonotone(ms, behind, |ms|);
    assert ms[..next][..t] == ms[..t] && ms[..behind][..s] == ms[..s] && ms[..|ms|] == ms;
  }

  lemma {:induction false} FirstFull(ms: seq<nat>, s: nat) returns (t: nat)
    requires s <= |ms| && !NothingBefore(ms, s)
    ensures t < s && ms[t] > 0 && NothingBefore(ms, t)
  {
    t :| t < s && ms[t] != 0;
    if !NothingBefore(ms, t) {
      t := FirstFull(ms, t);
    }
  }

  lemma ProductBelow(a: nat, b: nat, c: nat)
    requires a < b && c > 0
    ensures c * a < c * b
  {
    MulMono(a + 1, b, c);
    assert (a + 1) * c == a * c + c && a * c == c * a && b * c == c * b;
  }

  /** A reply whose values are their positions shows where it is read. */
  lemma Misread(r: Reply, layout: Layout, ranks: seq<nat>, bs: Blocks, n: nat, ms: seq<nat>, s: nat, base: nat, stride: nat, place: nat)
    requires Uniform(bs, n, ms) && r.wattsSets == PrefixSums(ms) && Ranked(ranks, n) && Ascending(r) && CountsFrom(r.watts, 0)
    requires s < |ms| && ms[s] > 0 && ranks != [] && base == BaseOf(r, layout, 0, s) && stride == StrideOf(r, layout, ms[s])
    requires bs[s][ranks[0]][0] == place as real && Position(base, stride, ranks[0]) != place
    ensures !PrintsBlocks(r, layout, ranks, bs, n, ms)
  {
    if PrintsBlocks(r, layout, ranks, bs, n, ms) {
      FirstRead(r, layout, ranks, bs, n, ms, s, base, stride);
    }
  }

  lemma BlockBegins(ms: seq<nat>, n: nat, s: nat, rank: nat, place: nat)
    requires s < |ms| && ms[s] > 0 && rank < n && place == n * Sum(ms[..s]) + rank * ms[s]
    ensures NumberedBlocks(ms, n)[s][rank][0] == place as real
  {
    assert NumberedBlocks(ms, n)[s][rank][0] == Numbered(n * Sum(ms[..s]), ms[s], rank, 0);
  }

  /** A later set is misread if the first line is printed. */
  lemma CsvLater(n: nat, ms: seq<nat>, ranks: seq<nat>, r: Reply, s: nat)
    requires Ranked(ranks, n) && ranks != [] && ranks[0] == 0 && n != 1 && s < |ms| && ms[s] > 0 && Sum(ms[..s]) > 0
    requires r == Reply(PrefixSums(ms), SetMajor(NumberedBlocks(ms, n)), n)
    ensures !PrintsBlocks(r, Csv, ranks, NumberedBlocks(ms, n), n, ms)
  {
    var before := Sum(ms[..s]);
    var place := Product(n, before);
    LengthIs(r, ms, s);
    NumberedReply(ms, n);
    ProductBelow(1, n, before);
    assert before * n == n * before;
    BlockBegins(ms, n, s, 0, place);
    Misread(r, Csv, ranks, NumberedBlocks(ms, n), n, ms, s, before, Sum(ms), place);
  }

  /** The first set is misread if another line is. */
  lemma CsvFirst(n: nat, ms: seq<nat>, ranks: seq<nat>, r: Reply, t: nat)
    requires Ranked(ranks, n) && ranks != [] && ranks[0] != 0 && t < |ms| && 0 < ms[t] < Sum(ms) && Sum(ms[..t]) == 0
    requires r == Reply(PrefixSums(ms), SetMajor(NumberedBlocks(ms, n)), n)
    ensures !PrintsBlocks(r, Csv, ranks, NumberedBlocks(ms, n), n, ms)
  {
    var rank, total := ranks[0], Sum(ms);
    var place := Product(rank, ms[t]);
    LengthIs(r, ms, t);
    NumberedReply(ms, n);
    ProductBelow(ms[t], total, rank);
    assert total * rank == rank * total && n * Sum(ms[..t]) == 0;
    BlockBegins(ms, n, t, rank, place);
    Misread(r, Csv, ranks, NumberedBlocks(ms, n), n, ms, t, 0, total, place);
  }

  lemma CsvMisprints(n: nat, ms: seq<nat>, ranks: seq<nat>, r: Reply)
    requires Ranked(ranks, n) && LayoutsDiffer(n, ms, ranks) && r == Reply(PrefixSums(ms), SetMajor(NumberedBlocks(ms, n)), n)
    ensures !PrintsBlocks(r, Csv, ranks, NumberedBlocks(ms, n), n, ms)
  {
    var t, s := TwoFull(ms);
    if ranks[0] == 0 {
      CsvLater(n, ms, ranks, r, s);
    } else {
      CsvFirst(n, ms, ranks, r, t);
    }
  }

  /** The csv printer prints replies that are laid out set by set right, whatever the
      samples, exactly where the two layouts are one: no line is printed, the reply has one
      line, or at most one set has samples. */
  lemma CsvOfSetMajor(n: nat, ms: seq<nat>, ranks: seq<nat>)
    requires Ranked(ranks, n)
    ensures (forall bs: Blocks :: Uniform(bs, n, ms) ==>
               PrintsBlocks(Reply(PrefixSums(ms), SetMajor(bs), n), Csv, ranks, bs, n, ms)) <==>
            !LayoutsDiffer(n, ms, ranks)
  {
    if LayoutsDiffer(n, ms, ranks) {
      CsvMisprints(n, ms, ranks, Reply(PrefixSums(ms), SetMajor(NumberedBlocks(ms, n)), n));
      assert Uniform(NumberedBlocks(ms, n), n, ms);
    } else {
      forall bs: Blocks | Uniform(bs, n, ms)
        ensures PrintsBlocks(Reply(PrefixSums(ms), SetMajor(bs), n), Csv, ranks, bs, n, ms)
      {
        CsvPrintsSetMajor(Reply(PrefixSums(ms), SetMajor(bs), n), ranks, bs, n, ms);
      }
    }
  }

  // ---- the text printer ----

  /** Blocks whose line-major reply has each position as its value. */
  function NumberedLine(ms: seq<nat>, from: nat): (xs: seq<seq<real>>)
    ensures |xs| == |ms| && forall s :: 0 <= s < |ms| ==> |xs[s]| == ms[s]
  {
    seq(|ms|, s requires 0 <= s < |ms| => seq(ms[s], i requires 0 <= i < ms[s] => (from + Sum(ms[..s]) + i) as real))
  }

  function NumberedLines(ms: seq<nat>, n: nat): (bs: Blocks)
    ensures Uniform(bs, n, ms)
  {
    seq(|ms|, s requires 0 <= s < |ms| => seq(n, l requires 0 <= l < n => NumberedLine(ms, l * Sum(ms))[s]))
  }

  lemma NumberedPiece(ms: seq<nat>, from: nat, s: nat)
    requires s < |ms|
    ensures CountsAt(NumberedLine(ms, from), from, s)
  {
    assert Lengths(NumberedLine(ms, from)[..s]) == ms[..s];
  }

  lemma NumberedLineFlat(ms: seq<nat>, from: nat)
    ensures CountsFrom(Flatten(NumberedLine(ms, from)), from) && |Flatten(NumberedLine(ms, from))| == Sum(ms)
  {
    var xs := NumberedLine(ms, from);
    forall s | 0 <= s < |xs| ensures CountsAt(xs, from, s) {
      NumberedPiece(ms, from, s);
    }
    CountsUp(xs, from);
    FlattenLength(xs);
    assert Lengths(xs) == ms;
  }

  lemma NumberedLineMajor(ms: seq<nat>, n: nat)
    ensures CountsFrom(LineMajor(NumberedLines(ms, n), n), 0)
  {
    var bs := NumberedLines(ms, n);
    var lines := FlattenLines(bs, n);
    forall l | 0 <= l < n ensures CountsAt(lines, 0, l) {
      var from := Product(l, Sum(ms));
      assert LineBlocks(bs, l) == NumberedLine(ms, from);
      NumberedLineFlat(ms, from);
      NumberedBefore(bs, n, ms, l);
    }
    CountsUp(lines, 0);
  }

  lemma NumberedBefore(bs: Blocks, n: nat, ms: seq<nat>, l: nat)
    requires Uniform(bs, n, ms) && l < n
    ensures Sum(Lengths(FlattenLines(bs, n)[..l])) == l * Sum(ms)
  {
    var before := FlattenLines(bs, n)[..l];
    forall j | 0 <= j < l ensures Lengths(before)[j] == Sum(ms) {
      ReplyLineLength(bs, n, ms, j);
    }
    SumConstant(Lengths(before), Sum(ms));
  }

  lemma ReplyLineLength(bs: Blocks, n: nat, ms: seq<nat>, j: nat)
    requires Uniform(bs, n, ms) && j < n
    ensures |FlattenLines(bs, n)[j]| == Sum(ms)
  {
    LineLength(bs, n, ms, j);
  }

  lemma LineBegins(ms: seq<nat>, n: nat, s: nat, rank: nat, from: nat, place: nat)
    requires s < |ms| && ms[s] > 0 && rank < n && from == rank * Sum(ms) && place == from + Sum(ms[..s])
    ensures NumberedLines(ms, n)[s][rank][0] == place as real
  {
    assert NumberedLines(ms, n)[s][rank] == NumberedLine(ms, from)[s];
  }

  lemma TextBase(r: Reply, n: nat, ms: seq<nat>, s: nat, before: nat, base: nat)
    requires r.wattsSets == PrefixSums(ms) && s < |ms| && before == Sum(ms[..s]) && base == n * before
    ensures Ascending(r) && BaseOf(r, Text(n), 0, s) == base && StrideOf(r, Text(n), ms[s]) == ms[s]
  {
    LengthIs(r, ms, s);
  }

  lemma TextLater(n: nat, ms: seq<nat>, ranks: seq<nat>, r: Reply, s: nat)
    requires Ranked(ranks, n) && ranks != [] && ranks[0] == 0 && n != 1 && s < |ms| && ms[s] > 0 && Sum(ms[..s]) > 0
    requires r == Reply(PrefixSums(ms), LineMajor(NumberedLines(ms, n), n), n)
    ensures !PrintsBlocks(r, Text(n), ranks, NumberedLines(ms, n), n, ms)
  {
    var before := Sum(ms[..s]);
    var base := Product(n, before);
    TextBase(r, n, ms, s, before, base);
    NumberedLineMajor(ms, n);
    ProductBelow(1, n, before);
    assert before * n == n * before;
    LineBegins(ms, n, s, 0, 0, before);
    Misread(r, Text(n), ranks, NumberedLines(ms, n), n, ms, s, base, ms[s], before);
  }

  lemma TextFirst(n: nat, ms: seq<nat>, ranks: seq<nat>, r: Reply, t: nat)
    requires Ranked(ranks, n) && ranks != [] && ranks[0] != 0 && t < |ms| && 0 < ms[t] < Sum(ms) && Sum(ms[..t]) == 0
    requires r == Reply(PrefixSums(ms), LineMajor(NumberedLines(ms, n), n), n)
    ensures !PrintsBlocks(r, Text(n), ranks, NumberedLines(ms, n), n, ms)
  {
    var rank, m, before := ranks[0], ms[t], Sum(ms[..t]);
    var place := Product(rank, Sum(ms));
    var base := Product(n, before);
    TextBase(r, n, ms, t, before, base);
    NumberedLineMajor(ms, n);
    AtRank(m, Sum(ms), rank, n, before, base, place);
    LineBegins(ms, n, t, rank, place, place);
    Misread(r, Text(n), ranks, NumberedLines(ms, n), n, ms, t, base, m, place);
  }

  lemma AtRank(m: nat, total: nat, rank: nat, n: nat, before: nat, base: nat, place: nat)
    requires m < total && rank > 0 && before == 0 && base == n * before && place == rank * total
    ensures Position(base, m, rank) < place
  {
    ProductBelow(m, total, rank);
    assert m * rank == rank * m;
  }

  lemma TextMisprints(n: nat, ms: seq<nat>, ranks: seq<nat>, r: Reply)
    requires Ranked(ranks, n) && LayoutsDiffer(n, ms, ranks) && r == Reply(PrefixSums(ms), LineMajor(NumberedLines(ms, n), n), n)
    ensures !PrintsBlocks(r, Text(n), ranks, NumberedLines(ms, n), n, ms)
  {
    var t, s := TwoFull(ms);
    if ranks[0] == 0 {
      TextLater(n, ms, ranks, r, s);
    } else {
      TextFirst(n, ms, ranks, r, t);
    }
  }

  /** And the text printer replies that are laid out line by line exactly there too. */
  lemma TextOfLineMajor(n: nat, ms: seq<nat>, ranks: seq<nat>)
    requires Ranked(ranks, n)
    ensures (forall bs: Blocks :: Uniform(bs, n, ms) ==>
               PrintsBlocks(Reply(PrefixSums(ms), LineMajor(bs, n), n), Text(n), ranks, bs, n, ms)) <==>
            !LayoutsDiffer(n, ms, ranks)
  {
    if LayoutsDiffer(n, ms, ranks) {
      TextMisprints(n, ms, ranks, Reply(PrefixSums(ms), LineMajor(NumberedLines(ms, n), n), n));
      assert Uniform(NumberedLines(ms, n), n, ms);
    } else {
      forall bs: Blocks | Uniform(bs, n, ms)
        ensures PrintsBlocks(Reply(PrefixSums(ms), LineMajor(bs, n), n), Text(n), ranks, bs, n, ms)
      {
        TextPrintsLineMajor(Reply(PrefixSums(ms), LineMajor(bs, n), n), ranks, bs, n, ms);
      }
    }
  }
}
