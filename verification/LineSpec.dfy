/** pm_set_lines: from a text such as "30-36,42,100" to a line mask. */
module LineSpec {
  import opened Util
  import opened Lines
  import opened Digits
  import opened Texts

  const CAPACITY := 128  // int lineas[128]

  predicate Allowed(c: char) {
    IsDigit(c) || c == '-' || c == ','
  }

  predicate EndsNumber(c: char) {
    c == '-' || c == ',' || c == '\0'
  }

  /** The parser reads one, two or three characters as a number. */
  function Width(s: string, p: nat): (w: nat)
    ensures p < |s| ==> p + w <= |s|
  {
    if EndsNumber(At(s, p + 1)) then 1
    else if EndsNumber(At(s, p + 2)) then 2
    else 3
  }

  function FromTo(a: int, b: int): seq<int>
    decreases b - a
  {
    if a > b then [] else FromTo(a, b - 1) + [b]
  }

  /** What the parser does from position p on: whether it succeeds, and the
      entries it stores until it stops. */
  datatype Scan = Scan(ok: bool, entries: seq<int>) {
    function After(first: seq<int>): Scan {
      Scan(ok, first + entries)
    }
  }

  /** One turn of the parser's loop at position p: stop with an error, or go on
      with new values of p, l and sep after storing some entries. */
  datatype Turn = Stop | Go(p: nat, l: int, sep: char, stored: seq<int>)

  function TurnAt(s: string, p: nat, l: int, sep: char): (t: Turn)
    requires p < |s|
    ensures t.Go? ==> p < t.p <= |s|
  {
    if s[p] == '-' then
      if EndsNumber(At(s, p + 1)) then Stop
      else
        var w := Width(s, p + 1);
        Go(p + 1 + w, l, '-', FromTo(l, NumberOf(s[p + 1..p + 1 + w])))
    else if s[p] == ',' then
      if sep == '-' then Go(p + 1, l, ',', []) else Go(p + 1, l, sep, [l])
    else
      var w := Width(s, p);
      var value := NumberOf(s[p..p + w]);
      Go(p + w, value, sep, if p + w == |s| then [value] else [])
  }

  function ScanFrom(s: string, p: nat, l: int, sep: char): Scan
    decreases |s| - p
  {
    if p >= |s| then Scan(true, [])
    else
      match TurnAt(s, p, l, sep)
      case Stop => Scan(false, [])
      case Go(p', l', sep', stored) => ScanFrom(s, p', l', sep').After(stored)
  }

  ghost predicate SetsExactly(bits: Mask, entries: seq<int>) {
    forall l: nat :: IsSet(bits, l) <==> l in entries && l < NLINEBITS
  }

  /** The first loop: no character but digits, '-' and ','. */
  method CheckCharacters(lines_string: string) returns (fail: bool)
    ensures !fail <==> forall c :: c in lines_string ==> Allowed(c)
  {
    var p := 0;
    while p < |lines_string|
      invariant 0 <= p <= |lines_string|
      invariant forall i :: 0 <= i < p ==> Allowed(lines_string[i])
    {
      if !Allowed(lines_string[p]) {
        return true;
      }
      p := p + 1;
    }
    return false;
  }

  /** Stores one entry, unless the array is full. */
  method StoreEntry(lineas: array<int>, indice: nat, l: int) returns (overrun: bool)
    requires indice <= lineas.Length
    modifies lineas
    ensures overrun <==> indice == lineas.Length
    ensures !overrun ==> lineas[..indice + 1] == old(lineas[..indice]) + [l]
  {
    overrun := indice == lineas.Length;
    if !overrun {
      ghost var stored := lineas[..indice];
      lineas[indice] := l;
      assert lineas[..indice] == stored;
    }
  }

  /** for(i=l; i<=l1; i++){ lineas[indice]=i; indice++; }, up to the end of the array. */
  method StoreRange(lineas: array<int>, indice: nat, l: int, l1: int) returns (end: nat, overrun: bool)
    requires indice <= lineas.Length
    modifies lineas
    ensures overrun <==> indice + |FromTo(l, l1)| > lineas.Length
    ensures !overrun ==> end == indice + |FromTo(l, l1)|
    ensures !overrun ==> lineas[..end] == old(lineas[..indice]) + FromTo(l, l1)
  {
    end, overrun := indice, false;
    var i := l;
    while i <= l1
      invariant l <= i && (i <= l1 + 1 || i == l)
      invariant end == indice + |FromTo(l, i - 1)| <= lineas.Length
      invariant |FromTo(l, i - 1)| <= |FromTo(l, l1)|
      invariant lineas[..end] == old(lineas[..indice]) + FromTo(l, i - 1)
      decreases l1 - i
    {
      FromToGrows(l, i, l1);
      overrun := StoreEntry(lineas, end, i);
      if overrun {
        return;
      }
      end := end + 1;
      i := i + 1;
    }
  }

  lemma AfterTwice(rest: Scan, x: seq<int>, y: seq<int>)
    ensures rest.After(y).After(x) == rest.After(x + y)
  {
    assert x + (y + rest.entries) == x + y + rest.entries;
  }

  /** The second loop fills lineas; `junk` is the indeterminate first value of the
      C variable l. It runs past the end of the array exactly if there are more entries
      than the array has places. */
  method ReadEntries(lines_string: string, lineas: array<int>, junk: int) returns (ok: bool, indice: nat, overrun: bool)
    modifies lineas
    ensures overrun <==> |ScanFrom(lines_string, 0, junk, ',').entries| > lineas.Length
    ensures !overrun ==> indice <= lineas.Length && Scan(ok, lineas[..indice]) == ScanFrom(lines_string, 0, junk, ',')
  {
    var p, l, sep := 0, junk, ',';
    ok, indice, overrun := false, 0, false;
    ghost var whole := ScanFrom(lines_string, 0, junk, ',');
    while p < |lines_string|
      invariant 0 <= p <= |lines_string|
      invariant indice <= lineas.Length && !overrun
      invariant sep == ',' || sep == '-'
      invariant whole == ScanFrom(lines_string, p, l, sep).After(lineas[..indice])
      decreases |lines_string| - p
    {
      ghost var stored := lineas[..indice];
      ghost var turn := TurnAt(lines_string, p, l, sep);
      ghost var rest := if turn.Go? then ScanFrom(lines_string, turn.p, turn.l, turn.sep) else Scan(false, []);
      AfterTwice(rest, stored, if turn.Go? then turn.stored else []);
      if lines_string[p] != '-' && lines_string[p] != ',' {
        var w := Width(lines_string, p);
        l := NumberOf(lines_string[p..p + w]);
        p := p + w;
        if p == |lines_string| {
          overrun := StoreEntry(lineas, indice, l);
          if overrun {
            return;
          }
          indice := indice + 1;
        }
      } else if lines_string[p] == '-' {
        sep := '-';
        if EndsNumber(At(lines_string, p + 1)) {
          return;
        }
        var w := Width(lines_string, p + 1);
        var l1 := NumberOf(lines_string[p + 1..p + 1 + w]);
        p := p + 1 + w;
        indice, overrun := StoreRange(lineas, indice, l, l1);
        if overrun {
          return;
        }
      } else if sep == '-' {
        p := p + 1;
        sep := ',';
      } else {
        overrun := StoreEntry(lineas, indice, l);
        if overrun {
          return;
        }
        indice := indice + 1;
        p := p + 1;
      }
      assert turn == Go(p, l, sep, turn.stored);
      assert lineas[..indice] == stored + turn.stored;
    }
    ok := true;
  }

  /** pm_set_lines; an overrun of the array leaves the rest undefined. */
  method SetLines(lines_string: string, lines: array<bv8>, junk: int) returns (r: int, overrun: bool)
    requires lines.Length == SETSIZE
    modifies lines
    ensures overrun <==> (forall c :: c in lines_string ==> Allowed(c)) && |ScanFrom(lines_string, 0, junk, ',').entries| > CAPACITY
    ensures r == 0 || r == -1
    ensures !overrun ==>
              (r == 0 <==>
               && (forall c :: c in lines_string ==> Allowed(c))
               && (forall i :: 0 <= i < |lines_string| && lines_string[i] == '-' ==>
                     i + 1 < |lines_string| && lines_string[i + 1] != '-' && lines_string[i + 1] != ','))
    ensures !overrun && r == 0 ==> SetsExactly(lines[..], ScanFrom(lines_string, 0, junk, ',').entries)
    ensures r == -1 ==> lines[..] == old(lines[..])
  {
    var fail := CheckCharacters(lines_string);
    if fail {
      return -1, false;
    }
    AllowedText(lines_string);
    AcceptedExactly(lines_string, 0, junk, ',');
    var lineas := new int[CAPACITY];
    var ok, indice, full := ReadEntries(lines_string, lineas, junk);
    if full || !ok {
      return -1, full;
    }
    MarkEntries(lineas, indice, lines);
    return 0, false;
  }

  /** The last loop sets one bit an entry. */
  method MarkEntries(lineas: array<int>, indice: nat, lines: array<bv8>)
    requires indice <= lineas.Length && lines.Length == SETSIZE
    requires (lineas as object) != (lines as object)
    modifies lines
    ensures SetsExactly(lines[..], lineas[..indice])
  {
    ghost var entries := lineas[..indice];
    ClearAllLines(lines);
    var i := 0;
    while i < indice
      invariant 0 <= i <= indice && lineas[..indice] == entries
      invariant SetsExactly(lines[..], entries[..i])
    {
      // a negative entry becomes a size_t beyond the mask
      if lineas[i] >= 0 {
        SetLine(lineas[i], lines);
      }
      TakeNext(entries, i);
      i := i + 1;
    }
    assert entries[..indice] == entries;
  }

  lemma {:induction false} FromToGrows(a: int, i: int, b: int)
    requires a <= i <= b
    ensures |FromTo(a, i - 1)| + 1 == |FromTo(a, i)| <= |FromTo(a, b)|
    decreases b - i
  {
    if i < b {
      FromToGrows(a, i + 1, b);
    }
  }

  // ---- which texts are accepted ----

  predicate AllAllowed(s: string) {
    forall i :: 0 <= i < |s| ==> Allowed(s[i])
  }

  lemma AllowedText(s: string)
    ensures AllAllowed(s) <==> forall c :: c in s ==> Allowed(c)
  {
    if AllAllowed(s) {
    } else {
      var i :| 0 <= i < |s| && !Allowed(s[i]);
      assert s[i] in s;
    }
  }

  /** From p on, every dash is followed by a digit. */
  predicate DashesFollowed(s: string, p: nat) {
    forall i :: p <= i < |s| && s[i] == '-' ==> i + 1 < |s| && s[i + 1] != '-' && s[i + 1] != ','
  }

  /** A turn passes the dash it begins with, if that is followed by a digit, and no other. */
  lemma TurnPassesDashes(s: string, p: nat, l: int, sep: char)
    requires AllAllowed(s) && p < |s|
    ensures TurnAt(s, p, l, sep).Stop? <==> s[p] == '-' && !(p + 1 < |s| && s[p + 1] != '-' && s[p + 1] != ',')
    ensures TurnAt(s, p, l, sep).Go? ==> (DashesFollowed(s, p) <==> DashesFollowed(s, TurnAt(s, p, l, sep).p))
  {
    var t := TurnAt(s, p, l, sep);
    if t.Go? {
      forall i | p < i < t.p ensures s[i] != '-' {
        assert Allowed(s[p]) && Allowed(s[i]);
      }
    }
  }

  /** A text of digits, dashes and commas is accepted exactly if every dash in it is followed
      by a digit. */
  lemma {:induction false} AcceptedExactly(s: string, p: nat, l: int, sep: char)
    requires p <= |s|
    ensures AllAllowed(s) ==>
              (ScanFrom(s, p, l, sep).ok <==>
               forall i :: p <= i < |s| && s[i] == '-' ==> i + 1 < |s| && s[i + 1] != '-' && s[i + 1] != ',')
    decreases |s| - p
  {
    if AllAllowed(s) && p < |s| {
      TurnPassesDashes(s, p, l, sep);
      var t := TurnAt(s, p, l, sep);
      if t.Go? {
        AcceptedExactly(s, t.p, t.l, t.sep);
      }
      assert ScanFrom(s, p, l, sep).ok <==> DashesFollowed(s, p);
    }
  }

  // ---- well-formed specifications ----

  /** A line or a range of lines, each number written with one to three digits. */
  datatype Item = One(n: string) | Range(first: string, last: string)

  predicate IsNumber(t: string) {
    1 <= |t| <= 3 && forall c :: c in t ==> IsDigit(c)
  }

  predicate WellFormed(items: seq<Item>) {
    forall i :: 0 <= i < |items| ==>
      match items[i]
      case One(n) => IsNumber(n)
      case Range(a, b) => IsNumber(a) && IsNumber(b)
  }

  function Render(item: Item): string {
    match item
    case One(n) => n
    case Range(a, b) => a + "-" + b
  }

  /** The items separated by commas. */
  function Text(items: seq<Item>): string {
    if items == [] then ""
    else if |items| == 1 then Render(items[0])
    else Render(items[0]) + "," + Text(items[1..])
  }

  ghost predicate Names(item: Item, l: nat) {
    match item
    case One(n) => l == NumberOf(n)
    case Range(a, b) => NumberOf(a) <= l <= NumberOf(b)
  }

  ghost predicate Named(items: seq<Item>, l: nat) {
    exists i :: 0 <= i < |items| && Names(items[i], l)
  }

  function Expand(item: Item): seq<int> {
    match item
    case One(n) => [NumberOf(n)]
    case Range(a, b) => FromTo(NumberOf(a), NumberOf(b))
  }

  function ExpandAll(items: seq<Item>): seq<int> {
    if items == [] then [] else Expand(items[0]) + ExpandAll(items[1..])
  }

  /** A number that is followed by a separator or the end is read in full. */
  lemma NumberRead(s: string, p: nat, t: string)
    requires IsNumber(t) && Follows(s, p, t)
    requires EndsNumber(At(s, p + |t|))
    ensures Width(s, p) == |t| && IsDigit(s[p])
    ensures s[p..p + Width(s, p)] == t
  {
    DigitAt(s, p, t, 0);
    if |t| > 1 {
      DigitAt(s, p, t, 1);
    }
    if |t| > 2 {
      DigitAt(s, p, t, 2);
    }
  }

  lemma DigitAt(s: string, p: nat, t: string, k: nat)
    requires IsNumber(t) && Follows(s, p, t) && k < |t|
    ensures p + k < |s| && IsDigit(s[p + k]) && At(s, p + k) == s[p + k]
  {
    FollowsAt(s, p, t, k);
    assert t[k] in t;
  }

  /** The scan from q on, where q is the end of the text or a comma. */
  function Onwards(s: string, q: nat, l: int): Scan {
    if q >= |s| then Scan(true, []) else ScanFrom(s, q + 1, l, ',')
  }

  lemma NumberTurn(s: string, p: nat, l: int, sep: char, t: string)
    requires IsNumber(t) && Follows(s, p, t) && EndsNumber(At(s, p + |t|))
    ensures TurnAt(s, p, l, sep) == Go(p + |t|, NumberOf(t), sep, if p + |t| == |s| then [NumberOf(t)] else [])
  {
    NumberRead(s, p, t);
  }

  lemma DashTurn(s: string, p: nat, l: int, sep: char, t: string)
    requires IsNumber(t) && At(s, p) == '-' && Follows(s, p + 1, t) && EndsNumber(At(s, p + 1 + |t|))
    ensures TurnAt(s, p, l, sep) == Go(p + 1 + |t|, l, '-', FromTo(l, NumberOf(t)))
  {
    NumberRead(s, p + 1, t);
  }

  lemma ScanTurn(s: string, p: nat, l: int, sep: char, t: Turn)
    requires p < |s| && TurnAt(s, p, l, sep) == t && t.Go?
    ensures ScanFrom(s, p, l, sep) == ScanFrom(s, t.p, t.l, t.sep).After(t.stored)
  {
  }

  lemma OneRead(s: string, p: nat, l: int, n: string)
    requires IsNumber(n) && Follows(s, p, n)
    requires p + |n| == |s| || s[p + |n|] == ','
    ensures ScanFrom(s, p, l, ',') == Onwards(s, p + |n|, NumberOf(n)).After([NumberOf(n)])
  {
    var q, v := p + |n|, NumberOf(n);
    NumberTurn(s, p, l, ',', n);
    if q == |s| {
      ScanTurn(s, p, l, ',', Go(q, v, ',', [v]));
    } else {
      ScanTurn(s, p, l, ',', Go(q, v, ',', []));
      ScanTurn(s, q, v, ',', Go(q + 1, v, ',', [v]));
      assert ScanFrom(s, p, l, ',') == ScanFrom(s, q, v, ',');
    }
  }

  lemma RangeRead(s: string, p: nat, l: int, a: string, b: string)
    requires IsNumber(a) && IsNumber(b) && Follows(s, p, a + "-" + b)
    requires var q := p + |a| + 1 + |b|; q == |s| || s[q] == ','
    ensures ScanFrom(s, p, l, ',') ==
            Onwards(s, p + |a| + 1 + |b|, NumberOf(a)).After(FromTo(NumberOf(a), NumberOf(b)))
  {
    var d, q, v := p + |a|, p + |a| + 1 + |b|, NumberOf(a);
    RangeSplit(s, p, a, b);
    NumberTurn(s, p, l, ',', a);
    DashTurn(s, d, v, ',', b);
    RangeTurns(s, p, l, d, v, q, FromTo(v, NumberOf(b)));
  }

  lemma RangeTurns(s: string, p: nat, l: int, d: nat, v: int, q: nat, stored: seq<int>)
    requires p < d < q <= |s| && (q == |s| || s[q] == ',')
    requires TurnAt(s, p, l, ',') == Go(d, v, ',', [])
    requires TurnAt(s, d, v, ',') == Go(q, v, '-', stored)
    ensures ScanFrom(s, p, l, ',') == Onwards(s, q, v).After(stored)
  {
    ScanTurn(s, p, l, ',', Go(d, v, ',', []));
    ScanTurn(s, d, v, ',', Go(q, v, '-', stored));
    assert ScanFrom(s, p, l, ',') == ScanFrom(s, d, v, ',');
    if q < |s| {
      ScanTurn(s, q, v, '-', Go(q + 1, v, ',', []));
      assert ScanFrom(s, q, v, '-') == ScanFrom(s, q + 1, v, ',');
    }
  }

  /** Reading one item and the comma or the end of text behind it. */
  lemma ItemRead(s: string, p: nat, l: int, item: Item, q: nat) returns (l': int)
    requires WellFormed([item]) && Follows(s, p, Render(item))
    requires q == p + |Render(item)| && (q < |s| ==> s[q] == ',')
    ensures ScanFrom(s, p, l, ',') == Onwards(s, q, l').After(Expand(item))
  {
    assert [item][0] == item;
    match item {
      case One(n) =>
        l' := NumberOf(n);
        OneRead(s, p, l, n);
      case Range(a, b) =>
        l' := NumberOf(a);
        RangeRead(s, p, l, a, b);
    }
  }

  lemma RangeSplit(s: string, p: nat, a: string, b: string)
    requires Follows(s, p, a + "-" + b)
    ensures Follows(s, p, a) && At(s, p + |a|) == '-' && Follows(s, p + |a| + 1, b)
  {
    var q := p + |a|;
    assert a + "-" + b == a + ("-" + b);
    FollowsSplit(s, p, a, "-" + b);
    FollowsSplit(s, q, "-", b);
    FollowsAt(s, q, "-", 0);
  }

  lemma {:induction false} ItemsRead(s: string, p: nat, l: int, items: seq<Item>)
    requires WellFormed(items) && Follows(s, p, Text(items)) && p + |Text(items)| == |s|
    ensures ScanFrom(s, p, l, ',') == Scan(true, ExpandAll(items))
    decreases |items|
  {
    if items != [] {
      var item, rest := items[0], items[1..];
      var q := p + |Render(item)|;
      var next, after := q + 1, Scan(true, ExpandAll(rest));
      var l' := ItemReadFirst(s, p, l, items, item, q);
      OnwardsFrom(s, q, next, l');
      if rest == [] {
        OnlyItem(s, p, items, q);
      } else {
        TextSplit(s, p, items, rest, q, next);
        ItemsRead(s, next, l', rest);
      }
      ItemThen(s, p, l, items, rest, Onwards(s, q, l'), after);
    }
  }

  lemma ItemReadFirst(s: string, p: nat, l: int, items: seq<Item>, item: Item, q: nat) returns (l': int)
    requires items != [] && item == items[0] && WellFormed(items) && Follows(s, p, Text(items)) && p + |Text(items)| == |s|
    requires q == p + |Render(item)|
    ensures q <= |s| && ScanFrom(s, p, l, ',') == Onwards(s, q, l').After(Expand(item))
  {
    FirstItem(items);
    if |items| == 1 {
      OnlyItem(s, p, items, q);
    } else {
      TextSplit(s, p, items, items[1..], q, q + 1);
    }
    l' := ItemRead(s, p, l, item, q);
  }

  lemma OnwardsFrom(s: string, q: nat, next: nat, l: int)
    requires q <= |s| && next == q + 1
    ensures Onwards(s, q, l) == if q == |s| then Scan(true, []) else ScanFrom(s, next, l, ',')
  {
  }

  lemma ItemThen(s: string, p: nat, l: int, items: seq<Item>, rest: seq<Item>, onwards: Scan, after: Scan)
    requires items != [] && rest == items[1..] && ScanFrom(s, p, l, ',') == onwards.After(Expand(items[0]))
    requires onwards == after == Scan(true, ExpandAll(rest))
    ensures ScanFrom(s, p, l, ',') == Scan(true, ExpandAll(items))
  {
  }

  lemma FirstItem(items: seq<Item>)
    requires WellFormed(items) && items != []
    ensures WellFormed([items[0]]) && WellFormed(items[1..])
  {
    assert items[0] == [items[0]][0];
  }

  lemma TextSplit(s: string, p: nat, items: seq<Item>, rest: seq<Item>, q: nat, next: nat)
    requires |items| > 1 && rest == items[1..] && Follows(s, p, Text(items)) && q == p + |Render(items[0])| && next == q + 1
    ensures Follows(s, p, Render(items[0]))
    ensures q < |s| && s[q] == ',' && Follows(s, next, Text(rest))
    ensures p + |Text(items)| == next + |Text(rest)|
  {
    TextOfMore(items, rest);
    CommaSplit(s, p, Text(items), Render(items[0]), Text(rest), q, next);
  }

  lemma OnlyItem(s: string, p: nat, items: seq<Item>, q: nat)
    requires |items| == 1 && Follows(s, p, Text(items)) && q == p + |Render(items[0])|
    ensures Follows(s, p, Render(items[0])) && q == p + |Text(items)|
  {
  }

  lemma TextOfMore(items: seq<Item>, rest: seq<Item>)
    requires |items| > 1 && rest == items[1..]
    ensures Text(items) == Render(items[0]) + "," + Text(rest)
  {
  }

  lemma CommaSplit(s: string, p: nat, t: string, a: string, b: string, q: nat, next: nat)
    requires Follows(s, p, t) && t == a + "," + b && q == p + |a| && next == q + 1
    ensures Follows(s, p, a) && q < |s| && s[q] == ',' && Follows(s, next, b)
    ensures p + |t| == next + |b|
  {
    assert t == a + ("," + b);
    FollowsSplit(s, p, a, "," + b);
    FollowsSplit(s, q, ",", b);
    FollowsAt(s, q, ",", 0);
  }

  lemma {:induction false} FromToMembers(a: int, b: int)
    ensures forall l: int :: l in FromTo(a, b) <==> a <= l <= b
    decreases b - a
  {
    if a <= b {
      FromToMembers(a, b - 1);
    }
  }

  lemma {:induction false} FromToLength(a: int, b: int)
    ensures |FromTo(a, b)| == if a <= b then b - a + 1 else 0
    decreases b - a
  {
    if a <= b {
      FromToLength(a, b - 1);
    }
  }

  /** A well-formed text overruns the array exactly if it expands to more than 128 lines; a
      single range does so exactly if it spans more, as 0-128 does. */
  lemma WideTextOverruns(items: seq<Item>, junk: int, a: string, b: string)
    requires WellFormed(items) && IsNumber(a) && IsNumber(b)
    ensures |ScanFrom(Text(items), 0, junk, ',').entries| > CAPACITY <==> |ExpandAll(items)| > CAPACITY
    ensures |ScanFrom(a + "-" + b, 0, junk, ',').entries| > CAPACITY <==> NumberOf(b) - NumberOf(a) >= CAPACITY
  {
    ItemsRead(Text(items), 0, junk, items);
    RangeRead(a + "-" + b, 0, junk, a, b);
    FromToLength(NumberOf(a), NumberOf(b));
  }

  lemma {:induction false} ExpandedAreNamed(items: seq<Item>)
    ensures forall l: nat :: l in ExpandAll(items) <==> Named(items, l)
  {
    if items != [] {
      ExpandedAreNamed(items[1..]);
      match items[0] {
        case One(n) =>
        case Range(a, b) => FromToMembers(NumberOf(a), NumberOf(b));
      }
      forall l: nat ensures l in ExpandAll(items) <==> Named(items, l) {
        assert l in Expand(items[0]) <==> Names(items[0], l);
        if Named(items, l) && !Names(items[0], l) {
          var i :| 0 <= i < |items| && Names(items[i], l);
          assert Names(items[1..][i - 1], l);
        }
        if Named(items[1..], l) {
          var i :| 0 <= i < |items[1..]| && Names(items[1..][i], l);
          assert Names(items[i + 1], l);
        }
      }
    }
  }

  lemma {:induction false} TextAllowed(items: seq<Item>)
    requires WellFormed(items)
    ensures forall c :: c in Text(items) ==> Allowed(c)
  {
    if items != [] {
      TextAllowed(items[1..]);
    }
  }

  /** Specification text to mask to the server's line list: the parser accepts every
      well-formed text, and whatever mask it leaves is decoded, on a device of n
      lines, to the strictly increasing list of exactly the named lines. */
  lemma SpecificationSelectsNamedLines(items: seq<Item>, junk: int, bits: Mask, n: nat)
    requires WellFormed(items)
    requires SetsExactly(bits, ScanFrom(Text(items), 0, junk, ',').entries)
    ensures (forall c :: c in Text(items) ==> Allowed(c)) && ScanFrom(Text(items), 0, junk, ',').ok
    ensures Increasing(Selected(bits, n))
    ensures forall l: nat :: l in Selected(bits, n) <==> Named(items, l) && l < n && l < NLINEBITS
    ensures Selected(bits, n) != [] ==> LegacySelected(bits, n) == Selected(bits, n)
  {
    TextAllowed(items);
    ItemsRead(Text(items), 0, junk, items);
    ExpandedAreNamed(items);
    SelectedIsExact(bits, n);
    LegacyDecoderAgrees(bits, n);
  }
}
