/** What pm_set_lines makes of every text that it accepts, well-formed or not: parts between
    commas, each a number and any number of range ends, all of any number of digits. */
module LineParts {
  import opened Digits
  import opened Texts
  import opened LineSpec

  /** `lead-end-end-...`; the digits in front may be missing, or the ends. */
  datatype Part = Part(lead: string, ends: seq<string>)

  predicate PartOk(part: Part) {
    AllDigits(part.lead) && forall i :: 0 <= i < |part.ends| ==> part.ends[i] != "" && AllDigits(part.ends[i])
  }

  predicate PartsOk(parts: seq<Part>) {
    parts != [] && forall i :: 0 <= i < |parts| ==> PartOk(parts[i])
  }

  function EndsText(ends: seq<string>): string {
    if ends == [] then "" else "-" + (ends[0] + EndsText(ends[1..]))
  }

  function PartText(part: Part): string {
    part.lead + EndsText(part.ends)
  }

  function PartsText(parts: seq<Part>): string
    requires parts != []
  {
    PartText(parts[0]) + (if |parts| == 1 then "" else "," + PartsText(parts[1..]))
  }

  // ---- the meaning of a part ----

  /** Digits are read in groups of three, of which the last one counts. */
  function LastGroup(d: string): string {
    if |d| <= 3 then d else LastGroup(d[3..])
  }

  function FirstGroup(d: string): string {
    if |d| <= 3 then d else d[..3]
  }

  /** A range ends at its first group; what is left of its digits is another number. */
  function Behind(l: int, end: string): int {
    if |end| <= 3 then l else NumberOf(LastGroup(end[3..]))
  }

  function RangesOf(ends: seq<string>, l: int): seq<int> {
    if ends == [] then []
    else FromTo(l, NumberOf(FirstGroup(ends[0]))) + RangesOf(ends[1..], Behind(l, ends[0]))
  }

  function Carried(ends: seq<string>, l: int): int {
    if ends == [] then l else Carried(ends[1..], Behind(l, ends[0]))
  }

  /** A part without a number of its own goes on from the number before it. */
  function Lead(part: Part, l: int): int {
    if part.lead == "" then l else NumberOf(LastGroup(part.lead))
  }

  function Carry(part: Part, l: int): int {
    Carried(part.ends, Lead(part, l))
  }

  /** At the end of the text a number is stored if it is the last thing read. */
  predicate EndsInNumber(part: Part) {
    if part.ends == [] then part.lead != "" else |part.ends[|part.ends| - 1]| > 3
  }

  /** In front of a comma the number is stored unless the part is a range. */
  function Meaning(parts: seq<Part>, l: int): seq<int>
    requires parts != []
  {
    var part := parts[0];
    RangesOf(part.ends, Lead(part, l)) +
    (if |parts| == 1 then (if EndsInNumber(part) then [Carry(part, l)] else [])
     else (if part.ends == [] then [Carry(part, l)] else []) + Meaning(parts[1..], Carry(part, l)))
  }

  // ---- reading ----

  predicate Closed(s: string, q: nat) {
    q == |s| || (q < |s| && (s[q] == '-' || s[q] == ','))
  }

  lemma {:induction false} DigitsRead(s: string, p: nat, l: int, sep: char, d: string, q: nat)
    requires d != "" && AllDigits(d) && Follows(s, p, d) && q == p + |d| && Closed(s, q)
    ensures var v := NumberOf(LastGroup(d));
            ScanFrom(s, p, l, sep) == ScanFrom(s, q, v, sep).After(if q == |s| then [v] else [])
    decreases |d|
  {
    if |d| <= 3 {
      NumberTurn(s, p, l, sep, d);
      ScanTurn(s, p, l, sep, TurnAt(s, p, l, sep));
    } else {
      GroupRead(s, p, l, sep, d, p + 3);
      DigitsRead(s, p + 3, NumberOf(d[..3]), sep, d[3..], q);
    }
  }

  /** The first of several groups. */
  lemma GroupRead(s: string, p: nat, l: int, sep: char, d: string, next: nat)
    requires |d| > 3 && AllDigits(d) && Follows(s, p, d) && next == p + 3
    ensures next < |s| && Follows(s, next, d[3..]) && AllDigits(d[3..])
    ensures ScanFrom(s, p, l, sep) == ScanFrom(s, next, NumberOf(d[..3]), sep)
  {
    GroupWidth(s, p, d);
    assert d == d[..3] + d[3..];
    FollowsSplit(s, p, d[..3], d[3..]);
    ScanTurn(s, p, l, sep, TurnAt(s, p, l, sep));
  }

  lemma GroupWidth(s: string, p: nat, d: string)
    requires |d| > 3 && AllDigits(d) && Follows(s, p, d)
    ensures p + 3 < |s| && IsDigit(s[p]) && Width(s, p) == 3 && s[p..p + 3] == d[..3]
  {
    FollowsAt(s, p, d, 0);
    FollowsAt(s, p, d, 1);
    FollowsAt(s, p, d, 2);
    FollowsAt(s, p, d, 3);
  }

  /** The dash and the first group of a range end. */
  lemma DashGroup(s: string, p: nat, l: int, sep: char, e: string, next: nat)
    requires e != "" && AllDigits(e) && Follows(s, p, "-" + e) && Closed(s, p + 1 + |e|) && next == p + 1 + |FirstGroup(e)|
    ensures next <= |s| && ScanFrom(s, p, l, sep) == ScanFrom(s, next, l, '-').After(FromTo(l, NumberOf(FirstGroup(e))))
    ensures |e| > 3 ==> Follows(s, next, e[3..]) && AllDigits(e[3..])
  {
    var first := p + 1;
    FollowsSplit(s, p, "-", e);
    FollowsAt(s, p, "-", 0);
    if |e| <= 3 {
      DashTurn(s, p, l, sep, e);
    } else {
      WideDash(s, p, l, sep, e, first, next);
    }
    ScanTurn(s, p, l, sep, Go(next, l, '-', FromTo(l, NumberOf(FirstGroup(e)))));
  }

  lemma WideDash(s: string, p: nat, l: int, sep: char, e: string, first: nat, next: nat)
    requires |e| > 3 && AllDigits(e) && first == p + 1 && next == first + 3 && At(s, p) == '-' && Follows(s, first, e)
    ensures TurnAt(s, p, l, sep) == Go(next, l, '-', FromTo(l, NumberOf(e[..3])))
    ensures Follows(s, next, e[3..]) && AllDigits(e[3..])
  {
    GroupWidth(s, first, e);
    assert e == e[..3] + e[3..];
    FollowsSplit(s, first, e[..3], e[3..]);
  }

  lemma EndRead(s: string, p: nat, l: int, sep: char, e: string, q: nat)
    requires e != "" && AllDigits(e) && Follows(s, p, "-" + e) && q == p + 1 + |e| && Closed(s, q)
    ensures var v := Behind(l, e);
            ScanFrom(s, p, l, sep) ==
            ScanFrom(s, q, v, '-').After(FromTo(l, NumberOf(FirstGroup(e))) + (if q == |s| && |e| > 3 then [v] else []))
  {
    var next, stored := p + 1 + |FirstGroup(e)|, FromTo(l, NumberOf(FirstGroup(e)));
    DashGroup(s, p, l, sep, e, next);
    if |e| > 3 {
      DigitsRead(s, next, l, '-', e[3..], q);
      var v := Behind(l, e);
      AfterTwice(ScanFrom(s, q, v, '-'), stored, if q == |s| then [v] else []);
    } else {
      assert stored + [] == stored;
    }
  }

  /** The separator behind some range ends, and what they store at the end of the text. */
  function SeparatorOf(ends: seq<string>, sep: char): char {
    if ends == [] then sep else '-'
  }

  function LastOf(ends: seq<string>, l: int, atEnd: bool): seq<int> {
    if ends != [] && |ends[|ends| - 1]| > 3 && atEnd then [Carried(ends, l)] else []
  }

  lemma EndsSplit(s: string, p: nat, ends: seq<string>, q: nat, next: nat)
    requires ends != [] && ends[0] != "" && AllDigits(ends[0])
    requires Follows(s, p, EndsText(ends)) && q == p + |EndsText(ends)| && (q == |s| || (q < |s| && s[q] == ','))
    requires next == p + 1 + |ends[0]|
    ensures Follows(s, p, "-" + ends[0]) && Closed(s, next) && Follows(s, next, EndsText(ends[1..])) && q == next + |EndsText(ends[1..])|
    ensures ends[1..] != [] ==> next < |s|
  {
    var e, rest := ends[0], EndsText(ends[1..]);
    assert EndsText(ends) == "-" + e + rest;
    FollowsSplit(s, p, "-" + e, rest);
    if ends[1..] != [] {
      FollowsAt(s, next, rest, 0);
    }
  }

  lemma {:induction false} EndsRead(s: string, p: nat, l: int, sep: char, ends: seq<string>, q: nat)
    requires forall i :: 0 <= i < |ends| ==> ends[i] != "" && AllDigits(ends[i])
    requires Follows(s, p, EndsText(ends)) && q == p + |EndsText(ends)| && (q == |s| || (q < |s| && s[q] == ','))
    ensures ScanFrom(s, p, l, sep) ==
            ScanFrom(s, q, Carried(ends, l), SeparatorOf(ends, sep)).After(RangesOf(ends, l) + LastOf(ends, l, q == |s|))
    decreases |ends|
  {
    if ends == [] {
      NothingAfter(ScanFrom(s, q, l, sep));
    } else {
      var e, rest := ends[0], ends[1..];
      var next, v := p + 1 + |e|, Behind(l, e);
      EndsSplit(s, p, ends, q, next);
      EndRead(s, p, l, sep, e, next);
      EndsRead(s, next, v, '-', rest, q);
      var stored := FromTo(l, NumberOf(FirstGroup(e))) + (if next == |s| && |e| > 3 then [v] else []);
      AfterTwice(ScanFrom(s, q, Carried(ends, l), '-'), stored, RangesOf(rest, v) + LastOf(rest, v, q == |s|));
      EndsStored(s, ends, l, next, q);
    }
  }

  lemma NothingAfter(scan: Scan)
    ensures scan.After([]) == scan
  {
    assert [] + scan.entries == scan.entries;
  }

  lemma EndsStored(s: string, ends: seq<string>, l: int, next: nat, q: nat)
    requires ends != [] && (ends[1..] != [] ==> next < |s|) && (ends[1..] == [] ==> q == next)
    ensures var e, v := ends[0], Behind(l, ends[0]);
            FromTo(l, NumberOf(FirstGroup(e))) + (if next == |s| && |e| > 3 then [v] else [])
            + (RangesOf(ends[1..], v) + LastOf(ends[1..], v, q == |s|)) ==
            RangesOf(ends, l) + LastOf(ends, l, q == |s|)
  {
    var e, v, rest := ends[0], Behind(l, ends[0]), ends[1..];
    var first, last := FromTo(l, NumberOf(FirstGroup(e))), LastOf(ends, l, q == |s|);
    assert Carried(ends, l) == Carried(rest, v);
    if rest == [] {
      assert first + [] == first && last + ([] + []) == last;
    } else {
      assert rest[|rest| - 1] == ends[|ends| - 1];
      assert first + [] + (RangesOf(rest, v) + last) == first + RangesOf(rest, v) + last;
    }
  }

  /** One part, up to the comma or the end of the text behind it. */
  lemma PartRead(s: string, p: nat, l: int, part: Part, q: nat)
    requires PartOk(part) && Follows(s, p, PartText(part)) && q == p + |PartText(part)| && (q == |s| || (q < |s| && s[q] == ','))
    ensures ScanFrom(s, p, l, ',') ==
            ScanFrom(s, q, Carry(part, l), SeparatorOf(part.ends, ','))
            .After(RangesOf(part.ends, Lead(part, l)) + (if q == |s| && EndsInNumber(part) then [Carry(part, l)] else []))
  {
    var d := p + |part.lead|;
    FollowsSplit(s, p, part.lead, EndsText(part.ends));
    EndsRead(s, d, Lead(part, l), ',', part.ends, q);
    if part.lead != "" {
      if part.ends != [] {
        FollowsAt(s, d, EndsText(part.ends), 0);
      }
      DigitsRead(s, p, l, ',', part.lead, d);
      PartStored(ScanFrom(s, q, Carry(part, l), SeparatorOf(part.ends, ',')), s, d, l, part, q);
    }
  }

  lemma PartStored(scan: Scan, s: string, d: nat, l: int, part: Part, q: nat)
    requires part.lead != "" && (part.ends == [] ==> d == q) && (part.ends != [] ==> d < |s|)
    ensures var v := Lead(part, l);
            scan.After(RangesOf(part.ends, v) + LastOf(part.ends, v, q == |s|)).After(if d == |s| then [v] else []) ==
            scan.After(RangesOf(part.ends, v) + (if q == |s| && EndsInNumber(part) then [Carry(part, l)] else []))
  {
    var v := Lead(part, l);
    AfterTwice(scan, if d == |s| then [v] else [], RangesOf(part.ends, v) + LastOf(part.ends, v, q == |s|));
    if part.ends == [] {
      assert [v] + [] == [v] && [] + [v] == [v];
    } else {
      assert [] + (RangesOf(part.ends, v) + LastOf(part.ends, v, q == |s|)) == RangesOf(part.ends, v) + LastOf(part.ends, v, q == |s|);
    }
  }

  /** The comma behind a part that is not the last one. */
  lemma CommaRead(s: string, q: nat, v: int, sep: char, next: nat)
    requires q < |s| && s[q] == ',' && next == q + 1
    ensures ScanFrom(s, q, v, sep) == ScanFrom(s, next, v, if sep == '-' then ',' else sep).After(if sep == '-' then [] else [v])
  {
    ScanTurn(s, q, v, sep, TurnAt(s, q, v, sep));
  }

  lemma PartsSplit(s: string, p: nat, parts: seq<Part>, q: nat, next: nat)
    requires |parts| > 1 && Follows(s, p, PartsText(parts)) && q == p + |PartText(parts[0])| && next == q + 1
    ensures Follows(s, p, PartText(parts[0])) && q < |s| && s[q] == ',' && Follows(s, next, PartsText(parts[1..]))
    ensures p + |PartsText(parts)| == next + |PartsText(parts[1..])|
  {
    var rest := PartsText(parts[1..]);
    FollowsSplit(s, p, PartText(parts[0]), "," + rest);
    FollowsSplit(s, q, ",", rest);
    FollowsAt(s, q, ",", 0);
  }

  /** Whatever stands between the commas, the scan stores what the parts mean. */
  lemma {:induction false} PartsRead(s: string, p: nat, l: int, parts: seq<Part>)
    requires PartsOk(parts) && Follows(s, p, PartsText(parts)) && p + |PartsText(parts)| == |s|
    ensures ScanFrom(s, p, l, ',') == Scan(true, Meaning(parts, l))
    decreases |parts|
  {
    var part := parts[0];
    var q, v, ranges := p + |PartText(part)|, Carry(part, l), RangesOf(part.ends, Lead(part, l));
    if |parts| == 1 {
      assert PartsText(parts) == PartText(part);
      PartRead(s, p, l, part, q);
      assert ScanFrom(s, q, v, SeparatorOf(part.ends, ',')) == Scan(true, []);
    } else {
      var next, stored := q + 1, if part.ends == [] then [v] else [];
      PartsSplit(s, p, parts, q, next);
      PartRead(s, p, l, part, q);
      CommaRead(s, q, v, SeparatorOf(part.ends, ','), next);
      PartsRead(s, next, v, parts[1..]);
      MorePartsRead(s, p, l, parts, ScanFrom(s, q, v, SeparatorOf(part.ends, ',')), stored);
    }
  }

  lemma MorePartsRead(s: string, p: nat, l: int, parts: seq<Part>, behind: Scan, stored: seq<int>)
    requires |parts| > 1 && stored == if parts[0].ends == [] then [Carry(parts[0], l)] else []
    requires behind == Scan(true, Meaning(parts[1..], Carry(parts[0], l))).After(stored)
    requires ScanFrom(s, p, l, ',') == behind.After(RangesOf(parts[0].ends, Lead(parts[0], l)) + [])
    ensures ScanFrom(s, p, l, ',') == Scan(true, Meaning(parts, l))
  {
    var ranges := RangesOf(parts[0].ends, Lead(parts[0], l));
    assert ranges + [] == ranges;
  }

  // ---- every accepted text has parts ----

  predicate Accepted(s: string) {
    AllAllowed(s) && DashesFollowed(s, 0)
  }

  lemma AcceptedRest(s: string)
    requires s != "" && Accepted(s)
    ensures Accepted(s[1..]) && (s[0] == '-' ==> s[1..] != "" && IsDigit(s[1..][0]))
  {
    forall i | 0 <= i < |s[1..]| ensures Allowed(s[1..][i]) && s[1..][i] == s[i + 1] {
    }
  }

  /** The parts of a text, from its last char to its first. */
  function PartsOf(s: string): (parts: seq<Part>)
    requires Accepted(s)
    ensures parts != [] && (s != "" && IsDigit(s[0]) ==> parts[0].lead != "")
    decreases |s|
  {
    if s == "" then [Part("", [])]
    else
      AcceptedRest(s);
      var rest := PartsOf(s[1..]);
      if s[0] == ',' then [Part("", [])] + rest
      else if s[0] == '-' then rest[0 := Part("", [rest[0].lead] + rest[0].ends)]
      else rest[0 := rest[0].(lead := [s[0]] + rest[0].lead)]
  }

  lemma {:induction false} PartsOfText(s: string)
    requires Accepted(s)
    ensures PartsOk(PartsOf(s)) && PartsText(PartsOf(s)) == s
    decreases |s|
  {
    if s != "" {
      AcceptedRest(s);
      PartsOfText(s[1..]);
      var c, rest := s[0], PartsOf(s[1..]);
      assert s == [c] + s[1..];
      if c == ',' {
        EmptyPart(rest);
      } else if c == '-' {
        DashedPart(rest);
        FirstReplaced(rest, Part("", [rest[0].lead] + rest[0].ends), c);
      } else {
        LongerLead(rest, c);
        FirstReplaced(rest, rest[0].(lead := [c] + rest[0].lead), c);
      }
    }
  }

  lemma EmptyPart(rest: seq<Part>)
    requires PartsOk(rest)
    ensures PartsOk([Part("", [])] + rest) && PartsText([Part("", [])] + rest) == "," + PartsText(rest)
  {
    var parts := [Part("", [])] + rest;
    assert parts[1..] == rest && PartText(parts[0]) == "";
    assert "" + ("," + PartsText(rest)) == "," + PartsText(rest);
  }

  lemma DashedPart(rest: seq<Part>)
    requires PartsOk(rest) && rest[0].lead != ""
    ensures var part := Part("", [rest[0].lead] + rest[0].ends); PartOk(part) && PartText(part) == "-" + PartText(rest[0])
  {
    var ends := [rest[0].lead] + rest[0].ends;
    assert ends[1..] == rest[0].ends;
    assert "" + EndsText(ends) == EndsText(ends);
  }

  lemma LongerLead(rest: seq<Part>, c: char)
    requires PartsOk(rest) && IsDigit(c)
    ensures var part := rest[0].(lead := [c] + rest[0].lead); PartOk(part) && PartText(part) == [c] + PartText(rest[0])
  {
    var lead, ends := rest[0].lead, EndsText(rest[0].ends);
    assert [c] + lead + ends == [c] + (lead + ends);
  }

  lemma FirstReplaced(rest: seq<Part>, part: Part, c: char)
    requires PartsOk(rest) && PartOk(part) && PartText(part) == [c] + PartText(rest[0])
    ensures PartsOk(rest[0 := part]) && PartsText(rest[0 := part]) == [c] + PartsText(rest)
  {
    var parts, first := rest[0 := part], PartText(rest[0]);
    var behind := if |rest| == 1 then "" else "," + PartsText(rest[1..]);
    assert parts[1..] == rest[1..];
    assert PartsText(parts) == PartText(part) + behind;
    assert [c] + first + behind == [c] + (first + behind);
  }

  /** A text of digits, dashes and commas in which a digit follows every dash sets exactly
      what its parts mean. */
  lemma AcceptedMeans(s: string, junk: int)
    requires forall i :: 0 <= i < |s| ==> '0' <= s[i] <= '9' || s[i] == '-' || s[i] == ','
    requires forall i :: 0 <= i < |s| && s[i] == '-' ==> i + 1 < |s| && '0' <= s[i + 1] <= '9'
    ensures Accepted(s) && PartsOk(PartsOf(s)) && PartsText(PartsOf(s)) == s
    ensures ScanFrom(s, 0, junk, ',') == Scan(true, Meaning(PartsOf(s), junk))
  {
    PartsOfText(s);
    PartsRead(s, 0, junk, PartsOf(s));
  }
}
