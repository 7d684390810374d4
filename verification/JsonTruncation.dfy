/** A printed document that breaks off is refused (server/utils/jsoncpp.cpp). */
module JsonTruncation {
  import opened Texts
  import opened Digits
  import opened JsonValues
  import opened JsonNumbers
  import opened JsonStrings
  import opened JsonLexer
  import opened JsonReading
  import opened JsonWriter
  import opened JsonRoundTrip
  import opened JsonRefusals

  /** From p on the document has a part of t, and ends in front of the rest of it. */
  predicate Cut(doc: string, p: nat, t: string) {
    p <= |doc| && |doc| - p < |t| && doc[p..] == t[..|doc| - p]
  }

  lemma CutSplit(doc: string, p: nat, a: string, b: string)
    requires Cut(doc, p, a + b)
    ensures Cut(doc, p, a) || (Follows(doc, p, a) && Cut(doc, p + |a|, b))
  {
    var n := |doc| - p;
    if n < |a| {
      assert (a + b)[..n] == a[..n];
    } else {
      assert doc[p..p + |a|] == doc[p..][..|a|] == (a + b)[..|a|] == a;
      assert doc[p + |a|..] == doc[p..][|a|..] == b[..n - |a|];
    }
  }

  lemma CutAt(doc: string, p: nat, t: string)
    requires Cut(doc, p, t) && p < |doc|
    ensures doc[p] == t[0]
  {
    assert doc[p..][0] == t[..|doc| - p][0];
  }

  /** A text of one char is cut only in front of it. */
  lemma CutMark(doc: string, p: nat, mark: string, rest: string)
    requires |mark| == 1 && Cut(doc, p, mark + rest)
    ensures p == |doc| || (doc[p] == mark[0] && Cut(doc, p + 1, rest))
  {
    CutSplit(doc, p, mark, rest);
    if p < |doc| {
      CutAt(doc, p, mark + rest);
    }
  }

  // ---- tokens that break off ----

  lemma {:induction false} StringCut(doc: string, p: nat, x: string)
    requires Cut(doc, p, EscapeAll(x) + "\"")
    ensures ScanString(doc, p, '"') == (false, |doc|)
    decreases |x|
  {
    if x == "" {
      assert EscapeAll(x) + "\"" == "\"";
    } else {
      var rest, next := x[1..], p + |Escape(x[0])|;
      EscapedFrontCut(doc, p, x, rest, next);
      if Cut(doc, p, Escape(x[0])) {
        EscapeCut(doc, p, x[0]);
      } else {
        EscapePassed(doc, p, x[0], next);
        StringCut(doc, next, rest);
      }
    }
  }

  lemma EscapedFrontCut(doc: string, p: nat, x: string, rest: string, next: nat)
    requires x != "" && rest == x[1..] && next == p + |Escape(x[0])| && Cut(doc, p, EscapeAll(x) + "\"")
    ensures Cut(doc, p, Escape(x[0])) || (Follows(doc, p, Escape(x[0])) && Cut(doc, next, EscapeAll(rest) + "\""))
  {
    assert EscapeAll(x) + "\"" == Escape(x[0]) + (EscapeAll(rest) + "\"");
    CutSplit(doc, p, Escape(x[0]), EscapeAll(rest) + "\"");
  }

  lemma EscapeCut(doc: string, p: nat, c: char)
    requires Cut(doc, p, Escape(c))
    ensures ScanString(doc, p, '"') == (false, |doc|)
  {
    var hex := p + 2;
    if p < |doc| {
      CutAt(doc, p, Escape(c));
      if hex < |doc| {
        EscapeIsLong(doc, p, c);
        HexCut(doc, hex, c as nat, p);
      }
    }
  }

  /** Only the escapes of six chars break off behind their second one. */
  lemma EscapeIsLong(doc: string, p: nat, c: char)
    requires Cut(doc, p, Escape(c)) && p + 2 < |doc|
    ensures c as nat < 0x10000 && Escape(c) == "\\u" + Hex4(c as nat, true) && |doc| < p + 6
    ensures ScanString(doc, p, '"') == ScanString(doc, p + 2, '"')
  {
    CutAt(doc, p, Escape(c));
  }

  /** The hexadecimal digits of an escape that begins at `begin`. */
  lemma {:induction false} HexCut(doc: string, p: nat, u: nat, begin: nat)
    requires u < 0x10000 && begin + 2 <= p <= |doc| < begin + 6
    requires doc[begin..] == ("\\u" + Hex4(u, true))[..|doc| - begin]
    ensures ScanString(doc, p, '"') == (false, |doc|)
    decreases |doc| - p
  {
    if p < |doc| {
      var next := p + 1;
      assert doc[p] == doc[begin..][p - begin] == Hex4(u, true)[p - begin - 2];
      HexIsPlain(u, p - begin - 2);
      HexCut(doc, next, u, begin);
    }
  }

  lemma HexIsPlain(u: nat, k: nat)
    requires u < 0x10000 && k < 4
    ensures Hex4(u, true)[k] != '"' && Hex4(u, true)[k] != '\\'
  {
    HexDigitRoundTrip(u / 4096, true);
    HexDigitRoundTrip(u / 256 % 16, true);
    HexDigitRoundTrip(u / 16 % 16, true);
    HexDigitRoundTrip(u % 16, true);
  }

  lemma QuotedCut(f: Features, doc: string, p: nat, x: string)
    requires Cut(doc, p, Quoted(x))
    ensures NoToken(ReadToken(f, doc, p)) && NextToken(f, doc, p) == SkipCommentTokens(f, doc, p) == ReadToken(f, doc, p)
  {
    assert Quoted(x) == "\"" + (EscapeAll(x) + "\"");
    CutMark(doc, p, "\"", EscapeAll(x) + "\"");
    if p == |doc| {
      EndToken(f, doc);
    } else {
      StringCut(doc, p + 1, x);
      OpenQuote(f, doc, p);
    }
  }

  lemma OpenQuote(f: Features, doc: string, p: nat)
    requires p < |doc| && doc[p] == '"' && ScanString(doc, p + 1, '"') == (false, |doc|)
    ensures ReadToken(f, doc, p).kind == ErrorToken
    ensures NextToken(f, doc, p) == SkipCommentTokens(f, doc, p) == ReadToken(f, doc, p)
  {
    TokenHere(f, doc, p);
  }

  lemma WordCut(f: Features, doc: string, p: nat, word: string)
    requires word in {"null", "true", "false"} && Cut(doc, p, word)
    ensures NoToken(SkipCommentTokens(f, doc, p))
  {
    if p == |doc| {
      EndToken(f, doc);
    } else {
      CutAt(doc, p, word);
      TokenHere(f, doc, p);
    }
  }

  lemma {:induction false} DigitsToEnd(doc: string, p: nat, digits: string)
    requires AllDigits(digits) && Cut(doc, p, digits)
    ensures SkipDigits(doc, p) == |doc|
    decreases |doc| - p
  {
    if p < |doc| {
      CutAt(doc, p, digits);
      assert digits == digits[..1] + digits[1..];
      CutMark(doc, p, digits[..1], digits[1..]);
      DigitsToEnd(doc, p + 1, digits[1..]);
    }
  }

  /** A number that ends the document, or none. */
  predicate LastNumber(doc: string, t: Token) {
    NoToken(t) || (t.kind == NumberToken && t.end == |doc|)
  }

  lemma DigitsCut(f: Features, doc: string, p: nat, digits: string)
    requires digits != "" && AllDigits(digits) && Cut(doc, p, digits)
    ensures LastNumber(doc, SkipCommentTokens(f, doc, p))
  {
    assert digits == digits[..1] + digits[1..];
    CutMark(doc, p, digits[..1], digits[1..]);
    if p == |doc| {
      EndToken(f, doc);
    } else {
      DigitsToEnd(doc, p + 1, digits[1..]);
      assert IsDigit(digits[0]) && doc[p] == digits[0];
      TokenHere(f, doc, p);
    }
  }

  lemma MinusCut(f: Features, doc: string, p: nat, digits: string)
    requires digits != "" && AllDigits(digits) && Cut(doc, p, "-" + digits)
    ensures LastNumber(doc, SkipCommentTokens(f, doc, p))
  {
    CutMark(doc, p, "-", digits);
    if p == |doc| {
      EndToken(f, doc);
    } else {
      if p + 1 < |doc| {
        CutAt(doc, p + 1, digits);
        assert IsDigit(digits[0]);
      }
      DigitsToEnd(doc, p + 1, digits);
      TokenHere(f, doc, p);
    }
  }

  lemma IntegerCut(f: Features, doc: string, p: nat, depth: int, prior: Value, n: int)
    requires Cut(doc, p, IntText(n))
    ensures p <= |doc| && Exhausted(doc, ReadValue(f, doc, p, depth, prior))
  {
    DecimalRoundTrip(if n < 0 then -n else n);
    if n < 0 {
      MinusCut(f, doc, p, Decimal(-n));
    } else {
      DigitsCut(f, doc, p, Decimal(n));
    }
    LastNumberRead(f, doc, p, depth, prior);
  }

  lemma LastNumberRead(f: Features, doc: string, p: nat, depth: int, prior: Value)
    requires p <= |doc| && LastNumber(doc, SkipCommentTokens(f, doc, p))
    ensures Exhausted(doc, ReadValue(f, doc, p, depth, prior))
  {
  }

  predicate IsNumber(v: Value) {
    v.Int? || v.UInt?
  }

  /** What reading a printed value that breaks off comes to. */
  predicate Fails(doc: string, r: ReadResult, v: Value) {
    Exhausted(doc, r) && (!IsNumber(v) ==> Refused(r))
  }

  lemma ScalarCut(f: Features, o: Style, doc: string, p: nat, depth: int, prior: Value, v: Value)
    requires Printable(v) && Cut(doc, p, ValueText(o, v)) && !v.Array? && !v.Object?
    ensures p <= |doc| && Fails(doc, ReadValue(f, doc, p, depth, prior), v)
  {
    match v
    case Null =>
      WordCut(f, doc, p, "null");
      NoTokenRefused(f, doc, p, depth, prior);
    case Bool(b) =>
      WordCut(f, doc, p, if b then "true" else "false");
      NoTokenRefused(f, doc, p, depth, prior);
    case Str(s) =>
      QuotedCut(f, doc, p, s);
      NoTokenRefused(f, doc, p, depth, prior);
    case Int(i) => IntegerCut(f, doc, p, depth, prior, i);
    case UInt(u) => IntegerCut(f, doc, p, depth, prior, u);
    case _ =>
  }

  // ---- arrays that break off ----

  /** A value with its whole text, but nothing behind it. */
  lemma ValueAtEnd(f: Features, o: Style, doc: string, p: nat, depth: int, prior: Value, v: Value)
    requires Printable(v) && Follows(doc, p, ValueText(o, v)) && p + |ValueText(o, v)| == |doc|
    ensures p <= |doc| && Exhausted(doc, ReadValue(f, doc, p, depth, prior))
  {
    if o.dropNulls && v == Null {
      EndRefused(f, doc, depth, prior);
    } else if Readable(f, o, v) {
      ValueReadTo(f, o, doc, p, depth, prior, v, Depth(o, v), ReadBack(o, v), |doc|);
    } else {
      ValueGap(f, o, doc, p, depth, prior, v);
    }
  }

  /** Where a text and what follows it are cut: in the text, right behind it, or later. */
  lemma WhereCut(doc: string, p: nat, t: string, rest: string, e: nat, next: nat)
    requires Cut(doc, p, t + rest) && rest != "" && e == p + |t| && next == e + 1
    ensures e > |doc| ==> Cut(doc, p, t)
    ensures e <= |doc| ==> Follows(doc, p, t)
    ensures e < |doc| ==> doc[e] == rest[0] && Cut(doc, next, rest[1..])
  {
    CutSplit(doc, p, t, rest);
    if e < |doc| {
      assert rest == rest[..1] + rest[1..];
      CutMark(doc, e, rest[..1], rest[1..]);
    }
  }

  /** The value reads, and then the document goes on; or reading fails. */
  lemma {:induction false} ValueThenCut(f: Features, o: Style, doc: string, p: nat, depth: int, prior: Value, v: Value,
                                        needed: nat, back: Value, e: nat)
    requires Printable(v) && e == p + |ValueText(o, v)| && needed == Depth(o, v) && back == ReadBack(o, v)
    requires e > |doc| ==> Cut(doc, p, ValueText(o, v))
    requires e <= |doc| ==> Follows(doc, p, ValueText(o, v))
    requires e < |doc| ==> EndsInside(doc, e)
    ensures p <= |doc|
    ensures e >= |doc| || !Readable(f, o, v) ==> Exhausted(doc, ReadValue(f, doc, p, depth, prior))
    ensures e < |doc| && Readable(f, o, v) ==> ReadValue(f, doc, p, depth, prior) == Outcome(f, needed, back, e, depth)
    decreases v, 2
  {
    if e > |doc| {
      ValueCut(f, o, doc, p, depth, prior, v);
    } else if e == |doc| {
      ValueAtEnd(f, o, doc, p, depth, prior, v);
    } else if Readable(f, o, v) {
      ValueReadTo(f, o, doc, p, depth, prior, v, needed, back, e);
    } else {
      ValueGap(f, o, doc, p, depth, prior, v);
    }
  }

  lemma {:induction false} ElementsCut(f: Features, o: Style, doc: string, p: nat, depth: int, elems: seq<Value>, i: nat, so: seq<Value>)
    requires Printable(Array(elems)) && i < |elems| && Cut(doc, p, ElementsTail(o, elems, i))
    ensures p <= |doc| && ElementsFail(f, doc, p, depth, so)
    decreases elems, |elems| - i, 0
  {
    var v, e, needed, back := elems[i], p + |ValueText(o, elems[i])|, Depth(o, elems[i]), ReadBack(o, elems[i]);
    var next, r := e + 1, ReadValue(f, doc, p, depth, Null);
    ElementPrintable(elems, i);
    ElementWhereCut(o, doc, p, elems, i, e, next);
    ValueThenCut(f, o, doc, p, depth, Null, v, needed, back, e);
    if e >= |doc| || !Readable(f, o, v) {
      SeparatorCut(f, doc, so, r);
    } else {
      LaterElementsCut(f, o, doc, e, depth, elems, i, so, r, needed, back, next);
    }
    ElementRefused(f, doc, p, depth, so, r);
  }

  /** Element i was read, and the document breaks off later. */
  lemma {:induction false} LaterElementsCut(f: Features, o: Style, doc: string, e: nat, depth: int, elems: seq<Value>, i: nat,
                                            so: seq<Value>, r: ReadResult, needed: nat, back: Value, next: nat)
    requires Printable(Array(elems)) && i + 1 < |elems| && next == e + 1
    requires e < |doc| && doc[e] == ',' && Cut(doc, next, ElementsTail(o, elems, i + 1)) && r == Outcome(f, needed, back, e, depth)
    ensures ElementTurnFails(f, doc, AfterElement(f, doc, so, r))
    decreases elems, |elems| - i - 1, 2
  {
    var more, j := so + [back], i + 1;
    ElementsCut(f, o, doc, next, depth, elems, j, more);
    ElementsGoOn(f, doc, so, r, needed, back, e, depth, next);
  }

  lemma ElementWhereCut(o: Style, doc: string, p: nat, elems: seq<Value>, i: nat, e: nat, next: nat)
    requires i < |elems| && Cut(doc, p, ElementsTail(o, elems, i)) && e == p + |ValueText(o, elems[i])| && next == e + 1
    ensures e > |doc| ==> Cut(doc, p, ValueText(o, elems[i]))
    ensures e <= |doc| ==> Follows(doc, p, ValueText(o, elems[i]))
    ensures e < |doc| ==> i + 1 < |elems| && doc[e] == ',' && Cut(doc, next, ElementsTail(o, elems, i + 1))
  {
    ElementsRest(o, elems, i);
    WhereCut(doc, p, ValueText(o, elems[i]), ElementsText(o, elems, i + 1) + "]", e, next);
  }

  lemma ElementsRest(o: Style, elems: seq<Value>, i: nat)
    requires i < |elems|
    ensures var rest := ElementsText(o, elems, i + 1) + "]";
            && rest != "" && rest[0] == (if i + 1 == |elems| then ']' else ',')
            && rest[1..] == (if i + 1 == |elems| then "" else ElementsTail(o, elems, i + 1))
  {
    if i + 1 < |elems| {
      ElementsSplit(o, elems, i + 1);
    }
  }

  lemma {:induction false} ArrayCut(f: Features, o: Style, doc: string, p: nat, depth: int, prior: Value, elems: seq<Value>)
    requires Printable(Array(elems)) && Cut(doc, p, ValueText(o, Array(elems)))
    ensures p <= |doc| && Refused(ReadValue(f, doc, p, depth, prior))
    decreases elems, |elems| + 1, 0
  {
    var next, d := p + 1, depth + 1;
    ArrayFacts(o, elems);
    Rejoin("[", ElementsText(o, elems, 0), "]");
    CutMark(doc, p, "[", ElementsText(o, elems, 0) + "]");
    if p == |doc| {
      EndRefused(f, doc, depth, prior);
    } else {
      ArrayOpens(f, doc, p, depth, prior, next, d);
      InnerElementsCut(f, o, doc, next, d, elems);
    }
  }

  lemma {:induction false} InnerElementsCut(f: Features, o: Style, doc: string, p: nat, depth: int, elems: seq<Value>)
    requires Printable(Array(elems)) && Cut(doc, p, ElementsText(o, elems, 0) + "]")
    ensures p <= |doc| && Refused(ReadArray(f, doc, p, depth))
    decreases elems, |elems|, 1
  {
    if p == |doc| {
      NoElement(f, doc, depth);
    } else if elems == [] || (o.dropNulls && elems == [Null]) {
      EmptyArrayFacts(o, elems);
    } else {
      FirstElementCut(o, doc, p, elems);
      ArrayBegins(f, doc, p, depth);
      ElementsCut(f, o, doc, p, depth, elems, 0, []);
    }
  }

  lemma NoElement(f: Features, doc: string, depth: int)
    ensures Refused(ReadArray(f, doc, |doc|, depth))
  {
    var p, r := |doc|, ReadValue(f, doc, |doc|, depth, Null);
    EndRefused(f, doc, depth, Null);
    SeparatorCut(f, doc, [], r);
    ElementRefused(f, doc, p, depth, [], r);
  }

  lemma FirstElementCut(o: Style, doc: string, p: nat, elems: seq<Value>)
    requires elems != [] && RealFree(elems[0]) && !(o.dropNulls && elems == [Null])
    requires p < |doc| && Cut(doc, p, ElementsText(o, elems, 0) + "]")
    ensures Cut(doc, p, ElementsTail(o, elems, 0)) && !IsSpace(doc[p]) && doc[p] != ']'
  {
    ElementsSplit(o, elems, 0);
    assert ElementsText(o, elems, 0) + "]" == ElementsTail(o, elems, 0);
    FirstElement(o, elems);
    CutAt(doc, p, ElementsTail(o, elems, 0));
  }

  /** Reading a printed value that breaks off anywhere fails, through every level of
      recovery; only a number may have been read to the end of the document. */
  lemma {:induction false} ValueCut(f: Features, o: Style, doc: string, p: nat, depth: int, prior: Value, v: Value)
    requires Printable(v) && Cut(doc, p, ValueText(o, v))
    ensures p <= |doc| && Fails(doc, ReadValue(f, doc, p, depth, prior), v)
    decreases v, 1
  {
    match v
    case Array(elems) => ArrayCut(f, o, doc, p, depth, prior, elems);
    case Object(members) => ObjectCut(f, o, doc, p, depth, prior, members);
    case _ => ScalarCut(f, o, doc, p, depth, prior, v);
  }

  // ---- objects that break off ----

  lemma {:induction false} ObjectCut(f: Features, o: Style, doc: string, p: nat, depth: int, prior: Value, members: seq<Member>)
    requires Printable(Object(members)) && Cut(doc, p, ValueText(o, Object(members)))
    ensures p <= |doc| && Refused(ReadValue(f, doc, p, depth, prior))
    decreases members, |members| + 1, 0
  {
    var next, d := p + 1, depth + 1;
    ObjectFacts(o, members);
    Rejoin("{", MembersText(o, members, 0), "}");
    CutMark(doc, p, "{", MembersText(o, members, 0) + "}");
    if p == |doc| {
      EndRefused(f, doc, depth, prior);
    } else {
      InnerMembersCut(f, o, doc, next, d, members);
      ObjectRefused(f, doc, p, depth, prior, next, d);
    }
  }

  lemma {:induction false} InnerMembersCut(f: Features, o: Style, doc: string, p: nat, depth: int, members: seq<Member>)
    requires Printable(Object(members)) && Cut(doc, p, MembersText(o, members, 0) + "}")
    ensures p <= |doc| && MembersFail(f, doc, p, depth, [], "")
    decreases members, |members|, 4
  {
    if members == [] {
      EndToken(f, doc);
      KeyMissing(f, doc, p, depth, [], "");
    } else {
      FirstMemberHere(o, members);
      MembersCut(f, o, doc, p, depth, members, 0, [], "");
    }
  }

  lemma {:induction false} MembersCut(f: Features, o: Style, doc: string, p: nat, depth: int, members: seq<Member>, i: nat,
                                      so: seq<Member>, last: string)
    requires Printable(Object(members)) && i < |members| && Cut(doc, p, MembersTail(o, members, i))
    ensures p <= |doc| && MembersFail(f, doc, p, depth, so, last)
    decreases members, |members| - i, 3
  {
    var key, q := members[i].key, p + |Quoted(members[i].key)|;
    var k := q + 1;
    KeyCut(o, doc, p, members, i, q, k);
    if k <= |doc| {
      MemberPrintable(members, i);
      NamedCut(f, o, doc, k, depth, members, i, so, key);
      KeyRead(f, doc, p, key, last, q, k);
      NamedRefused(f, doc, p, depth, so, last, key, k);
    } else if q == |doc| && Follows(doc, p, Quoted(key)) {
      ColonMissing(f, doc, p, depth, so, last, key);
    } else {
      QuotedCut(f, doc, p, key);
      KeyMissing(f, doc, p, depth, so, last);
    }
  }

  /** Where the text of a member is cut: in its key, in front of its colon, or behind it. */
  lemma KeyCut(o: Style, doc: string, p: nat, members: seq<Member>, i: nat, q: nat, k: nat)
    requires i < |members| && Cut(doc, p, MembersTail(o, members, i)) && q == p + |Quoted(members[i].key)| && k == q + 1
    ensures k > |doc| ==> Cut(doc, p, Quoted(members[i].key)) || (q == |doc| && Follows(doc, p, Quoted(members[i].key)))
    ensures k <= |doc| ==>
              && Follows(doc, p, Quoted(members[i].key)) && At(doc, q) == ':'
              && Cut(doc, k, SpaceText(o) + ValueTail(o, members, i))
  {
    var rest := ":" + (SpaceText(o) + ValueTail(o, members, i));
    TailOfKey(o, members, i);
    WhereCut(doc, p, Quoted(members[i].key), rest, q, k);
    assert rest[1..] == SpaceText(o) + ValueTail(o, members, i);
  }

  function ColonText(o: Style): string {
    if o.yaml then ": " else ":"
  }

  function SpaceText(o: Style): string {
    if o.yaml then " " else ""
  }

  /** The text of a value and all that follows it. */
  function ValueTail(o: Style, members: seq<Member>, i: nat): string
    requires i < |members|
  {
    ValueText(o, members[i].value) + (MembersText(o, members, i + 1) + "}")
  }

  lemma TailOfKey(o: Style, members: seq<Member>, i: nat)
    requires i < |members|
    ensures MembersTail(o, members, i) == Quoted(members[i].key) + (ColonText(o) + ValueTail(o, members, i))
    ensures ColonText(o) + ValueTail(o, members, i) == ":" + (SpaceText(o) + ValueTail(o, members, i))
  {
    Rejoin(Quoted(members[i].key), ColonText(o), ValueTail(o, members, i));
    Rejoin(":", SpaceText(o), ValueTail(o, members, i));
  }

  lemma ColonMissing(f: Features, doc: string, p: nat, depth: int, so: seq<Member>, last: string, key: string)
    requires Follows(doc, p, Quoted(key)) && p + |Quoted(key)| == |doc|
    ensures MembersFail(f, doc, p, depth, so, last)
  {
    var t := Token(StringToken, p, |doc|);
    QuotedToken(f, doc, p, key, |doc|);
    QuoteToken(f, doc, p, t);
    EndToken(f, doc);
    assert Inside(doc, t) == doc[p + 1..|doc| - 1];
    assert KeyAt(f, doc, p, last).KeyBad?;
    assert ReadMember(f, doc, p, depth, so, last).MembersDone?;
  }

  /** Behind a colon the document breaks off, now or later. */
  lemma {:induction false} NamedCut(f: Features, o: Style, doc: string, k: nat, depth: int, members: seq<Member>, i: nat,
                                    so: seq<Member>, key: string)
    requires Printable(Object(members)) && i < |members| && key == members[i].key
    requires Cut(doc, k, SpaceText(o) + ValueTail(o, members, i))
    ensures k <= |doc| && TurnFails(f, doc, ReadNamed(f, doc, k, depth, so, key))
    decreases members, |members| - i, 2
  {
    var prior, tail := Lookup(so, key).GetOr(Null), ValueTail(o, members, i);
    if !o.yaml {
      assert SpaceText(o) + tail == tail;
      ValueCutTurn(f, o, doc, k, depth, members, i, so, key, prior);
    } else if k == |doc| {
      EndRefused(f, doc, depth, prior);
      AfterCut(f, doc, so, key, ReadValue(f, doc, k, depth, prior));
    } else {
      var start := k + 1;
      CutMark(doc, k, " ", tail);
      SpaceSkipped(f, doc, k, depth, prior, start);
      ValueCutTurn(f, o, doc, start, depth, members, i, so, key, prior);
    }
    NamedFails(f, doc, k, depth, so, key, prior);
  }

  lemma {:induction false} ValueCutTurn(f: Features, o: Style, doc: string, p: nat, depth: int, members: seq<Member>, i: nat,
                                        so: seq<Member>, key: string, prior: Value)
    requires Printable(Object(members)) && i < |members| && key == members[i].key
    requires Cut(doc, p, ValueTail(o, members, i))
    ensures p <= |doc|
    ensures TurnFails(f, doc, AfterMember(f, doc, so, key, ReadValue(f, doc, p, depth, prior)))
    decreases members, |members| - i, 1
  {
    var v, r, e := members[i].value, ReadValue(f, doc, p, depth, prior), p + |ValueText(o, members[i].value)|;
    var needed, back, next := Depth(o, v), ReadBack(o, v), e + 1;
    MemberPrintable(members, i);
    MemberWhereCut(o, doc, p, members, i, e, next);
    ValueThenCut(f, o, doc, p, depth, prior, v, needed, back, e);
    if e >= |doc| || !Readable(f, o, v) {
      AfterCut(f, doc, so, key, r);
    } else {
      LaterMembersCut(f, o, doc, e, depth, members, i, so, key, r, needed, back, next);
    }
  }

  /** Member i was read, and the document breaks off later. */
  lemma {:induction false} LaterMembersCut(f: Features, o: Style, doc: string, e: nat, depth: int, members: seq<Member>, i: nat,
                                           so: seq<Member>, key: string, r: ReadResult, needed: nat, back: Value, next: nat)
    requires Printable(Object(members)) && i + 1 < |members| && next == e + 1
    requires e < |doc| && doc[e] == ',' && Cut(doc, next, MembersTail(o, members, i + 1)) && r == Outcome(f, needed, back, e, depth)
    ensures TurnFails(f, doc, AfterMember(f, doc, so, key, r))
    decreases members, |members| - i - 1, 4
  {
    var more, j := Put(so, key, back), i + 1;
    MembersCut(f, o, doc, next, depth, members, j, more, key);
    GoesOn(f, doc, so, key, r, needed, back, e, depth, next);
  }

  lemma MemberWhereCut(o: Style, doc: string, p: nat, members: seq<Member>, i: nat, e: nat, next: nat)
    requires i < |members| && Cut(doc, p, ValueTail(o, members, i)) && e == p + |ValueText(o, members[i].value)| && next == e + 1
    ensures e > |doc| ==> Cut(doc, p, ValueText(o, members[i].value))
    ensures e <= |doc| ==> Follows(doc, p, ValueText(o, members[i].value))
    ensures e < |doc| ==> i + 1 < |members| && doc[e] == ',' && Cut(doc, next, MembersTail(o, members, i + 1))
  {
    MembersRest(o, members, i);
    WhereCut(doc, p, ValueText(o, members[i].value), MembersText(o, members, i + 1) + "}", e, next);
  }

  // ---- documents that break off ----

  /** A printed array, object, string, boolean or null that breaks off anywhere is never
      accepted, in every style and whatever the reader's features; only a number may read
      as a shorter one. */
  lemma CutTextRefused(f: Features, o: Style, v: Value, k: nat, root: Value)
    requires Printable(v) && !IsNumber(v) && k < |ValueText(o, v)|
    ensures var p := Parse(f, Text(o, v)[..k], root); p.Parsed? ==> !p.ok
  {
    var doc := Text(o, v)[..k];
    assert doc[0..] == ValueText(o, v)[..k];
    ValueCut(f, o, doc, 0, 0, root, v);
  }
}
