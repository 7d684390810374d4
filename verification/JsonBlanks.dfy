/** Blanks between the tokens of a printed document (OurReader::skipSpaces of
    server/utils/jsoncpp.cpp): any number of spaces, tabs, returns and line feeds. */
module JsonBlanks {
  import opened Texts
  import opened JsonValues
  import opened JsonNumbers
  import opened JsonStrings
  import opened JsonLexer
  import opened JsonReading
  import opened JsonWriter
  import opened JsonRoundTrip
  import opened JsonStreams

  /** Nothing but the four blanks. */
  predicate Blank(b: string) {
    forall i :: 0 <= i < |b| ==> b[i] == ' ' || b[i] == '\t' || b[i] == '\r' || b[i] == '\n'
  }

  /** Blanks in front of a token are skipped: it is the same token as without them. */
  lemma {:induction false} BlanksSkipped(f: Features, doc: string, p: nat, b: string, q: nat)
    requires Blank(b) && Follows(doc, p, b) && q == p + |b|
    ensures ReadToken(f, doc, p) == ReadToken(f, doc, q)
    decreases |b|
  {
    if b != "" {
      var next, rest := p + 1, b[1..];
      FollowsAt(doc, p, b, 0);
      assert b == b[..1] + rest;
      FollowsSplit(doc, p, b[..1], rest);
      BlanksSkipped(f, doc, next, rest, q);
    }
  }

  /** And nothing else is: any other char is the first of the token. */
  lemma OnlyBlanksSkipped(f: Features, doc: string, p: nat)
    requires p < |doc| && doc[p] != ' ' && doc[p] != '\t' && doc[p] != '\r' && doc[p] != '\n'
    ensures ReadToken(f, doc, p).start == p
  {
  }

  // ---- the tokens of a printed value ----

  datatype Lexeme = Mark(c: char) | Word(word: string) | Quote(x: string) | Whole(n: int)

  predicate LexemeOk(lexeme: Lexeme) {
    match lexeme
    case Mark(c) => c in "[]{},:"
    case Word(word) => word in ["null", "true", "false"]
    case _ => true
  }

  function Spelling(lexeme: Lexeme): string {
    match lexeme
    case Mark(c) => [c]
    case Word(word) => word
    case Quote(x) => Quoted(x)
    case Whole(n) => IntText(n)
  }

  function KindOf(lexeme: Lexeme): TokenKind {
    match lexeme
    case Mark(c) =>
      if c == '[' then ArrayBegin else if c == ']' then ArrayEnd else if c == '{' then ObjectBegin
      else if c == '}' then ObjectEnd else if c == ',' then ArraySeparator else MemberSeparator
    case Word(word) => if word == "null" then NullToken else if word == "true" then TrueToken else FalseToken
    case Quote(_) => StringToken
    case Whole(_) => NumberToken
  }

  /** A number is followed by something that ends it, or by nothing. */
  predicate Line(ps: seq<Lexeme>) {
    forall i :: 0 <= i < |ps| ==> LexemeOk(ps[i]) && (ps[i].Whole? && i + 1 < |ps| ==> ps[i + 1] in [Mark(','), Mark(']'), Mark('}')])
  }

  /** The lexemes with blanks in front of each, and behind the last. */
  function Assembled(bs: seq<string>, ps: seq<Lexeme>): string
    requires |bs| == |ps| + 1
  {
    if ps == [] then bs[0] else bs[0] + (Spelling(ps[0]) + Assembled(bs[1..], ps[1..]))
  }

  predicate AllBlank(bs: seq<string>) {
    forall i :: 0 <= i < |bs| ==> Blank(bs[i])
  }

  /** A lexeme is one token, whatever follows, except that something must end a number. */
  lemma LexemeRead(f: Features, doc: string, p: nat, lexeme: Lexeme, q: nat)
    requires LexemeOk(lexeme) && Follows(doc, p, Spelling(lexeme)) && q == p + |Spelling(lexeme)| && (lexeme.Whole? ==> Ends(doc, q))
    ensures p < q <= |doc| && ReadToken(f, doc, p) == Token(KindOf(lexeme), p, q)
  {
    match lexeme
    case Mark(c) => MarkRead(f, doc, p, c, q);
    case Word(word) => WordTokenRead(f, doc, p, word, q);
    case Quote(x) => QuotedToken(f, doc, p, x, q);
    case Whole(n) => WholeRead(f, doc, p, n, q);
  }

  lemma MarkRead(f: Features, doc: string, p: nat, c: char, q: nat)
    requires LexemeOk(Mark(c)) && Follows(doc, p, [c]) && q == p + 1
    ensures q <= |doc| && ReadToken(f, doc, p) == Token(KindOf(Mark(c)), p, q)
  {
    FollowsAt(doc, p, [c], 0);
    TokenHere(f, doc, p);
  }

  lemma WordTokenRead(f: Features, doc: string, p: nat, word: string, q: nat)
    requires LexemeOk(Word(word)) && Follows(doc, p, word) && q == p + |word|
    ensures p < q <= |doc| && ReadToken(f, doc, p) == Token(KindOf(Word(word)), p, q)
  {
    assert word == word[..1] + word[1..];
    FollowsSplit(doc, p, word[..1], word[1..]);
    FollowsAt(doc, p, word, 0);
    TokenHere(f, doc, p);
  }

  lemma WholeRead(f: Features, doc: string, p: nat, n: int, q: nat)
    requires Follows(doc, p, IntText(n)) && q == p + |IntText(n)| && Ends(doc, q)
    ensures p < q <= |doc| && ReadToken(f, doc, p) == Token(NumberToken, p, q)
  {
    DecimalRoundTrip(if n < 0 then -n else n);
    FollowsAt(doc, p, IntText(n), 0);
    IntegerToken(f, doc, p, n, q);
    TokenHere(f, doc, p);
  }

  // ---- two ways to put blanks between the same tokens ----

  lemma AgreeBehindBlanks(f: Features, doc: string, p: nat, b: string, q: nat, doc': string, p': nat, b': string, q': nat)
    requires Blank(b) && Follows(doc, p, b) && q == p + |b| && Blank(b') && Follows(doc', p', b') && q' == p' + |b'|
    requires Agree(f, doc, q, doc', q')
    ensures Agree(f, doc, p, doc', p')
  {
    BlanksSkipped(f, doc, p, b, q);
    BlanksSkipped(f, doc', p', b', q');
  }

  /** Something ends a number that comes last. */
  predicate TailOk(doc: string, e: nat, last: string) {
    last != "" || Ends(doc, e)
  }

  lemma AssembledSplit(doc: string, p: nat, bs: seq<string>, ps: seq<Lexeme>, start: nat, q: nat)
    requires |bs| == |ps| + 1 && ps != [] && Follows(doc, p, Assembled(bs, ps))
    requires start == p + |bs[0]| && q == start + |Spelling(ps[0])|
    ensures Follows(doc, p, bs[0]) && Follows(doc, start, Spelling(ps[0])) && Follows(doc, q, Assembled(bs[1..], ps[1..]))
    ensures p + |Assembled(bs, ps)| == q + |Assembled(bs[1..], ps[1..])|
  {
    FollowsSplit(doc, p, bs[0], Spelling(ps[0]) + Assembled(bs[1..], ps[1..]));
    FollowsSplit(doc, start, Spelling(ps[0]), Assembled(bs[1..], ps[1..]));
  }

  /** What stands behind a number ends it. */
  lemma NumberEnds(doc: string, q: nat, bs: seq<string>, ps: seq<Lexeme>, e: nat)
    requires |bs| == |ps| + 1 && AllBlank(bs) && Follows(doc, q, Assembled(bs, ps)) && e == q + |Assembled(bs, ps)|
    requires ps != [] ==> ps[0] in [Mark(','), Mark(']'), Mark('}')]
    requires ps == [] ==> TailOk(doc, e, bs[0])
    ensures Ends(doc, q)
  {
    var rest := Assembled(bs, ps);
    if bs[0] != "" {
      assert rest[0] == bs[0][0];
      FollowsAt(doc, q, rest, 0);
    } else if ps != [] {
      assert rest[0] == Spelling(ps[0])[0];
      FollowsAt(doc, q, rest, 0);
    }
  }

  lemma {:induction false} AssembledAgree(f: Features, doc: string, p: nat, bs: seq<string>, e: nat, doc': string, p': nat, bs': seq<string>,
                                          e': nat, ps: seq<Lexeme>)
    requires |bs| == |bs'| == |ps| + 1 && AllBlank(bs) && AllBlank(bs') && Line(ps)
    requires Follows(doc, p, Assembled(bs, ps)) && e == p + |Assembled(bs, ps)| && TailOk(doc, e, bs[|ps|])
    requires Follows(doc', p', Assembled(bs', ps)) && e' == p' + |Assembled(bs', ps)| && TailOk(doc', e', bs'[|ps|])
    requires Agree(f, doc, e, doc', e')
    ensures Agree(f, doc, p, doc', p')
    decreases |ps|
  {
    if ps == [] {
      AgreeBehindBlanks(f, doc, p, bs[0], e, doc', p', bs'[0], e');
    } else {
      var start, start' := p + |bs[0]|, p' + |bs'[0]|;
      var more, more', rest := bs[1..], bs'[1..], ps[1..];
      var q, q' := start + |Spelling(ps[0])|, start' + |Spelling(ps[0])|;
      FirstLexeme(f, doc, p, bs, ps, start, q, e, more, rest);
      FirstLexeme(f, doc', p', bs', ps, start', q', e', more', rest);
      AssembledAgree(f, doc, q, more, e, doc', q', more', e', rest);
      OneTokenMore(f, doc, start, q, doc', start', q', ps[0]);
      AgreeBehindBlanks(f, doc, p, bs[0], start, doc', p', bs'[0], start');
    }
  }

  lemma FirstLexeme(f: Features, doc: string, p: nat, bs: seq<string>, ps: seq<Lexeme>, start: nat, q: nat, e: nat, more: seq<string>,
                    rest: seq<Lexeme>)
    requires |bs| == |ps| + 1 && AllBlank(bs) && Line(ps) && ps != [] && more == bs[1..] && rest == ps[1..]
    requires Follows(doc, p, Assembled(bs, ps)) && e == p + |Assembled(bs, ps)| && TailOk(doc, e, bs[|ps|])
    requires start == p + |bs[0]| && q == start + |Spelling(ps[0])|
    ensures Follows(doc, p, bs[0]) && Follows(doc, q, Assembled(more, rest)) && e == q + |Assembled(more, rest)|
    ensures start < q <= |doc| && ReadToken(f, doc, start) == Token(KindOf(ps[0]), start, q) && doc[start..q] == Spelling(ps[0])
    ensures AllBlank(more) && Line(rest)
  {
    AssembledSplit(doc, p, bs, ps, start, q);
    EndsAhead(doc, q, bs, ps, e, more, rest);
    LexemeRead(f, doc, start, ps[0], q);
  }

  lemma EndsAhead(doc: string, q: nat, bs: seq<string>, ps: seq<Lexeme>, e: nat, more: seq<string>, rest: seq<Lexeme>)
    requires |bs| == |ps| + 1 && AllBlank(bs) && Line(ps) && ps != [] && more == bs[1..] && rest == ps[1..]
    requires Follows(doc, q, Assembled(more, rest)) && e == q + |Assembled(more, rest)| && TailOk(doc, e, bs[|ps|])
    ensures AllBlank(more) && Line(rest) && (ps[0].Whole? ==> Ends(doc, q))
  {
    if ps[0].Whole? {
      NumberEnds(doc, q, more, rest, e);
    }
  }

  lemma OneTokenMore(f: Features, doc: string, p: nat, q: nat, doc': string, p': nat, q': nat, lexeme: Lexeme)
    requires p < q <= |doc| && p' < q' <= |doc'| && doc[p..q] == doc'[p'..q']
    requires ReadToken(f, doc, p) == Token(KindOf(lexeme), p, q) && ReadToken(f, doc', p') == Token(KindOf(lexeme), p', q')
    requires Agree(f, doc, q, doc', q')
    ensures Agree(f, doc, p, doc', p')
  {
  }

  // ---- printed values ----

  function LexemesOf(o: Style, v: Value): seq<Lexeme>
    decreases v, 1
  {
    match v
    case Null => if o.dropNulls then [] else [Word("null")]
    case Bool(b) => [Word(if b then "true" else "false")]
    case Int(i) => [Whole(i)]
    case UInt(u) => [Whole(u)]
    case Real(_) => []
    case Str(s) => [Quote(s)]
    case Array(elems) => [Mark('[')] + ElementLexemes(o, elems, 0) + [Mark(']')]
    case Object(members) => [Mark('{')] + MemberLexemes(o, members, 0) + [Mark('}')]
  }

  function ElementLexemes(o: Style, elems: seq<Value>, i: nat): seq<Lexeme>
    requires i <= |elems|
    decreases elems, |elems| - i
  {
    if i == |elems| then []
    else (if i > 0 then [Mark(',')] else []) + (LexemesOf(o, elems[i]) + ElementLexemes(o, elems, i + 1))
  }

  function MemberLexemes(o: Style, members: seq<Member>, i: nat): seq<Lexeme>
    requires i <= |members|
    decreases members, |members| - i
  {
    if i == |members| then []
    else
      (if i > 0 then [Mark(',')] else []) +
      ([Quote(members[i].key), Mark(':')] + (LexemesOf(o, members[i].value) + MemberLexemes(o, members, i + 1)))
  }

  /** The YAML form has a space behind a colon. */
  function Gap(o: Style, lexeme: Lexeme): string {
    if o.yaml && lexeme == Mark(':') then " " else ""
  }

  function Printed(o: Style, ps: seq<Lexeme>): string {
    if ps == [] then "" else Spelling(ps[0]) + Gap(o, ps[0]) + Printed(o, ps[1..])
  }

  lemma {:induction false} PrintedBoth(o: Style, a: seq<Lexeme>, b: seq<Lexeme>)
    ensures Printed(o, a + b) == Printed(o, a) + Printed(o, b)
    decreases |a|
  {
    if a == [] {
      assert [] + b == b;
    } else {
      var first, more := a[0], a[1..];
      PrintedBoth(o, more, b);
      assert (a + b)[1..] == more + b;
      JoinedThree(Spelling(first) + Gap(o, first), Printed(o, more), Printed(o, b));
    }
  }

  lemma JoinedThree(a: string, b: string, c: string)
    ensures a + (b + c) == a + b + c
  {
  }

  lemma PrintedOne(o: Style, lexeme: Lexeme)
    ensures Printed(o, [lexeme]) == Spelling(lexeme) + Gap(o, lexeme)
  {
    assert [lexeme][1..] == [];
  }

  lemma PrintedThree(o: Style, a: seq<Lexeme>, b: seq<Lexeme>, c: seq<Lexeme>)
    ensures Printed(o, a + b + c) == Printed(o, a) + Printed(o, b) + Printed(o, c)
  {
    PrintedBoth(o, a + b, c);
    PrintedBoth(o, a, b);
  }

  lemma CommaPrinted(o: Style, i: nat)
    ensures Printed(o, if i > 0 then [Mark(',')] else []) == Comma(i)
  {
    PrintedOne(o, Mark(','));
  }

  lemma KeyPrinted(o: Style, key: string)
    ensures Printed(o, [Quote(key), Mark(':')]) == KeyAndColon(o, key)
  {
    PrintedOne(o, Quote(key));
    PrintedOne(o, Mark(':'));
    PrintedBoth(o, [Quote(key)], [Mark(':')]);
    assert [Quote(key)] + [Mark(':')] == [Quote(key), Mark(':')];
  }

  /** The writer prints these lexemes and nothing else. */
  lemma {:induction false} ValuePrinted(o: Style, v: Value)
    requires RealFree(v)
    ensures Printed(o, LexemesOf(o, v)) == ValueText(o, v)
    decreases v, 1
  {
    match v
    case Null => PrintedOne(o, Word("null"));
    case Bool(b) => PrintedOne(o, Word(if b then "true" else "false"));
    case Int(i) => PrintedOne(o, Whole(i));
    case UInt(u) => PrintedOne(o, Whole(u));
    case Str(s) => PrintedOne(o, Quote(s));
    case Array(elems) =>
      ElementsPrinted(o, elems, 0);
      Bracketed(o, '[', ElementLexemes(o, elems, 0), ']');
    case Object(members) =>
      MembersPrinted(o, members, 0);
      Bracketed(o, '{', MemberLexemes(o, members, 0), '}');
    case Real(_) =>
  }

  lemma Bracketed(o: Style, open: char, inner: seq<Lexeme>, close: char)
    requires open != ':' && close != ':'
    ensures Printed(o, [Mark(open)] + inner + [Mark(close)]) == [open] + Printed(o, inner) + [close]
  {
    PrintedThree(o, [Mark(open)], inner, [Mark(close)]);
    MarkPrinted(o, open);
    MarkPrinted(o, close);
  }

  lemma MarkPrinted(o: Style, c: char)
    requires c != ':'
    ensures Printed(o, [Mark(c)]) == [c]
  {
    PrintedOne(o, Mark(c));
  }

  lemma {:induction false} ElementsPrinted(o: Style, elems: seq<Value>, i: nat)
    requires RealFree(Array(elems)) && i <= |elems|
    ensures Printed(o, ElementLexemes(o, elems, i)) == ElementsText(o, elems, i)
    decreases elems, |elems| - i
  {
    if i < |elems| {
      ValuePrinted(o, elems[i]);
      ElementsPrinted(o, elems, i + 1);
      CommaPrinted(o, i);
      PrintedBoth(o, LexemesOf(o, elems[i]), ElementLexemes(o, elems, i + 1));
      PrintedBoth(o, if i > 0 then [Mark(',')] else [], LexemesOf(o, elems[i]) + ElementLexemes(o, elems, i + 1));
    }
  }

  lemma {:induction false} MembersPrinted(o: Style, members: seq<Member>, i: nat)
    requires RealFree(Object(members)) && i <= |members|
    ensures Printed(o, MemberLexemes(o, members, i)) == MembersText(o, members, i)
    decreases members, |members| - i
  {
    if i < |members| {
      var key, value := [Quote(members[i].key), Mark(':')], LexemesOf(o, members[i].value);
      var rest := MemberLexemes(o, members, i + 1);
      ValuePrinted(o, members[i].value);
      MembersPrinted(o, members, i + 1);
      CommaPrinted(o, i);
      KeyPrinted(o, members[i].key);
      PrintedBoth(o, value, rest);
      PrintedBoth(o, key, value + rest);
      PrintedBoth(o, if i > 0 then [Mark(',')] else [], key + (value + rest));
    }
  }

  // numbers are followed by what ends them

  lemma LineBoth(a: seq<Lexeme>, b: seq<Lexeme>)
    requires Line(a) && Line(b) && (a != [] && b != [] ==> a[|a| - 1].Whole? ==> b[0] in [Mark(','), Mark(']'), Mark('}')])
    ensures Line(a + b)
  {
    forall i | 0 <= i < |a + b|
      ensures LexemeOk((a + b)[i])
      ensures (a + b)[i].Whole? && i + 1 < |a + b| ==> (a + b)[i + 1] in [Mark(','), Mark(']'), Mark('}')]
    {
      if i >= |a| {
        assert (a + b)[i] == b[i - |a|];
      }
    }
  }

  /** What may stand behind a value: nothing, or something that ends a number. */
  predicate Continues(b: seq<Lexeme>) {
    Line(b) && (b == [] || b[0] in [Mark(','), Mark(']'), Mark('}')])
  }

  lemma {:induction false} ValueLine(o: Style, v: Value, b: seq<Lexeme>)
    requires RealFree(v) && Continues(b)
    ensures Line(LexemesOf(o, v) + b)
    decreases v, 1
  {
    match v
    case Array(elems) =>
      var inner := ElementLexemes(o, elems, 0);
      LineBoth([Mark(']')], b);
      ElementsLine(o, elems, 0, [Mark(']')] + b);
      LineBoth([Mark('[')], inner + ([Mark(']')] + b));
      assert [Mark('[')] + inner + [Mark(']')] + b == [Mark('[')] + (inner + ([Mark(']')] + b));
    case Object(members) =>
      var inner := MemberLexemes(o, members, 0);
      LineBoth([Mark('}')], b);
      MembersLine(o, members, 0, [Mark('}')] + b);
      LineBoth([Mark('{')], inner + ([Mark('}')] + b));
      assert [Mark('{')] + inner + [Mark('}')] + b == [Mark('{')] + (inner + ([Mark('}')] + b));
    case _ => LineBoth(LexemesOf(o, v), b);
  }

  lemma {:induction false} ElementsLine(o: Style, elems: seq<Value>, i: nat, b: seq<Lexeme>)
    requires RealFree(Array(elems)) && i <= |elems| && Continues(b)
    ensures Line(ElementLexemes(o, elems, i) + b) && (i > 0 ==> Continues(ElementLexemes(o, elems, i) + b))
    decreases elems, |elems| - i
  {
    if i == |elems| {
      assert [] + b == b;
    } else {
      var value, rest := LexemesOf(o, elems[i]), ElementLexemes(o, elems, i + 1) + b;
      ElementsLine(o, elems, i + 1, b);
      ValueLine(o, elems[i], rest);
      CommaLine(i, value + rest);
      assert ElementLexemes(o, elems, i) + b == (if i > 0 then [Mark(',')] else []) + (value + rest);
    }
  }

  lemma CommaLine(i: nat, b: seq<Lexeme>)
    requires Line(b)
    ensures Line((if i > 0 then [Mark(',')] else []) + b)
  {
    LineBoth(if i > 0 then [Mark(',')] else [], b);
  }

  lemma {:induction false} MembersLine(o: Style, members: seq<Member>, i: nat, b: seq<Lexeme>)
    requires RealFree(Object(members)) && i <= |members| && Continues(b)
    ensures Line(MemberLexemes(o, members, i) + b) && (i > 0 ==> Continues(MemberLexemes(o, members, i) + b))
    decreases members, |members| - i
  {
    if i == |members| {
      assert [] + b == b;
    } else {
      var key, value := [Quote(members[i].key), Mark(':')], LexemesOf(o, members[i].value);
      var rest := MemberLexemes(o, members, i + 1) + b;
      MembersLine(o, members, i + 1, b);
      ValueLine(o, members[i].value, rest);
      LineBoth(key, value + rest);
      CommaLine(i, key + (value + rest));
      assert MemberLexemes(o, members, i) + b == (if i > 0 then [Mark(',')] else []) + (key + (value + rest));
    }
  }

  // ---- the theorem ----

  /** The blanks of a printed document; `first` is what the lexeme before leaves. */
  function Gaps(o: Style, ps: seq<Lexeme>, first: string, end: string): (bs: seq<string>)
    ensures |bs| == |ps| + 1 && bs[|ps|] == (if ps == [] then first else Gap(o, ps[|ps| - 1])) + end
    ensures Blank(first) && Blank(end) ==> AllBlank(bs)
  {
    if ps == [] then [first + end] else [first] + Gaps(o, ps[1..], Gap(o, ps[0]), end)
  }

  lemma {:induction false} PrintedAssembled(o: Style, ps: seq<Lexeme>, first: string, end: string)
    ensures Assembled(Gaps(o, ps, first, end), ps) == first + Printed(o, ps) + end
    decreases |ps|
  {
    if ps == [] {
      assert first + "" + end == first + end;
    } else {
      var gap, more := Gap(o, ps[0]), ps[1..];
      PrintedAssembled(o, more, gap, end);
      GapsFront(o, ps, first, end, gap, more);
      JoinedFive(first, Spelling(ps[0]), gap, Printed(o, more), end);
    }
  }

  lemma GapsFront(o: Style, ps: seq<Lexeme>, first: string, end: string, gap: string, more: seq<Lexeme>)
    requires ps != [] && gap == Gap(o, ps[0]) && more == ps[1..]
    ensures Assembled(Gaps(o, ps, first, end), ps) == first + (Spelling(ps[0]) + Assembled(Gaps(o, more, gap, end), more))
  {
    var bs := Gaps(o, ps, first, end);
    assert bs[0] == first && bs[1..] == Gaps(o, more, gap, end);
  }

  lemma JoinedFive(a: string, b: string, c: string, d: string, e: string)
    ensures a + (b + (c + d + e)) == a + (b + c + d) + e
  {
  }

  /** The printed document is its lexemes with the blanks of its style. */
  lemma TextAssembled(o: Style, v: Value, ps: seq<Lexeme>, end: string)
    requires RealFree(v) && ps == LexemesOf(o, v) && end == (if o.omitLineFeed then "" else "\n")
    ensures Assembled(Gaps(o, ps, "", end), ps) == JsonWriter.Text(o, v)
  {
    ValuePrinted(o, v);
    PrintedAssembled(o, ps, "", end);
    assert "" + Printed(o, ps) == ValueText(o, v);
  }

  /** Two ways to put blanks between the same lexemes. */
  lemma SameLexemes(f: Features, ps: seq<Lexeme>, bs: seq<string>, bs': seq<string>, root: Value)
    requires |bs| == |bs'| == |ps| + 1 && AllBlank(bs) && AllBlank(bs') && Line(ps)
    ensures Parse(f, Assembled(bs, ps), root) == Parse(f, Assembled(bs', ps), root)
  {
    var doc, doc' := Assembled(bs, ps), Assembled(bs', ps);
    var e, e' := |doc|, |doc'|;
    assert doc[0..e] == doc && doc'[0..e'] == doc';
    AssembledAgree(f, doc, 0, bs, e, doc', 0, bs', e', ps);
    ParseSeesTokens(f, doc, doc', root);
  }

  /** A printed document with any blanks between its tokens parses as it does without them,
      for every style and feature set. */
  lemma BlanksIgnored(f: Features, o: Style, v: Value, bs: seq<string>, root: Value)
    requires RealFree(v) && |bs| == |LexemesOf(o, v)| + 1
    requires forall i, k :: 0 <= i < |bs| && 0 <= k < |bs[i]| ==> bs[i][k] == ' ' || bs[i][k] == '\t' || bs[i][k] == '\r' || bs[i][k] == '\n'
    ensures Parse(f, Assembled(bs, LexemesOf(o, v)), root) == Parse(f, JsonWriter.Text(o, v), root)
  {
    var ps, end := LexemesOf(o, v), if o.omitLineFeed then "" else "\n";
    TextAssembled(o, v, ps, end);
    ValueLine(o, v, []);
    assert ps + [] == ps;
    SameLexemes(f, ps, bs, Gaps(o, ps, "", end), root);
  }
}
