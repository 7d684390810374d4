/** What FastWriter prints, OurReader reads back (server/utils/jsoncpp.cpp). */
module JsonRoundTrip {
  import opened Util
  import opened Texts
  import opened Digits
  import opened JsonValues
  import opened JsonNumbers
  import opened JsonStrings
  import opened JsonLexer
  import opened JsonReading
  import opened JsonWriter

  // ---- the statement ----

  /** What the classes of the library can hold: 64-bit numbers, strings and keys whose
      lengths fit, and one member a key, in the order of the keys. */
  predicate WellFormed(v: Value) {
    match v
    case Str(s) => |s| <= MAX_STRING
    case Array(elems) => forall i :: 0 <= i < |elems| ==> WellFormed(elems[i])
    case Object(members) =>
      KeysSorted(members) && forall i :: 0 <= i < |members| ==> |members[i].key| < MAX_KEY && WellFormed(members[i].value)
    case _ => InLargestRange(v)
  }

  /** Every key is smaller than the next one. */
  predicate KeysSorted(members: seq<Member>) {
    var n := |members|;
    n <= 1 || (StringLess(members[n - 2].key, members[n - 1].key) && KeysSorted(members[..n - 1]))
  }

  lemma {:induction false} EarlierKeyIsLess(members: seq<Member>, i: nat, j: nat)
    requires KeysSorted(members) && i < j < |members|
    ensures StringLess(members[i].key, members[j].key)
  {
    var n := |members|;
    if j < n - 1 {
      EarlierKeyIsLess(members[..n - 1], i, j);
    } else if i < n - 2 {
      EarlierKeyIsLess(members[..n - 1], i, n - 2);
      StringTransitive(members[i].key, members[n - 2].key, members[n - 1].key);
    }
  }

  /** The value that comes back: integers are retagged, and where nulls are dropped an
      array of one null has become an empty one. */
  function ReadBack(o: Style, v: Value): Value {
    match v
    case Int(_) => Retagged(v)
    case UInt(_) => Retagged(v)
    case Array(elems) => if o.dropNulls && elems == [Null] then Array([]) else Array(ReadBackAll(o, elems))
    case Object(members) => Object(ReadBackMembers(o, members))
    case _ => v
  }

  function ReadBackAll(o: Style, elems: seq<Value>): (r: seq<Value>)
    ensures |r| == |elems| && forall i :: 0 <= i < |elems| ==> r[i] == ReadBack(o, elems[i])
  {
    seq(|elems|, i requires 0 <= i < |elems| => ReadBack(o, elems[i]))
  }

  function ReadBackMembers(o: Style, members: seq<Member>): (r: seq<Member>)
    ensures |r| == |members|
    ensures forall i :: 0 <= i < |members| ==> r[i] == Member(members[i].key, ReadBack(o, members[i].value))
  {
    seq(|members|, i requires 0 <= i < |members| => Member(members[i].key, ReadBack(o, members[i].value)))
  }

  function Larger(a: nat, b: nat): nat {
    if a < b then b else a
  }

  /** How many calls of readValue are nested while the printed value is read. */
  function Depth(o: Style, v: Value): (d: nat)
    ensures d >= 1
    decreases v, 0
  {
    match v
    case Array(elems) => if o.dropNulls && elems == [Null] then 1 else 1 + ElementsDepth(o, elems, 0)
    case Object(members) => 1 + MembersDepth(o, members, 0)
    case _ => 1
  }

  function ElementsDepth(o: Style, elems: seq<Value>, i: nat): nat
    requires i <= |elems|
    decreases elems, |elems| - i
  {
    if i == |elems| then 0 else Larger(Depth(o, elems[i]), ElementsDepth(o, elems, i + 1))
  }

  function MembersDepth(o: Style, members: seq<Member>, i: nat): nat
    requires i <= |members|
    decreases members, |members| - i
  {
    if i == |members| then 0 else Larger(Depth(o, members[i].value), MembersDepth(o, members, i + 1))
  }

  /** A null that leaves a gap where it is dropped: any but the only element of an array. */
  predicate HasGap(v: Value) {
    match v
    case Null => true
    case Array(elems) => elems != [Null] && exists i :: 0 <= i < |elems| && HasGap(elems[i])
    case Object(members) => exists i :: 0 <= i < |members| && HasGap(members[i].value)
    case _ => false
  }

  /** The gaps of dropped nulls are for a reader that allows for them. */
  predicate Readable(f: Features, o: Style, v: Value) {
    o.dropNulls ==> f.allowDroppedNullPlaceholders || !HasGap(v)
  }

  lemma ElementReadable(f: Features, o: Style, elems: seq<Value>, i: nat)
    requires Readable(f, o, Array(elems)) && i < |elems| && !(o.dropNulls && elems == [Null])
    ensures Readable(f, o, elems[i])
  {
  }

  lemma MemberReadable(f: Features, o: Style, members: seq<Member>, i: nat)
    requires Readable(f, o, Object(members)) && i < |members|
    ensures Readable(f, o, members[i].value)
  {
  }

  /** A value that was read, or the exception of the stack limit. */
  function Outcome(f: Features, needed: int, value: Value, end: nat, depth: int): ReadResult {
    if depth + needed > f.stackLimit then Throw else Read(true, value, end, depth)
  }

  // ---- tokens ----

  /** A token that starts right at the cursor and is no comment, by every way to read it. */
  lemma TokenHere(f: Features, doc: string, p: nat)
    requires p < |doc| && !IsSpace(doc[p])
    ensures ReadToken(f, doc, p) == TokenOf(f, doc, doc[p], p, p + 1)
    ensures ReadToken(f, doc, p).kind != CommentToken ==>
              NextToken(f, doc, p) == SkipCommentTokens(f, doc, p) == ReadToken(f, doc, p)
  {
  }

  /** Nothing that a number could go on with. */
  predicate Ends(doc: string, q: nat) {
    q <= |doc| && (q < |doc| ==> doc[q] in ",]}\n\r\t ")
  }

  predicate EndsInside(doc: string, q: nat) {
    q < |doc| && (doc[q] == ',' || doc[q] == ']' || doc[q] == '}')
  }

  lemma {:induction false} DigitsSkipped(doc: string, p: nat, digits: string, end: nat)
    requires AllDigits(digits) && Follows(doc, p, digits) && end == p + |digits| && Ends(doc, end)
    ensures SkipDigits(doc, p) == end
    decreases |digits|
  {
    if digits != "" {
      var next, rest := p + 1, digits[1..];
      FollowsAt(doc, p, digits, 0);
      assert digits == digits[..1] + rest;
      FollowsSplit(doc, p, digits[..1], rest);
      DigitsSkipped(doc, next, rest, end);
    }
  }

  lemma DigitsEnd(doc: string, p: nat, digits: string, end: nat)
    requires AllDigits(digits) && Follows(doc, p, digits) && end == p + |digits| && Ends(doc, end)
    ensures NumberEnd(doc, p) == end
  {
    DigitsSkipped(doc, p, digits, end);
  }

  /** The scanner passes one escaped char without stopping. */
  lemma EscapePassed(doc: string, p: nat, c: char, next: nat)
    requires Follows(doc, p, Escape(c)) && next == p + |Escape(c)|
    ensures next <= |doc| && ScanString(doc, p, '"') == ScanString(doc, next, '"')
  {
    FollowsAt(doc, p, Escape(c), 0);
    if |Escape(c)| > 1 {
      FollowsAt(doc, p, Escape(c), 1);
      assert ScanString(doc, p, '"') == ScanString(doc, p + 2, '"');
    }
    if |Escape(c)| == 6 {
      FollowsSplit(doc, p, "\\u", Hex4(c as nat, true));
      HexPassed(doc, p + 2, c as nat);
    }
  }

  lemma HexPassed(doc: string, p: nat, u: nat)
    requires u < 0x10000 && Follows(doc, p, Hex4(u, true))
    ensures ScanString(doc, p, '"') == ScanString(doc, p + 4, '"')
  {
    HexDigitPassed(doc, p, u, 0);
    HexDigitPassed(doc, p, u, 1);
    HexDigitPassed(doc, p, u, 2);
    HexDigitPassed(doc, p, u, 3);
  }

  lemma HexDigitPassed(doc: string, p: nat, u: nat, k: nat)
    requires u < 0x10000 && k < 4 && Follows(doc, p, Hex4(u, true))
    ensures p + 4 <= |doc| && ScanString(doc, p + k, '"') == ScanString(doc, p + k + 1, '"')
  {
    FollowsAt(doc, p, Hex4(u, true), k);
    HexDigitRoundTrip(u / 4096, true);
    HexDigitRoundTrip(u / 256 % 16, true);
    HexDigitRoundTrip(u / 16 % 16, true);
    HexDigitRoundTrip(u % 16, true);
  }

  /** The scanner stops exactly at the closing quote. */
  lemma {:induction false} QuotedEnd(doc: string, p: nat, x: string, end: nat)
    requires Follows(doc, p, EscapeAll(x)) && end == p + |EscapeAll(x)| && At(doc, end) == '"'
    ensures end < |doc| && ScanString(doc, p, '"') == (true, end + 1)
    decreases |x|
  {
    if x == "" {
      QuoteHere(doc, p);
    } else {
      var next := p + |Escape(x[0])|;
      EscapedFront(doc, p, x);
      EscapePassed(doc, p, x[0], next);
      QuotedEnd(doc, next, x[1..], end);
    }
  }

  lemma QuoteHere(doc: string, p: nat)
    requires At(doc, p) == '"'
    ensures p < |doc| && ScanString(doc, p, '"') == (true, p + 1)
  {
  }

  lemma QuotedStands(doc: string, p: nat, x: string, open: nat, close: nat)
    requires Follows(doc, p, Quoted(x)) && open == p + 1 && close == open + |EscapeAll(x)|
    ensures close < |doc| && doc[p] == '"' && At(doc, close) == '"'
    ensures Follows(doc, open, EscapeAll(x)) && doc[open..close] == EscapeAll(x)
  {
    FollowsSplit(doc, p, "\"" + EscapeAll(x), "\"");
    FollowsSplit(doc, p, "\"", EscapeAll(x));
    FollowsAt(doc, p, "\"", 0);
    FollowsAt(doc, close, "\"", 0);
  }

  /** A printed string is one string token, and decodes to the string. */
  lemma QuotedToken(f: Features, doc: string, p: nat, x: string, q: nat)
    requires Follows(doc, p, Quoted(x)) && q == p + |Quoted(x)|
    ensures p + 2 <= q <= |doc| && doc[p] == '"'
    ensures ReadToken(f, doc, p) == Token(StringToken, p, q)
    ensures DecodeFrom(doc[p + 1..q - 1], 0) == Some(x)
  {
    var open, close := p + 1, q - 1;
    QuotedStands(doc, p, x, open, close);
    QuotedEnd(doc, open, x, close);
    TokenHere(f, doc, p);
    DecodeEscaped(EscapeAll(x), 0, x);
  }

  // ---- scalars ----

  lemma WordToken(f: Features, doc: string, p: nat, word: string, kind: TokenKind)
    requires Follows(doc, p, word)
    requires (word, kind) in {("null", NullToken), ("true", TrueToken), ("false", FalseToken)}
    ensures SkipCommentTokens(f, doc, p) == Token(kind, p, p + |word|)
  {
    assert word == word[..1] + word[1..];
    FollowsSplit(doc, p, word[..1], word[1..]);
    FollowsAt(doc, p, word, 0);
    TokenHere(f, doc, p);
  }

  lemma NumberTokenHere(f: Features, doc: string, p: nat, next: nat, end: nat)
    requires p < |doc| && (IsDigit(doc[p]) || (doc[p] == '-' && At(doc, p + 1) != 'I')) && next == p + 1
    requires NumberEnd(doc, next) == end
    ensures SkipCommentTokens(f, doc, p) == Token(NumberToken, p, end)
  {
    TokenHere(f, doc, p);
  }

  lemma DigitsToken(f: Features, doc: string, p: nat, digits: string, end: nat)
    requires digits != "" && AllDigits(digits) && Follows(doc, p, digits) && end == p + |digits| && Ends(doc, end)
    ensures SkipCommentTokens(f, doc, p) == Token(NumberToken, p, end)
  {
    var next, rest := p + 1, digits[1..];
    FollowsAt(doc, p, digits, 0);
    assert digits == digits[..1] + rest && IsDigit(digits[0]);
    FollowsSplit(doc, p, digits[..1], rest);
    DigitsEnd(doc, next, rest, end);
    NumberTokenHere(f, doc, p, next, end);
  }

  lemma MinusToken(f: Features, doc: string, p: nat, digits: string, end: nat)
    requires digits != "" && AllDigits(digits) && Follows(doc, p, "-" + digits) && end == p + 1 + |digits| && Ends(doc, end)
    ensures SkipCommentTokens(f, doc, p) == Token(NumberToken, p, end)
  {
    var next := p + 1;
    FollowsSplit(doc, p, "-", digits);
    FollowsAt(doc, p, "-", 0);
    FollowsAt(doc, next, digits, 0);
    assert IsDigit(digits[0]);
    DigitsEnd(doc, next, digits, end);
    NumberTokenHere(f, doc, p, next, end);
  }

  lemma IntegerToken(f: Features, doc: string, p: nat, n: int, end: nat)
    requires Follows(doc, p, IntText(n)) && end == p + |IntText(n)| && Ends(doc, end)
    ensures SkipCommentTokens(f, doc, p) == Token(NumberToken, p, end)
  {
    DecimalRoundTrip(if n < 0 then -n else n);
    if n < 0 {
      MinusToken(f, doc, p, Decimal(-n), end);
    } else {
      DigitsToken(f, doc, p, Decimal(n), end);
    }
  }

  /** readValue on a token that opens nothing. */
  lemma ScalarRead(f: Features, doc: string, p: nat, depth: int, prior: Value, t: Token)
    requires p <= |doc| && SkipCommentTokens(f, doc, p) == t && t.kind != ObjectBegin && t.kind != ArrayBegin
    ensures ReadValue(f, doc, p, depth, prior) ==
            if depth >= f.stackLimit then Throw else ScalarResult(f, doc, t, depth, prior)
  {
  }

  lemma IntegerRead(f: Features, doc: string, p: nat, depth: int, prior: Value, n: int, v: Value, end: nat)
    requires Follows(doc, p, IntText(n)) && end == p + |IntText(n)| && Ends(doc, end) && IntegerOf(IntText(n)) == Some(v)
    ensures ReadValue(f, doc, p, depth, prior) == Outcome(f, 1, v, end, depth)
  {
    var t := Token(NumberToken, p, end);
    IntegerToken(f, doc, p, n, end);
    ScalarRead(f, doc, p, depth, prior, t);
    assert doc[p..end] == IntText(n);
  }

  lemma StringRead(f: Features, doc: string, p: nat, depth: int, prior: Value, x: string, end: nat)
    requires |x| <= MAX_STRING && Follows(doc, p, Quoted(x)) && end == p + |Quoted(x)|
    ensures ReadValue(f, doc, p, depth, prior) == Outcome(f, 1, Str(x), end, depth)
  {
    QuotedToken(f, doc, p, x, end);
    StringTokenRead(f, doc, p, depth, prior, end, x);
    StringKept(x, end, depth);
  }

  lemma StringTokenRead(f: Features, doc: string, p: nat, depth: int, prior: Value, q: nat, x: string)
    requires p + 2 <= q <= |doc| && doc[p] == '"'
    requires ReadToken(f, doc, p) == Token(StringToken, p, q) && DecodeFrom(doc[p + 1..q - 1], 0) == Some(x)
    ensures ReadValue(f, doc, p, depth, prior) == if depth >= f.stackLimit then Throw else StringResult(x, q, depth)
  {
    var t := Token(StringToken, p, q);
    var inside := Inside(doc, t);
    InsideIs(doc, t, p, q, inside);
    QuoteToken(f, doc, p, t);
    DecodedHere(f, doc, p, depth, prior, t, inside, x);
  }

  lemma InsideIs(doc: string, t: Token, p: nat, q: nat, inside: string)
    requires p + 2 <= q <= |doc| && t == Token(StringToken, p, q) && inside == Inside(doc, t)
    ensures inside == doc[p + 1..q - 1]
  {
  }

  /** readValue on a string token. */
  lemma DecodedHere(f: Features, doc: string, p: nat, depth: int, prior: Value, t: Token, inside: string, x: string)
    requires p <= |doc| && SkipCommentTokens(f, doc, p) == t && t.kind == StringToken
    requires inside == Inside(doc, t) && DecodeFrom(inside, 0) == Some(x)
    ensures ReadValue(f, doc, p, depth, prior) == if depth >= f.stackLimit then Throw else StringResult(x, t.end, depth)
  {
    ScalarRead(f, doc, p, depth, prior, t);
  }

  lemma StringKept(x: string, pos: nat, depth: int)
    requires |x| <= MAX_STRING
    ensures StringResult(x, pos, depth) == Read(true, Str(x), pos, depth)
  {
    assert x[..|x|] == x;
  }

  lemma WordRead(f: Features, doc: string, p: nat, depth: int, prior: Value, word: string, v: Value, end: nat)
    requires Follows(doc, p, word) && end == p + |word|
    requires (word, v) in {("null", Null), ("true", Bool(true)), ("false", Bool(false))}
    ensures ReadValue(f, doc, p, depth, prior) == Outcome(f, 1, v, end, depth)
  {
    var kind := if v == Null then NullToken else if v == Bool(true) then TrueToken else FalseToken;
    WordToken(f, doc, p, word, kind);
    ScalarRead(f, doc, p, depth, prior, Token(kind, p, end));
  }

  /** Where a null was dropped, the reader finds the separator and steps back. */
  lemma DroppedNullRead(f: Features, doc: string, p: nat, depth: int, prior: Value)
    requires f.allowDroppedNullPlaceholders && EndsInside(doc, p)
    ensures ReadValue(f, doc, p, depth, prior) == Outcome(f, 1, Null, p, depth)
  {
    TokenHere(f, doc, p);
    ScalarRead(f, doc, p, depth, prior, ReadToken(f, doc, p));
  }

  // ---- arrays ----

  lemma ArrayOpens(f: Features, doc: string, p: nat, depth: int, prior: Value, next: nat, d: int)
    requires p < |doc| && doc[p] == '[' && next == p + 1 && d == depth + 1
    ensures ReadValue(f, doc, p, depth, prior) ==
            if depth >= f.stackLimit then Throw else Leave(ReadArray(f, doc, next, d))
  {
    ArrayToken(f, doc, p, next);
    assert TokenValue(f, doc, Token(ArrayBegin, p, next), depth, prior) == Leave(ReadArray(f, doc, next, d));
  }

  lemma ArrayToken(f: Features, doc: string, p: nat, next: nat)
    requires p < |doc| && doc[p] == '[' && next == p + 1
    ensures SkipCommentTokens(f, doc, p) == Token(ArrayBegin, p, next)
  {
    TokenHere(f, doc, p);
  }

  lemma EmptyArray(f: Features, doc: string, p: nat, depth: int)
    requires p < |doc| && doc[p] == ']'
    ensures ReadArray(f, doc, p, depth) == Read(true, Array([]), p + 1, depth)
  {
    TokenHere(f, doc, p);
  }

  /** No printed value begins with a space or a closing bracket. */
  lemma FirstChar(o: Style, v: Value, rest: string)
    requires !v.Real? && (v == Null ==> o.dropNulls ==> rest != "" && rest[0] == ',')
    ensures ValueText(o, v) + rest != ""
    ensures var c := (ValueText(o, v) + rest)[0]; !IsSpace(c) && c != ']'
  {
    if v.Int? {
      DecimalRoundTrip(if v.i < 0 then -v.i else v.i);
    } else if v.UInt? {
      DecimalRoundTrip(if v.u < 0 then -v.u else v.u);
    }
  }

  lemma FirstElement(o: Style, elems: seq<Value>)
    requires elems != [] && RealFree(elems[0]) && !(o.dropNulls && elems == [Null])
    ensures ElementsTail(o, elems, 0) != ""
    ensures var c := ElementsTail(o, elems, 0)[0]; !IsSpace(c) && c != ']'
  {
    var rest := ElementsText(o, elems, 1) + "]";
    if |elems| > 1 {
      ElementsSplit(o, elems, 1);
      assert rest[0] == ',';
    } else {
      assert elems == [elems[0]];
    }
    FirstChar(o, elems[0], rest);
  }

  lemma ArrayBegins(f: Features, doc: string, p: nat, depth: int)
    requires p < |doc| && !IsSpace(doc[p]) && doc[p] != ']'
    ensures ReadArray(f, doc, p, depth) == ReadElements(f, doc, p, depth, [])
  {
  }

  lemma SeparatorHere(f: Features, doc: string, e: nat)
    requires e < |doc| && (doc[e] == ',' || doc[e] == ']')
    ensures ArraySeparatorAt(f, doc, e) == if doc[e] == ',' then More(e + 1) else Close(e + 1)
  {
    TokenHere(f, doc, e);
  }

  lemma ElementsThrow(f: Features, doc: string, p: nat, depth: int, so: seq<Value>)
    requires p <= |doc| && ReadValue(f, doc, p, depth, Null) == Throw
    ensures ReadElements(f, doc, p, depth, so) == Throw
  {
  }

  lemma ElementFollowed(f: Features, doc: string, so: seq<Value>, v: Value, e: nat, depth: int, next: nat)
    requires e < |doc| && (doc[e] == ',' || doc[e] == ']') && next == e + 1
    ensures AfterElement(f, doc, so, Read(true, v, e, depth)) ==
            if doc[e] == ',' then NextElement(so + [v], next, depth)
            else ElementsDone(Read(true, Array(so + [v]), next, depth))
  {
    SeparatorHere(f, doc, e);
  }

  /** One turn of the loop of readArray that goes on, once its value is read. */
  lemma ElementsStep(f: Features, doc: string, p: nat, depth: int, so: seq<Value>, r: ReadResult, more: seq<Value>, next: nat, d: int)
    requires p <= |doc| && ReadValue(f, doc, p, depth, Null) == r && AfterElement(f, doc, so, r) == NextElement(more, next, d)
    ensures next <= |doc| && ReadElements(f, doc, p, depth, so) == ReadElements(f, doc, next, d, more)
  {
    assert ReadElement(f, doc, p, depth, so) == NextElement(more, next, d);
  }

  /** The bracket behind an element ends the array. */
  lemma LastElement(f: Features, doc: string, p: nat, depth: int, so: seq<Value>, v: Value, e: nat)
    requires p <= |doc| && ReadValue(f, doc, p, depth, Null) == Read(true, v, e, depth)
    requires e < |doc| && doc[e] == ']'
    ensures ReadElements(f, doc, p, depth, so) == Read(true, Array(so + [v]), e + 1, depth)
  {
    ElementFollowed(f, doc, so, v, e, depth, e + 1);
    assert ReadElement(f, doc, p, depth, so) == ElementsDone(Read(true, Array(so + [v]), e + 1, depth));
  }

  lemma OneMoreElement(f: Features, doc: string, p: nat, depth: int, so: seq<Value>, v: Value, e: nat, next: nat, more: seq<Value>)
    requires p <= |doc| && ReadValue(f, doc, p, depth, Null) == Read(true, v, e, depth)
    requires e < |doc| && doc[e] == ',' && next == e + 1 && more == so + [v]
    ensures ReadElements(f, doc, p, depth, so) == ReadElements(f, doc, next, depth, more)
  {
    ElementFollowed(f, doc, so, v, e, depth, next);
    ElementsStep(f, doc, p, depth, so, Read(true, v, e, depth), more, next, depth);
  }

  /** An element in front of the bracket, or too deep. */
  lemma ElementsLast(f: Features, doc: string, p: nat, depth: int, so: seq<Value>, needed: nat, v: Value, e: nat)
    requires p <= |doc| && ReadValue(f, doc, p, depth, Null) == Outcome(f, needed, v, e, depth)
    requires e < |doc| && doc[e] == ']'
    ensures ReadElements(f, doc, p, depth, so) == Outcome(f, needed, Array(so + [v]), e + 1, depth)
  {
    if depth + needed > f.stackLimit {
      ElementsThrow(f, doc, p, depth, so);
    } else {
      LastElement(f, doc, p, depth, so, v, e);
    }
  }

  /** An element in front of a comma, or too deep; the elements behind the comma read as given. */
  lemma ElementsMore(f: Features, doc: string, p: nat, depth: int, so: seq<Value>, first: nat, v: Value, e: nat,
                     next: nat, more: seq<Value>, rest: nat, whole: Value, end: nat)
    requires p <= |doc| && ReadValue(f, doc, p, depth, Null) == Outcome(f, first, v, e, depth)
    requires e < |doc| && doc[e] == ',' && next == e + 1 && more == so + [v]
    requires ReadElements(f, doc, next, depth, more) == Outcome(f, rest, whole, end, depth)
    ensures ReadElements(f, doc, p, depth, so) == Outcome(f, Larger(first, rest), whole, end, depth)
  {
    if depth + first > f.stackLimit {
      ElementsThrow(f, doc, p, depth, so);
    } else {
      OneMoreElement(f, doc, p, depth, so, v, e, next, more);
    }
  }

  /** The text from element i on, behind its comma. */
  function ElementsTail(o: Style, elems: seq<Value>, i: nat): string
    requires i < |elems|
  {
    ValueText(o, elems[i]) + (ElementsText(o, elems, i + 1) + "]")
  }

  lemma ElementsSplit(o: Style, elems: seq<Value>, i: nat)
    requires i < |elems|
    ensures ElementsText(o, elems, i) + "]" == Comma(i) + ElementsTail(o, elems, i)
  {
    Regroup(Comma(i), ValueText(o, elems[i]), ElementsText(o, elems, i + 1), "]");
    Regroup(Comma(i), ValueText(o, elems[i]) + ElementsText(o, elems, i + 1), "]", "");
    assert ElementsText(o, elems, i) == Comma(i) + (ValueText(o, elems[i]) + ElementsText(o, elems, i + 1));
  }

  /** What stands behind element i: its text ends at a comma or at the bracket. */
  lemma ElementEnd(o: Style, doc: string, p: nat, elems: seq<Value>, i: nat)
    requires i < |elems| && Follows(doc, p, ElementsTail(o, elems, i))
    ensures var e := p + |ValueText(o, elems[i])|;
            && Follows(doc, p, ValueText(o, elems[i]))
            && e < |doc| && doc[e] == (if i + 1 == |elems| then ']' else ',')
            && (i + 1 == |elems| ==> p + |ElementsTail(o, elems, i)| == e + 1)
            && (i + 1 < |elems| ==> Follows(doc, e + 1, ElementsTail(o, elems, i + 1)))
            && (i + 1 < |elems| ==> p + |ElementsTail(o, elems, i)| == e + 1 + |ElementsTail(o, elems, i + 1)|)
  {
    var e := p + |ValueText(o, elems[i])|;
    var rest := ElementsText(o, elems, i + 1) + "]";
    FollowsSplit(doc, p, ValueText(o, elems[i]), rest);
    FollowsAt(doc, e, rest, 0);
    if i + 1 < |elems| {
      ElementsSplit(o, elems, i + 1);
      FollowsSplit(doc, e, ",", ElementsTail(o, elems, i + 1));
    }
  }

  // ---- objects ----

  lemma ObjectOpens(f: Features, doc: string, p: nat, depth: int, prior: Value, next: nat, d: int)
    requires p < |doc| && doc[p] == '{' && next == p + 1 && d == depth + 1
    ensures ReadValue(f, doc, p, depth, prior) ==
            if depth >= f.stackLimit then Throw else Leave(ReadMembers(f, doc, next, d, [], ""))
  {
    ObjectToken(f, doc, p, next);
    assert TokenValue(f, doc, Token(ObjectBegin, p, next), depth, prior) == Leave(ReadMembers(f, doc, next, d, [], ""));
  }

  lemma ObjectToken(f: Features, doc: string, p: nat, next: nat)
    requires p < |doc| && doc[p] == '{' && next == p + 1
    ensures SkipCommentTokens(f, doc, p) == Token(ObjectBegin, p, next)
  {
    TokenHere(f, doc, p);
  }

  lemma EmptyObject(f: Features, doc: string, p: nat, depth: int)
    requires p < |doc| && doc[p] == '}'
    ensures ReadMembers(f, doc, p, depth, [], "") == Read(true, Object([]), p + 1, depth)
  {
    TokenHere(f, doc, p);
  }

  /** A key that is larger than every key so far is new, and goes to the end. */
  lemma {:induction false} NewKey(so: seq<Member>, key: string, value: Value)
    requires forall i :: 0 <= i < |so| ==> StringLess(so[i].key, key)
    ensures Lookup(so, key) == None && Put(so, key, value) == so + [Member(key, value)]
  {
    if so != [] {
      NewKey(so[1..], key, value);
      assert so == [so[0]] + so[1..];
    }
  }

  lemma ColonRead(f: Features, doc: string, q: nat, name: string, k: nat)
    requires q < |doc| && doc[q] == ':' && |name| < MAX_KEY && k == q + 1
    ensures ColonAt(f, doc, q, name) == Key(name, k)
  {
    TokenHere(f, doc, q);
  }

  lemma QuoteToken(f: Features, doc: string, p: nat, t: Token)
    requires p < |doc| && doc[p] == '"' && ReadToken(f, doc, p) == t && t.kind == StringToken
    ensures NextToken(f, doc, p) == t && SkipCommentTokens(f, doc, p) == t
  {
    TokenHere(f, doc, p);
  }

  /** A string token in front of a member is its name. */
  lemma NameRead(f: Features, doc: string, p: nat, t: Token, name: string, last: string, k: KeyStep)
    requires p <= |doc| && NextToken(f, doc, p) == t && t.kind == StringToken
    requires DecodeFrom(Inside(doc, t), 0) == Some(name) && ColonAt(f, doc, t.end, name) == k
    ensures KeyAt(f, doc, p, last) == k
  {
  }

  lemma KeyRead(f: Features, doc: string, p: nat, key: string, last: string, q: nat, k: nat)
    requires Follows(doc, p, Quoted(key)) && |key| < MAX_KEY
    requires q == p + |Quoted(key)| && k == q + 1 && At(doc, q) == ':'
    ensures p <= |doc| && k <= |doc| && KeyAt(f, doc, p, last) == Key(key, k)
  {
    var t := Token(StringToken, p, q);
    QuotedToken(f, doc, p, key, q);
    QuoteToken(f, doc, p, t);
    ColonRead(f, doc, q, key, k);
    assert Inside(doc, t) == doc[p + 1..q - 1];
    NameRead(f, doc, p, t, key, last, Key(key, k));
  }

  /** The space of the YAML form is skipped. */
  lemma SpaceSkipped(f: Features, doc: string, p: nat, depth: int, prior: Value, next: nat)
    requires p < |doc| && doc[p] == ' ' && next == p + 1
    ensures ReadValue(f, doc, p, depth, prior) == ReadValue(f, doc, next, depth, prior)
  {
    assert ReadToken(f, doc, p) == ReadToken(f, doc, next);
    assert SkipCommentTokens(f, doc, p) == SkipCommentTokens(f, doc, next);
  }

  lemma CommaHere(f: Features, doc: string, e: nat, next: nat)
    requires e < |doc| && (doc[e] == ',' || doc[e] == '}') && next == e + 1
    ensures CommaAt(f, doc, e) == if doc[e] == ',' then More(next) else Close(next)
  {
    TokenHere(f, doc, e);
  }

  /** A member with a new key, up to what follows its value. */
  lemma NamedFrom(f: Features, doc: string, start: nat, depth: int, so: seq<Member>, key: string, r: ReadResult, turn: MemberTurn)
    requires start <= |doc| && Lookup(so, key) == None
    requires ReadValue(f, doc, start, depth, Null) == r && AfterMember(f, doc, so, key, r) == turn
    ensures ReadNamed(f, doc, start, depth, so, key) == turn
  {
  }

  lemma NamedSpace(f: Features, doc: string, k: nat, start: nat, depth: int, so: seq<Member>, key: string)
    requires k <= |doc| && start <= |doc| && Lookup(so, key) == None
    requires start == k || (start == k + 1 && At(doc, k) == ' ')
    ensures ReadNamed(f, doc, k, depth, so, key) == ReadNamed(f, doc, start, depth, so, key)
  {
    if start == k + 1 {
      SpaceSkipped(f, doc, k, depth, Null, start);
    }
  }

  lemma MemberFrom(f: Features, doc: string, p: nat, depth: int, so: seq<Member>, last: string, key: string, k: nat, turn: MemberTurn)
    requires p <= |doc| && k <= |doc|
    requires KeyAt(f, doc, p, last) == Key(key, k) && ReadNamed(f, doc, k, depth, so, key) == turn
    ensures ReadMember(f, doc, p, depth, so, last) == turn
  {
  }

  lemma MembersStep(f: Features, doc: string, p: nat, depth: int, so: seq<Member>, last: string, turn: MemberTurn)
    requires p <= |doc| && ReadMember(f, doc, p, depth, so, last) == turn
    ensures turn.MembersDone? ==> ReadMembers(f, doc, p, depth, so, last) == turn.r
    ensures turn.NextMember? ==>
              turn.pos <= |doc| &&
              ReadMembers(f, doc, p, depth, so, last) == ReadMembers(f, doc, turn.pos, turn.depth, turn.members, turn.name)
  {
  }

  /** The turn of the loop of readObject whose value reads as an outcome: it ends in front
      of the bracket, or where the nesting is too deep. */
  function TurnOn(f: Features, needed: nat, more: seq<Member>, key: string, next: nat, depth: int, closing: bool): MemberTurn {
    if depth + needed > f.stackLimit then MembersDone(Throw)
    else if closing then MembersDone(Read(true, Object(more), next, depth))
    else NextMember(more, key, next, depth)
  }

  lemma AfterHere(f: Features, doc: string, so: seq<Member>, key: string, needed: nat, v: Value, e: nat, depth: int,
                  more: seq<Member>, closing: bool, next: nat)
    requires next == e + 1 <= |doc| && doc[e] == (if closing then '}' else ',') && Put(so, key, v) == more
    ensures AfterMember(f, doc, so, key, Outcome(f, needed, v, e, depth)) == TurnOn(f, needed, more, key, next, depth, closing)
  {
    CommaHere(f, doc, e, next);
  }

  function MembersTail(o: Style, members: seq<Member>, i: nat): string
    requires i < |members|
  {
    KeyAndColon(o, members[i].key) + (ValueText(o, members[i].value) + (MembersText(o, members, i + 1) + "}"))
  }

  lemma MembersSplit(o: Style, members: seq<Member>, i: nat)
    requires i < |members|
    ensures MembersText(o, members, i) + "}" == Comma(i) + MembersTail(o, members, i)
  {
    var k, v, rest := KeyAndColon(o, members[i].key), ValueText(o, members[i].value), MembersText(o, members, i + 1);
    assert MembersText(o, members, i) == Comma(i) + (k + (v + rest));
    Regroup(Comma(i), k, v + rest, "}");
    Regroup("", v, rest, "}");
    Rejoin(Comma(i), k + (v + rest), "}");
    Rejoin(k, v + rest, "}");
    Rejoin(v, rest, "}");
  }

  lemma Rejoin(a: string, b: string, c: string)
    ensures a + b + c == a + (b + c)
  {
  }

  function ValueStart(o: Style, key: string, p: nat): nat {
    p + |Quoted(key)| + (if o.yaml then 2 else 1)
  }

  function ValueEnd(o: Style, m: Member, p: nat): nat {
    ValueStart(o, m.key, p) + |ValueText(o, m.value)|
  }

  /** Behind the text of a value stands something that ends it. */
  predicate Stands(o: Style, doc: string, p: nat, v: Value) {
    && Follows(doc, p, ValueText(o, v))
    && Ends(doc, p + |ValueText(o, v)|)
    && (o.dropNulls && v == Null ==> EndsInside(doc, p))
  }

  predicate KeyStands(o: Style, doc: string, p: nat, key: string) {
    && Follows(doc, p, Quoted(key))
    && At(doc, p + |Quoted(key)|) == ':'
    && (o.yaml ==> At(doc, p + |Quoted(key)| + 1) == ' ')
  }

  lemma MemberFront(o: Style, doc: string, p: nat, key: string, rest: string)
    requires Follows(doc, p, KeyAndColon(o, key) + rest)
    ensures KeyStands(o, doc, p, key) && Follows(doc, ValueStart(o, key, p), rest)
    ensures p + |KeyAndColon(o, key) + rest| == ValueStart(o, key, p) + |rest|
  {
    var colon := if o.yaml then ": " else ":";
    FollowsSplit(doc, p, KeyAndColon(o, key), rest);
    FollowsSplit(doc, p, Quoted(key), colon);
    FollowsAt(doc, p + |Quoted(key)|, colon, 0);
    if o.yaml {
      FollowsAt(doc, p + |Quoted(key)|, colon, 1);
    }
  }

  lemma ValueFront(o: Style, doc: string, p: nat, v: Value, rest: string)
    requires Follows(doc, p, ValueText(o, v) + rest)
    requires rest != "" && (rest[0] == ',' || rest[0] == '}')
    ensures Stands(o, doc, p, v) && At(doc, p + |ValueText(o, v)|) == rest[0]
    ensures Follows(doc, p + |ValueText(o, v)|, rest)
  {
    FollowsSplit(doc, p, ValueText(o, v), rest);
    FollowsAt(doc, p + |ValueText(o, v)|, rest, 0);
  }

  /** What stands behind member i: its text ends at a comma or at the bracket. */
  lemma MemberEnd(o: Style, doc: string, p: nat, members: seq<Member>, i: nat, e: nat)
    requires i < |members| && Follows(doc, p, MembersTail(o, members, i)) && e == ValueEnd(o, members[i], p)
    ensures KeyStands(o, doc, p, members[i].key) && Stands(o, doc, ValueStart(o, members[i].key, p), members[i].value)
    ensures e < |doc| && doc[e] == (if i + 1 == |members| then '}' else ',')
    ensures i + 1 == |members| ==> p + |MembersTail(o, members, i)| == e + 1
    ensures i + 1 < |members| ==> Follows(doc, e + 1, MembersTail(o, members, i + 1))
    ensures i + 1 < |members| ==> p + |MembersTail(o, members, i)| == e + 1 + |MembersTail(o, members, i + 1)|
  {
    var rest := MembersText(o, members, i + 1) + "}";
    MembersRest(o, members, i);
    MemberStandsHere(o, doc, p, members[i], rest);
    assert MembersTail(o, members, i) == KeyAndColon(o, members[i].key) + (ValueText(o, members[i].value) + rest);
  }

  lemma MemberNext(o: Style, doc: string, p: nat, members: seq<Member>, i: nat, next: nat)
    requires i < |members| && Follows(doc, p, MembersTail(o, members, i)) && next == ValueEnd(o, members[i], p) + 1
    ensures next <= |doc|
    ensures i + 1 == |members| ==> p + |MembersTail(o, members, i)| == next
    ensures i + 1 < |members| ==> Follows(doc, next, MembersTail(o, members, i + 1))
    ensures i + 1 < |members| ==> p + |MembersTail(o, members, i)| == next + |MembersTail(o, members, i + 1)|
  {
    MemberEnd(o, doc, p, members, i, next - 1);
  }

  lemma MemberStandsHere(o: Style, doc: string, p: nat, m: Member, rest: string)
    requires Follows(doc, p, KeyAndColon(o, m.key) + (ValueText(o, m.value) + rest))
    requires rest != "" && (rest[0] == ',' || rest[0] == '}')
    ensures KeyStands(o, doc, p, m.key) && Stands(o, doc, ValueStart(o, m.key, p), m.value)
    ensures At(doc, ValueEnd(o, m, p)) == rest[0] && Follows(doc, ValueEnd(o, m, p) + 1, rest[1..])
    ensures p + |KeyAndColon(o, m.key) + (ValueText(o, m.value) + rest)| == ValueEnd(o, m, p) + |rest|
  {
    MemberFront(o, doc, p, m.key, ValueText(o, m.value) + rest);
    ValueFront(o, doc, ValueStart(o, m.key, p), m.value, rest);
    assert rest == rest[..1] + rest[1..];
    FollowsSplit(doc, ValueEnd(o, m, p), rest[..1], rest[1..]);
  }

  lemma MembersRest(o: Style, members: seq<Member>, i: nat)
    requires i < |members|
    ensures var rest := MembersText(o, members, i + 1) + "}";
            && |rest| >= 1 && rest[0] == (if i + 1 == |members| then '}' else ',')
            && (i + 1 == |members| ==> |rest| == 1)
            && (i + 1 < |members| ==> rest[1..] == MembersTail(o, members, i + 1))
            && MembersTail(o, members, i) == KeyAndColon(o, members[i].key) + (ValueText(o, members[i].value) + rest)
  {
    if i + 1 < |members| {
      MembersSplit(o, members, i + 1);
    }
  }

  /** The key of member i is new, and goes to the end of the members so far. */
  lemma NewKeyHere(o: Style, members: seq<Member>, i: nat, back: seq<Member>)
    requires i < |members| && KeysSorted(members) && back == ReadBackMembers(o, members)
    ensures Lookup(back[..i], members[i].key) == None && Put(back[..i], members[i].key, back[i].value) == back[..i + 1]
  {
    forall j | 0 <= j < i ensures StringLess(back[..i][j].key, members[i].key) {
      EarlierKeyIsLess(members, j, i);
    }
    NewKey(back[..i], members[i].key, back[i].value);
    TakeNext(back, i);
  }

  // ---- the theorem ----

  predicate Printable(v: Value) {
    WellFormed(v) && RealFree(v)
  }

  lemma ScalarReadsBack(f: Features, o: Style, doc: string, p: nat, depth: int, prior: Value, v: Value, end: nat)
    requires Printable(v) && Readable(f, o, v) && Stands(o, doc, p, v) && !v.Array? && !v.Object?
    requires end == p + |ValueText(o, v)|
    ensures p <= |doc| && ReadValue(f, doc, p, depth, prior) == Outcome(f, 1, ReadBack(o, v), end, depth)
  {
    match v
    case Null =>
      if o.dropNulls {
        DroppedNullRead(f, doc, p, depth, prior);
      } else {
        WordRead(f, doc, p, depth, prior, "null", v, end);
      }
    case Bool(b) => WordRead(f, doc, p, depth, prior, if b then "true" else "false", v, end);
    case Str(s) => StringRead(f, doc, p, depth, prior, s, end);
    case Int(i) =>
      NumberRoundTrip(v);
      IntegerRead(f, doc, p, depth, prior, i, Retagged(v), end);
    case UInt(u) =>
      NumberRoundTrip(v);
      IntegerRead(f, doc, p, depth, prior, u, Retagged(v), end);
    case Real(_) =>
  }

  lemma {:induction false} ValueReadTo(f: Features, o: Style, doc: string, p: nat, depth: int, prior: Value, v: Value,
                                       needed: nat, back: Value, end: nat)
    requires Printable(v) && Readable(f, o, v) && Stands(o, doc, p, v)
    requires needed == Depth(o, v) && back == ReadBack(o, v) && end == p + |ValueText(o, v)|
    ensures p <= |doc| && ReadValue(f, doc, p, depth, prior) == Outcome(f, needed, back, end, depth)
    decreases v, 1
  {
    match v
    case Array(elems) => ArrayRead(f, o, doc, p, depth, prior, elems, needed, back, end);
    case Object(members) => ObjectRead(f, o, doc, p, depth, prior, members, needed, back, end);
    case _ => ScalarReadsBack(f, o, doc, p, depth, prior, v, end);
  }

  /** An object whose members are read is read, one level of nesting higher. */
  lemma ObjectLeft(f: Features, doc: string, p: nat, depth: int, prior: Value, next: nat, d: int,
                   inner: nat, needed: nat, v: Value, end: nat)
    requires p <= |doc| && next <= |doc| && d == depth + 1 && needed == 1 + inner
    requires ReadValue(f, doc, p, depth, prior) ==
             if depth >= f.stackLimit then Throw else Leave(ReadMembers(f, doc, next, d, [], ""))
    requires d <= f.stackLimit ==> ReadMembers(f, doc, next, d, [], "") == Outcome(f, inner, v, end, d)
    ensures ReadValue(f, doc, p, depth, prior) == Outcome(f, needed, v, end, depth)
  {
    LeaveOutcome(f, inner, v, end, depth);
  }

  lemma ArrayLeft(f: Features, doc: string, p: nat, depth: int, prior: Value, next: nat, d: int,
                  inner: nat, needed: nat, v: Value, end: nat)
    requires p <= |doc| && next <= |doc| && d == depth + 1 && needed == 1 + inner
    requires ReadValue(f, doc, p, depth, prior) ==
             if depth >= f.stackLimit then Throw else Leave(ReadArray(f, doc, next, d))
    requires ReadArray(f, doc, next, d) == Outcome(f, inner, v, end, d)
    ensures ReadValue(f, doc, p, depth, prior) == Outcome(f, needed, v, end, depth)
  {
    LeaveOutcome(f, inner, v, end, depth);
  }

  /** One level of nesting more. */
  lemma LeaveOutcome(f: Features, inner: nat, v: Value, end: nat, depth: int)
    ensures (if depth >= f.stackLimit then Throw else Leave(Outcome(f, inner, v, end, depth + 1))) ==
            Outcome(f, 1 + inner, v, end, depth)
  {
  }

  /** Behind an opening bracket. */
  lemma Opened(doc: string, p: nat, bracket: string, inner: string, closing: string)
    requires |bracket| == 1 && |closing| == 1 && Follows(doc, p, bracket + inner + closing)
    ensures p + 1 < |doc| && doc[p] == bracket[0] && doc[p + 1] == (inner + closing)[0]
    ensures Follows(doc, p + 1, inner + closing) && |bracket + inner + closing| == 1 + |inner + closing|
  {
    Rejoin(bracket, inner, closing);
    FollowsSplit(doc, p, bracket, inner + closing);
    FollowsAt(doc, p, bracket, 0);
    FollowsAt(doc, p + 1, inner + closing, 0);
  }

  lemma ArrayFacts(o: Style, elems: seq<Value>)
    ensures ValueText(o, Array(elems)) == "[" + ElementsText(o, elems, 0) + "]"
    ensures !(o.dropNulls && elems == [Null]) ==>
              Depth(o, Array(elems)) == 1 + ElementsDepth(o, elems, 0) && ReadBack(o, Array(elems)) == Array(ReadBackAll(o, elems))
  {
  }

  lemma EmptyArrayFacts(o: Style, elems: seq<Value>)
    requires elems == [] || (o.dropNulls && elems == [Null])
    ensures ElementsText(o, elems, 0) == "" && Depth(o, Array(elems)) == 1 && ReadBack(o, Array(elems)) == Array([])
  {
  }

  lemma EmptyArrayRead(f: Features, doc: string, p: nat, depth: int, prior: Value)
    requires Follows(doc, p, "[" + "" + "]")
    ensures p <= |doc| && ReadValue(f, doc, p, depth, prior) == Outcome(f, 1, Array([]), p + 2, depth)
  {
    Opened(doc, p, "[", "", "]");
    var next, d := p + 1, depth + 1;
    ArrayOpens(f, doc, p, depth, prior, next, d);
    EmptyArray(f, doc, next, d);
  }

  lemma {:induction false} ArrayRead(f: Features, o: Style, doc: string, p: nat, depth: int, prior: Value, elems: seq<Value>,
                                     needed: nat, back: Value, end: nat)
    requires Printable(Array(elems)) && Readable(f, o, Array(elems)) && Follows(doc, p, ValueText(o, Array(elems)))
    requires needed == Depth(o, Array(elems)) && back == ReadBack(o, Array(elems)) && end == p + |ValueText(o, Array(elems))|
    ensures p <= |doc| && ReadValue(f, doc, p, depth, prior) == Outcome(f, needed, back, end, depth)
    decreases elems, |elems| + 1
  {
    ArrayFacts(o, elems);
    if elems == [] || (o.dropNulls && elems == [Null]) {
      EmptyArrayFacts(o, elems);
      EmptyArrayRead(f, doc, p, depth, prior);
    } else {
      var inner, within, text, next, d := ElementsDepth(o, elems, 0), ReadBackAll(o, elems), ElementsText(o, elems, 0), p + 1, depth + 1;
      Opened(doc, p, "[", text, "]");
      ArrayOpens(f, doc, p, depth, prior, next, d);
      InnerElementsRead(f, o, doc, next, d, elems, end, inner, within);
      ArrayLeft(f, doc, p, depth, prior, next, d, inner, needed, back, end);
    }
  }

  lemma {:induction false} InnerElementsRead(f: Features, o: Style, doc: string, p: nat, depth: int, elems: seq<Value>, end: nat,
                                             needed: nat, back: seq<Value>)
    requires end == p + |ElementsText(o, elems, 0) + "]"| && needed == ElementsDepth(o, elems, 0) && back == ReadBackAll(o, elems)
    requires Printable(Array(elems)) && Readable(f, o, Array(elems)) && elems != [] && !(o.dropNulls && elems == [Null])
    requires Follows(doc, p, ElementsText(o, elems, 0) + "]")
    ensures p <= |doc| && ReadArray(f, doc, p, depth) == Outcome(f, needed, Array(back), end, depth)
    decreases elems, |elems|, 2
  {
    FirstElementHere(o, doc, p, elems);
    ArrayBegins(f, doc, p, depth);
    ElementsRead(f, o, doc, p, depth, elems, 0, [], back, end, needed);
  }

  lemma FirstElementHere(o: Style, doc: string, p: nat, elems: seq<Value>)
    requires elems != [] && RealFree(elems[0]) && !(o.dropNulls && elems == [Null])
    requires Follows(doc, p, ElementsText(o, elems, 0) + "]")
    ensures ElementsText(o, elems, 0) + "]" == ElementsTail(o, elems, 0)
    ensures p < |doc| && !IsSpace(doc[p]) && doc[p] != ']'
  {
    ElementsSplit(o, elems, 0);
    assert ElementsText(o, elems, 0) + "]" == ElementsTail(o, elems, 0);
    FirstElement(o, elems);
    FollowsAt(doc, p, ElementsTail(o, elems, 0), 0);
  }

  lemma ElementPrintable(elems: seq<Value>, i: nat)
    requires Printable(Array(elems)) && i < |elems|
    ensures Printable(elems[i])
  {
  }

  /** Element i is read to its end. */
  lemma {:induction false} ElementValueRead(f: Features, o: Style, doc: string, p: nat, depth: int, elems: seq<Value>, i: nat, e: nat)
    requires Printable(Array(elems)) && Readable(f, o, Array(elems)) && !(o.dropNulls && elems == [Null])
    requires i < |elems| && Follows(doc, p, ElementsTail(o, elems, i)) && e == p + |ValueText(o, elems[i])|
    ensures p <= |doc| && ReadValue(f, doc, p, depth, Null) == Outcome(f, Depth(o, elems[i]), ReadBack(o, elems[i]), e, depth)
    decreases elems, |elems| - i, 0
  {
    ElementStands(o, doc, p, elems, i);
    ElementPrintable(elems, i);
    ElementReadable(f, o, elems, i);
    ValueReadTo(f, o, doc, p, depth, Null, elems[i], Depth(o, elems[i]), ReadBack(o, elems[i]), e);
  }

  lemma ElementStands(o: Style, doc: string, p: nat, elems: seq<Value>, i: nat)
    requires i < |elems| && Follows(doc, p, ElementsTail(o, elems, i))
    ensures Stands(o, doc, p, elems[i])
  {
    ElementEnd(o, doc, p, elems, i);
  }

  lemma ElementsDepthStep(o: Style, elems: seq<Value>, i: nat)
    requires i < |elems|
    ensures ElementsDepth(o, elems, i) == Larger(Depth(o, elems[i]), ElementsDepth(o, elems, i + 1))
    ensures ElementsDepth(o, elems, |elems|) == 0
  {
  }

  /** The elements from i on are read, the ones before being read as `so`. */
  lemma {:induction false} ElementsRead(f: Features, o: Style, doc: string, p: nat, depth: int, elems: seq<Value>, i: nat,
                                        so: seq<Value>, back: seq<Value>, end: nat, needed: nat)
    requires Printable(Array(elems)) && Readable(f, o, Array(elems)) && !(o.dropNulls && elems == [Null])
    requires i < |elems| && Follows(doc, p, ElementsTail(o, elems, i)) && end == p + |ElementsTail(o, elems, i)|
    requires back == ReadBackAll(o, elems) && so == back[..i] && needed == ElementsDepth(o, elems, i)
    ensures p <= |doc|
    ensures ReadElements(f, doc, p, depth, so) == Outcome(f, needed, Array(back), end, depth)
    decreases elems, |elems| - i, 1
  {
    var e, first, v, j := p + |ValueText(o, elems[i])|, Depth(o, elems[i]), back[i], i + 1;
    var next, more := e + 1, so + [v];
    ElementEnd(o, doc, p, elems, i);
    ElementsDepthStep(o, elems, i);
    TakeNext(back, i);
    ElementValueRead(f, o, doc, p, depth, elems, i, e);
    if j < |elems| {
      var rest := ElementsDepth(o, elems, j);
      ElementsRead(f, o, doc, next, depth, elems, j, more, back, end, rest);
      ElementsMore(f, doc, p, depth, so, first, v, e, next, more, rest, Array(back), end);
    } else {
      assert more == back;
      ElementsLast(f, doc, p, depth, so, first, v, e);
    }
  }

  /** The key of member i, its colon, and the space behind it if there is one. */
  lemma KeyHere(f: Features, o: Style, doc: string, p: nat, key: string, last: string, k: nat)
    requires KeyStands(o, doc, p, key) && |key| < MAX_KEY && k == p + |Quoted(key)| + 1
    ensures p <= |doc| && k <= |doc| && KeyAt(f, doc, p, last) == Key(key, k)
    ensures ValueStart(o, key, p) == k || (ValueStart(o, key, p) == k + 1 && At(doc, k) == ' ')
  {
    KeyRead(f, doc, p, key, last, k - 1, k);
  }

  lemma TurnFrom(f: Features, doc: string, p: nat, depth: int, so: seq<Member>, last: string,
                 key: string, k: nat, start: nat, r: ReadResult, turn: MemberTurn)
    requires p <= |doc| && k <= |doc| && KeyAt(f, doc, p, last) == Key(key, k)
    requires start == k || (start == k + 1 && At(doc, k) == ' ')
    requires start <= |doc| && ReadValue(f, doc, start, depth, Null) == r
    requires Lookup(so, key) == None && AfterMember(f, doc, so, key, r) == turn
    ensures ReadMember(f, doc, p, depth, so, last) == turn
  {
    NamedFrom(f, doc, start, depth, so, key, r, turn);
    NamedSpace(f, doc, k, start, depth, so, key);
    MemberFrom(f, doc, p, depth, so, last, key, k, turn);
  }

  lemma MemberPrintable(members: seq<Member>, i: nat)
    requires Printable(Object(members)) && i < |members|
    ensures KeysSorted(members) && |members[i].key| < MAX_KEY && Printable(members[i].value)
  {
  }

  lemma ObjectFacts(o: Style, members: seq<Member>)
    ensures ValueText(o, Object(members)) == "{" + MembersText(o, members, 0) + "}"
    ensures Depth(o, Object(members)) == 1 + MembersDepth(o, members, 0)
    ensures ReadBack(o, Object(members)) == Object(ReadBackMembers(o, members))
  {
  }

  lemma {:induction false} ObjectRead(f: Features, o: Style, doc: string, p: nat, depth: int, prior: Value, members: seq<Member>,
                                      needed: nat, back: Value, end: nat)
    requires Printable(Object(members)) && Readable(f, o, Object(members)) && Follows(doc, p, ValueText(o, Object(members)))
    requires needed == Depth(o, Object(members)) && back == ReadBack(o, Object(members))
    requires end == p + |ValueText(o, Object(members))|
    ensures p <= |doc| && ReadValue(f, doc, p, depth, prior) == Outcome(f, needed, back, end, depth)
    decreases members, |members| + 1
  {
    var inner, within, text, next, d := MembersDepth(o, members, 0), ReadBackMembers(o, members), MembersText(o, members, 0), p + 1, depth + 1;
    ObjectFacts(o, members);
    Opened(doc, p, "{", text, "}");
    ObjectOpens(f, doc, p, depth, prior, next, d);
    InnerMembersRead(f, o, doc, next, d, members, within, end, inner);
    ObjectLeft(f, doc, p, depth, prior, next, d, inner, needed, back, end);
  }

  lemma {:induction false} InnerMembersRead(f: Features, o: Style, doc: string, p: nat, depth: int, members: seq<Member>,
                                            back: seq<Member>, end: nat, needed: nat)
    requires Printable(Object(members)) && Readable(f, o, Object(members))
    requires Follows(doc, p, MembersText(o, members, 0) + "}") && end == p + |MembersText(o, members, 0) + "}"|
    requires back == ReadBackMembers(o, members) && needed == MembersDepth(o, members, 0)
    ensures p <= |doc|
    ensures depth <= f.stackLimit ==>
              ReadMembers(f, doc, p, depth, [], "") == Outcome(f, needed, Object(back), end, depth)
    decreases members, |members|, 4
  {
    if members == [] {
      FollowsAt(doc, p, "}", 0);
      NoMembersRead(f, doc, p, depth, back, end);
    } else {
      FirstMemberHere(o, members);
      MembersRead(f, o, doc, p, depth, members, 0, "", [], back, end, needed);
    }
  }

  lemma NoMembersRead(f: Features, doc: string, p: nat, depth: int, back: seq<Member>, end: nat)
    requires p < |doc| && doc[p] == '}' && back == [] && end == p + 1
    ensures depth <= f.stackLimit ==> ReadMembers(f, doc, p, depth, [], "") == Outcome(f, 0, Object(back), end, depth)
  {
    EmptyObject(f, doc, p, depth);
  }

  lemma FirstMemberHere(o: Style, members: seq<Member>)
    requires members != []
    ensures MembersText(o, members, 0) + "}" == MembersTail(o, members, 0)
  {
    MembersSplit(o, members, 0);
    assert MembersText(o, members, 0) + "}" == MembersTail(o, members, 0);
  }

  /** The turn of the loop of readObject that reads a member, whose value reads as r. */
  lemma MemberHere(f: Features, o: Style, doc: string, p: nat, depth: int, key: string, last: string, so: seq<Member>,
                   start: nat, r: ReadResult, turn: MemberTurn)
    requires KeyStands(o, doc, p, key) && |key| < MAX_KEY && Lookup(so, key) == None && start == ValueStart(o, key, p)
    requires start <= |doc| && ReadValue(f, doc, start, depth, Null) == r && AfterMember(f, doc, so, key, r) == turn
    ensures p <= |doc| && ReadMember(f, doc, p, depth, so, last) == turn
  {
    var k := p + |Quoted(key)| + 1;
    KeyHere(f, o, doc, p, key, last, k);
    TurnFrom(f, doc, p, depth, so, last, key, k, start, r, turn);
  }

  /** The value of member i is read to its end. */
  lemma {:induction false} MemberValueRead(f: Features, o: Style, doc: string, p: nat, depth: int, members: seq<Member>, i: nat,
                                           start: nat, e: nat)
    requires Printable(Object(members)) && Readable(f, o, Object(members))
    requires i < |members| && Follows(doc, p, MembersTail(o, members, i))
    requires start == ValueStart(o, members[i].key, p) && e == ValueEnd(o, members[i], p)
    ensures start <= |doc|
    ensures ReadValue(f, doc, start, depth, Null) == Outcome(f, Depth(o, members[i].value), ReadBack(o, members[i].value), e, depth)
    decreases members, |members| - i, 0
  {
    MemberEnd(o, doc, p, members, i, e);
    MemberPrintable(members, i);
    MemberReadable(f, o, members, i);
    ValueReadTo(f, o, doc, start, depth, Null, members[i].value, Depth(o, members[i].value), ReadBack(o, members[i].value), e);
  }

  /** The turn of the loop of readObject that reads member i. */
  lemma {:induction false} MemberRead(f: Features, o: Style, doc: string, p: nat, depth: int, members: seq<Member>, i: nat, last: string,
                                      so: seq<Member>, back: seq<Member>, next: nat, more: seq<Member>, closing: bool, turn: MemberTurn)
    requires Printable(Object(members)) && Readable(f, o, Object(members))
    requires i < |members| && Follows(doc, p, MembersTail(o, members, i)) && next == ValueEnd(o, members[i], p) + 1
    requires back == ReadBackMembers(o, members) && so == back[..i] && more == back[..i + 1]
    requires closing == (i + 1 == |members|)
    requires turn == TurnOn(f, Depth(o, members[i].value), more, members[i].key, next, depth, closing)
    ensures p <= |doc| && ReadMember(f, doc, p, depth, so, last) == turn
    decreases members, |members| - i, 1
  {
    var key, start, e := members[i].key, ValueStart(o, members[i].key, p), ValueEnd(o, members[i], p);
    var first, v := Depth(o, members[i].value), back[i].value;
    var r := Outcome(f, first, v, e, depth);
    MemberPrintable(members, i);
    MemberEnd(o, doc, p, members, i, e);
    NewKeyHere(o, members, i, back);
    MemberValueRead(f, o, doc, p, depth, members, i, start, e);
    AfterHere(f, doc, so, key, first, v, e, depth, more, closing, next);
    MemberHere(f, o, doc, p, depth, key, last, so, start, r, turn);
  }

  lemma MembersDepthStep(o: Style, members: seq<Member>, i: nat)
    requires i < |members|
    ensures MembersDepth(o, members, i) == Larger(Depth(o, members[i].value), MembersDepth(o, members, i + 1))
    ensures MembersDepth(o, members, |members|) == 0
  {
  }

  /** A member in front of a comma, or too deep; the members behind the comma read as given. */
  lemma MembersMore(f: Features, doc: string, p: nat, depth: int, so: seq<Member>, last: string, first: nat, more: seq<Member>,
                    key: string, next: nat, rest: nat, whole: Value, end: nat, turn: MemberTurn)
    requires p <= |doc| && ReadMember(f, doc, p, depth, so, last) == turn
    requires turn == TurnOn(f, first, more, key, next, depth, false)
    requires next <= |doc| && ReadMembers(f, doc, next, depth, more, key) == Outcome(f, rest, whole, end, depth)
    ensures ReadMembers(f, doc, p, depth, so, last) == Outcome(f, Larger(first, rest), whole, end, depth)
  {
    MembersStep(f, doc, p, depth, so, last, turn);
  }

  /** Member i is read, and the members behind it read as given. */
  lemma {:induction false} MemberOn(f: Features, o: Style, doc: string, p: nat, depth: int, members: seq<Member>, i: nat, last: string,
                                    so: seq<Member>, back: seq<Member>, next: nat, more: seq<Member>, rest: nat, end: nat)
    requires Printable(Object(members)) && Readable(f, o, Object(members))
    requires i + 1 < |members| && Follows(doc, p, MembersTail(o, members, i)) && next == ValueEnd(o, members[i], p) + 1
    requires back == ReadBackMembers(o, members) && so == back[..i] && more == back[..i + 1]
    requires next <= |doc| && ReadMembers(f, doc, next, depth, more, members[i].key) == Outcome(f, rest, Object(back), end, depth)
    ensures p <= |doc|
    ensures ReadMembers(f, doc, p, depth, so, last) == Outcome(f, Larger(Depth(o, members[i].value), rest), Object(back), end, depth)
    decreases members, |members| - i, 2
  {
    var first, key, whole := Depth(o, members[i].value), members[i].key, Object(back);
    var turn := TurnOn(f, first, more, key, next, depth, false);
    MemberRead(f, o, doc, p, depth, members, i, last, so, back, next, more, false, turn);
    MembersMore(f, doc, p, depth, so, last, first, more, key, next, rest, whole, end, turn);
  }

  /** The last member is read, and the object ends. */
  lemma {:induction false} MemberOff(f: Features, o: Style, doc: string, p: nat, depth: int, members: seq<Member>, i: nat, last: string,
                                     so: seq<Member>, back: seq<Member>, next: nat)
    requires Printable(Object(members)) && Readable(f, o, Object(members))
    requires i + 1 == |members| && Follows(doc, p, MembersTail(o, members, i)) && next == ValueEnd(o, members[i], p) + 1
    requires back == ReadBackMembers(o, members) && so == back[..i]
    ensures p <= |doc|
    ensures ReadMembers(f, doc, p, depth, so, last) == Outcome(f, Depth(o, members[i].value), Object(back), next, depth)
    decreases members, |members| - i, 2
  {
    var turn := TurnOn(f, Depth(o, members[i].value), back, members[i].key, next, depth, true);
    assert back[..i + 1] == back;
    MemberRead(f, o, doc, p, depth, members, i, last, so, back, next, back, true, turn);
    MembersStep(f, doc, p, depth, so, last, turn);
  }

  /** The members from i on are read, the ones before being read as `so`. */
  lemma {:induction false} MembersRead(f: Features, o: Style, doc: string, p: nat, depth: int, members: seq<Member>, i: nat, last: string,
                                       so: seq<Member>, back: seq<Member>, end: nat, needed: nat)
    requires Printable(Object(members)) && Readable(f, o, Object(members))
    requires i < |members| && Follows(doc, p, MembersTail(o, members, i)) && end == p + |MembersTail(o, members, i)|
    requires back == ReadBackMembers(o, members) && so == back[..i] && needed == MembersDepth(o, members, i)
    ensures p <= |doc|
    ensures ReadMembers(f, doc, p, depth, so, last) == Outcome(f, needed, Object(back), end, depth)
    decreases members, |members| - i, 3
  {
    var next, more, key, j := ValueEnd(o, members[i], p) + 1, back[..i + 1], members[i].key, i + 1;
    MemberNext(o, doc, p, members, i, next);
    MembersDepthStep(o, members, i);
    if j < |members| {
      var rest := MembersDepth(o, members, j);
      MembersRead(f, o, doc, next, depth, members, j, key, more, back, end, rest);
      MemberOn(f, o, doc, p, depth, members, i, last, so, back, next, more, rest, end);
    } else {
      MemberOff(f, o, doc, p, depth, members, i, last, so, back, next);
    }
  }

  /** readValue gives a printed value back and stops right behind it, or the nesting is
      too deep and it throws. */
  predicate ReadsBack(f: Features, o: Style, doc: string, p: nat, depth: int, prior: Value, v: Value)
    requires p <= |doc|
  {
    ReadValue(f, doc, p, depth, prior) == Outcome(f, Depth(o, v), ReadBack(o, v), p + |ValueText(o, v)|, depth)
  }

  lemma ValueRead(f: Features, o: Style, doc: string, p: nat, depth: int, prior: Value, v: Value)
    requires Printable(v) && Readable(f, o, v) && Stands(o, doc, p, v)
    ensures p <= |doc| && ReadsBack(f, o, doc, p, depth, prior, v)
  {
    ValueReadTo(f, o, doc, p, depth, prior, v, Depth(o, v), ReadBack(o, v), p + |ValueText(o, v)|);
  }
}
