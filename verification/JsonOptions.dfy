/** What the switches of OurReader (server/utils/jsoncpp.cpp) let through: text behind the
    value, numbers as keys, numbers that are no integers. */
module JsonOptions {
  import opened Util
  import opened Texts
  import opened Digits
  import opened JsonValues
  import opened JsonNumbers
  import opened JsonLexer
  import opened JsonReading
  import opened JsonWriter
  import opened JsonRoundTrip
  import opened JsonDocuments
  import opened JsonTokens

  // ---- text behind the value ----

  /** The verdict on a printed value with more text behind its line. */
  lemma TextBehind(f: Features, o: Style, v: Value, doc: string, end: nat, root: Value)
    requires Printable(v) && Readable(f, o, v) && !(o.dropNulls && v == Null) && Depth(o, v) <= f.stackLimit
    requires Follows(doc, 0, ValueText(o, v)) && end == |ValueText(o, v)| && At(doc, end) == '\n' && end < |doc|
    ensures var kind := SkipCommentTokens(f, doc, end).kind;
            Parse(f, doc, root) ==
            Parsed((f.strictRoot ==> v.Array? || v.Object?) && (f.failIfExtra ==> kind == ErrorToken || kind == EndOfStream), ReadBack(o, v))
  {
    ValueReadTo(f, o, doc, 0, 0, root, v, Depth(o, v), ReadBack(o, v), end);
  }

  /** The line feed behind the value is skipped. */
  lemma TokenBehindLine(f: Features, doc: string, end: nat, next: nat)
    requires next == end + 1 && next < |doc| && doc[end] == '\n'
    ensures SkipCommentTokens(f, doc, end) == SkipCommentTokens(f, doc, next)
    ensures doc[next] in "{}[],:" ==> SkipCommentTokens(f, doc, next).kind !in {ErrorToken, EndOfStream}
    ensures BeginsNothing(doc[next]) ==> SkipCommentTokens(f, doc, next).kind == ErrorToken
  {
    assert ReadToken(f, doc, end) == ReadToken(f, doc, next);
    if doc[next] in "{}[],:" {
      TokenHere(f, doc, next);
    } else if BeginsNothing(doc[next]) {
      NoToken(f, doc, next);
    }
  }

  predicate BeginsNothing(c: char) {
    c !in "{}[],:\"'/-tfnNI0123456789\0 \t\r\n"
  }

  /** A reader told to fail on it does so if the text begins with a mark, and not if it
      begins with a char that begins no token. */
  lemma ExtraExactly(f: Features, o: Style, v: Value, c: char, rest: string, root: Value)
    requires Printable(v) && Readable(f, o, v) && (v.Array? || v.Object?) && Depth(o, v) <= f.stackLimit
    ensures c in "{}[],:" ==> (Accepted(Parse(f, ValueText(o, v) + "\n" + ([c] + rest), root)) <==> !f.failIfExtra)
    ensures BeginsNothing(c) ==> Accepted(Parse(f, ValueText(o, v) + "\n" + ([c] + rest), root))
  {
    var text := ValueText(o, v);
    var doc, end, next := text + "\n" + ([c] + rest), |text|, |text| + 1;
    assert doc[0..end] == text && doc[end] == '\n' && doc[next] == c;
    TextBehind(f, o, v, doc, end, root);
    TokenBehindLine(f, doc, end, next);
  }

  // ---- numbers ----

  lemma NotAllDigits(t: string, k: nat)
    requires k < |t| && !IsDigit(t[k])
    ensures !AllDigits(t)
  {
  }

  /** A number with a fraction or an exponent is no integer. */
  lemma NoInteger(first: char, digits: string, fraction: string, exponent: string, text: string)
    requires IsFraction(fraction) && IsExponent(exponent) && (fraction != "" || exponent != "")
    requires text == [first] + (digits + fraction + exponent)
    ensures IntegerOf(text) == None
  {
    var k := |digits|;
    assert text[1 + k] == (fraction + exponent)[0];
    assert text[1..][k] == text[1 + k];
    NotAllDigits(text[1..], k);
    NotAllDigits(text, 1 + k);
  }

  /** It is a double, if the text is one that sscanf accepts whole; any nesting and position. */
  lemma RealRead(f: Features, doc: string, p: nat, depth: int, prior: Value, first: char, digits: string, fraction: string,
                 exponent: string, text: string, end: nat)
    requires '0' <= first <= '9' || (first == '-' && At(doc, p + 1) != 'I')
    requires AllDigits(digits) && IsFraction(fraction) && IsExponent(exponent) && (fraction != "" || exponent != "")
    requires text == [first] + (digits + fraction + exponent) && Follows(doc, p, text) && end == p + |text|
    requires Stops(At(doc, end), fraction, exponent)
    ensures p <= |doc|
    ensures ReadValue(f, doc, p, depth, prior) ==
            if depth >= f.stackLimit then Throw
            else if f.isReal(text) then Read(true, Real(text), end, depth)
            else Read(false, prior, end, depth)
  {
    NumberIsOneToken(f, doc, p, first, digits, fraction, exponent, end);
    FollowsAt(doc, p, text, 0);
    TokenHere(f, doc, p);
    JsonRoundTrip.ScalarRead(f, doc, p, depth, prior, Token(NumberToken, p, end));
    NoInteger(first, digits, fraction, exponent, text);
    assert doc[p..end] == text;
  }

  // ---- numbers as keys ----

  lemma FirstDigit(n: int, text: string, first: char, rest: string)
    requires text == IntText(n)
    ensures text != ""
    ensures first == text[0] && rest == text[1..] ==>
              AllDigits(rest) && text == [first] + (rest + "" + "") && (IsDigit(first) || (first == '-' && rest != ""))
  {
    var m := if n < 0 then -n else n;
    DecimalRoundTrip(m);
    assert n < 0 ==> text[1..] == Decimal(m);
    assert [text[0]] + (text[1..] + "" + "") == text;
  }

  lemma DigitBehind(doc: string, p: nat, text: string, next: nat)
    requires Follows(doc, p, text) && |text| > 1 && IsDigit(text[1]) && next == p + 1
    ensures At(doc, next) != 'I'
  {
    FollowsAt(doc, p, text, 1);
  }

  /** A number that is a key. */
  lemma IntegerKeyToken(f: Features, doc: string, p: nat, n: int, q: nat)
    requires Follows(doc, p, IntText(n)) && q == p + |IntText(n)| && At(doc, q) == ':'
    ensures p < q < |doc| && NextToken(f, doc, p) == Token(NumberToken, p, q)
  {
    var text := IntText(n);
    FirstDigit(n, text, text[0], text[1..]);
    var first, rest := text[0], text[1..];
    if first == '-' {
      assert IsDigit(rest[0]);
      DigitBehind(doc, p, text, p + 1);
    }
    NumberIsOneToken(f, doc, p, first, rest, "", "", q);
    FollowsAt(doc, p, text, 0);
    TokenHere(f, doc, p);
  }

  lemma {:induction false} DecimalLength(n: nat, k: nat)
    requires k >= 1 && n < Power10(k)
    ensures |Decimal(n)| <= k
    decreases k
  {
    if n >= 10 {
      var before, tenth := k - 1, n / 10;
      assert Power10(k) == 10 * Power10(before);
      assert Power10(0) == 1;
      DecimalLength(tenth, before);
    }
  }

  lemma KeyIsShort(n: int, text: string)
    requires -0x8000_0000_0000_0000 <= n < 0x1_0000_0000_0000_0000 && text == IntText(n)
    ensures |text| < MAX_KEY
  {
    assert Power10(10) == 10_000_000_000;
    assert Power10(20) == 100_000_000_000_000_000_000;
    DecimalLength(if n < 0 then -n else n, 20);
  }

  lemma NumberName(f: Features, doc: string, p: nat, last: string, t: Token, v: Value, k: KeyStep)
    requires p <= |doc| && NextToken(f, doc, p) == t && t.kind == NumberToken && f.allowNumericKeys
    requires NumberValue(f, doc[t.start..t.end]) == Some(v) && ColonAt(f, doc, t.end, KeyText(f, v)) == k
    ensures KeyAt(f, doc, p, last) == k
  {
  }

  lemma NumberNoName(f: Features, doc: string, p: nat, last: string)
    requires p <= |doc| && NextToken(f, doc, p).kind == NumberToken && !f.allowNumericKeys
    ensures KeyAt(f, doc, p, last).KeyBad?
  {
  }

  lemma IntegerKey(f: Features, n: int, text: string, v: Value)
    requires -0x8000_0000_0000_0000 <= n < 0x1_0000_0000_0000_0000 && text == IntText(n) && v == Retagged(if n < 0 then Int(n) else UInt(n))
    ensures NumberValue(f, text) == Some(v) && KeyText(f, v) == text
  {
    NumberRoundTrip(if n < 0 then Int(n) else UInt(n));
  }

  lemma NumberKeyTaken(f: Features, doc: string, p: nat, last: string, text: string, v: Value, q: nat, k: nat)
    requires f.allowNumericKeys && |text| < MAX_KEY && NumberValue(f, text) == Some(v) && KeyText(f, v) == text
    requires p <= q < |doc| && doc[p..q] == text && doc[q] == ':' && k == q + 1
    requires NextToken(f, doc, p) == Token(NumberToken, p, q)
    ensures KeyAt(f, doc, p, last) == Key(text, k)
  {
    ColonRead(f, doc, q, text, k);
    NumberName(f, doc, p, last, Token(NumberToken, p, q), v, Key(text, k));
  }

  /** A reader told to take numbers as keys takes them by their text, and any other refuses
      them. */
  lemma NumericKey(f: Features, doc: string, p: nat, last: string, n: int, q: nat, k: nat)
    requires -0x8000_0000_0000_0000 <= n < 0x1_0000_0000_0000_0000
    requires Follows(doc, p, IntText(n)) && q == p + |IntText(n)| && At(doc, q) == ':' && k == q + 1
    ensures p <= |doc| && k <= |doc|
    ensures if f.allowNumericKeys then KeyAt(f, doc, p, last) == Key(IntText(n), k) else KeyAt(f, doc, p, last).KeyBad?
  {
    var text := IntText(n);
    IntegerKeyToken(f, doc, p, n, q);
    if f.allowNumericKeys {
      var v := Retagged(if n < 0 then Int(n) else UInt(n));
      KeyIsShort(n, text);
      IntegerKey(f, n, text, v);
      NumberKeyTaken(f, doc, p, last, text, v, q, k);
    } else {
      NumberNoName(f, doc, p, last);
    }
  }

  // ---- how long a string may be ----

  /** Up to 2147483642 bytes are kept; the length is taken modulo 2 to the 32. */
  lemma LengthLimits(s: string, pos: nat, depth: int)
    requires |s| < 0x1_0000_0000
    ensures StringResult(s, pos, depth) == if |s| <= 2147483642 then Read(true, Str(s), pos, depth) else Throw
  {
    assert s[..|s|] == s;
  }
}
