/** What every token of OurReader (server/utils/jsoncpp.cpp) is, char by char: numbers,
    strings and comments end where their text says, and the chars that begin no token. */
module JsonTokens {
  import opened Util
  import opened Texts
  import opened Digits
  import opened JsonStrings
  import opened JsonLexer
  import opened JsonRoundTrip

  // ---- numbers ----

  /** A point and digits, or nothing. */
  predicate IsFraction(t: string) {
    t == "" || (t[0] == '.' && AllDigits(t[1..]))
  }

  /** The letter of an exponent, a sign or none, and digits; or nothing. */
  predicate IsExponent(t: string) {
    t == "" || ((t[0] == 'e' || t[0] == 'E') && (AllDigits(t[1..]) || (|t| > 1 && (t[1] == '+' || t[1] == '-') && AllDigits(t[2..]))))
  }

  /** The char behind a number cannot belong to it. */
  predicate Stops(c: char, fraction: string, exponent: string) {
    && !('0' <= c <= '9')
    && (exponent == "" ==> c != 'e' && c != 'E')
    && (exponent == "" && fraction == "" ==> c != '.')
    && (|exponent| == 1 ==> c != '+' && c != '-')
  }

  lemma {:induction false} DigitsPassed(doc: string, p: nat, digits: string, end: nat)
    requires AllDigits(digits) && Follows(doc, p, digits) && end == p + |digits| && !IsDigit(At(doc, end))
    ensures SkipDigits(doc, p) == end
    decreases |digits|
  {
    if digits != "" {
      var next, rest := p + 1, digits[1..];
      FollowsAt(doc, p, digits, 0);
      assert digits == digits[..1] + rest;
      FollowsSplit(doc, p, digits[..1], rest);
      DigitsPassed(doc, next, rest, end);
    }
  }

  lemma FractionPassed(doc: string, p: nat, fraction: string, end: nat)
    requires IsFraction(fraction) && Follows(doc, p, fraction) && end == p + |fraction|
    requires !IsDigit(At(doc, end)) && (fraction == "" ==> At(doc, end) != '.')
    ensures FractionEnd(doc, p) == end
  {
    if fraction != "" {
      var next := p + 1;
      FollowsAt(doc, p, fraction, 0);
      assert fraction == fraction[..1] + fraction[1..];
      FollowsSplit(doc, p, fraction[..1], fraction[1..]);
      DigitsPassed(doc, next, fraction[1..], end);
    }
  }

  lemma ExponentPassed(doc: string, p: nat, exponent: string, end: nat)
    requires IsExponent(exponent) && Follows(doc, p, exponent) && end == p + |exponent| && Stops(At(doc, end), ".", exponent)
    ensures ExponentEnd(doc, p) == end
  {
    if exponent != "" {
      var next, rest := p + 1, exponent[1..];
      FollowsAt(doc, p, exponent, 0);
      assert exponent == exponent[..1] + rest;
      FollowsSplit(doc, p, exponent[..1], rest);
      if |exponent| > 1 {
        FollowsAt(doc, p, exponent, 1);
      }
      if AllDigits(rest) {
        DigitsPassed(doc, next, rest, end);
      } else {
        var digits, behind := exponent[2..], p + 2;
        assert exponent == exponent[..2] + digits;
        FollowsSplit(doc, p, exponent[..2], digits);
        DigitsPassed(doc, behind, digits, end);
      }
    }
  }

  /** Digits, a fraction and an exponent, each of them possibly missing, are passed to the
      char that belongs to none of them. */
  lemma NumberPassed(doc: string, p: nat, digits: string, fraction: string, exponent: string, end: nat)
    requires AllDigits(digits) && IsFraction(fraction) && IsExponent(exponent)
    requires Follows(doc, p, digits + fraction + exponent) && end == p + |digits| + |fraction| + |exponent|
    requires Stops(At(doc, end), fraction, exponent)
    ensures NumberEnd(doc, p) == end
  {
    var a, b := p + |digits|, p + |digits| + |fraction|;
    FollowsSplit(doc, p, digits + fraction, exponent);
    FollowsSplit(doc, p, digits, fraction);
    if exponent != "" {
      FollowsAt(doc, b, exponent, 0);
    }
    if fraction != "" {
      FollowsAt(doc, a, fraction, 0);
    }
    DigitsPassed(doc, p, digits, a);
    FractionPassed(doc, a, fraction, b);
    ExponentPassed(doc, b, exponent, end);
  }

  /** A number is one token, to the char that cannot belong to it: a digit or a minus
      sign, further digits, a fraction and an exponent. */
  lemma NumberIsOneToken(f: Features, doc: string, p: nat, first: char, digits: string, fraction: string, exponent: string, end: nat)
    requires '0' <= first <= '9' || (first == '-' && At(doc, p + 1) != 'I')
    requires AllDigits(digits) && IsFraction(fraction) && IsExponent(exponent)
    requires Follows(doc, p, [first] + (digits + fraction + exponent)) && end == p + 1 + |digits| + |fraction| + |exponent|
    requires Stops(At(doc, end), fraction, exponent)
    ensures p < end <= |doc| && ReadToken(f, doc, p) == Token(NumberToken, p, end)
  {
    var next := p + 1;
    FollowsAt(doc, p, [first] + (digits + fraction + exponent), 0);
    FollowsSplit(doc, p, [first], digits + fraction + exponent);
    NumberPassed(doc, next, digits, fraction, exponent, end);
    TokenHere(f, doc, p);
  }

  // ---- strings ----

  /** How many backslashes stand in a row directly in front of q, from p on. */
  function Backslashes(doc: string, p: nat, q: nat): nat
    requires p <= q <= |doc|
    decreases q
  {
    if p < q && doc[q - 1] == '\\' then 1 + Backslashes(doc, p, q - 1) else 0
  }

  /** A quote that no backslash escapes. */
  predicate Closes(doc: string, p: nat, q: nat, quote: char) {
    p <= q < |doc| && doc[q] == quote && Backslashes(doc, p, q) % 2 == 0
  }

  lemma {:induction false} BackslashesBehind(doc: string, p: nat, q: nat)
    requires p < q <= |doc| && doc[p] != '\\'
    ensures Backslashes(doc, p, q) == Backslashes(doc, p + 1, q)
    decreases q
  {
    if p + 1 < q {
      BackslashesBehind(doc, p, q - 1);
    }
  }

  lemma {:induction false} BackslashesBehindPair(doc: string, p: nat, q: nat)
    requires p + 2 <= q <= |doc| && doc[p] == '\\'
    ensures Backslashes(doc, p, q) % 2 == Backslashes(doc, p + 2, q) % 2
    decreases q
  {
    if p + 2 < q {
      BackslashesBehindPair(doc, p, q - 1);
    } else {
      assert Backslashes(doc, p, p + 1) == 1;
    }
  }

  predicate NoneCloses(doc: string, p: nat, q: nat, quote: char) {
    forall k :: p <= k < q ==> !Closes(doc, p, k, quote)
  }

  /** From the next char on, or behind an escaped one, the same quotes close. */
  lemma SameQuotes(doc: string, p: nat, next: nat, quote: char)
    requires p < next <= |doc| && doc[p] != quote && quote != '\\' && next == (if doc[p] == '\\' && p + 1 < |doc| then p + 2 else p + 1)
    ensures forall k :: p <= k < |doc| ==> (Closes(doc, p, k, quote) <==> Closes(doc, next, k, quote))
  {
    forall k | p <= k < |doc| ensures Closes(doc, p, k, quote) <==> Closes(doc, next, k, quote) {
      if doc[p] != '\\' {
        if k > p {
          BackslashesBehind(doc, p, k);
        }
      } else if k == p + 1 {
        assert Backslashes(doc, p, p) == 0 && Backslashes(doc, p, k) == 1;
      } else if k > p {
        BackslashesBehindPair(doc, p, k);
      }
    }
  }

  /** A string ends behind the first quote of its kind that is not escaped, and is an error
      up to the end of the document if there is none. */
  lemma {:induction false} StringEndsAtQuote(doc: string, p: nat, quote: char)
    requires p <= |doc| && quote != '\\'
    ensures var (closed, end) := ScanString(doc, p, quote);
            if closed then Closes(doc, p, end - 1, quote) && NoneCloses(doc, p, end - 1, quote)
            else end == |doc| && NoneCloses(doc, p, end, quote)
    decreases |doc| - p
  {
    if p < |doc| && doc[p] != quote {
      var next := if doc[p] == '\\' && p + 1 < |doc| then p + 2 else p + 1;
      assert ScanString(doc, p, quote) == ScanString(doc, next, quote);
      SameQuotes(doc, p, next, quote);
      StringEndsAtQuote(doc, next, quote);
    }
  }

  /** The two kinds of string token; the second for a reader that allows it. */
  lemma StringTokens(f: Features, doc: string, p: nat)
    requires p < |doc| && (doc[p] == '"' || (doc[p] == '\'' && f.allowSingleQuotes))
    ensures var t := ReadToken(f, doc, p);
            && t.start == p && (t.kind == StringToken || t.kind == ErrorToken)
            && (t.kind == StringToken ==> Closes(doc, p + 1, t.end - 1, doc[p]) && NoneCloses(doc, p + 1, t.end - 1, doc[p]))
            && (t.kind == ErrorToken ==> t.end == |doc| && NoneCloses(doc, p + 1, t.end, doc[p]))
  {
    StringEndsAtQuote(doc, p + 1, doc[p]);
    TokenHere(f, doc, p);
  }

  // ---- comments ----

  /** A star and a slash, which end a comment. */
  predicate StarSlash(doc: string, q: nat) {
    q + 1 < |doc| && doc[q] == '*' && doc[q + 1] == '/'
  }

  lemma {:induction false} StopsAtStarSlash(doc: string, p: nat, q: nat)
    requires p <= q <= |doc| && (forall k :: p <= k < q ==> !StarSlash(doc, k)) && (q == |doc| || StarSlash(doc, q))
    ensures CStyleStop(doc, p) == if q == |doc| then q else q + 1
    decreases q - p
  {
    if p < q {
      assert !StarSlash(doc, p);
      StopsAtStarSlash(doc, p + 1, q);
    }
  }

  predicate EndsLine(doc: string, q: nat) {
    q < |doc| && (doc[q] == '\n' || doc[q] == '\r')
  }

  lemma {:induction false} StopsBehindLine(doc: string, p: nat, q: nat)
    requires p <= q <= |doc| && (forall k :: p <= k < q ==> !EndsLine(doc, k)) && (q == |doc| || EndsLine(doc, q))
    ensures CppStyleEnd(doc, p) == LineEnd(doc, q)
    decreases q - p
  {
    if p < q {
      assert !EndsLine(doc, p);
      StopsBehindLine(doc, p + 1, q);
    }
  }

  /** Behind a line feed, a return, or both of them. */
  function LineEnd(doc: string, q: nat): nat {
    if q >= |doc| then |doc| else if Follows(doc, q, "\r\n") then q + 2 else q + 1
  }

  /** A comment begins with a slash, or with a single quote where that opens no string. */
  predicate Opens(f: Features, c: char) {
    c == '/' || (c == '\'' && !f.allowSingleQuotes)
  }

  /** The one kind of comment ends at the first star-slash, and is an error without one. */
  lemma StarComment(f: Features, doc: string, p: nat, q: nat)
    requires p + 2 <= q <= |doc| && Opens(f, doc[p]) && doc[p + 1] == '*'
    requires (forall k :: p + 2 <= k < q ==> !StarSlash(doc, k)) && (q == |doc| || StarSlash(doc, q))
    ensures ReadToken(f, doc, p) == if q == |doc| then Token(ErrorToken, p, q) else Token(CommentToken, p, q + 2)
  {
    var next := p + 2;
    StopsAtStarSlash(doc, next, q);
    TokenHere(f, doc, p);
  }

  /** The other kind ends with its line or with the document. */
  lemma LineComment(f: Features, doc: string, p: nat, q: nat)
    requires p + 2 <= q <= |doc| && Opens(f, doc[p]) && doc[p + 1] == '/'
    requires (forall k :: p + 2 <= k < q ==> !EndsLine(doc, k)) && (q == |doc| || EndsLine(doc, q))
    ensures ReadToken(f, doc, p) == Token(CommentToken, p, LineEnd(doc, q))
  {
    var next := p + 2;
    StopsBehindLine(doc, next, q);
    TokenHere(f, doc, p);
  }

  /** Anything else behind the slash is an error. */
  lemma NoComment(f: Features, doc: string, p: nat)
    requires p < |doc| && Opens(f, doc[p]) && (p + 1 < |doc| ==> doc[p + 1] != '*' && doc[p + 1] != '/')
    ensures ReadToken(f, doc, p) == Token(ErrorToken, p, if p + 2 <= |doc| then p + 2 else p + 1)
  {
    TokenHere(f, doc, p);
  }

  // ---- words ----

  /** NaN and the infinities are for a reader that allows them; the others for any. */
  lemma Words(f: Features, doc: string, p: nat, word: string, kind: TokenKind)
    requires Follows(doc, p, word)
    requires (word, kind) in [("null", NullToken), ("true", TrueToken), ("false", FalseToken),
                              ("NaN", NaNToken), ("Infinity", PosInfToken), ("-Infinity", NegInfToken)]
    ensures p + |word| <= |doc|
    ensures ReadToken(f, doc, p) ==
            if f.allowSpecialFloats || word in ["null", "true", "false"] then Token(kind, p, p + |word|)
            else Token(ErrorToken, p, if word == "-Infinity" then p + 2 else p + 1)
  {
    var start := if word == "-Infinity" then 2 else 1;
    assert word == word[..start] + word[start..];
    FollowsSplit(doc, p, word[..start], word[start..]);
    FollowsAt(doc, p, word, 0);
    FollowsAt(doc, p, word, 1);
    TokenHere(f, doc, p);
  }

  lemma WholeWord(doc: string, p: nat, word: string, rest: string)
    requires p < |doc| && word != "" && doc[p] == word[0] && rest == word[1..]
    ensures Follows(doc, p + 1, rest) ==> Follows(doc, p, word)
  {
    assert p + |word| <= |doc| ==> doc[p..p + |word|] == [doc[p]] + doc[p + 1..p + 1 + |rest|];
    assert word == [word[0]] + rest;
  }

  /** What begins with the letter of a word, and is none, is an error. */
  lemma NoWord(f: Features, doc: string, p: nat, word: string)
    requires p < |doc| && word in ["null", "true", "false", "NaN", "Infinity"] && doc[p] == word[0] && !Follows(doc, p, word)
    ensures ReadToken(f, doc, p) == Token(ErrorToken, p, p + 1)
  {
    var rest := word[1..];
    assert word == [word[0]] + rest;
    WholeWord(doc, p, word, rest);
    assert rest == (if word == "null" then "ull" else if word == "true" then "rue" else if word == "false" then "alse"
                    else if word == "NaN" then "aN" else "nfinity");
    TokenHere(f, doc, p);
  }

  /** Any other char is an error. */
  lemma NoToken(f: Features, doc: string, p: nat)
    requires p < |doc| && doc[p] !in "{}[],:\"'/-tfnNI0123456789\0 \t\r\n"
    ensures ReadToken(f, doc, p) == Token(ErrorToken, p, p + 1)
  {
    assert forall d :: '0' <= d <= '9' ==> d in "0123456789";
    TokenHere(f, doc, p);
  }

  // ---- escapes ----

  /** The eight escapes of one char. */
  const SHORT := [('"', '"'), ('/', '/'), ('\\', '\\'), ('b', '\U{0008}'), ('f', '\U{000C}'), ('n', '\U{000A}'), ('r', '\U{000D}'), ('t', '\U{0009}')]

  lemma ShortEscape(s: string, p: nat, k: nat)
    requires k < |SHORT| && p + 1 < |s| && s[p] == '\\' && s[p + 1] == SHORT[k].0
    ensures PieceAt(s, p) == Append([SHORT[k].1], p + 2)
  {
  }

  /** A backslash in front of anything else makes the string an error. */
  lemma NoEscape(s: string, p: nat)
    requires p < |s| && s[p] == '\\' && (p + 1 < |s| ==> s[p + 1] !in "\"/\\bfnrtu")
    ensures PieceAt(s, p) == Bad && DecodeFrom(s, p) == None
  {
  }

  /** The hexadecimal digits, in their order, and no other chars. */
  lemma HexDigits(c: char, d: nat)
    requires d < 16
    ensures HexValue(c) == Some(d) <==> c == "0123456789abcdef"[d] || c == "0123456789ABCDEF"[d]
    ensures HexDigit(d, true) == "0123456789ABCDEF"[d] && HexDigit(d, false) == "0123456789abcdef"[d]
  {
  }

  predicate IsHex(c: char) {
    c in "0123456789abcdefABCDEF"
  }

  lemma HexDigitsOnly(c: char)
    ensures HexValue(c).Some? <==> IsHex(c)
  {
    assert HexValue(c).Some? ==> c == "0123456789abcdef"[HexValue(c).value] || c == "0123456789ABCDEF"[HexValue(c).value];
    assert forall d :: 0 <= d < 22 ==> HexValue("0123456789abcdefABCDEF"[d]).Some?;
  }

  /** A unit is four of them, and the first one counts most. */
  lemma FourHexDigits(s: string, p: nat, a: nat, b: nat, c: nat, d: nat)
    requires p + 4 <= |s| && HexValue(s[p]) == Some(a) && HexValue(s[p + 1]) == Some(b)
    requires HexValue(s[p + 2]) == Some(c) && HexValue(s[p + 3]) == Some(d)
    ensures HexUnit(s, p) == Some(4096 * a + 256 * b + 16 * c + d)
  {
  }

  lemma NoHexUnit(s: string, p: nat)
    requires p <= |s| && (p + 4 <= |s| ==> !(IsHex(s[p]) && IsHex(s[p + 1]) && IsHex(s[p + 2]) && IsHex(s[p + 3])))
    ensures HexUnit(s, p) == None
  {
    if p + 4 <= |s| {
      HexDigitsOnly(s[p]);
      HexDigitsOnly(s[p + 1]);
      HexDigitsOnly(s[p + 2]);
      HexDigitsOnly(s[p + 3]);
    }
  }

  /** A high surrogate wants another \\u escape behind it, but not a low surrogate: the
      low ten bits of any second unit are taken. */
  lemma SurrogatePair(s: string, p: nat, high: nat)
    requires p <= |s| && HexUnit(s, p) == Some(high) && 0xD800 <= high < 0xDC00
    ensures var second := if Follows(s, p + 4, "\\u") then HexUnit(s, p + 6) else None;
            CodePointAt(s, p) ==
            if second.Some? then Some((0x10000 + 1024 * (high - 0xD800) + second.value % 1024, p + 10)) else None
  {
    assert high % 1024 == high - 0xD800;
    assert p + 6 <= |s| ==> s[p + 4..p + 6] == [s[p + 4], s[p + 5]];
  }

  /** Any other unit is a code point by itself, a low surrogate as well. */
  lemma LoneUnit(s: string, p: nat, unit: nat)
    requires p <= |s| && HexUnit(s, p) == Some(unit) && !(0xD800 <= unit < 0xDC00)
    ensures CodePointAt(s, p) == Some((unit, p + 4))
  {
  }

  /** What the writer makes of a char. */
  lemma EscapeTable(c: char)
    ensures c == '"' ==> Escape(c) == "\\\""
    ensures c == '\\' ==> Escape(c) == "\\\\"
    ensures c == '\U{0008}' ==> Escape(c) == "\\b"
    ensures c == '\U{000C}' ==> Escape(c) == "\\f"
    ensures c == '\U{000A}' ==> Escape(c) == "\\n"
    ensures c == '\U{000D}' ==> Escape(c) == "\\r"
    ensures c == '\U{0009}' ==> Escape(c) == "\\t"
    ensures c < ' ' && c !in "\U{0008}\U{0009}\U{000A}\U{000C}\U{000D}" ==>
              Escape(c) == "\\u00" + ["0123456789ABCDEF"[c as int / 16], "0123456789ABCDEF"[c as int % 16]]
    ensures c >= ' ' && c != '"' && c != '\\' ==> Escape(c) == [c]
  {
  }
}
