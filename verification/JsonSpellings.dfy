/** A string of a document may spell each of its chars in several ways: plain, by an escape of
    one char, or by four hexadecimal digits. OurReader (server/utils/jsoncpp.cpp) reads the same
    string whichever ways are mixed. */
module JsonSpellings {
  import opened Util
  import opened Texts
  import opened JsonValues
  import opened JsonStrings
  import opened JsonLexer
  import opened JsonReading
  import opened JsonRoundTrip
  import opened JsonTokens

  /** The escape of one char that stands for c. */
  predicate IsShort(e: string, c: char) {
    |e| == 2 && e[0] == '\\' && (e[1], c) in SHORT
  }

  /** The escape of four hexadecimal digits of either case; beyond 0x7F it stands for several bytes. */
  predicate IsLong(e: string, c: char) {
    |e| == 6 && e[0] == '\\' && e[1] == 'u' && c <= '\U{007F}' && HexUnit(e, 2) == Some(c as nat)
  }

  predicate Spells(e: string, c: char) {
    (e == [c] && c != '"' && c != '\\') || IsShort(e, c) || IsLong(e, c)
  }

  predicate AllSpell(es: seq<string>, x: string) {
    |es| == |x| && forall i :: 0 <= i < |x| ==> Spells(es[i], x[i])
  }

  function Joined(es: seq<string>): string {
    if es == [] then "" else es[0] + Joined(es[1..])
  }

  /** One spelling is decoded to its char. */
  lemma SpellingDecoded(s: string, p: nat, e: string, c: char)
    requires Spells(e, c) && Follows(s, p, e)
    ensures p < |s| && PieceAt(s, p) == Append([c], p + |e|)
  {
    FollowsAt(s, p, e, 0);
    if |e| > 1 {
      FollowsAt(s, p, e, 1);
    }
    if IsLong(e, c) {
      LongDecoded(s, p, e, c);
    }
  }

  lemma LongDecoded(s: string, p: nat, e: string, c: char)
    requires IsLong(e, c) && Follows(s, p, e)
    ensures p + 6 <= |s| && HexUnit(s, p + 2) == Some(c as nat)
  {
    FollowsAt(s, p, e, 2);
    FollowsAt(s, p, e, 3);
    FollowsAt(s, p, e, 4);
    FollowsAt(s, p, e, 5);
  }

  /** The scanner passes it without stopping. */
  lemma SpellingPassed(doc: string, p: nat, e: string, c: char, next: nat)
    requires Spells(e, c) && Follows(doc, p, e) && next == p + |e|
    ensures next <= |doc| && ScanString(doc, p, '"') == ScanString(doc, next, '"')
  {
    FollowsAt(doc, p, e, 0);
    if |e| > 1 {
      FollowsAt(doc, p, e, 1);
      assert ScanString(doc, p, '"') == ScanString(doc, p + 2, '"');
    }
    if IsLong(e, c) {
      DigitPassed(doc, p, e, 2);
      DigitPassed(doc, p, e, 3);
      DigitPassed(doc, p, e, 4);
      DigitPassed(doc, p, e, 5);
    }
  }

  lemma DigitPassed(doc: string, p: nat, e: string, k: nat)
    requires |e| == 6 && HexUnit(e, 2).Some? && Follows(doc, p, e) && 2 <= k < 6
    ensures p + k + 1 <= |doc| && ScanString(doc, p + k, '"') == ScanString(doc, p + k + 1, '"')
  {
    FollowsAt(doc, p, e, k);
  }

  lemma SpelledFront(s: string, p: nat, es: seq<string>, rest: seq<string>, next: nat)
    requires es != [] && rest == es[1..] && Follows(s, p, Joined(es)) && next == p + |es[0]|
    ensures Follows(s, p, es[0]) && Follows(s, next, Joined(rest)) && p + |Joined(es)| == next + |Joined(rest)|
  {
    FollowsSplit(s, p, es[0], Joined(rest));
  }

  lemma {:induction false} SpelledDecoded(s: string, p: nat, es: seq<string>, x: string)
    requires AllSpell(es, x) && Follows(s, p, Joined(es)) && p + |Joined(es)| == |s|
    ensures DecodeFrom(s, p) == Some(x)
    decreases |x|
  {
    if x != "" {
      var next, rest := p + |es[0]|, es[1..];
      SpelledFront(s, p, es, rest, next);
      SpellingDecoded(s, p, es[0], x[0]);
      DecodeStep(s, p, [x[0]], next);
      SpelledDecoded(s, next, rest, x[1..]);
      assert x == [x[0]] + x[1..];
    }
  }

  lemma {:induction false} SpelledPassed(doc: string, p: nat, es: seq<string>, x: string, end: nat)
    requires AllSpell(es, x) && Follows(doc, p, Joined(es)) && end == p + |Joined(es)| && At(doc, end) == '"'
    ensures end < |doc| && ScanString(doc, p, '"') == (true, end + 1)
    decreases |x|
  {
    if x == "" {
      QuoteHere(doc, p);
    } else {
      var next, rest := p + |es[0]|, es[1..];
      SpelledFront(doc, p, es, rest, next);
      SpellingPassed(doc, p, es[0], x[0], next);
      SpelledPassed(doc, next, rest, x[1..], end);
    }
  }

  lemma SpelledStands(doc: string, p: nat, inside: string, open: nat, close: nat)
    requires Follows(doc, p, "\"" + inside + "\"") && open == p + 1 && close == open + |inside|
    ensures close < |doc| && doc[p] == '"' && At(doc, close) == '"' && Follows(doc, open, inside) && doc[open..close] == inside
  {
    FollowsSplit(doc, p, "\"" + inside, "\"");
    FollowsSplit(doc, p, "\"", inside);
    FollowsAt(doc, p, "\"", 0);
    FollowsAt(doc, close, "\"", 0);
  }

  lemma StringHere(f: Features, doc: string, p: nat, open: nat, end: nat)
    requires At(doc, p) == '"' && open == p + 1 && open <= |doc| && ScanString(doc, open, '"') == (true, end)
    ensures ReadToken(f, doc, p) == Token(StringToken, p, end)
  {
    TokenHere(f, doc, p);
  }

  /** Whatever spellings are chosen, the string that is read is the one that is spelled. */
  lemma SpelledRead(f: Features, doc: string, p: nat, depth: int, prior: Value, es: seq<string>, x: string, end: nat)
    requires AllSpell(es, x) && |x| <= MAX_STRING && Follows(doc, p, "\"" + Joined(es) + "\"") && end == p + |Joined(es)| + 2
    ensures end <= |doc|
    ensures ReadValue(f, doc, p, depth, prior) == if depth >= f.stackLimit then Throw else Read(true, Str(x), end, depth)
  {
    var inside, open, close := Joined(es), p + 1, end - 1;
    SpelledStands(doc, p, inside, open, close);
    SpelledPassed(doc, open, es, x, close);
    StringHere(f, doc, p, open, end);
    SpelledDecoded(inside, 0, es, x);
    StringTokenRead(f, doc, p, depth, prior, end, x);
    StringKept(x, end, depth);
  }
}
