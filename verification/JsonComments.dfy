/** A comment in front of a document (server/utils/jsoncpp.cpp): skipped by a reader that
    allows comments, and refused by any other. */
module JsonComments {
  import opened Texts
  import opened Digits
  import opened JsonValues
  import opened JsonLexer
  import opened JsonReading
  import JsonRoundTrip
  import opened JsonStreams
  import opened JsonTokens

  /** The document stands at the end of another text, n chars further on. */
  predicate Moved(doc: string, n: nat, whole: string) {
    |whole| == n + |doc| && forall k :: n <= k < |whole| ==> whole[k] == doc[k - n]
  }

  // ---- what a token is does not depend on what stands in front of it ----

  lemma AtMoved(doc: string, n: nat, whole: string, p: nat, q: nat)
    requires Moved(doc, n, whole) && q == p + n
    ensures At(whole, q) == At(doc, p)
  {
  }

  lemma {:induction false} SpacesMoved(doc: string, n: nat, whole: string, p: nat, q: nat)
    requires Moved(doc, n, whole) && p <= |doc| && q == p + n
    ensures SkipSpaces(whole, q) == SkipSpaces(doc, p) + n
    decreases |doc| - p
  {
    if p < |doc| && IsSpace(doc[p]) {
      SpacesMoved(doc, n, whole, p + 1, q + 1);
    }
  }

  lemma {:induction false} DigitsMoved(doc: string, n: nat, whole: string, p: nat, q: nat)
    requires Moved(doc, n, whole) && p <= |doc| && q == p + n
    ensures SkipDigits(whole, q) == SkipDigits(doc, p) + n
    decreases |doc| - p
  {
    if p < |doc| && IsDigit(doc[p]) {
      DigitsMoved(doc, n, whole, p + 1, q + 1);
    }
  }

  lemma {:induction false} StringMoved(doc: string, n: nat, whole: string, p: nat, q: nat, quote: char)
    requires Moved(doc, n, whole) && p <= |doc| && q == p + n
    ensures ScanString(whole, q, quote) == (ScanString(doc, p, quote).0, ScanString(doc, p, quote).1 + n)
    decreases |doc| - p
  {
    if p < |doc| {
      if doc[p] == '\\' {
        StringMoved(doc, n, whole, Next(doc, p + 1), Next(whole, q + 1), quote);
      } else if doc[p] != quote {
        StringMoved(doc, n, whole, p + 1, q + 1, quote);
      }
    }
  }

  lemma {:induction false} StarMoved(doc: string, n: nat, whole: string, p: nat, q: nat)
    requires Moved(doc, n, whole) && p <= |doc| && q == p + n
    ensures CStyleStop(whole, q) == CStyleStop(doc, p) + n
    decreases |doc| - p
  {
    AtMoved(doc, n, whole, p + 1, q + 1);
    if p < |doc| && !(doc[p] == '*' && At(doc, p + 1) == '/') {
      StarMoved(doc, n, whole, p + 1, q + 1);
    }
  }

  lemma {:induction false} LineMoved(doc: string, n: nat, whole: string, p: nat, q: nat)
    requires Moved(doc, n, whole) && p <= |doc| && q == p + n
    ensures CppStyleEnd(whole, q) == CppStyleEnd(doc, p) + n
    decreases |doc| - p
  {
    AtMoved(doc, n, whole, p + 1, q + 1);
    if p < |doc| && doc[p] != '\n' && doc[p] != '\r' {
      LineMoved(doc, n, whole, p + 1, q + 1);
    }
  }

  lemma FollowsMoved(doc: string, n: nat, whole: string, p: nat, q: nat, t: string)
    requires Moved(doc, n, whole) && q == p + n
    ensures Follows(whole, q, t) <==> Follows(doc, p, t)
  {
    if p + |t| <= |doc| {
      assert whole[q..q + |t|] == doc[p..p + |t|];
    }
  }

  lemma NumberMoved(doc: string, n: nat, whole: string, p: nat, q: nat)
    requires Moved(doc, n, whole) && p <= |doc| && q == p + n
    ensures NumberEnd(whole, q) == NumberEnd(doc, p) + n
  {
    DigitsMoved(doc, n, whole, p, q);
    var a, a' := SkipDigits(doc, p), SkipDigits(whole, q);
    FractionMoved(doc, n, whole, a, a');
    ExponentMoved(doc, n, whole, FractionEnd(doc, a), FractionEnd(whole, a'));
  }

  lemma FractionMoved(doc: string, n: nat, whole: string, p: nat, q: nat)
    requires Moved(doc, n, whole) && p <= |doc| && q == p + n
    ensures FractionEnd(whole, q) == FractionEnd(doc, p) + n
  {
    AtMoved(doc, n, whole, p, q);
    if At(doc, p) == '.' {
      DigitsMoved(doc, n, whole, p + 1, q + 1);
    }
  }

  lemma ExponentMoved(doc: string, n: nat, whole: string, p: nat, q: nat)
    requires Moved(doc, n, whole) && p <= |doc| && q == p + n
    ensures ExponentEnd(whole, q) == ExponentEnd(doc, p) + n
  {
    AtMoved(doc, n, whole, p, q);
    if At(doc, p) == 'e' || At(doc, p) == 'E' {
      var sign, sign' := p + 1, q + 1;
      AtMoved(doc, n, whole, sign, sign');
      if At(doc, sign) == '+' || At(doc, sign) == '-' {
        DigitsMoved(doc, n, whole, sign + 1, sign' + 1);
      } else {
        DigitsMoved(doc, n, whole, sign, sign');
      }
    }
  }

  lemma CommentMoved(doc: string, n: nat, whole: string, p: nat, q: nat)
    requires Moved(doc, n, whole) && p <= |doc| && q == p + n
    ensures ReadComment(whole, q) == (ReadComment(doc, p).0, ReadComment(doc, p).1 + n)
  {
    AtMoved(doc, n, whole, p, q);
    var next, next' := Next(doc, p), Next(whole, q);
    StarMoved(doc, n, whole, next, next');
    LineMoved(doc, n, whole, next, next');
    AtMoved(doc, n, whole, CStyleStop(doc, next), CStyleStop(whole, next'));
  }

  lemma MatchMoved(f: Features, doc: string, n: nat, whole: string, p: nat, q: nat, pattern: string)
    requires Moved(doc, n, whole) && p <= |doc| && q == p + n
    ensures Match(whole, q, pattern) == (Match(doc, p, pattern).0, Match(doc, p, pattern).1 + n)
    ensures Special(f, whole, q, pattern) == (Special(f, doc, p, pattern).0, Special(f, doc, p, pattern).1 + n)
  {
    FollowsMoved(doc, n, whole, p, q, pattern);
  }

  function MovedToken(t: Token, n: nat): Token {
    Token(t.kind, t.start + n, t.end + n)
  }

  lemma MinusMoved(f: Features, doc: string, n: nat, whole: string, start: nat, begin: nat, p: nat, q: nat)
    requires Moved(doc, n, whole) && start <= p <= |doc| && begin == start + n && q == p + n
    ensures TokenOf(f, whole, '-', begin, q) == MovedToken(TokenOf(f, doc, '-', start, p), n)
  {
    NumberMoved(doc, n, whole, p, q);
    AtMoved(doc, n, whole, p, q);
    if p < |doc| {
      var next, next' := p + 1, q + 1;
      MatchMoved(f, doc, n, whole, next, next', "nfinity");
    }
  }

  lemma WordMoved(f: Features, doc: string, n: nat, whole: string, c: char, start: nat, begin: nat, p: nat, q: nat)
    requires Moved(doc, n, whole) && start <= p <= |doc| && begin == start + n && q == p + n && c in "tfnNI"
    ensures TokenOf(f, whole, c, begin, q) == MovedToken(TokenOf(f, doc, c, start, p), n)
  {
    MatchMoved(f, doc, n, whole, p, q, if c == 't' then "rue" else if c == 'f' then "alse" else if c == 'n' then "ull"
                                       else if c == 'N' then "aN" else "nfinity");
  }

  lemma TokenMoved(f: Features, doc: string, n: nat, whole: string, c: char, start: nat, begin: nat, p: nat, q: nat)
    requires Moved(doc, n, whole) && start <= p <= |doc| && begin == start + n && q == p + n
    ensures TokenOf(f, whole, c, begin, q) == MovedToken(TokenOf(f, doc, c, start, p), n)
  {
    match c
    case '"' => StringMoved(doc, n, whole, p, q, '"');
    case '\'' =>
      StringMoved(doc, n, whole, p, q, '\'');
      CommentMoved(doc, n, whole, p, q);
    case '/' => CommentMoved(doc, n, whole, p, q);
    case '-' => MinusMoved(f, doc, n, whole, start, begin, p, q);
    case _ =>
      if c in "tfnNI" {
        WordMoved(f, doc, n, whole, c, start, begin, p, q);
      } else {
        NumberMoved(doc, n, whole, p, q);
      }
  }

  lemma ReadTokenMoved(f: Features, doc: string, n: nat, whole: string, p: nat, q: nat)
    requires Moved(doc, n, whole) && p <= |doc| && q == p + n
    ensures ReadToken(f, whole, q) == MovedToken(ReadToken(f, doc, p), n)
  {
    var start, begin := SkipSpaces(doc, p), SkipSpaces(whole, q);
    SpacesMoved(doc, n, whole, p, q);
    AtMoved(doc, n, whole, start, begin);
    TokenMoved(f, doc, n, whole, At(doc, start), start, begin, Next(doc, start), Next(whole, begin));
  }

  lemma {:induction false} MovedAgrees(f: Features, doc: string, n: nat, whole: string, p: nat, q: nat)
    requires Moved(doc, n, whole) && p <= |doc| && q == p + n
    ensures Agree(f, whole, q, doc, p)
    decreases |doc| - p
  {
    var t, t' := ReadToken(f, doc, p), ReadToken(f, whole, q);
    ReadTokenMoved(f, doc, n, whole, p, q);
    MovedSpelling(doc, n, whole, t, t');
    if t.start < t.end {
      MovedAgrees(f, doc, n, whole, t.end, t'.end);
    }
  }

  lemma MovedSpelling(doc: string, n: nat, whole: string, t: Token, t': Token)
    requires Moved(doc, n, whole) && t.start <= t.end <= |doc| && t' == MovedToken(t, n)
    ensures SameSpelling(whole, t', doc, t)
  {
    assert whole[t'.start..t'.end] == doc[t.start..t.end];
  }

  // ---- a comment in front ----

  lemma TokensBehindComment(f: Features, whole: string, n: nat, doc: string, t: Token, t': Token)
    requires Moved(doc, n, whole) && ReadToken(f, whole, 0) == Token(CommentToken, 0, n) && f.allowComments
    requires t == SkipCommentTokens(f, whole, 0) && t' == SkipCommentTokens(f, doc, 0)
    ensures AgreeAt(f, whole, t, doc, t')
  {
    MovedAgrees(f, doc, n, whole, 0, n);
    NextAgrees(f, whole, n, doc, 0);
    assert t == NextToken(f, whole, n) && t' == NextToken(f, doc, 0);
  }

  /** Where the comment is skipped, the value behind it is read. */
  lemma ReadBehindComment(f: Features, whole: string, n: nat, doc: string, depth: int, root: Value)
    requires Moved(doc, n, whole) && ReadToken(f, whole, 0) == Token(CommentToken, 0, n) && f.allowComments
    ensures SameRead(f, whole, ReadValue(f, whole, 0, depth, root), doc, ReadValue(f, doc, 0, depth, root))
  {
    var t, t' := SkipCommentTokens(f, whole, 0), SkipCommentTokens(f, doc, 0);
    TokensBehindComment(f, whole, n, doc, t, t');
    OneCharSkipped(f, whole, 0);
    OneCharSkipped(f, doc, 0);
    TokenValueAgrees(f, whole, t, doc, t', depth, root);
  }

  lemma SameParse(f: Features, doc: string, doc': string, root: Value)
    requires SameRead(f, doc, ReadValue(f, doc, 0, 0, root), doc', ReadValue(f, doc', 0, 0, root))
    ensures Parse(f, doc, root) == Parse(f, doc', root)
  {
    var r, r' := ReadValue(f, doc, 0, 0, root), ReadValue(f, doc', 0, 0, root);
    if r.Read? {
      SkipAgrees(f, doc, r.pos, doc', r'.pos);
    }
  }

  lemma CommentRefused(f: Features, whole: string, n: nat, root: Value)
    requires ReadToken(f, whole, 0) == Token(CommentToken, 0, n) && !f.allowComments
    ensures Parse(f, whole, root) == if f.stackLimit <= 0 then ParseThrow else Parsed(false, root)
  {
    JsonRoundTrip.ScalarRead(f, whole, 0, 0, root, Token(CommentToken, 0, n));
  }

  lemma NothingRead(f: Features, doc: string, root: Value)
    requires f.stackLimit <= 0
    ensures Parse(f, doc, root) == ParseThrow
  {
  }

  /** Texts between the marks of a comment that do not end it. */
  predicate InStars(text: string) {
    forall k :: 0 <= k && k + 1 < |text| ==> !(text[k] == '*' && text[k + 1] == '/')
  }

  predicate InLine(text: string) {
    forall k :: 0 <= k < |text| ==> text[k] != '\n' && text[k] != '\r'
  }

  /** What parse makes of a document with a comment in front. */
  function BehindComment(f: Features, doc: string, root: Value): ParseResult {
    if f.stackLimit <= 0 then ParseThrow else if f.allowComments then Parse(f, doc, root) else Parsed(false, root)
  }

  lemma CommentInFront(f: Features, whole: string, n: nat, doc: string, root: Value)
    requires Moved(doc, n, whole) && ReadToken(f, whole, 0) == Token(CommentToken, 0, n)
    ensures Parse(f, whole, root) == BehindComment(f, doc, root)
  {
    if f.stackLimit <= 0 {
      NothingRead(f, whole, root);
    } else if f.allowComments {
      ReadBehindComment(f, whole, n, doc, 0, root);
      SameParse(f, whole, doc, root);
    } else {
      CommentRefused(f, whole, n, root);
    }
  }

  lemma StarCommentRead(f: Features, text: string, doc: string, whole: string, n: nat)
    requires InStars(text) && whole == "/*" + text + "*/" + doc && n == |text| + 4
    ensures Moved(doc, n, whole) && ReadToken(f, whole, 0) == Token(CommentToken, 0, n)
  {
    var q := |text| + 2;
    assert whole[0] == '/' && whole[1] == '*' && whole[q] == '*' && whole[q + 1] == '/';
    forall k | 2 <= k < q ensures !StarSlash(whole, k) {
      assert whole[k] == text[k - 2];
    }
    StarComment(f, whole, 0, q);
  }

  lemma LineCommentRead(f: Features, text: string, doc: string, whole: string, n: nat)
    requires InLine(text) && whole == "//" + text + "\n" + doc && n == |text| + 3
    ensures Moved(doc, n, whole) && ReadToken(f, whole, 0) == Token(CommentToken, 0, n)
  {
    var q := |text| + 2;
    assert whole[0] == '/' && whole[1] == '/' && whole[q] == '\n';
    forall k | 2 <= k < q ensures !EndsLine(whole, k) {
      assert whole[k] == text[k - 2];
    }
    assert !Follows(whole, q, "\r\n") by {
      if Follows(whole, q, "\r\n") {
        FollowsAt(whole, q, "\r\n", 0);
      }
    }
    LineComment(f, whole, 0, q);
  }

  /** A comment of either kind in front of any document, good or bad. */
  lemma CommentsInFront(f: Features, text: string, doc: string, root: Value)
    ensures InStars(text) ==> Parse(f, "/*" + text + "*/" + doc, root) == BehindComment(f, doc, root)
    ensures InLine(text) ==> Parse(f, "//" + text + "\n" + doc, root) == BehindComment(f, doc, root)
  {
    if InStars(text) {
      StarCommentRead(f, text, doc, "/*" + text + "*/" + doc, |text| + 4);
      CommentInFront(f, "/*" + text + "*/" + doc, |text| + 4, doc, root);
    }
    if InLine(text) {
      LineCommentRead(f, text, doc, "//" + text + "\n" + doc, |text| + 3);
      CommentInFront(f, "//" + text + "\n" + doc, |text| + 3, doc, root);
    }
  }
}
