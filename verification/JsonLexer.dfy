/** The tokens of OurReader (server/utils/jsoncpp.cpp), as functions of the document and
    the cursor. Peeks at the end of the document read a NUL. */
module JsonLexer {
  import opened Texts
  import opened Digits

  /** OurFeatures. isReal stands for what sscanf("%lf") accepts and realKey for the text
      that asString() gives of the double. */
  datatype Features = Features(
    allowComments: bool,
    strictRoot: bool,
    allowDroppedNullPlaceholders: bool,
    allowNumericKeys: bool,
    allowSingleQuotes: bool,
    stackLimit: int,
    failIfExtra: bool,
    rejectDupKeys: bool,
    allowSpecialFloats: bool,
    isReal: string -> bool,
    realKey: string -> string)

  datatype TokenKind =
    | EndOfStream
    | ObjectBegin
    | ObjectEnd
    | ArrayBegin
    | ArrayEnd
    | StringToken
    | NumberToken
    | TrueToken
    | FalseToken
    | NullToken
    | NaNToken
    | PosInfToken
    | NegInfToken
    | ArraySeparator
    | MemberSeparator
    | CommentToken
    | ErrorToken

  /** The cursor is at `end` after the token has been read. */
  datatype Token = Token(kind: TokenKind, start: nat, end: nat)

  predicate IsSpace(c: char) {
    c == ' ' || c == '\t' || c == '\r' || c == '\n'
  }

  /** getNextChar moves the cursor unless it is at the end. */
  function Next(doc: string, p: nat): (q: nat)
    requires p <= |doc|
    ensures p <= q <= |doc|
  {
    if p == |doc| then p else p + 1
  }

  function SkipSpaces(doc: string, p: nat): (q: nat)
    requires p <= |doc|
    ensures p <= q <= |doc|
    decreases |doc| - p
  {
    if p < |doc| && IsSpace(doc[p]) then SkipSpaces(doc, p + 1) else p
  }

  /** match: the cursor moves only if the whole pattern is there. */
  function Match(doc: string, p: nat, pattern: string): (r: (bool, nat))
    requires p <= |doc|
    ensures p <= r.1 <= |doc|
  {
    if Follows(doc, p, pattern) then (true, p + |pattern|) else (false, p)
  }

  /** Where a string that began with the given quote ends: behind its closing quote. */
  function ScanString(doc: string, p: nat, quote: char): (r: (bool, nat))
    requires p <= |doc|
    ensures p <= r.1 <= |doc| && (r.0 ==> p < r.1)
    decreases |doc| - p
  {
    if p == |doc| then (false, p)
    else if doc[p] == '\\' then ScanString(doc, Next(doc, p + 1), quote)
    else if doc[p] == quote then (true, p + 1)
    else ScanString(doc, p + 1, quote)
  }

  function SkipDigits(doc: string, p: nat): (q: nat)
    requires p <= |doc|
    ensures p <= q <= |doc|
    decreases |doc| - p
  {
    if p < |doc| && IsDigit(doc[p]) then SkipDigits(doc, p + 1) else p
  }

  /** The fractional part, if there is one. */
  function FractionEnd(doc: string, p: nat): (q: nat)
    requires p <= |doc|
    ensures p <= q <= |doc|
  {
    if At(doc, p) == '.' then SkipDigits(doc, p + 1) else p
  }

  function ExponentEnd(doc: string, p: nat): (q: nat)
    requires p <= |doc|
    ensures p <= q <= |doc|
  {
    if At(doc, p) == 'e' || At(doc, p) == 'E' then
      var sign := p + 1;
      SkipDigits(doc, if At(doc, sign) == '+' || At(doc, sign) == '-' then sign + 1 else sign)
    else p
  }

  /** The end of a number whose first char is already consumed. */
  function NumberEnd(doc: string, p: nat): (q: nat)
    requires p <= |doc|
    ensures p <= q <= |doc|
  {
    ExponentEnd(doc, FractionEnd(doc, SkipDigits(doc, p)))
  }

  /** The loop of readCStyleComment stops in front of the slash of the first star-slash. */
  function CStyleStop(doc: string, p: nat): (q: nat)
    requires p <= |doc|
    ensures p <= q <= |doc|
    decreases |doc| - p
  {
    if p == |doc| then p
    else if doc[p] == '*' && At(doc, p + 1) == '/' then p + 1
    else CStyleStop(doc, p + 1)
  }

  function CppStyleEnd(doc: string, p: nat): (q: nat)
    requires p <= |doc|
    ensures p <= q <= |doc|
    decreases |doc| - p
  {
    if p == |doc| then p
    else if doc[p] == '\n' then p + 1
    else if doc[p] == '\r' then (if At(doc, p + 1) == '\n' then p + 2 else p + 1)
    else CppStyleEnd(doc, p + 1)
  }

  /** readComment, behind the first slash. */
  function ReadComment(doc: string, p: nat): (r: (bool, nat))
    requires p <= |doc|
    ensures p <= r.1 <= |doc|
  {
    var c, q := At(doc, p), Next(doc, p);
    if c == '*' then
      var stop := CStyleStop(doc, q);
      (At(doc, stop) == '/', Next(doc, stop))
    else if c == '/' then (true, CppStyleEnd(doc, q))
    else (false, q)
  }

  /** A token that is wrong in itself becomes an error token. */
  function Checked(kind: TokenKind, start: nat, r: (bool, nat)): Token {
    Token(if r.0 then kind else ErrorToken, start, r.1)
  }

  function Special(f: Features, doc: string, p: nat, pattern: string): (r: (bool, nat))
    requires p <= |doc|
    ensures p <= r.1 <= |doc|
  {
    if f.allowSpecialFloats then Match(doc, p, pattern) else (false, p)
  }

  /** The token that begins with the char in front of q. A single quote that does not
      open a string is taken for the first slash of a comment. */
  function TokenOf(f: Features, doc: string, c: char, start: nat, q: nat): (t: Token)
    requires start <= q <= |doc|
    ensures t.start == start && q <= t.end <= |doc|
    ensures t.kind == EndOfStream ==> c == '\0'
    ensures t.kind == StringToken ==> q < t.end
  {
    match c
    case '{' => Token(ObjectBegin, start, q)
    case '}' => Token(ObjectEnd, start, q)
    case '[' => Token(ArrayBegin, start, q)
    case ']' => Token(ArrayEnd, start, q)
    case ',' => Token(ArraySeparator, start, q)
    case ':' => Token(MemberSeparator, start, q)
    case '"' => Checked(StringToken, start, ScanString(doc, q, '"'))
    case '\'' =>
      if f.allowSingleQuotes then Checked(StringToken, start, ScanString(doc, q, '\''))
      else Checked(CommentToken, start, ReadComment(doc, q))
    case '/' => Checked(CommentToken, start, ReadComment(doc, q))
    case '-' =>
      if At(doc, q) == 'I' then Checked(NegInfToken, start, Special(f, doc, q + 1, "nfinity"))
      else Token(NumberToken, start, NumberEnd(doc, q))
    case 't' => Checked(TrueToken, start, Match(doc, q, "rue"))
    case 'f' => Checked(FalseToken, start, Match(doc, q, "alse"))
    case 'n' => Checked(NullToken, start, Match(doc, q, "ull"))
    case 'N' => Checked(NaNToken, start, Special(f, doc, q, "aN"))
    case 'I' => Checked(PosInfToken, start, Special(f, doc, q, "nfinity"))
    case '\0' => Token(EndOfStream, start, q)
    case _ => if IsDigit(c) then Token(NumberToken, start, NumberEnd(doc, q)) else Token(ErrorToken, start, q)
  }

  /** readToken. Every token but the end of the stream consumes at least one char. */
  function ReadToken(f: Features, doc: string, p: nat): (t: Token)
    requires p <= |doc|
    ensures p <= t.start <= t.end <= |doc|
    ensures t.kind != EndOfStream ==> t.start < t.end
    ensures t.kind == StringToken ==> t.start + 2 <= t.end
    ensures t.start == |doc| ==> t.kind == EndOfStream
  {
    var start := SkipSpaces(doc, p);
    TokenOf(f, doc, At(doc, start), start, Next(doc, start))
  }

  /** Reads on until a token is no comment. */
  function NextToken(f: Features, doc: string, p: nat): (t: Token)
    requires p <= |doc|
    ensures p <= t.start <= t.end <= |doc| && t.kind != CommentToken
    ensures t.kind != EndOfStream ==> t.start < t.end
    ensures t.kind == StringToken ==> t.start + 2 <= t.end
    decreases |doc| - p
  {
    var t := ReadToken(f, doc, p);
    if t.kind == CommentToken then NextToken(f, doc, t.end) else t
  }

  /** skipCommentTokens */
  function SkipCommentTokens(f: Features, doc: string, p: nat): (t: Token)
    requires p <= |doc|
    ensures p <= t.start <= t.end <= |doc|
    ensures t.kind != EndOfStream ==> t.start < t.end
    ensures t.kind == StringToken ==> t.start + 2 <= t.end
  {
    if f.allowComments then NextToken(f, doc, p) else ReadToken(f, doc, p)
  }

  /** recoverFromError: skips tokens up to the wanted one or the end of the stream. */
  function Recover(f: Features, doc: string, p: nat, kind: TokenKind): (q: nat)
    requires p <= |doc|
    ensures p <= q <= |doc|
    decreases |doc| - p
  {
    var t := ReadToken(f, doc, p);
    if t.kind == kind || t.kind == EndOfStream then t.end else Recover(f, doc, t.end, kind)
  }
}
