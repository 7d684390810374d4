/** The grammar that OurReader (server/utils/jsoncpp.cpp) reads, with its error recovery,
    as functions of the document and the cursor. */
module JsonReading {
  import opened Util
  import opened Texts
  import opened JsonValues
  import opened JsonNumbers
  import opened JsonStrings
  import opened JsonLexer

  const MAX_KEY := 0x4000_0000
  const MAX_STRING := 0x7FFF_FFFF - 4 - 1

  /** Where reading stops: with an exception, or with a verdict, the value left in the
      current node, the cursor and the nesting depth. */
  datatype ReadResult = Throw | Read(ok: bool, value: Value, pos: nat, depth: int)

  // ---- members of an object: a map in the order of its keys ----

  function Lookup(members: seq<Member>, key: string): Option<Value> {
    if members == [] then None
    else if StringLess(members[0].key, key) then Lookup(members[1..], key)
    else if StringEqual(members[0].key, key) then Some(members[0].value)
    else None
  }

  /** Value::operator[] and an assignment: replaces, or inserts before the first larger key. */
  function Put(members: seq<Member>, key: string, value: Value): seq<Member> {
    if members == [] then [Member(key, value)]
    else if StringLess(members[0].key, key) then [members[0]] + Put(members[1..], key, value)
    else if StringEqual(members[0].key, key) then [Member(key, value)] + members[1..]
    else [Member(key, value)] + members
  }

  // ---- scalars ----

  /** decodeNumber, which sends what is no 64-bit integer to decodeDouble. */
  function NumberValue(f: Features, text: string): Option<Value> {
    match IntegerOf(text)
    case Some(v) => Some(v)
    case None => if f.isReal(text) then Some(Real(text)) else None
  }

  /** A string of this length is stored, or the constructor of Value throws; the length
      is cut to 32 bits first. */
  function StringResult(s: string, pos: nat, depth: int): ReadResult {
    var length := |s| % 0x1_0000_0000;
    if length > MAX_STRING then Throw else Read(true, Str(s[..length]), pos, depth)
  }

  function Inside(doc: string, t: Token): string
    requires t.start + 2 <= t.end <= |doc|
  {
    doc[t.start + 1..t.end - 1]
  }

  /** What readValue makes of a token that opens no object and no array. Where no value
      can begin, the depth is not given back. */
  function ScalarResult(f: Features, doc: string, t: Token, depth: int, prior: Value): (r: ReadResult)
    requires t.start <= t.end <= |doc|
    requires t.kind != EndOfStream ==> t.start < t.end
    requires t.kind == StringToken ==> t.start + 2 <= t.end
    ensures r.Read? ==> t.start <= r.pos <= t.end
  {
    match t.kind
    case NumberToken =>
      (match NumberValue(f, doc[t.start..t.end])
       case Some(v) => Read(true, v, t.end, depth)
       case None => Read(false, prior, t.end, depth))
    case StringToken =>
      (match DecodeFrom(Inside(doc, t), 0)
       case Some(s) => StringResult(s, t.end, depth)
       case None => Read(false, prior, t.end, depth))
    case TrueToken => Read(true, Bool(true), t.end, depth)
    case FalseToken => Read(true, Bool(false), t.end, depth)
    case NullToken => Read(true, Null, t.end, depth)
    case NaNToken => Read(true, Real("NaN"), t.end, depth)
    case PosInfToken => Read(true, Real("Infinity"), t.end, depth)
    case NegInfToken => Read(true, Real("-Infinity"), t.end, depth)
    case _ =>
      if IsDroppedNull(f, t.kind) then Read(true, Null, t.end - 1, depth)
      else Read(false, prior, t.end, depth + 1)
  }

  predicate IsDroppedNull(f: Features, kind: TokenKind) {
    f.allowDroppedNullPlaceholders && (kind == ArraySeparator || kind == ObjectEnd || kind == ArrayEnd)
  }

  // ---- the separators of an object ----

  /** In front of a member: the end of the object, an error with its recovery, an
      exception, or a key and its colon. */
  datatype KeyStep = KeyEnd(pos: nat) | KeyBad(pos: nat) | KeyThrow | Key(name: string, pos: nat)

  function KeyText(f: Features, v: Value): string {
    match v
    case Int(i) => IntText(i)
    case UInt(u) => IntText(u)
    case Real(text) => f.realKey(text)
    case _ => ""
  }

  /** `last` is the name of the member before: only behind an empty name, or none, may
      the object end here. */
  function KeyAt(f: Features, doc: string, pos: nat, last: string): (k: KeyStep)
    requires pos <= |doc|
    ensures !k.KeyThrow? ==> pos <= k.pos <= |doc|
    ensures k.Key? ==> pos < k.pos && |k.name| < MAX_KEY
  {
    var t := NextToken(f, doc, pos);
    if t.kind == ObjectEnd && last == "" then KeyEnd(t.end)
    else if t.kind == StringToken then
      match DecodeFrom(Inside(doc, t), 0)
      case Some(name) => ColonAt(f, doc, t.end, name)
      case None => KeyBad(Recover(f, doc, t.end, ObjectEnd))
    else if t.kind == NumberToken && f.allowNumericKeys then
      match NumberValue(f, doc[t.start..t.end])
      case Some(v) => ColonAt(f, doc, t.end, KeyText(f, v))
      case None => KeyBad(Recover(f, doc, t.end, ObjectEnd))
    else KeyBad(Recover(f, doc, t.end, ObjectEnd))
  }

  function ColonAt(f: Features, doc: string, pos: nat, name: string): (k: KeyStep)
    requires pos <= |doc|
    ensures !k.KeyThrow? && !k.KeyEnd? ==> pos <= k.pos <= |doc|
    ensures !k.KeyEnd? && (k.Key? ==> pos < k.pos && |k.name| < MAX_KEY)
  {
    var colon := ReadToken(f, doc, pos);
    if colon.kind != MemberSeparator then KeyBad(Recover(f, doc, colon.end, ObjectEnd))
    else if |name| >= MAX_KEY then KeyThrow
    else Key(name, colon.end)
  }

  /** Behind a value: the end of the object or array, another item, or an error. */
  datatype SeparatorStep = Close(pos: nat) | More(pos: nat) | BadSeparator(pos: nat)

  function CommaAt(f: Features, doc: string, pos: nat): (s: SeparatorStep)
    requires pos <= |doc|
    ensures pos <= s.pos <= |doc| && (s.More? ==> pos < s.pos)
  {
    var comma := ReadToken(f, doc, pos);
    if comma.kind != ObjectEnd && comma.kind != ArraySeparator && comma.kind != CommentToken then
      BadSeparator(Recover(f, doc, comma.end, ObjectEnd))
    else
      var last := if comma.kind == CommentToken then NextToken(f, doc, comma.end) else comma;
      if last.kind == ObjectEnd then Close(last.end) else More(last.end)
  }

  function ArraySeparatorAt(f: Features, doc: string, pos: nat): (s: SeparatorStep)
    requires pos <= |doc|
    ensures pos <= s.pos <= |doc| && (s.More? ==> pos < s.pos)
  {
    var t := NextToken(f, doc, pos);
    if t.kind == ArrayEnd then Close(t.end)
    else if t.kind == ArraySeparator then More(t.end)
    else BadSeparator(Recover(f, doc, t.end, ArrayEnd))
  }

  // ---- values ----

  function Leave(r: ReadResult): ReadResult {
    match r
    case Throw => Throw
    case Read(ok, value, pos, depth) => Read(ok, value, pos, depth - 1)
  }

  /** readValue. `prior` is what the current node holds when the call begins. */
  function ReadValue(f: Features, doc: string, pos: nat, depth: int, prior: Value): (r: ReadResult)
    requires pos <= |doc|
    ensures r.Read? ==> pos <= r.pos <= |doc|
    decreases |doc| - pos, 2
  {
    if depth >= f.stackLimit then Throw
    else TokenValue(f, doc, SkipCommentTokens(f, doc, pos), depth, prior)
  }

  /** The value that begins with the token t. */
  function TokenValue(f: Features, doc: string, t: Token, depth: int, prior: Value): (r: ReadResult)
    requires t.start <= t.end <= |doc|
    requires t.kind != EndOfStream ==> t.start < t.end
    requires t.kind == StringToken ==> t.start + 2 <= t.end
    ensures r.Read? ==> t.start <= r.pos <= |doc|
    decreases |doc| - t.start, 1
  {
    match t.kind
    case ObjectBegin => Leave(ReadMembers(f, doc, t.end, depth + 1, [], ""))
    case ArrayBegin => Leave(ReadArray(f, doc, t.end, depth + 1))
    case _ => ScalarResult(f, doc, t, depth, prior)
  }

  /** One turn of a loop ends it or begins the next one further on. */
  datatype MemberTurn = MembersDone(r: ReadResult) | NextMember(members: seq<Member>, name: string, pos: nat, depth: int)

  /** The rest of readObject, the members so far given. */
  function ReadMembers(f: Features, doc: string, pos: nat, depth: int, members: seq<Member>, last: string): (r: ReadResult)
    requires pos <= |doc|
    ensures r.Read? ==> pos <= r.pos <= |doc|
    decreases |doc| - pos, 4
  {
    match ReadMember(f, doc, pos, depth, members, last)
    case MembersDone(r) => r
    case NextMember(more, name, next, d) => ReadMembers(f, doc, next, d, more, name)
  }

  function ReadMember(f: Features, doc: string, pos: nat, depth: int, members: seq<Member>, last: string): (m: MemberTurn)
    requires pos <= |doc|
    ensures m.MembersDone? && m.r.Read? ==> pos <= m.r.pos <= |doc|
    ensures m.NextMember? ==> pos < m.pos <= |doc|
    decreases |doc| - pos, 3
  {
    match KeyAt(f, doc, pos, last)
    case KeyEnd(end) => MembersDone(Read(true, Object(members), end, depth))
    case KeyBad(end) => MembersDone(Read(false, Object(members), end, depth))
    case KeyThrow => MembersDone(Throw)
    case Key(name, start) => ReadNamed(f, doc, start, depth, members, name)
  }

  /** The value of a member, behind its colon. */
  function ReadNamed(f: Features, doc: string, pos: nat, depth: int, members: seq<Member>, name: string): (m: MemberTurn)
    requires pos <= |doc|
    ensures m.MembersDone? && m.r.Read? ==> pos <= m.r.pos <= |doc|
    ensures m.NextMember? ==> pos < m.pos <= |doc|
    decreases |doc| - pos, 3
  {
    var present := Lookup(members, name);
    if f.rejectDupKeys && present.Some? then
      MembersDone(Read(false, Object(members), Recover(f, doc, pos, ObjectEnd), depth))
    else
      AfterMember(f, doc, members, name, ReadValue(f, doc, pos, depth, present.GetOr(Null)))
  }

  function AfterMember(f: Features, doc: string, members: seq<Member>, name: string, r: ReadResult): (m: MemberTurn)
    requires r.Read? ==> r.pos <= |doc|
    ensures m.MembersDone? && m.r.Read? ==> r.Read? && r.pos <= m.r.pos <= |doc|
    ensures m.NextMember? ==> r.Read? && r.pos < m.pos <= |doc|
  {
    match r
    case Throw => MembersDone(Throw)
    case Read(ok, value, pos, depth) =>
      var more := Put(members, name, value);
      if !ok then MembersDone(Read(false, Object(more), Recover(f, doc, pos, ObjectEnd), depth))
      else
        match CommaAt(f, doc, pos)
        case Close(end) => MembersDone(Read(true, Object(more), end, depth))
        case BadSeparator(end) => MembersDone(Read(false, Object(more), end, depth))
        case More(next) => NextMember(more, name, next, depth)
  }

  /** readArray, behind its opening bracket. */
  function ReadArray(f: Features, doc: string, pos: nat, depth: int): (r: ReadResult)
    requires pos <= |doc|
    ensures r.Read? ==> pos <= r.pos <= |doc|
    decreases |doc| - pos, 5
  {
    var p := SkipSpaces(doc, pos);
    if At(doc, p) == ']' then Read(true, Array([]), ReadToken(f, doc, p).end, depth)
    else ReadElements(f, doc, p, depth, [])
  }

  datatype ElementTurn = ElementsDone(r: ReadResult) | NextElement(elems: seq<Value>, pos: nat, depth: int)

  /** The rest of readArray, the elements so far given. */
  function ReadElements(f: Features, doc: string, pos: nat, depth: int, elems: seq<Value>): (r: ReadResult)
    requires pos <= |doc|
    ensures r.Read? ==> pos <= r.pos <= |doc|
    decreases |doc| - pos, 4
  {
    match ReadElement(f, doc, pos, depth, elems)
    case ElementsDone(r) => r
    case NextElement(more, next, d) => ReadElements(f, doc, next, d, more)
  }

  function ReadElement(f: Features, doc: string, pos: nat, depth: int, elems: seq<Value>): (e: ElementTurn)
    requires pos <= |doc|
    ensures e.ElementsDone? && e.r.Read? ==> pos <= e.r.pos <= |doc|
    ensures e.NextElement? ==> pos < e.pos <= |doc|
    decreases |doc| - pos, 3
  {
    AfterElement(f, doc, elems, ReadValue(f, doc, pos, depth, Null))
  }

  function AfterElement(f: Features, doc: string, elems: seq<Value>, r: ReadResult): (e: ElementTurn)
    requires r.Read? ==> r.pos <= |doc|
    ensures e.ElementsDone? && e.r.Read? ==> r.Read? && r.pos <= e.r.pos <= |doc|
    ensures e.NextElement? ==> r.Read? && r.pos < e.pos <= |doc|
  {
    match r
    case Throw => ElementsDone(Throw)
    case Read(ok, value, pos, depth) =>
      var more := elems + [value];
      if !ok then ElementsDone(Read(false, Array(more), Recover(f, doc, pos, ArrayEnd), depth))
      else
        match ArraySeparatorAt(f, doc, pos)
        case Close(end) => ElementsDone(Read(true, Array(more), end, depth))
        case BadSeparator(end) => ElementsDone(Read(false, Array(more), end, depth))
        case More(next) => NextElement(more, next, depth)
  }

  // ---- documents ----

  datatype ParseResult = ParseThrow | Parsed(ok: bool, root: Value)

  /** The checks of parse behind the root value, whose token is the one in front. */
  predicate DocumentOk(f: Features, ok: bool, root: Value, behind: TokenKind) {
    && ok
    && (f.failIfExtra ==> behind == ErrorToken || behind == EndOfStream)
    && (f.strictRoot ==> root.Array? || root.Object?)
  }

  /** parse; `root` is what the caller's value holds before. */
  function Parse(f: Features, doc: string, root: Value): ParseResult {
    match ReadValue(f, doc, 0, 0, root)
    case Throw => ParseThrow
    case Read(ok, value, pos, _) =>
      Parsed(DocumentOk(f, ok, value, SkipCommentTokens(f, doc, pos).kind), value)
  }
}
