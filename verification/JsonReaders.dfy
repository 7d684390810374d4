/** OurReader of server/utils/jsoncpp.cpp: a cursor that moves over a document. Every
    method is proved to do what the functions of JsonLexer and JsonReading say. */
module JsonReaders {
  import opened Util
  import opened Texts
  import opened Digits
  import opened JsonValues
  import opened JsonNumbers
  import opened JsonStrings
  import opened JsonLexer
  import opened JsonReading

  class OurReader {
    const features: Features
    var document: string
    var current: nat
    var stackDepth: int

    predicate Valid()
      reads this
    {
      current <= |document|
    }

    /** What a method that reads a value has come to. */
    function Outcome(threw: bool, ok: bool, value: Value): ReadResult
      reads this
    {
      if threw then Throw else Read(ok, value, current, stackDepth)
    }

    constructor (features: Features)
      ensures this.features == features && document == "" && current == 0 && stackDepth == 0
    {
      this.features := features;
      document := "";
      current := 0;
      stackDepth := 0;
    }

    // ---- chars ----

    method GetNextChar() returns (c: char)
      requires Valid()
      modifies this`current
      ensures current == Next(document, old(current)) && c == At(document, old(current))
    {
      if current == |document| {
        return '\0';
      }
      c := document[current];
      current := current + 1;
    }

    method SkipSpaces()
      requires Valid()
      modifies this`current
      ensures current == JsonLexer.SkipSpaces(document, old(current))
    {
      while current != |document|
        invariant Valid()
        invariant JsonLexer.SkipSpaces(document, current) == JsonLexer.SkipSpaces(document, old(current))
        decreases |document| - current
      {
        if !IsSpace(document[current]) {
          break;
        }
        current := current + 1;
      }
    }

    /** Compares the pattern from its last char to its first. */
    method Match(pattern: string) returns (ok: bool)
      requires Valid()
      modifies this`current
      ensures (ok, current) == JsonLexer.Match(document, old(current), pattern)
    {
      if |document| - current < |pattern| {
        return false;
      }
      var index := |pattern|;
      while index > 0
        invariant 0 <= index <= |pattern|
        invariant forall k :: index <= k < |pattern| ==> document[current + k] == pattern[k]
      {
        index := index - 1;
        if document[current + index] != pattern[index] {
          assert document[current..current + |pattern|][index] != pattern[index];
          return false;
        }
      }
      assert document[current..current + |pattern|] == pattern;
      current := current + |pattern|;
      ok := true;
    }

    method ReadString(quote: char) returns (ok: bool)
      requires Valid()
      modifies this`current
      ensures (ok, current) == ScanString(document, old(current), quote)
    {
      while current != |document|
        invariant Valid()
        invariant ScanString(document, current, quote) == ScanString(document, old(current), quote)
        decreases |document| - current
      {
        var c := GetNextChar();
        if c == '\\' {
          var _ := GetNextChar();
        } else if c == quote {
          return true;
        }
      }
      ok := false;
    }

    /** Goes on while c is a digit; p is where the next char is, and `current` where c was. */
    method SkipDigits(c0: char, p0: nat) returns (c: char, p: nat)
      requires Valid() && p0 <= |document|
      modifies this`current
      ensures Valid()
      ensures IsDigit(c0) ==>
                current == JsonLexer.SkipDigits(document, p0) && c == At(document, current) && p == Next(document, current)
      ensures !IsDigit(c0) ==> current == old(current) && c == c0 && p == p0
    {
      c, p := c0, p0;
      ghost var started := false;
      while IsDigit(c)
        invariant p <= |document| && Valid()
        invariant started ==>
                    IsDigit(c0) && current <= p && c == At(document, current) && p == Next(document, current)
                    && JsonLexer.SkipDigits(document, current) == JsonLexer.SkipDigits(document, p0)
        invariant !started ==> current == old(current) && c == c0 && p == p0
        decreases |document| - p, IsDigit(c)
      {
        current := p;
        c := At(document, p);
        if p < |document| {
          p := p + 1;
        }
        started := true;
      }
    }

    /** readNumber; with checkInf a following 'I' is consumed instead. */
    method ReadNumber(checkInf: bool) returns (isNumber: bool)
      requires Valid()
      modifies this`current
      ensures isNumber == !(checkInf && At(document, old(current)) == 'I')
      ensures current == if isNumber then NumberEnd(document, old(current)) else old(current) + 1
    {
      var p := current;
      if checkInf && p != |document| && document[p] == 'I' {
        current := p + 1;
        return false;
      }
      var c;
      c, p := SkipDigits('0', p);
      c, p := ReadFraction(c, p);
      ReadExponent(c, p);
      isNumber := true;
    }

    method ReadFraction(c0: char, p0: nat) returns (c: char, p: nat)
      requires Valid() && c0 == At(document, current) && p0 == Next(document, current)
      modifies this`current
      ensures current == FractionEnd(document, old(current))
      ensures c == At(document, current) && p == Next(document, current)
    {
      c, p := c0, p0;
      if c == '.' {
        c, p := Step(p);
        c, p := SkipDigits(c, p);
      }
    }

    method ReadExponent(c0: char, p0: nat)
      requires Valid() && c0 == At(document, current) && p0 == Next(document, current)
      modifies this`current
      ensures current == ExponentEnd(document, old(current))
    {
      var c, p := c0, p0;
      if c == 'e' || c == 'E' {
        c, p := Step(p);
        if c == '+' || c == '-' {
          c, p := Step(p);
        }
        c, p := SkipDigits(c, p);
      }
    }

    /** Takes the char at p, leaving `current` on it. */
    method Step(p0: nat) returns (c: char, p: nat)
      requires p0 <= |document|
      modifies this`current
      ensures current == p0 && c == At(document, p0) && p == Next(document, p0)
    {
      current, p, c := p0, p0, '\0';
      if p < |document| {
        c := document[p];
        p := p + 1;
      }
    }

    // ---- comments ----

    method ReadCStyleComment() returns (ok: bool)
      requires Valid()
      modifies this`current
      ensures var stop := CStyleStop(document, old(current));
              ok == (At(document, stop) == '/') && current == Next(document, stop)
    {
      while current != |document|
        invariant Valid()
        invariant CStyleStop(document, current) == CStyleStop(document, old(current))
        decreases |document| - current
      {
        ghost var p := current;
        var c := GetNextChar();
        if c == '*' && At(document, current) == '/' {
          assert CStyleStop(document, p) == current;
          break;
        }
      }
      var last := GetNextChar();
      ok := last == '/';
    }

    method ReadCppStyleComment() returns (ok: bool)
      requires Valid()
      modifies this`current
      ensures ok && current == CppStyleEnd(document, old(current))
    {
      while current != |document|
        invariant Valid()
        invariant CppStyleEnd(document, current) == CppStyleEnd(document, old(current))
        decreases |document| - current
      {
        var c := GetNextChar();
        if c == '\n' {
          return true;
        }
        if c == '\r' {
          if current != |document| && document[current] == '\n' {
            var _ := GetNextChar();
          }
          return true;
        }
      }
      ok := true;
    }

    method ReadComment() returns (ok: bool)
      requires Valid()
      modifies this`current
      ensures (ok, current) == JsonLexer.ReadComment(document, old(current))
    {
      var c := GetNextChar();
      ok := false;
      if c == '*' {
        ok := ReadCStyleComment();
      } else if c == '/' {
        ok := ReadCppStyleComment();
      }
    }

    // ---- tokens ----

    /** The part of readToken behind the first char. */
    method ReadTokenBody(c: char) returns (kind: TokenKind, ok: bool)
      requires Valid()
      modifies this`current
      ensures forall start: nat | start <= old(current) ::
                Token(if ok then kind else ErrorToken, start, current) == TokenOf(features, document, c, start, old(current))
    {
      kind, ok := ErrorToken, true;
      match c {
        case '{' => kind := ObjectBegin;
        case '}' => kind := ObjectEnd;
        case '[' => kind := ArrayBegin;
        case ']' => kind := ArrayEnd;
        case '"' =>
          kind := StringToken;
          ok := ReadString('"');
        case '\'' =>
          if features.allowSingleQuotes {
            kind := StringToken;
            ok := ReadString('\'');
          } else {
            kind := CommentToken;
            ok := ReadComment();
          }
        case '/' =>
          kind := CommentToken;
          ok := ReadComment();
        case '-' =>
          var isNumber := ReadNumber(true);
          if isNumber {
            kind := NumberToken;
          } else {
            kind := NegInfToken;
            ok := MatchSpecial("nfinity");
          }
        case 't' =>
          kind := TrueToken;
          ok := Match("rue");
        case 'f' =>
          kind := FalseToken;
          ok := Match("alse");
        case 'n' =>
          kind := NullToken;
          ok := Match("ull");
        case 'N' =>
          kind := NaNToken;
          ok := MatchSpecial("aN");
        case 'I' =>
          kind := PosInfToken;
          ok := MatchSpecial("nfinity");
        case ',' => kind := ArraySeparator;
        case ':' => kind := MemberSeparator;
        case '\0' => kind := EndOfStream;
        case _ =>
          if IsDigit(c) {
            kind := NumberToken;
            var _ := ReadNumber(false);
          } else {
            ok := false;
          }
      }
    }

    method MatchSpecial(pattern: string) returns (ok: bool)
      requires Valid()
      modifies this`current
      ensures (ok, current) == Special(features, document, old(current), pattern)
    {
      ok := false;
      if features.allowSpecialFloats {
        ok := Match(pattern);
      }
    }

    method ReadToken() returns (token: Token)
      requires Valid()
      modifies this`current
      ensures token == JsonLexer.ReadToken(features, document, old(current)) && current == token.end
    {
      SkipSpaces();
      var start := current;
      var c := GetNextChar();
      var kind, ok := ReadTokenBody(c);
      if !ok {
        kind := ErrorToken;
      }
      token := Token(kind, start, current);
    }

    /** Reads tokens until one is no comment. */
    method NextToken() returns (token: Token)
      requires Valid()
      modifies this`current
      ensures token == JsonLexer.NextToken(features, document, old(current)) && current == token.end
    {
      token := ReadToken();
      while token.kind == CommentToken
        invariant Valid() && current == token.end
        invariant JsonLexer.NextToken(features, document, old(current)) ==
                  if token.kind == CommentToken then JsonLexer.NextToken(features, document, current) else token
        decreases |document| - current, token.kind == CommentToken
      {
        token := ReadToken();
      }
    }

    method SkipCommentTokens() returns (token: Token)
      requires Valid()
      modifies this`current
      ensures token == JsonLexer.SkipCommentTokens(features, document, old(current)) && current == token.end
    {
      if features.allowComments {
        token := NextToken();
      } else {
        token := ReadToken();
      }
    }

    method RecoverFromError(skipUntilToken: TokenKind)
      requires Valid()
      modifies this`current
      ensures current == Recover(features, document, old(current), skipUntilToken)
    {
      var done := false;
      while !done
        invariant Valid()
        invariant Recover(features, document, old(current), skipUntilToken) ==
                  if done then current else Recover(features, document, current, skipUntilToken)
        decreases |document| - current, !done
      {
        var skip := ReadToken();
        done := skip.kind == skipUntilToken || skip.kind == EndOfStream;
      }
    }

    // ---- scalars ----

    method DecodeNumberToken(token: Token) returns (decoded: Option<Value>)
      requires token.start < token.end <= |document|
      ensures decoded == NumberValue(features, document[token.start..token.end])
    {
      var text := document[token.start..token.end];
      decoded := DecodeNumber(text);
      if decoded.None? {
        decoded := if features.isReal(text) then Some(Real(text)) else None;
      }
    }

    method DecodeStringToken(token: Token) returns (decoded: Option<string>)
      requires token.start + 2 <= token.end <= |document|
      ensures decoded == DecodeFrom(Inside(document, token), 0)
    {
      decoded := DecodeString(Inside(document, token));
    }

    /** The constructor of Value stores a decoded string, or throws. */
    method ReadStringValue(token: Token, prior: Value) returns (threw: bool, ok: bool, value: Value)
      requires token.start + 2 <= token.end <= |document|
      ensures match DecodeFrom(Inside(document, token), 0)
              case None => !threw && !ok && value == prior
              case Some(s) =>
                var length := |s| % 0x1_0000_0000;
                && threw == (length > MAX_STRING)
                && (!threw ==> ok && value == Str(s[..length]))
    {
      threw, ok, value := false, false, prior;
      var decoded := DecodeStringToken(token);
      if decoded.Some? {
        var length := |decoded.value| % 0x1_0000_0000;
        threw, ok, value := length > MAX_STRING, true, Str(decoded.value[..length]);
      }
    }

    /** Where no value begins: steps back behind a dropped null, or fails at once. */
    method ReadNoValue(token: Token, prior: Value) returns (ok: bool, value: Value)
      requires IsDroppedNull(features, token.kind) ==> current > 0
      modifies this`current, this`stackDepth
      ensures ok == IsDroppedNull(features, token.kind)
      ensures ok ==> value == Null && current == old(current) - 1 && stackDepth == old(stackDepth) - 1
      ensures !ok ==> value == prior && current == old(current) && stackDepth == old(stackDepth)
    {
      ok, value := IsDroppedNull(features, token.kind), prior;
      if ok {
        current := current - 1;
        value := Null;
        stackDepth := stackDepth - 1;
      }
    }

    /** The cases of readValue that open nothing, up to the return of the depth. */
    method ReadScalar(token: Token, prior: Value) returns (threw: bool, ok: bool, value: Value)
      requires Valid() && token.start <= token.end == current
      requires token.kind != EndOfStream ==> token.start < token.end
      requires token.kind == StringToken ==> token.start + 2 <= token.end
      modifies this`current, this`stackDepth
      ensures Valid() && token.start <= current
      ensures Outcome(threw, ok, value) == ScalarResult(features, document, token, old(stackDepth) - 1, prior)
    {
      threw, ok, value := false, true, prior;
      match token.kind {
        case NumberToken =>
          var decoded := DecodeNumberToken(token);
          ok, value := decoded.Some?, decoded.GetOr(prior);
        case StringToken =>
          threw, ok, value := ReadStringValue(token, prior);
        case TrueToken => value := Bool(true);
        case FalseToken => value := Bool(false);
        case NullToken => value := Null;
        case NaNToken => value := Real("NaN");
        case PosInfToken => value := Real("Infinity");
        case NegInfToken => value := Real("-Infinity");
        case _ =>
          ok, value := ReadNoValue(token, prior);
          return;
      }
      stackDepth := stackDepth - 1;
    }

    // ---- values ----

    /** readValue; `prior` is what the current node holds, `value` what it holds then. */
    method ReadValue(prior: Value) returns (threw: bool, ok: bool, value: Value)
      requires Valid()
      modifies this`current, this`stackDepth
      ensures Valid() && old(current) <= current
      ensures Outcome(threw, ok, value) ==
              JsonReading.ReadValue(features, document, old(current), old(stackDepth), prior)
      decreases |document| - current, 2
    {
      if stackDepth >= features.stackLimit {
        return true, false, prior;
      }
      stackDepth := stackDepth + 1;
      var token := SkipCommentTokens();
      threw, ok, value := ReadTokenValue(token, prior);
    }

    /** The switch of readValue. */
    method ReadTokenValue(token: Token, prior: Value) returns (threw: bool, ok: bool, value: Value)
      requires Valid() && token.start <= token.end == current
      requires token.kind != EndOfStream ==> token.start < token.end
      requires token.kind == StringToken ==> token.start + 2 <= token.end
      modifies this`current, this`stackDepth
      ensures Valid() && token.start <= current
      ensures Outcome(threw, ok, value) == TokenValue(features, document, token, old(stackDepth) - 1, prior)
      decreases |document| - token.start, 1
    {
      if token.kind == ObjectBegin || token.kind == ArrayBegin {
        threw, ok, value := ReadNested(token.kind);
      } else {
        threw, ok, value := ReadScalar(token, prior);
      }
    }

    /** The two nested cases of readValue, with the return of the depth. */
    method ReadNested(kind: TokenKind) returns (threw: bool, ok: bool, value: Value)
      requires Valid() && (kind == ObjectBegin || kind == ArrayBegin)
      modifies this`current, this`stackDepth
      ensures Valid() && old(current) <= current
      ensures Outcome(threw, ok, value) ==
              Leave(if kind == ObjectBegin then ReadMembers(features, document, old(current), old(stackDepth), [], "")
                    else JsonReading.ReadArray(features, document, old(current), old(stackDepth)))
      decreases |document| - current, 6
    {
      if kind == ObjectBegin {
        threw, ok, value := ReadObject();
      } else {
        threw, ok, value := ReadArray();
      }
      stackDepth := stackDepth - 1;
    }

    method ReadObject() returns (threw: bool, ok: bool, value: Value)
      requires Valid()
      modifies this`current, this`stackDepth
      ensures Valid() && old(current) <= current
      ensures Outcome(threw, ok, value) ==
              ReadMembers(features, document, old(current), old(stackDepth), [], "")
      decreases |document| - current, 4
    {
      var turn := ReadMember([], "");
      while turn.NextMember?
        invariant Valid() && old(current) <= current
        invariant TurnHere(turn)
        invariant ReadMembers(features, document, old(current), old(stackDepth), [], "") ==
                  match turn
                  case MembersDone(r) => r
                  case NextMember(members, name, pos, depth) => ReadMembers(features, document, pos, depth, members, name)
        invariant turn.NextMember? ==> old(current) < current
        decreases |document| - current, turn.NextMember?
      {
        turn := ReadMember(turn.members, turn.name);
      }
      match turn.r
      case Throw => return true, false, Null;
      case Read(readOk, readValue, _, _) => return false, readOk, readValue;
    }

    /** The cursor and the depth are where the turn says. */
    predicate TurnHere(turn: MemberTurn)
      reads this
    {
      match turn
      case MembersDone(r) => r.Read? ==> r.pos == current && r.depth == stackDepth
      case NextMember(_, _, pos, depth) => pos == current && depth == stackDepth
    }

    /** One turn of the loop of readObject. */
    method ReadMember(members: seq<Member>, last: string) returns (turn: MemberTurn)
      requires Valid()
      modifies this`current, this`stackDepth
      ensures Valid() && old(current) <= current && TurnHere(turn)
      ensures turn == JsonReading.ReadMember(features, document, old(current), old(stackDepth), members, last)
      decreases |document| - current, 3
    {
      var key := ReadKey(last);
      match key
      case KeyEnd(_) => return MembersDone(Read(true, Object(members), current, stackDepth));
      case KeyBad(_) => return MembersDone(Read(false, Object(members), current, stackDepth));
      case KeyThrow => return MembersDone(Throw);
      case Key(name, _) =>
        turn := ReadNamed(members, name);
    }

    method ReadNamed(members: seq<Member>, name: string) returns (turn: MemberTurn)
      requires Valid()
      modifies this`current, this`stackDepth
      ensures Valid() && old(current) <= current && TurnHere(turn)
      ensures turn == JsonReading.ReadNamed(features, document, old(current), old(stackDepth), members, name)
      decreases |document| - current, 3
    {
      var present := Lookup(members, name);
      if features.rejectDupKeys && present.Some? {
        RecoverFromError(ObjectEnd);
        return MembersDone(Read(false, Object(members), current, stackDepth));
      }
      var threw, ok, value := ReadValue(present.GetOr(Null));
      turn := FinishMember(members, name, threw, ok, value);
    }

    /** The name of a member and its colon. */
    method ReadKey(last: string) returns (key: KeyStep)
      requires Valid()
      modifies this`current
      ensures Valid() && old(current) <= current
      ensures key == KeyAt(features, document, old(current), last)
      ensures !key.KeyThrow? ==> key.pos == current
    {
      var tokenName := NextToken();
      if tokenName.kind == ObjectEnd && last == "" {
        return KeyEnd(current);
      }
      if tokenName.kind == StringToken {
        var decoded := DecodeStringToken(tokenName);
        if decoded.None? {
          RecoverFromError(ObjectEnd);
          return KeyBad(current);
        }
        key := ReadColon(decoded.value);
      } else if tokenName.kind == NumberToken && features.allowNumericKeys {
        var numberName := DecodeNumberToken(tokenName);
        if numberName.None? {
          RecoverFromError(ObjectEnd);
          return KeyBad(current);
        }
        key := ReadColon(KeyText(features, numberName.value));
      } else {
        RecoverFromError(ObjectEnd);
        return KeyBad(current);
      }
    }

    method ReadColon(name: string) returns (key: KeyStep)
      requires Valid()
      modifies this`current
      ensures Valid() && old(current) <= current
      ensures key == ColonAt(features, document, old(current), name)
      ensures !key.KeyThrow? && !key.KeyEnd? ==> key.pos == current
    {
      var colon := ReadToken();
      if colon.kind != MemberSeparator {
        RecoverFromError(ObjectEnd);
        return KeyBad(current);
      }
      key := if |name| >= MAX_KEY then KeyThrow else Key(name, current);
    }

    /** What follows the value of a member. */
    method FinishMember(members: seq<Member>, name: string, threw: bool, ok: bool, value: Value) returns (turn: MemberTurn)
      requires Valid()
      modifies this`current
      ensures Valid() && old(current) <= current && TurnHere(turn)
      ensures turn == AfterMember(features, document, members, name, old(Outcome(threw, ok, value)))
    {
      if threw {
        return MembersDone(Throw);
      }
      var more := Put(members, name, value);
      if !ok {
        RecoverFromError(ObjectEnd);
        return MembersDone(Read(false, Object(more), current, stackDepth));
      }
      var comma := ReadToken();
      if comma.kind != ObjectEnd && comma.kind != ArraySeparator && comma.kind != CommentToken {
        RecoverFromError(ObjectEnd);
        return MembersDone(Read(false, Object(more), current, stackDepth));
      }
      if comma.kind == CommentToken {
        comma := NextToken();
      }
      turn := if comma.kind == ObjectEnd then MembersDone(Read(true, Object(more), current, stackDepth))
              else NextMember(more, name, current, stackDepth);
    }

    method ReadArray() returns (threw: bool, ok: bool, value: Value)
      requires Valid()
      modifies this`current, this`stackDepth
      ensures Valid() && old(current) <= current
      ensures Outcome(threw, ok, value) == JsonReading.ReadArray(features, document, old(current), old(stackDepth))
      decreases |document| - current, 5
    {
      SkipSpaces();
      if At(document, current) == ']' {
        var _ := ReadToken();
        return false, true, Array([]);
      }
      threw, ok, value := ReadRest();
    }

    /** The loop of readArray. */
    method ReadRest() returns (threw: bool, ok: bool, value: Value)
      requires Valid()
      modifies this`current, this`stackDepth
      ensures Valid() && old(current) <= current
      ensures Outcome(threw, ok, value) == ReadElements(features, document, old(current), old(stackDepth), [])
      decreases |document| - current, 4
    {
      var turn := ReadElement([]);
      while turn.NextElement?
        invariant Valid() && old(current) <= current
        invariant ElementHere(turn)
        invariant ReadElements(features, document, old(current), old(stackDepth), []) ==
                  match turn
                  case ElementsDone(r) => r
                  case NextElement(elems, pos, depth) => ReadElements(features, document, pos, depth, elems)
        invariant turn.NextElement? ==> old(current) < current
        decreases |document| - current, turn.NextElement?
      {
        turn := ReadElement(turn.elems);
      }
      match turn.r
      case Throw => return true, false, Null;
      case Read(readOk, readValue, _, _) => return false, readOk, readValue;
    }

    predicate ElementHere(turn: ElementTurn)
      reads this
    {
      match turn
      case ElementsDone(r) => r.Read? ==> r.pos == current && r.depth == stackDepth
      case NextElement(_, pos, depth) => pos == current && depth == stackDepth
    }

    /** One turn of the loop of readArray. */
    method ReadElement(elems: seq<Value>) returns (turn: ElementTurn)
      requires Valid()
      modifies this`current, this`stackDepth
      ensures Valid() && old(current) <= current && ElementHere(turn)
      ensures turn == JsonReading.ReadElement(features, document, old(current), old(stackDepth), elems)
      decreases |document| - current, 3
    {
      var threw, ok, value := ReadValue(Null);
      turn := FinishElement(elems, threw, ok, value);
    }

    method FinishElement(elems: seq<Value>, threw: bool, ok: bool, value: Value) returns (turn: ElementTurn)
      requires Valid()
      modifies this`current
      ensures Valid() && old(current) <= current && ElementHere(turn)
      ensures turn == AfterElement(features, document, elems, old(Outcome(threw, ok, value)))
    {
      if threw {
        return ElementsDone(Throw);
      }
      var more := elems + [value];
      if !ok {
        RecoverFromError(ArrayEnd);
        return ElementsDone(Read(false, Array(more), current, stackDepth));
      }
      var token := NextToken();
      if token.kind != ArraySeparator && token.kind != ArrayEnd {
        RecoverFromError(ArrayEnd);
        return ElementsDone(Read(false, Array(more), current, stackDepth));
      }
      turn := if token.kind == ArrayEnd then ElementsDone(Read(true, Array(more), current, stackDepth))
              else NextElement(more, current, stackDepth);
    }

    /** parse: None is the exception, else the verdict and the root that is left. */
    method Parse(doc: string, root: Value) returns (r: Option<(bool, Value)>)
      modifies this
      ensures r == (match JsonReading.Parse(features, doc, root)
                    case ParseThrow => None
                    case Parsed(ok, value) => Some((ok, value)))
    {
      document, current, stackDepth := doc, 0, 0;
      var threw, successful, value := ReadValue(root);
      if threw {
        return None;
      }
      var token := SkipCommentTokens();
      if features.failIfExtra {
        if token.kind != ErrorToken && token.kind != EndOfStream {
          return Some((false, value));
        }
      }
      if features.strictRoot {
        if !value.Array? && !value.Object? {
          return Some((false, value));
        }
      }
      r := Some((successful, value));
    }
  }
}
