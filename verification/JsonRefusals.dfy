/** How a refusal deep inside a document reaches the top (server/utils/jsoncpp.cpp): nothing
    that readObject, readArray and their recovery do makes up for a value that was refused.
    And the first use of it: a gap left by a dropped null, for a reader without
    allowDroppedNullPlaceholders_. */
module JsonRefusals {
  import opened Texts
  import opened JsonValues
  import opened JsonStrings
  import opened JsonLexer
  import opened JsonReading
  import opened JsonWriter
  import opened JsonRoundTrip

  predicate Refused(r: ReadResult) {
    r.Read? ==> !r.ok
  }

  /** Not accepted, or only with everything consumed. */
  predicate Exhausted(doc: string, r: ReadResult) {
    r.Read? && r.ok ==> r.pos == |doc|
  }

  predicate NoToken(t: Token) {
    t.kind == ErrorToken || t.kind == EndOfStream
  }

  lemma EndToken(f: Features, doc: string)
    ensures ReadToken(f, doc, |doc|).kind == EndOfStream
    ensures NextToken(f, doc, |doc|).kind == EndOfStream && SkipCommentTokens(f, doc, |doc|).kind == EndOfStream
  {
  }

  /** readValue on no token, and on a number that ends the document. */
  lemma NoTokenRefused(f: Features, doc: string, p: nat, depth: int, prior: Value)
    requires p <= |doc| && NoToken(SkipCommentTokens(f, doc, p))
    ensures Refused(ReadValue(f, doc, p, depth, prior))
  {
  }

  lemma EndRefused(f: Features, doc: string, depth: int, prior: Value)
    ensures Refused(ReadValue(f, doc, |doc|, depth, prior))
  {
    EndToken(f, doc);
    NoTokenRefused(f, doc, |doc|, depth, prior);
  }

  // ---- arrays ----

  predicate ElementsFail(f: Features, doc: string, p: nat, depth: int, so: seq<Value>)
    requires p <= |doc|
  {
    Refused(ReadElements(f, doc, p, depth, so))
  }

  predicate MembersFail(f: Features, doc: string, p: nat, depth: int, so: seq<Member>, last: string)
    requires p <= |doc|
  {
    Refused(ReadMembers(f, doc, p, depth, so, last))
  }

  /** A turn of the element loop that fails now or later. */
  predicate ElementTurnFails(f: Features, doc: string, turn: ElementTurn) {
    match turn
    case ElementsDone(r) => Refused(r)
    case NextElement(elems, pos, depth) => pos <= |doc| && ElementsFail(f, doc, pos, depth, elems)
  }

  lemma ElementRefused(f: Features, doc: string, p: nat, depth: int, so: seq<Value>, r: ReadResult)
    requires p <= |doc| && ReadValue(f, doc, p, depth, Null) == r
    requires ElementTurnFails(f, doc, AfterElement(f, doc, so, r))
    ensures ElementsFail(f, doc, p, depth, so)
  {
    assert ReadElement(f, doc, p, depth, so) == AfterElement(f, doc, so, r);
  }

  /** What follows an element that is the last thing read. */
  lemma SeparatorCut(f: Features, doc: string, so: seq<Value>, r: ReadResult)
    requires (r.Read? ==> r.pos <= |doc|) && Exhausted(doc, r)
    ensures ElementTurnFails(f, doc, AfterElement(f, doc, so, r))
  {
    EndToken(f, doc);
    assert r.Read? && r.ok ==> ArraySeparatorAt(f, doc, r.pos).BadSeparator?;
  }

  lemma ElementsGoOn(f: Features, doc: string, so: seq<Value>, r: ReadResult, needed: nat, v: Value, e: nat, depth: int,
                     next: nat)
    requires e < |doc| && doc[e] == ',' && next == e + 1 && r == Outcome(f, needed, v, e, depth)
    requires ElementsFail(f, doc, next, depth, so + [v])
    ensures ElementTurnFails(f, doc, AfterElement(f, doc, so, r))
  {
    SeparatorHere(f, doc, e);
  }

  // ---- objects ----

  lemma ObjectRefused(f: Features, doc: string, p: nat, depth: int, prior: Value, next: nat, d: int)
    requires p < |doc| && doc[p] == '{' && next == p + 1 && d == depth + 1 && MembersFail(f, doc, next, d, [], "")
    ensures Refused(ReadValue(f, doc, p, depth, prior))
  {
    ObjectOpens(f, doc, p, depth, prior, next, d);
  }

  lemma KeyMissing(f: Features, doc: string, p: nat, depth: int, so: seq<Member>, last: string)
    requires p <= |doc| && NoToken(NextToken(f, doc, p))
    ensures MembersFail(f, doc, p, depth, so, last)
  {
    assert KeyAt(f, doc, p, last).KeyBad?;
    assert ReadMember(f, doc, p, depth, so, last).MembersDone?;
  }

  /** A turn of the member loop that fails now or later. */
  predicate TurnFails(f: Features, doc: string, turn: MemberTurn) {
    match turn
    case MembersDone(r) => Refused(r)
    case NextMember(members, name, pos, depth) => pos <= |doc| && MembersFail(f, doc, pos, depth, members, name)
  }

  lemma NamedRefused(f: Features, doc: string, p: nat, depth: int, so: seq<Member>, last: string, key: string, k: nat)
    requires p <= |doc| && k <= |doc| && KeyAt(f, doc, p, last) == Key(key, k)
    requires TurnFails(f, doc, ReadNamed(f, doc, k, depth, so, key))
    ensures MembersFail(f, doc, p, depth, so, last)
  {
    var turn := ReadNamed(f, doc, k, depth, so, key);
    MemberFrom(f, doc, p, depth, so, last, key, k, turn);
    JsonRoundTrip.MembersStep(f, doc, p, depth, so, last, turn);
  }

  /** What follows a member whose value is the last thing read. */
  lemma AfterCut(f: Features, doc: string, so: seq<Member>, name: string, r: ReadResult)
    requires (r.Read? ==> r.pos <= |doc|) && Exhausted(doc, r)
    ensures TurnFails(f, doc, AfterMember(f, doc, so, name, r))
  {
    EndToken(f, doc);
    assert r.Read? && r.ok ==> CommaAt(f, doc, r.pos).BadSeparator?;
  }

  lemma GoesOn(f: Features, doc: string, so: seq<Member>, name: string, r: ReadResult, needed: nat, v: Value, e: nat, depth: int,
               next: nat)
    requires e < |doc| && doc[e] == ',' && next == e + 1 && r == Outcome(f, needed, v, e, depth)
    requires MembersFail(f, doc, next, depth, Put(so, name, v), name)
    ensures TurnFails(f, doc, AfterMember(f, doc, so, name, r))
  {
    CommaHere(f, doc, e, next);
  }

  lemma NamedFails(f: Features, doc: string, k: nat, depth: int, so: seq<Member>, name: string, prior: Value)
    requires k <= |doc| && prior == Lookup(so, name).GetOr(Null)
    requires TurnFails(f, doc, AfterMember(f, doc, so, name, ReadValue(f, doc, k, depth, prior)))
    ensures TurnFails(f, doc, ReadNamed(f, doc, k, depth, so, name))
  {
  }

  // ---- gaps ----

  lemma GapRefused(f: Features, doc: string, p: nat, depth: int, prior: Value)
    requires !f.allowDroppedNullPlaceholders && EndsInside(doc, p)
    ensures Refused(ReadValue(f, doc, p, depth, prior))
  {
    TokenHere(f, doc, p);
    JsonRoundTrip.ScalarRead(f, doc, p, depth, prior, ReadToken(f, doc, p));
  }

  /** A printed value with a gap is refused by a reader that does not allow for gaps. */
  lemma {:induction false} ValueGap(f: Features, o: Style, doc: string, p: nat, depth: int, prior: Value, v: Value)
    requires Printable(v) && !Readable(f, o, v) && Stands(o, doc, p, v)
    ensures p <= |doc| && Refused(ReadValue(f, doc, p, depth, prior))
    decreases v, 1
  {
    match v
    case Null => GapRefused(f, doc, p, depth, prior);
    case Array(elems) => ArrayGap(f, o, doc, p, depth, prior, elems);
    case Object(members) => ObjectGap(f, o, doc, p, depth, prior, members);
    case _ =>
  }

  /** A reader and a style under which gaps are refused. */
  predicate GapsRefused(f: Features, o: Style) {
    o.dropNulls && !f.allowDroppedNullPlaceholders
  }

  lemma {:induction false} ArrayGap(f: Features, o: Style, doc: string, p: nat, depth: int, prior: Value, elems: seq<Value>)
    requires Printable(Array(elems)) && !Readable(f, o, Array(elems)) && Follows(doc, p, ValueText(o, Array(elems)))
    ensures p <= |doc| && Refused(ReadValue(f, doc, p, depth, prior))
    decreases elems, |elems| + 1
  {
    var j :| 0 <= j < |elems| && HasGap(elems[j]);
    var text, next, d := ElementsText(o, elems, 0), p + 1, depth + 1;
    ArrayFacts(o, elems);
    Opened(doc, p, "[", text, "]");
    ArrayOpens(f, doc, p, depth, prior, next, d);
    FirstElementHere(o, doc, next, elems);
    ArrayBegins(f, doc, next, d);
    ElementsGap(f, o, doc, next, d, elems, 0, j, []);
  }

  /** Reading fails at element j, or before. */
  lemma {:induction false} ElementsGap(f: Features, o: Style, doc: string, p: nat, depth: int, elems: seq<Value>, i: nat, j: nat,
                                       so: seq<Value>)
    requires Printable(Array(elems)) && GapsRefused(f, o) && elems != [Null]
    requires i <= j < |elems| && HasGap(elems[j]) && Follows(doc, p, ElementsTail(o, elems, i))
    ensures p <= |doc| && ElementsFail(f, doc, p, depth, so)
    decreases elems, |elems| - i, 0
  {
    var v, e, r := elems[i], p + |ValueText(o, elems[i])|, ReadValue(f, doc, p, depth, Null);
    ElementStands(o, doc, p, elems, i);
    ElementPrintable(elems, i);
    if HasGap(v) {
      ValueGap(f, o, doc, p, depth, Null, v);
      SeparatorCut(f, doc, so, r);
    } else {
      var needed, back := Depth(o, v), ReadBack(o, v);
      ValueReadTo(f, o, doc, p, depth, Null, v, needed, back, e);
      LaterElementGap(f, o, doc, p, e, depth, elems, i, j, so, r, needed, back);
    }
    ElementRefused(f, doc, p, depth, so, r);
  }

  lemma ElementNext(o: Style, doc: string, p: nat, elems: seq<Value>, i: nat, e: nat, next: nat)
    requires i + 1 < |elems| && Follows(doc, p, ElementsTail(o, elems, i)) && e == p + |ValueText(o, elems[i])| && next == e + 1
    ensures e < |doc| && doc[e] == ',' && Follows(doc, next, ElementsTail(o, elems, i + 1))
  {
    ElementEnd(o, doc, p, elems, i);
  }

  /** Element i is read, and the gap is behind it. */
  lemma {:induction false} LaterElementGap(f: Features, o: Style, doc: string, p: nat, e: nat, depth: int, elems: seq<Value>,
                                           i: nat, j: nat, so: seq<Value>, r: ReadResult, needed: nat, back: Value)
    requires Printable(Array(elems)) && GapsRefused(f, o) && elems != [Null]
    requires i < j < |elems| && HasGap(elems[j]) && Follows(doc, p, ElementsTail(o, elems, i))
    requires e == p + |ValueText(o, elems[i])| && e <= |doc| && r == Outcome(f, needed, back, e, depth)
    ensures ElementTurnFails(f, doc, AfterElement(f, doc, so, r))
    decreases elems, |elems| - i - 1, 1
  {
    var next, k, more := e + 1, i + 1, so + [back];
    ElementNext(o, doc, p, elems, i, e, next);
    ElementsGap(f, o, doc, next, depth, elems, k, j, more);
    ElementsGoOn(f, doc, so, r, needed, back, e, depth, next);
  }

  lemma {:induction false} ObjectGap(f: Features, o: Style, doc: string, p: nat, depth: int, prior: Value, members: seq<Member>)
    requires Printable(Object(members)) && !Readable(f, o, Object(members)) && Follows(doc, p, ValueText(o, Object(members)))
    ensures p <= |doc| && Refused(ReadValue(f, doc, p, depth, prior))
    decreases members, |members| + 1
  {
    var j :| 0 <= j < |members| && HasGap(members[j].value);
    var text, next, d := MembersText(o, members, 0), p + 1, depth + 1;
    ObjectFacts(o, members);
    Opened(doc, p, "{", text, "}");
    FirstMemberHere(o, members);
    MembersGap(f, o, doc, next, d, members, 0, j, [], "");
    ObjectRefused(f, doc, p, depth, prior, next, d);
  }

  /** Reading fails at the value of member j, or before. */
  lemma {:induction false} MembersGap(f: Features, o: Style, doc: string, p: nat, depth: int, members: seq<Member>, i: nat, j: nat,
                                      so: seq<Member>, last: string)
    requires Printable(Object(members)) && GapsRefused(f, o)
    requires i <= j < |members| && HasGap(members[j].value) && Follows(doc, p, MembersTail(o, members, i))
    ensures p <= |doc| && MembersFail(f, doc, p, depth, so, last)
    decreases members, |members| - i, 2
  {
    var key, q, k := members[i].key, p + |Quoted(members[i].key)|, p + |Quoted(members[i].key)| + 1;
    var start, e := ValueStart(o, key, p), ValueEnd(o, members[i], p);
    MemberEnd(o, doc, p, members, i, e);
    MemberPrintable(members, i);
    KeyHere(f, o, doc, p, key, last, k);
    MemberGap(f, o, doc, p, start, e, depth, members, i, j, so, Lookup(so, key).GetOr(Null));
    NamedAt(f, doc, k, start, depth, so, key);
    NamedRefused(f, doc, p, depth, so, last, key, k);
  }

  /** The space in front of a value changes nothing. */
  lemma NamedAt(f: Features, doc: string, k: nat, start: nat, depth: int, so: seq<Member>, key: string)
    requires k <= |doc| && start <= |doc| && (start == k || (start == k + 1 && At(doc, k) == ' '))
    requires TurnFails(f, doc, AfterMember(f, doc, so, key, ReadValue(f, doc, start, depth, Lookup(so, key).GetOr(Null))))
    ensures TurnFails(f, doc, ReadNamed(f, doc, k, depth, so, key))
  {
    var prior := Lookup(so, key).GetOr(Null);
    if start != k {
      SpaceSkipped(f, doc, k, depth, prior, start);
    }
    NamedFails(f, doc, k, depth, so, key, prior);
  }

  /** What follows the value of member i when the value of member j has a gap. */
  lemma {:induction false} MemberGap(f: Features, o: Style, doc: string, p: nat, start: nat, e: nat, depth: int, members: seq<Member>,
                                     i: nat, j: nat, so: seq<Member>, prior: Value)
    requires Printable(Object(members)) && GapsRefused(f, o)
    requires i <= j < |members| && HasGap(members[j].value) && Follows(doc, p, MembersTail(o, members, i))
    requires start == ValueStart(o, members[i].key, p) && e == ValueEnd(o, members[i], p)
    ensures start <= |doc| && TurnFails(f, doc, AfterMember(f, doc, so, members[i].key, ReadValue(f, doc, start, depth, prior)))
    decreases members, |members| - i, 1
  {
    var v, key, r := members[i].value, members[i].key, ReadValue(f, doc, start, depth, prior);
    MemberEnd(o, doc, p, members, i, e);
    MemberPrintable(members, i);
    if HasGap(v) {
      ValueGap(f, o, doc, start, depth, prior, v);
      AfterCut(f, doc, so, key, r);
    } else {
      var needed, back := Depth(o, v), ReadBack(o, v);
      ValueReadTo(f, o, doc, start, depth, prior, v, needed, back, e);
      LaterMemberGap(f, o, doc, p, e, depth, members, i, j, so, r, needed, back);
    }
  }

  lemma MemberBehind(o: Style, doc: string, p: nat, members: seq<Member>, i: nat, e: nat, next: nat, k: nat)
    requires i + 1 == k < |members| && Follows(doc, p, MembersTail(o, members, i)) && e == ValueEnd(o, members[i], p) && next == e + 1
    ensures e < |doc| && doc[e] == ',' && Follows(doc, next, MembersTail(o, members, k))
  {
    MemberNext(o, doc, p, members, i, next);
    assert e < |doc| && doc[e] == ',' by {
      MemberEnd(o, doc, p, members, i, e);
    }
  }

  /** Member i is read, and the gap is behind it. */
  lemma {:induction false} LaterMemberGap(f: Features, o: Style, doc: string, p: nat, e: nat, depth: int, members: seq<Member>,
                                          i: nat, j: nat, so: seq<Member>, r: ReadResult, needed: nat, back: Value)
    requires Printable(Object(members)) && GapsRefused(f, o)
    requires i < j < |members| && HasGap(members[j].value) && Follows(doc, p, MembersTail(o, members, i))
    requires e == ValueEnd(o, members[i], p) && e <= |doc| && r == Outcome(f, needed, back, e, depth)
    ensures TurnFails(f, doc, AfterMember(f, doc, so, members[i].key, r))
    decreases members, |members| - i - 1, 3
  {
    var key, next, k := members[i].key, e + 1, i + 1;
    var more := Put(so, key, back);
    MemberBehind(o, doc, p, members, i, e, next, k);
    MembersGap(f, o, doc, next, depth, members, k, j, more, key);
    GoesOn(f, doc, so, key, r, needed, back, e, depth, next);
  }
}
