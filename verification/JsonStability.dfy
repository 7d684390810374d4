/** What every successful parse yields, whatever the document, and that it can be printed
    and parsed again without a change (server/utils/jsoncpp.cpp). */
module JsonStability {
  import opened Util
  import opened Texts
  import opened JsonValues
  import opened JsonNumbers
  import opened JsonStrings
  import opened JsonLexer
  import opened JsonReading
  import opened JsonWriter
  import opened JsonRoundTrip
  import opened JsonDocuments

  /** Every integer has the tag that reading gives it. */
  predicate Canonical(v: Value) {
    match v
    case Int(_) => Retagged(v) == v
    case UInt(_) => Retagged(v) == v
    case Array(elems) => forall i :: 0 <= i < |elems| ==> Canonical(elems[i])
    case Object(members) => forall i :: 0 <= i < |members| ==> Canonical(members[i].value)
    case _ => true
  }

  predicate AllMade(o: Style, elems: seq<Value>, room: int) {
    forall i :: 0 <= i < |elems| ==> Made(o, elems[i], room)
  }

  /** A value that reading nested no deeper than `room` calls can make. */
  predicate Made(o: Style, v: Value, room: int) {
    WellFormed(v) && Canonical(v) && Depth(o, v) <= room
  }

  predicate MembersMade(o: Style, members: seq<Member>, room: int) {
    KeysSorted(members) && ValuesMade(o, members, room)
  }

  predicate ValuesMade(o: Style, members: seq<Member>, room: int) {
    forall i :: 0 <= i < |members| ==> |members[i].key| < MAX_KEY && Made(o, members[i].value, room)
  }

  lemma {:induction false} ElementsShallow(o: Style, elems: seq<Value>, i: nat, room: nat)
    requires i <= |elems| && AllMade(o, elems, room)
    ensures ElementsDepth(o, elems, i) <= room
    decreases |elems| - i
  {
    if i < |elems| {
      ElementsShallow(o, elems, i + 1, room);
    }
  }

  lemma {:induction false} MembersShallow(o: Style, members: seq<Member>, i: nat, room: nat)
    requires i <= |members| && MembersMade(o, members, room)
    ensures MembersDepth(o, members, i) <= room
    decreases |members| - i
  {
    if i < |members| {
      MembersShallow(o, members, i + 1, room);
    }
  }

  lemma ArrayMade(o: Style, elems: seq<Value>, room: nat)
    requires !o.dropNulls && AllMade(o, elems, room)
    ensures Made(o, Array(elems), room + 1)
  {
    ElementsShallow(o, elems, 0, room);
  }

  lemma ObjectMade(o: Style, members: seq<Member>, room: nat)
    requires MembersMade(o, members, room)
    ensures Made(o, Object(members), room + 1)
  {
    MembersShallow(o, members, 0, room);
  }

  // ---- the map of an object ----

  /** Sortedness from the front, as Put walks. */
  lemma {:induction false} SortedFront(members: seq<Member>)
    requires |members| >= 1
    ensures KeysSorted(members) <==>
            KeysSorted(members[1..]) && (|members| >= 2 ==> StringLess(members[0].key, members[1].key))
    decreases |members|
  {
    var n := |members|;
    if n >= 3 {
      SortedFront(members[..n - 1]);
      assert members[..n - 1][1..] == members[1..][..n - 2];
    }
  }

  /** Put is the update of a map: the keys stay in order, and the key has the value. */
  lemma {:induction false} PutSorted(members: seq<Member>, key: string, value: Value)
    requires KeysSorted(members)
    ensures var r := Put(members, key, value);
            && KeysSorted(r) && r != []
            && (r[0].key == key || (members != [] && r[0].key == members[0].key))
  {
    if members == [] {
    } else if StringLess(members[0].key, key) {
      SortedFront(members);
      PutSorted(members[1..], key, value);
      var rest := Put(members[1..], key, value);
      assert ([members[0]] + rest)[1..] == rest;
      SortedFront([members[0]] + rest);
    } else {
      StringTrichotomy(members[0].key, key);
      var r := Put(members, key, value);
      SortedFront(members);
      SortedFront(r);
      if members[0].key == key {
        assert r[1..] == members[1..];
      } else {
        assert r[1..] == members;
      }
    }
  }

  /** Every other key keeps its value. */
  lemma {:induction false} PutLookup(members: seq<Member>, key: string, value: Value, other: string)
    requires KeysSorted(members)
    ensures Lookup(Put(members, key, value), other) == if other == key then Some(value) else Lookup(members, other)
  {
    StringTrichotomy(key, other);
    if members != [] {
      StringTrichotomy(members[0].key, key);
      StringTrichotomy(members[0].key, other);
      SortedFront(members);
      var r := Put(members, key, value);
      if StringLess(members[0].key, key) {
        PutLookup(members[1..], key, value, other);
        assert r[1..] == Put(members[1..], key, value);
      } else if members[0].key == key {
        assert r[1..] == members[1..];
      } else {
        assert r[1..] == members;
        if StringLess(key, other) {
        } else if StringLess(members[0].key, other) {
          StringTransitive(key, members[0].key, other);
        }
      }
    }
  }

  lemma PutMade(o: Style, members: seq<Member>, key: string, value: Value, room: int)
    requires MembersMade(o, members, room) && |key| < MAX_KEY && Made(o, value, room)
    ensures MembersMade(o, Put(members, key, value), room)
  {
    PutSorted(members, key, value);
    PutValuesMade(o, members, key, value, room);
  }

  lemma {:induction false} PutValuesMade(o: Style, members: seq<Member>, key: string, value: Value, room: int)
    requires ValuesMade(o, members, room) && |key| < MAX_KEY && Made(o, value, room)
    ensures ValuesMade(o, Put(members, key, value), room)
  {
    if members != [] && StringLess(members[0].key, key) {
      PutValuesMade(o, members[1..], key, value, room);
    }
  }

  // ---- what a successful read yields ----

  /** A successful read gives its depth back and made its value within the stack limit. */
  predicate Fine(f: Features, o: Style, r: ReadResult, depth: int) {
    r.Read? && r.ok ==> r.depth == depth && Made(o, r.value, f.stackLimit - depth)
  }

  lemma NumberMade(f: Features, o: Style, text: string)
    ensures var v := NumberValue(f, text); v.Some? ==> Made(o, v.value, 1)
  {
  }

  lemma StringMade(o: Style, s: string, pos: nat, depth: int)
    ensures var r := StringResult(s, pos, depth); r.Read? ==> r.depth == depth && Made(o, r.value, 1)
  {
  }

  lemma ScalarMade(f: Features, o: Style, doc: string, t: Token, depth: int, prior: Value)
    requires t.start <= t.end <= |doc|
    requires t.kind != EndOfStream ==> t.start < t.end
    requires t.kind == StringToken ==> t.start + 2 <= t.end
    requires depth < f.stackLimit
    ensures Fine(f, o, ScalarResult(f, doc, t, depth, prior), depth)
  {
    match t.kind
    case NumberToken => NumberMade(f, o, doc[t.start..t.end]);
    case StringToken =>
      var decoded := DecodeFrom(Inside(doc, t), 0);
      if decoded.Some? {
        StringMade(o, decoded.value, t.end, depth);
      }
    case _ =>
  }

  predicate FineMembers(f: Features, o: Style, r: ReadResult, depth: int) {
    r.Read? && r.ok ==> r.depth == depth && r.value.Object? && MembersMade(o, r.value.members, f.stackLimit - depth)
  }

  predicate FineElements(f: Features, o: Style, r: ReadResult, depth: int) {
    r.Read? && r.ok ==> r.depth == depth && r.value.Array? && AllMade(o, r.value.elems, f.stackLimit - depth)
  }

  lemma ObjectFine(f: Features, o: Style, r: ReadResult, depth: int)
    requires depth < f.stackLimit && FineMembers(f, o, r, depth + 1)
    ensures Fine(f, o, Leave(r), depth)
  {
    if r.Read? && r.ok {
      ObjectMade(o, r.value.members, f.stackLimit - depth - 1);
    }
  }

  lemma ArrayFine(f: Features, o: Style, r: ReadResult, depth: int)
    requires !o.dropNulls && depth < f.stackLimit && FineElements(f, o, r, depth + 1)
    ensures Fine(f, o, Leave(r), depth)
  {
    if r.Read? && r.ok {
      ArrayMade(o, r.value.elems, f.stackLimit - depth - 1);
    }
  }

  /** Whatever the document: a successful readValue makes a well-formed value, its keys
      in order, its tags canonical and its nesting within the limit. */
  lemma {:induction false} ValueFine(f: Features, o: Style, doc: string, pos: nat, depth: int, prior: Value)
    requires pos <= |doc| && !o.dropNulls
    ensures Fine(f, o, ReadValue(f, doc, pos, depth, prior), depth)
    decreases |doc| - pos, 2
  {
    if depth < f.stackLimit {
      var t := SkipCommentTokens(f, doc, pos);
      if t.kind == ObjectBegin {
        MembersFine(f, o, doc, t.end, depth + 1, [], "");
        ObjectFine(f, o, ReadMembers(f, doc, t.end, depth + 1, [], ""), depth);
      } else if t.kind == ArrayBegin {
        ArrayReadFine(f, o, doc, t.end, depth + 1);
        ArrayFine(f, o, ReadArray(f, doc, t.end, depth + 1), depth);
      } else {
        ScalarMade(f, o, doc, t, depth, prior);
      }
    }
  }

  lemma {:induction false} MembersFine(f: Features, o: Style, doc: string, pos: nat, depth: int, members: seq<Member>, last: string)
    requires pos <= |doc| && !o.dropNulls && MembersMade(o, members, f.stackLimit - depth)
    ensures FineMembers(f, o, ReadMembers(f, doc, pos, depth, members, last), depth)
    decreases |doc| - pos, 4
  {
    MemberFine(f, o, doc, pos, depth, members, last);
    var turn := ReadMember(f, doc, pos, depth, members, last);
    if turn.NextMember? {
      MembersFine(f, o, doc, turn.pos, turn.depth, turn.members, turn.name);
    }
  }

  predicate FineTurn(f: Features, o: Style, turn: MemberTurn, depth: int) {
    && (turn.MembersDone? ==> FineMembers(f, o, turn.r, depth))
    && (turn.NextMember? ==> turn.depth == depth && MembersMade(o, turn.members, f.stackLimit - depth))
  }

  lemma {:induction false} MemberFine(f: Features, o: Style, doc: string, pos: nat, depth: int, members: seq<Member>, last: string)
    requires pos <= |doc| && !o.dropNulls && MembersMade(o, members, f.stackLimit - depth)
    ensures FineTurn(f, o, ReadMember(f, doc, pos, depth, members, last), depth)
    decreases |doc| - pos, 3
  {
    var k := KeyAt(f, doc, pos, last);
    if k.Key? {
      var prior := Lookup(members, k.name).GetOr(Null);
      ValueFine(f, o, doc, k.pos, depth, prior);
      AfterFine(f, o, doc, depth, members, k.name, ReadValue(f, doc, k.pos, depth, prior));
    }
  }

  lemma AfterFine(f: Features, o: Style, doc: string, depth: int, members: seq<Member>, name: string, r: ReadResult)
    requires r.Read? ==> r.pos <= |doc|
    requires MembersMade(o, members, f.stackLimit - depth) && |name| < MAX_KEY && Fine(f, o, r, depth)
    ensures FineTurn(f, o, AfterMember(f, doc, members, name, r), depth)
  {
    if r.Read? && r.ok {
      PutMade(o, members, name, r.value, f.stackLimit - depth);
    }
  }

  lemma {:induction false} ArrayReadFine(f: Features, o: Style, doc: string, pos: nat, depth: int)
    requires pos <= |doc| && !o.dropNulls
    ensures FineElements(f, o, ReadArray(f, doc, pos, depth), depth)
    decreases |doc| - pos, 5
  {
    var p := SkipSpaces(doc, pos);
    if At(doc, p) != ']' {
      ElementsFine(f, o, doc, p, depth, []);
    }
  }

  lemma {:induction false} ElementsFine(f: Features, o: Style, doc: string, pos: nat, depth: int, elems: seq<Value>)
    requires pos <= |doc| && !o.dropNulls && AllMade(o, elems, f.stackLimit - depth)
    ensures FineElements(f, o, ReadElements(f, doc, pos, depth, elems), depth)
    decreases |doc| - pos, 4
  {
    var r := ReadValue(f, doc, pos, depth, Null);
    ValueFine(f, o, doc, pos, depth, Null);
    ElementFine(f, o, doc, depth, elems, r);
    var turn := ReadElement(f, doc, pos, depth, elems);
    if turn.NextElement? {
      ElementsFine(f, o, doc, turn.pos, turn.depth, turn.elems);
    }
  }

  lemma ElementFine(f: Features, o: Style, doc: string, depth: int, elems: seq<Value>, r: ReadResult)
    requires r.Read? ==> r.pos <= |doc|
    requires AllMade(o, elems, f.stackLimit - depth) && Fine(f, o, r, depth)
    ensures var turn := AfterElement(f, doc, elems, r);
            && (turn.ElementsDone? ==> FineElements(f, o, turn.r, depth))
            && (turn.NextElement? ==> turn.depth == depth && AllMade(o, turn.elems, f.stackLimit - depth))
  {
  }

  // ---- printing and parsing what was parsed ----

  lemma {:induction false} CanonicalReadsBack(o: Style, v: Value)
    requires Canonical(v) && !o.dropNulls
    ensures ReadBack(o, v) == v
  {
    match v
    case Array(elems) =>
      forall i | 0 <= i < |elems| ensures ReadBack(o, elems[i]) == elems[i] {
        CanonicalReadsBack(o, elems[i]);
      }
      assert ReadBackAll(o, elems) == elems;
    case Object(members) =>
      forall i | 0 <= i < |members| ensures ReadBack(o, members[i].value) == members[i].value {
        CanonicalReadsBack(o, members[i].value);
      }
      assert ReadBackMembers(o, members) == members;
    case _ =>
  }

  /** Whatever document was parsed: its value, printed, parses to itself. No condition on
      the document is left but that its value holds no real. */
  lemma ParsedPrintsAndParses(f: Features, o: Style, doc: string, root: Value, other: Value)
    requires var first := Parse(f, doc, root); first.Parsed? && first.ok && RealFree(first.root)
    requires !o.dropNulls
    ensures Parse(f, Text(o, Parse(f, doc, root).root), other) == Parse(f, doc, root)
  {
    var first := Parse(f, doc, root);
    ValueFine(f, o, doc, 0, 0, root);
    CanonicalReadsBack(o, first.root);
    PrintedTextParses(f, o, first.root, other);
  }
}
