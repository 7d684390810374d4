/** Two documents that parse (server/utils/jsoncpp.cpp) accepts although they are no JSON:
    with a comma in front of the closing brace, and with a wrong separator between members. */
module JsonLeniency {
  import opened Util
  import opened Texts
  import opened Digits
  import opened JsonValues
  import opened JsonLexer
  import opened JsonReading
  import opened JsonWriter
  import opened JsonRoundTrip
  import opened JsonRefusals
  import opened JsonDocuments

  /** A member that can be printed, and read back by this reader. */
  predicate Good(f: Features, o: Style, m: Member) {
    |m.key| < MAX_KEY && Printable(m.value) && Readable(f, o, m.value)
  }

  function MemberText(o: Style, m: Member, rest: string): string {
    KeyAndColon(o, m.key) + (ValueText(o, m.value) + rest)
  }

  function Back(o: Style, m: Member): Member {
    Member(m.key, ReadBack(o, m.value))
  }

  /** The turn of the member loop that reads a member with a new key, up to what follows. */
  lemma MemberTurnIs(f: Features, o: Style, doc: string, p: nat, depth: int, m: Member, last: string, so: seq<Member>, rest: string,
                     e: nat, r: ReadResult, turn: MemberTurn)
    requires Good(f, o, m) && Follows(doc, p, MemberText(o, m, rest)) && rest != "" && Ends(rest, 0)
    requires Lookup(so, m.key) == None && e == ValueEnd(o, m, p) && (!EndsInside(rest, 0) ==> !(o.dropNulls && m.value == Null))
    requires r == Outcome(f, Depth(o, m.value), ReadBack(o, m.value), e, depth)
    requires (r.Read? ==> r.pos <= |doc|) && turn == AfterMember(f, doc, so, m.key, r)
    ensures p <= |doc| && ReadMember(f, doc, p, depth, so, last) == turn
    ensures e < |doc| && Follows(doc, e, rest)
  {
    var start := ValueStart(o, m.key, p);
    MemberPlaces(o, doc, p, m, rest, start, e);
    ValueReadTo(f, o, doc, start, depth, Null, m.value, Depth(o, m.value), ReadBack(o, m.value), e);
    MemberHere(f, o, doc, p, depth, m.key, last, so, start, r, turn);
  }

  lemma MemberPlaces(o: Style, doc: string, p: nat, m: Member, rest: string, start: nat, e: nat)
    requires Follows(doc, p, MemberText(o, m, rest)) && rest != "" && Ends(rest, 0)
    requires !EndsInside(rest, 0) ==> !(o.dropNulls && m.value == Null)
    requires start == ValueStart(o, m.key, p) && e == ValueEnd(o, m, p)
    ensures KeyStands(o, doc, p, m.key) && Stands(o, doc, start, m.value) && e < |doc| && Follows(doc, e, rest)
  {
    MemberFront(o, doc, p, m.key, ValueText(o, m.value) + rest);
    FollowsSplit(doc, start, ValueText(o, m.value), rest);
    FollowsAt(doc, e, rest, 0);
  }

  // ---- a comma in front of the closing brace ----

  /** `{"key":value,}` */
  function TrailingComma(o: Style, m: Member): string {
    "{" + MemberText(o, m, ",}")
  }

  /** Behind a comma the object ends only if the name before it is empty. */
  lemma BraceBehind(f: Features, doc: string, p: nat, depth: int, so: seq<Member>, last: string, end: nat)
    requires p < |doc| && doc[p] == '}' && end == p + 1
    ensures last == "" ==> ReadMembers(f, doc, p, depth, so, last) == Read(true, Object(so), end, depth)
    ensures last != "" ==> MembersFail(f, doc, p, depth, so, last)
  {
    TokenHere(f, doc, p);
    assert last == "" ==> KeyAt(f, doc, p, last) == KeyEnd(end);
    assert last != "" ==> KeyAt(f, doc, p, last).KeyBad?;
  }

  /** The comma is accepted exactly behind an empty key, whatever the features, if the
      nesting fits. */
  lemma TrailingCommaExactly(f: Features, o: Style, m: Member, root: Value)
    requires Good(f, o, m)
    ensures var p := Parse(f, TrailingComma(o, m), root);
            && (Accepted(p) <==> m.key == "" && 1 + Depth(o, m.value) <= f.stackLimit)
            && (Accepted(p) ==> p.root == Object([Back(o, m)]))
  {
    var doc, more := TrailingComma(o, m), [Back(o, m)];
    FollowsSplit(doc, 0, "{", MemberText(o, m, ",}"));
    FollowsAt(doc, 0, "{", 0);
    var e := ValueEnd(o, m, 1);
    var next, end := e + 1, e + 2;
    var first := Depth(o, m.value);
    var r := Outcome(f, first, ReadBack(o, m.value), e, 1);
    assert Ends(",}", 0);
    MemberStandsHere(o, doc, 1, m, ",}");
    FollowsAt(doc, next, "}", 0);
    var turn := TurnOn(f, first, more, m.key, next, 1, false);
    AfterHere(f, doc, [], m.key, first, ReadBack(o, m.value), e, 1, more, false, next);
    MemberTurnIs(f, o, doc, 1, 1, m, "", [], ",}", e, r, turn);
    BraceBehind(f, doc, next, 1, more, m.key, end);
    TextEnds(doc, m, o, end);
    if m.key == "" {
      OneMember(f, doc, root, first, more, m.key, next, end, turn);
    } else {
      NotOneMember(f, doc, root, first, more, m.key, next, turn);
    }
  }

  lemma TextEnds(doc: string, m: Member, o: Style, end: nat)
    requires doc == TrailingComma(o, m) && end == ValueEnd(o, m, 1) + 2
    ensures end == |doc|
  {
  }

  lemma OneMember(f: Features, doc: string, root: Value, first: nat, more: seq<Member>, key: string, next: nat, end: nat, turn: MemberTurn)
    requires 1 < |doc| && doc[0] == '{' && ReadMember(f, doc, 1, 1, [], "") == turn && turn == TurnOn(f, first, more, key, next, 1, false)
    requires next <= |doc| && ReadMembers(f, doc, next, 1, more, key) == Read(true, Object(more), end, 1) && end == |doc|
    ensures var p := Parse(f, doc, root);
            (Accepted(p) <==> 1 + first <= f.stackLimit) && (Accepted(p) ==> p.root == Object(more))
  {
    JsonRoundTrip.MembersStep(f, doc, 1, 1, [], "", turn);
    ObjectOpens(f, doc, 0, 0, root, 1, 1);
    DocumentEnd(f, doc, end);
  }

  lemma NotOneMember(f: Features, doc: string, root: Value, first: nat, more: seq<Member>, key: string, next: nat, turn: MemberTurn)
    requires 1 < |doc| && doc[0] == '{' && ReadMember(f, doc, 1, 1, [], "") == turn && turn == TurnOn(f, first, more, key, next, 1, false)
    requires next <= |doc| && MembersFail(f, doc, next, 1, more, key)
    ensures !Accepted(Parse(f, doc, root))
  {
    JsonRoundTrip.MembersStep(f, doc, 1, 1, [], "", turn);
    ObjectRefused(f, doc, 0, 0, root, 1, 1);
    RefusedText(f, doc, root);
  }

  // ---- a wrong separator behind a comment ----

  /** A char that is a token of its own and closes nothing. */
  predicate Separates(c: char) {
    c in "{[]:," || !(IsSpace(c) || IsDigit(c) || c in "}\"'/-tfnNI\0")
  }

  /** Two members on two lines, with a comment in front of the separator or without. */
  function Separated(o: Style, a: Member, comment: bool, c: char, b: Member): string {
    "{" + MemberText(o, a, Gap(comment) + ([c] + MemberText(o, b, "}")))
  }

  function Gap(comment: bool): string {
    if comment then "\n/**/" else "\n"
  }

  lemma CharToken(f: Features, doc: string, p: nat, next: nat)
    requires p < |doc| && Separates(doc[p]) && next == p + 1
    ensures var t := ReadToken(f, doc, p);
            && t.end == next && t.kind != CommentToken && t.kind != ObjectEnd && (t.kind == ArraySeparator <==> doc[p] == ',')
            && NextToken(f, doc, p) == t
  {
    TokenHere(f, doc, p);
  }

  lemma CommentHere(f: Features, doc: string, p: nat, end: nat)
    requires Follows(doc, p, "/**/") && end == p + 4
    ensures ReadToken(f, doc, p) == Token(CommentToken, p, end)
  {
    FollowsAt(doc, p, "/**/", 0);
    FollowsAt(doc, p, "/**/", 1);
    FollowsAt(doc, p, "/**/", 2);
    FollowsAt(doc, p, "/**/", 3);
    TokenHere(f, doc, p);
    assert CStyleStop(doc, p + 2) == p + 3;
  }

  lemma SpaceFirst(f: Features, doc: string, p: nat, next: nat)
    requires p < |doc| && IsSpace(doc[p]) && next == p + 1
    ensures ReadToken(f, doc, p) == ReadToken(f, doc, next)
  {
  }

  /** Directly behind the value only a comma separates; behind a comment anything does. */
  lemma SeparatorRead(f: Features, doc: string, p: nat, comment: bool, c: char, rest: string, next: nat)
    requires Separates(c) && Follows(doc, p, Gap(comment) + ([c] + rest)) && next == p + |Gap(comment)| + 1
    ensures next <= |doc| && Follows(doc, next, rest)
    ensures if comment || c == ',' then CommaAt(f, doc, p) == More(next) else CommaAt(f, doc, p).BadSeparator?
  {
    var line, at := p + 1, p + |Gap(comment)|;
    FollowsSplit(doc, p, Gap(comment), [c] + rest);
    FollowsSplit(doc, at, [c], rest);
    FollowsAt(doc, at, [c], 0);
    FollowsAt(doc, p, Gap(comment), 0);
    SpaceFirst(f, doc, p, line);
    CharToken(f, doc, at, next);
    if comment {
      assert Gap(comment) == "\n" + "/**/";
      FollowsSplit(doc, p, "\n", "/**/");
      CommentHere(f, doc, line, at);
    }
  }

  lemma AfterAt(f: Features, doc: string, so: seq<Member>, key: string, needed: nat, v: Value, e: nat, depth: int,
                more: seq<Member>, next: nat)
    requires e <= |doc| && CommaAt(f, doc, e) == More(next) && Put(so, key, v) == more
    ensures AfterMember(f, doc, so, key, Outcome(f, needed, v, e, depth)) == TurnOn(f, needed, more, key, next, depth, false)
  {
  }

  lemma AfterBad(f: Features, doc: string, so: seq<Member>, key: string, needed: nat, v: Value, e: nat, depth: int)
    requires e <= |doc| && CommaAt(f, doc, e).BadSeparator?
    ensures TurnFails(f, doc, AfterMember(f, doc, so, key, Outcome(f, needed, v, e, depth)))
  {
  }

  /** The second member, which closes the object. */
  lemma SecondMember(f: Features, o: Style, doc: string, p: nat, so: seq<Member>, last: string, b: Member, e: nat, end: nat,
                     more: seq<Member>)
    requires Good(f, o, b) && Follows(doc, p, MemberText(o, b, "}")) && Lookup(so, b.key) == None
    requires e == ValueEnd(o, b, p) && end == e + 1 && more == Put(so, b.key, ReadBack(o, b.value))
    ensures p <= |doc| && end <= |doc|
    ensures ReadMembers(f, doc, p, 1, so, last) == Outcome(f, Depth(o, b.value), Object(more), end, 1)
  {
    var needed, v := Depth(o, b.value), ReadBack(o, b.value);
    var turn := TurnOn(f, needed, more, b.key, end, 1, true);
    MemberStandsHere(o, doc, p, b, "}");
    assert Ends("}", 0);
    AfterHere(f, doc, so, b.key, needed, v, e, 1, more, true, end);
    MemberTurnIs(f, o, doc, p, 1, b, last, so, "}", e, Outcome(f, needed, v, e, 1), turn);
    JsonRoundTrip.MembersStep(f, doc, p, 1, so, last, turn);
  }

  lemma TwoMembers(f: Features, doc: string, root: Value, first: nat, so: seq<Member>, key: string, next: nat, second: nat,
                   more: seq<Member>, end: nat, turn: MemberTurn)
    requires 1 < |doc| && doc[0] == '{' && ReadMember(f, doc, 1, 1, [], "") == turn && turn == TurnOn(f, first, so, key, next, 1, false)
    requires next <= |doc| && end == |doc| && ReadMembers(f, doc, next, 1, so, key) == Outcome(f, second, Object(more), end, 1)
    ensures var p := Parse(f, doc, root);
            && (Accepted(p) <==> 1 + first <= f.stackLimit && 1 + second <= f.stackLimit)
            && (Accepted(p) ==> p.root == Object(more))
  {
    JsonRoundTrip.MembersStep(f, doc, 1, 1, [], "", turn);
    ObjectOpens(f, doc, 0, 0, root, 1, 1);
    DocumentEnd(f, doc, end);
  }

  lemma TurnRefused(f: Features, doc: string, root: Value, turn: MemberTurn)
    requires 1 < |doc| && doc[0] == '{' && ReadMember(f, doc, 1, 1, [], "") == turn && TurnFails(f, doc, turn)
    ensures !Accepted(Parse(f, doc, root))
  {
    JsonRoundTrip.MembersStep(f, doc, 1, 1, [], "", turn);
    ObjectRefused(f, doc, 0, 0, root, 1, 1);
    RefusedText(f, doc, root);
  }

  lemma SeparatedEnds(o: Style, a: Member, comment: bool, c: char, b: Member, doc: string, next: nat, end: nat)
    requires doc == Separated(o, a, comment, c, b) && next == ValueEnd(o, a, 1) + |Gap(comment)| + 1 && end == ValueEnd(o, b, next) + 1
    ensures end == |doc|
  {
  }

  lemma SeparatedFront(o: Style, a: Member, comment: bool, c: char, b: Member, doc: string, rest: string, e: nat)
    requires doc == Separated(o, a, comment, c, b) && rest == Gap(comment) + ([c] + MemberText(o, b, "}")) && e == ValueEnd(o, a, 1)
    ensures 1 < |doc| && doc[0] == '{' && Follows(doc, 1, MemberText(o, a, rest)) && Follows(doc, e, rest)
    ensures rest != "" && rest[0] == '\n' && Ends(rest, 0)
  {
    assert Gap(comment)[0] == '\n';
    FollowsSplit(doc, 0, "{", MemberText(o, a, rest));
    FollowsAt(doc, 0, "{", 0);
    MemberFront(o, doc, 1, a.key, ValueText(o, a.value) + rest);
    FollowsSplit(doc, ValueStart(o, a.key, 1), ValueText(o, a.value), rest);
  }

  lemma OtherKey(m: Member, key: string)
    requires m.key != key
    ensures Lookup([m], key) == None
  {
    StringTrichotomy(m.key, key);
  }

  /** A document whose first member is read, and whose second follows at `next`. */
  lemma SecondFollows(f: Features, o: Style, a: Member, b: Member, root: Value, doc: string, e: nat, next: nat, end: nat, turn: MemberTurn)
    requires Good(f, o, a) && Good(f, o, b) && a.key != b.key
    requires 1 < |doc| && doc[0] == '{' && e <= |doc| && CommaAt(f, doc, e) == More(next)
    requires Follows(doc, next, MemberText(o, b, "}")) && end == ValueEnd(o, b, next) + 1 && end == |doc|
    requires turn == AfterMember(f, doc, [], a.key, Outcome(f, Depth(o, a.value), ReadBack(o, a.value), e, 1))
    requires ReadMember(f, doc, 1, 1, [], "") == turn
    ensures var p := Parse(f, doc, root);
            && (Accepted(p) <==> 1 + Depth(o, a.value) <= f.stackLimit && 1 + Depth(o, b.value) <= f.stackLimit)
            && (Accepted(p) ==> p.root == Object(Put([Back(o, a)], b.key, ReadBack(o, b.value))))
  {
    var so, second := [Back(o, a)], ValueEnd(o, b, next);
    var more := Put(so, b.key, ReadBack(o, b.value));
    AfterAt(f, doc, [], a.key, Depth(o, a.value), ReadBack(o, a.value), e, 1, so, next);
    OtherKey(so[0], b.key);
    SecondMember(f, o, doc, next, so, a.key, b, second, end, more);
    TwoMembers(f, doc, root, Depth(o, a.value), so, a.key, next, Depth(o, b.value), more, end, turn);
  }

  /** The separator is accepted exactly if it is a comma or has a comment in front of it,
      whatever the features, comments allowed or not, if the nesting fits. */
  lemma SeparatorExactly(f: Features, o: Style, a: Member, comment: bool, c: char, b: Member, root: Value)
    requires Good(f, o, a) && Good(f, o, b) && a.key != b.key && Separates(c) && !(o.dropNulls && a.value == Null)
    ensures var p := Parse(f, Separated(o, a, comment, c, b), root);
            && (Accepted(p) <==>
                (comment || c == ',') && 1 + Depth(o, a.value) <= f.stackLimit && 1 + Depth(o, b.value) <= f.stackLimit)
            && (Accepted(p) ==> p.root == Object(Put([Back(o, a)], b.key, ReadBack(o, b.value))))
  {
    var doc, behind, e := Separated(o, a, comment, c, b), MemberText(o, b, "}"), ValueEnd(o, a, 1);
    var rest, next := Gap(comment) + ([c] + behind), e + |Gap(comment)| + 1;
    var end := ValueEnd(o, b, next) + 1;
    var r := Outcome(f, Depth(o, a.value), ReadBack(o, a.value), e, 1);
    SeparatedFront(o, a, comment, c, b, doc, rest, e);
    SeparatedEnds(o, a, comment, c, b, doc, next, end);
    SeparatorRead(f, doc, e, comment, c, behind, next);
    var turn := AfterMember(f, doc, [], a.key, r);
    MemberTurnIs(f, o, doc, 1, 1, a, "", [], rest, e, r, turn);
    if comment || c == ',' {
      SecondFollows(f, o, a, b, root, doc, e, next, end, turn);
    } else {
      AfterBad(f, doc, [], a.key, Depth(o, a.value), ReadBack(o, a.value), e, 1);
      TurnRefused(f, doc, root, turn);
    }
  }
}
