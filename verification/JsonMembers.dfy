/** Objects whose members stand in any order and may repeat a key (OurReader::readObject of
    server/utils/jsoncpp.cpp): what is kept, and when a repeated key is refused. */
module JsonMembers {
  import opened Util
  import opened Texts
  import opened JsonValues
  import opened JsonLexer
  import opened JsonReading
  import opened JsonStrings
  import opened JsonWriter
  import opened JsonRoundTrip
  import opened JsonRefusals
  import opened JsonDocuments
  import opened JsonStability

  /** Every member can be printed, and read back by this reader; the keys are any. */
  predicate AllGood(f: Features, o: Style, members: seq<Member>) {
    forall i :: 0 <= i < |members| ==>
      |members[i].key| < MAX_KEY && Printable(members[i].value) && Readable(f, o, members[i].value)
  }

  predicate Distinct(members: seq<Member>) {
    forall i, j :: 0 <= i < j < |members| ==> members[i].key != members[j].key
  }

  /** The first i members, put into the object one behind the other. */
  function Gathered(o: Style, members: seq<Member>, i: nat): seq<Member>
    requires i <= |members|
  {
    if i == 0 then [] else Put(Gathered(o, members, i - 1), members[i - 1].key, ReadBack(o, members[i - 1].value))
  }

  /** The key of member i stands in front of it already. */
  predicate Repeats(members: seq<Member>, i: nat) {
    i < |members| && exists j :: 0 <= j < i && members[j].key == members[i].key
  }

  /** The last member with a key gives its value. */
  predicate IsLast(members: seq<Member>, n: nat, j: nat, key: string) {
    j < n <= |members| && members[j].key == key && forall k :: j < k < n ==> members[k].key != key
  }

  lemma {:induction false} GatheredSorted(o: Style, members: seq<Member>, n: nat)
    requires n <= |members|
    ensures KeysSorted(Gathered(o, members, n))
    decreases n
  {
    if n > 0 {
      GatheredSorted(o, members, n - 1);
      PutSorted(Gathered(o, members, n - 1), members[n - 1].key, ReadBack(o, members[n - 1].value));
    }
  }

  lemma {:induction false} GatheredValues(o: Style, members: seq<Member>, n: nat, key: string)
    requires n <= |members|
    ensures Lookup(Gathered(o, members, n), key) == None <==> forall j :: 0 <= j < n ==> members[j].key != key
    ensures forall j :: 0 <= j < n && IsLast(members, n, j, key) ==>
              Lookup(Gathered(o, members, n), key) == Some(ReadBack(o, members[j].value))
    decreases n
  {
    if n > 0 {
      var before, m := n - 1, members[n - 1];
      GatheredSorted(o, members, before);
      GatheredValues(o, members, before, key);
      PutLookup(Gathered(o, members, before), m.key, ReadBack(o, m.value), key);
    }
  }

  // ---- reading ----

  /** Some member from i on repeats a key, and the reader refuses that. */
  predicate Refuses(f: Features, members: seq<Member>, i: nat) {
    f.rejectDupKeys && exists k :: i <= k < |members| && Repeats(members, k)
  }

  lemma RepeatSeen(o: Style, members: seq<Member>, i: nat)
    requires i < |members|
    ensures Lookup(Gathered(o, members, i), members[i].key).Some? <==> Repeats(members, i)
  {
    GatheredValues(o, members, i, members[i].key);
  }

  lemma RepeatRefused(f: Features, doc: string, k: nat, depth: int, so: seq<Member>, key: string)
    requires k <= |doc| && f.rejectDupKeys && Lookup(so, key).Some?
    ensures TurnFails(f, doc, ReadNamed(f, doc, k, depth, so, key))
  {
  }

  /** A member whose key is new or may be repeated, up to what follows its value. */
  lemma NamedTurn(f: Features, doc: string, k: nat, start: nat, depth: int, so: seq<Member>, key: string, r: ReadResult, turn: MemberTurn)
    requires k <= |doc| && start <= |doc| && (start == k || (start == k + 1 && At(doc, k) == ' '))
    requires f.rejectDupKeys ==> Lookup(so, key) == None
    requires ReadValue(f, doc, start, depth, Lookup(so, key).GetOr(Null)) == r && AfterMember(f, doc, so, key, r) == turn
    ensures ReadNamed(f, doc, k, depth, so, key) == turn
  {
    if start == k + 1 {
      SpaceSkipped(f, doc, k, depth, Lookup(so, key).GetOr(Null), start);
    }
  }

  /** The turn of the loop of readObject that reads member i. */
  lemma GoodTurn(f: Features, o: Style, doc: string, p: nat, depth: int, members: seq<Member>, i: nat, last: string,
                 so: seq<Member>, next: nat, more: seq<Member>, closing: bool, turn: MemberTurn)
    requires AllGood(f, o, members) && i < |members| && Follows(doc, p, MembersTail(o, members, i))
    requires f.rejectDupKeys ==> Lookup(so, members[i].key) == None
    requires next == ValueEnd(o, members[i], p) + 1 && closing == (i + 1 == |members|)
    requires more == Put(so, members[i].key, ReadBack(o, members[i].value))
    requires turn == TurnOn(f, Depth(o, members[i].value), more, members[i].key, next, depth, closing)
    ensures p <= |doc| && ReadMember(f, doc, p, depth, so, last) == turn
  {
    var m, k, start, e := members[i], p + |Quoted(members[i].key)| + 1, ValueStart(o, members[i].key, p), ValueEnd(o, members[i], p);
    var first, v, prior := Depth(o, m.value), ReadBack(o, m.value), Lookup(so, m.key).GetOr(Null);
    var r := Outcome(f, first, v, e, depth);
    MemberEnd(o, doc, p, members, i, e);
    KeyHere(f, o, doc, p, m.key, last, k);
    ValueReadTo(f, o, doc, start, depth, prior, m.value, first, v, e);
    AfterHere(f, doc, so, m.key, first, v, e, depth, more, closing, next);
    NamedTurn(f, doc, k, start, depth, so, m.key, r, turn);
    MemberFrom(f, doc, p, depth, so, last, m.key, k, turn);
  }

  lemma RefusedTurn(f: Features, o: Style, doc: string, p: nat, depth: int, members: seq<Member>, i: nat, last: string,
                    so: seq<Member>, k: nat)
    requires AllGood(f, o, members) && i < |members| && Follows(doc, p, MembersTail(o, members, i))
    requires f.rejectDupKeys && Lookup(so, members[i].key).Some? && k == p + |Quoted(members[i].key)| + 1
    ensures p <= |doc| && MembersFail(f, doc, p, depth, so, last)
  {
    MemberEnd(o, doc, p, members, i, ValueEnd(o, members[i], p));
    KeyHere(f, o, doc, p, members[i].key, last, k);
    RepeatRefused(f, doc, k, depth, so, members[i].key);
    NamedRefused(f, doc, p, depth, so, last, members[i].key, k);
  }

  /** What reading the members from i on comes to. */
  predicate Comes(f: Features, o: Style, doc: string, p: nat, depth: int, members: seq<Member>, i: nat, last: string, so: seq<Member>,
                  end: nat)
    requires p <= |doc| && i <= |members|
  {
    if Refuses(f, members, i) then MembersFail(f, doc, p, depth, so, last)
    else ReadMembers(f, doc, p, depth, so, last) ==
         Outcome(f, MembersDepth(o, members, i), Object(Gathered(o, members, |members|)), end, depth)
  }

  lemma {:induction false} MembersGathered(f: Features, o: Style, doc: string, p: nat, depth: int, members: seq<Member>, i: nat,
                                           last: string, so: seq<Member>, end: nat)
    requires AllGood(f, o, members) && i < |members| && Follows(doc, p, MembersTail(o, members, i))
    requires so == Gathered(o, members, i) && end == p + |MembersTail(o, members, i)|
    ensures p <= |doc| && Comes(f, o, doc, p, depth, members, i, last, so, end)
    decreases |members| - i
  {
    var m, next, j := members[i], ValueEnd(o, members[i], p) + 1, i + 1;
    RepeatSeen(o, members, i);
    MemberNext(o, doc, p, members, i, next);
    if f.rejectDupKeys && Repeats(members, i) {
      RefusedTurn(f, o, doc, p, depth, members, i, last, so, p + |Quoted(m.key)| + 1);
    } else {
      var more := Put(so, m.key, ReadBack(o, m.value));
      var turn := TurnOn(f, Depth(o, m.value), more, m.key, next, depth, j == |members|);
      GoodTurn(f, o, doc, p, depth, members, i, last, so, next, more, j == |members|, turn);
      if j < |members| {
        MembersGathered(f, o, doc, next, depth, members, j, m.key, more, end);
      }
      MemberThenRest(f, o, doc, p, depth, members, i, last, so, next, more, end, turn);
    }
  }

  lemma RefusesStep(f: Features, members: seq<Member>, i: nat, j: nat)
    requires j == i + 1 && (f.rejectDupKeys ==> !Repeats(members, i))
    ensures Refuses(f, members, i) <==> Refuses(f, members, j)
    ensures !Refuses(f, members, |members|)
  {
  }

  lemma MemberThenRest(f: Features, o: Style, doc: string, p: nat, depth: int, members: seq<Member>, i: nat, last: string,
                       so: seq<Member>, next: nat, more: seq<Member>, end: nat, turn: MemberTurn)
    requires i < |members| && p <= |doc| && next <= |doc| && more == Gathered(o, members, i + 1)
    requires ReadMember(f, doc, p, depth, so, last) == turn
    requires turn == TurnOn(f, Depth(o, members[i].value), more, members[i].key, next, depth, i + 1 == |members|)
    requires f.rejectDupKeys ==> !Repeats(members, i)
    requires i + 1 < |members| ==> Comes(f, o, doc, next, depth, members, i + 1, members[i].key, more, end)
    requires i + 1 == |members| ==> next == end
    ensures Comes(f, o, doc, p, depth, members, i, last, so, end)
  {
    var first, rest, j, whole := Depth(o, members[i].value), MembersDepth(o, members, i + 1), i + 1, Object(Gathered(o, members, |members|));
    RefusesStep(f, members, i, j);
    MembersDepthStep(o, members, i);
    if j == |members| {
      JsonRoundTrip.MembersStep(f, doc, p, depth, so, last, turn);
    } else if Refuses(f, members, j) {
      RestRefused(f, doc, p, depth, so, last, first, more, members[i].key, next, turn);
    } else {
      MembersMore(f, doc, p, depth, so, last, first, more, members[i].key, next, rest, whole, end, turn);
    }
  }

  lemma RestRefused(f: Features, doc: string, p: nat, depth: int, so: seq<Member>, last: string, first: nat, more: seq<Member>,
                    key: string, next: nat, turn: MemberTurn)
    requires p <= |doc| && ReadMember(f, doc, p, depth, so, last) == turn && turn == TurnOn(f, first, more, key, next, depth, false)
    requires next <= |doc| && MembersFail(f, doc, next, depth, more, key)
    ensures MembersFail(f, doc, p, depth, so, last)
  {
    JsonRoundTrip.MembersStep(f, doc, p, depth, so, last, turn);
  }

  lemma RefusesExactly(f: Features, members: seq<Member>)
    ensures Refuses(f, members, 0) <==> f.rejectDupKeys && !Distinct(members)
  {
    if f.rejectDupKeys && !Distinct(members) {
      var i, j :| 0 <= i < j < |members| && members[i].key == members[j].key;
      assert Repeats(members, j);
    }
  }

  /** Behind the opening brace of the document. */
  lemma InnerGathered(f: Features, o: Style, doc: string, members: seq<Member>, end: nat)
    requires AllGood(f, o, members) && Follows(doc, 1, MembersText(o, members, 0) + "}")
    requires end == 1 + |MembersText(o, members, 0) + "}"| && 1 <= f.stackLimit
    ensures 1 <= |doc| && Comes(f, o, doc, 1, 1, members, 0, "", [], end)
  {
    if members == [] {
      FollowsAt(doc, 1, "}", 0);
      NoMembersRead(f, doc, 1, 1, [], end);
    } else {
      FirstMemberHere(o, members);
      MembersGathered(f, o, doc, 1, 1, members, 0, "", [], end);
    }
  }

  lemma GatheredParse(f: Features, o: Style, doc: string, members: seq<Member>, root: Value, inner: nat, whole: Value, end: nat)
    requires 1 <= f.stackLimit && |doc| > 1 && doc[0] == '{' && Comes(f, o, doc, 1, 1, members, 0, "", [], end)
    requires inner == MembersDepth(o, members, 0) && whole == Object(Gathered(o, members, |members|))
    requires end <= |doc| && SkipCommentTokens(f, doc, end).kind == EndOfStream
    ensures if Refuses(f, members, 0) then !Accepted(Parse(f, doc, root))
            else Parse(f, doc, root) == if 1 + inner > f.stackLimit then ParseThrow else Parsed(true, whole)
  {
    if Refuses(f, members, 0) {
      ObjectRefused(f, doc, 0, 0, root, 1, 1);
      RefusedText(f, doc, root);
    } else {
      ObjectOpens(f, doc, 0, 0, root, 1, 1);
      ObjectLeft(f, doc, 0, 0, root, 1, 1, inner, 1 + inner, whole, end);
      ParseFrom(f, doc, root, 1 + inner, whole, end);
    }
  }

  lemma DocumentOpens(f: Features, o: Style, members: seq<Member>, doc: string, text: string, end: nat)
    requires doc == Text(o, Object(members)) && text == MembersText(o, members, 0) && end == |ValueText(o, Object(members))|
    ensures |doc| > 1 && doc[0] == '{' && Follows(doc, 1, text + "}") && end == 1 + |text + "}"|
    ensures end <= |doc| && SkipCommentTokens(f, doc, end).kind == EndOfStream
  {
    ObjectFacts(o, members);
    TextStands(o, Object(members));
    Opened(doc, 0, "{", text, "}");
    DocumentEnd(f, doc, end);
  }

  /** A repeated key is refused exactly by a reader that was told to, whatever the order of
      the members. Otherwise the object holds every key once, in the order of the keys, with
      the value of its last member. */
  lemma RepeatedKeysExactly(f: Features, o: Style, members: seq<Member>, root: Value)
    requires AllGood(f, o, members)
    ensures var p := Parse(f, Text(o, Object(members)), root);
            && (Accepted(p) <==> 1 + MembersDepth(o, members, 0) <= f.stackLimit && (f.rejectDupKeys ==> Distinct(members)))
            && (Accepted(p) ==> p.root == Object(Gathered(o, members, |members|)))
  {
    var doc, text, inner := Text(o, Object(members)), MembersText(o, members, 0), MembersDepth(o, members, 0);
    var end, whole := |ValueText(o, Object(members))|, Object(Gathered(o, members, |members|));
    RefusesExactly(f, members);
    DocumentOpens(f, o, members, doc, text, end);
    if 1 <= f.stackLimit {
      InnerGathered(f, o, doc, members, end);
      GatheredParse(f, o, doc, members, root, inner, whole, end);
    } else {
      ObjectOpens(f, doc, 0, 0, root, 1, 1);
    }
  }
}
