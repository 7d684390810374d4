/** What parse makes of a document that FastWriter printed (server/utils/jsoncpp.cpp), in
    every style and with all features of the reader. */
module JsonDocuments {
  import opened JsonValues
  import opened JsonLexer
  import opened JsonReading
  import opened JsonWriter
  import opened JsonRoundTrip
  import opened JsonRefusals

  lemma DocumentEnd(f: Features, doc: string, p: nat)
    requires p == |doc| || (p + 1 == |doc| && doc[p] == '\n')
    ensures SkipCommentTokens(f, doc, p).kind == EndOfStream
  {
    if p + 1 == |doc| {
      assert SkipSpaces(doc, p) == SkipSpaces(doc, p + 1);
    }
  }

  lemma TextStands(o: Style, v: Value)
    requires !(o.dropNulls && v == Null)
    ensures Stands(o, Text(o, v), 0, v)
    ensures |Text(o, v)| == |ValueText(o, v)| + (if o.omitLineFeed then 0 else 1)
    ensures !o.omitLineFeed ==> Text(o, v)[|ValueText(o, v)|] == '\n'
  {
    assert Text(o, v)[0..|ValueText(o, v)|] == ValueText(o, v);
  }

  lemma ParseFrom(f: Features, doc: string, root: Value, needed: nat, v: Value, end: nat)
    requires ReadValue(f, doc, 0, 0, root) == Outcome(f, needed, v, end, 0)
    requires end <= |doc| && SkipCommentTokens(f, doc, end).kind == EndOfStream
    ensures Parse(f, doc, root) ==
            if needed > f.stackLimit then ParseThrow else Parsed(f.strictRoot ==> v.Array? || v.Object?, v)
  {
  }

  /** The document of a dropped null at the root: nothing to read. */
  lemma NothingParses(f: Features, doc: string, root: Value)
    requires doc == "" || doc == "\n"
    ensures Parse(f, doc, root) == if f.stackLimit <= 0 then ParseThrow else Parsed(false, root)
  {
    DocumentEnd(f, doc, 0);
    JsonRoundTrip.ScalarRead(f, doc, 0, 0, root, SkipCommentTokens(f, doc, 0));
  }

  lemma RefusedText(f: Features, doc: string, root: Value)
    requires Refused(ReadValue(f, doc, 0, 0, root))
    ensures !Accepted(Parse(f, doc, root))
  {
  }

  predicate Accepted(p: ParseResult) {
    p.Parsed? && p.ok
  }

  /** What parse makes of a printed value. A dropped null at the root leaves nothing to
      read. A gap is refused by a reader that does not allow for it. Everything else comes
      back, its integers retagged; parse throws exactly when the value is nested too deep,
      and is content exactly when a strict root is not a scalar. */
  lemma PrintedTextParses(f: Features, o: Style, v: Value, root: Value)
    requires Printable(v)
    ensures var p := Parse(f, Text(o, v), root);
            if o.dropNulls && v == Null then p == if f.stackLimit <= 0 then ParseThrow else Parsed(false, root)
            else if !Readable(f, o, v) then !Accepted(p)
            else if Depth(o, v) > f.stackLimit then p == ParseThrow
            else p == Parsed(f.strictRoot ==> v.Array? || v.Object?, ReadBack(o, v))
  {
    var doc, end := Text(o, v), |ValueText(o, v)|;
    if o.dropNulls && v == Null {
      NothingParses(f, doc, root);
    } else {
      TextStands(o, v);
      if Readable(f, o, v) {
        ValueReadTo(f, o, doc, 0, 0, root, v, Depth(o, v), ReadBack(o, v), end);
        DocumentEnd(f, doc, end);
        ParseFrom(f, doc, root, Depth(o, v), ReadBack(o, v), end);
      } else {
        ValueGap(f, o, doc, 0, 0, root, v);
        RefusedText(f, doc, root);
      }
    }
  }

  // ---- when the value that comes back is the same one ----

  /** A value without the difference between signed and unsigned integers. */
  function Untagged(v: Value): Value {
    match v
    case UInt(u) => Int(u)
    case Array(elems) => Array(seq(|elems|, i requires 0 <= i < |elems| => Untagged(elems[i])))
    case Object(members) =>
      Object(seq(|members|, i requires 0 <= i < |members| => Member(members[i].key, Untagged(members[i].value))))
    case _ => v
  }

  predicate HasLoneNull(v: Value) {
    match v
    case Array(elems) => elems == [Null] || exists i :: 0 <= i < |elems| && HasLoneNull(elems[i])
    case Object(members) => exists i :: 0 <= i < |members| && HasLoneNull(members[i].value)
    case _ => false
  }

  /** The same value comes back, up to the tag of its integers, exactly when no array of
      one null loses its null. */
  lemma {:induction false} SameUnlessNullLost(o: Style, v: Value)
    ensures Untagged(ReadBack(o, v)) == Untagged(v) <==> !(o.dropNulls && HasLoneNull(v))
  {
    match v
    case Array(elems) =>
      forall i | 0 <= i < |elems|
        ensures Untagged(ReadBack(o, elems[i])) == Untagged(elems[i]) <==> !(o.dropNulls && HasLoneNull(elems[i]))
      {
        SameUnlessNullLost(o, elems[i]);
      }
      SameElements(o, elems);
    case Object(members) =>
      forall i | 0 <= i < |members|
        ensures Untagged(ReadBack(o, members[i].value)) == Untagged(members[i].value) <==>
                !(o.dropNulls && HasLoneNull(members[i].value))
      {
        SameUnlessNullLost(o, members[i].value);
      }
      SameMembers(o, members);
    case _ =>
  }

  lemma SameElements(o: Style, elems: seq<Value>)
    requires forall i :: 0 <= i < |elems| ==>
               (Untagged(ReadBack(o, elems[i])) == Untagged(elems[i]) <==> !(o.dropNulls && HasLoneNull(elems[i])))
    ensures Untagged(ReadBack(o, Array(elems))) == Untagged(Array(elems)) <==> !(o.dropNulls && HasLoneNull(Array(elems)))
  {
    var a, b := Untagged(ReadBack(o, Array(elems))).elems, Untagged(Array(elems)).elems;
    if o.dropNulls && elems == [Null] {
      assert |a| == 0 && |b| == 1;
    } else {
      assert forall i :: 0 <= i < |elems| ==> a[i] == Untagged(ReadBack(o, elems[i])) && b[i] == Untagged(elems[i]);
    }
  }

  lemma SameMembers(o: Style, members: seq<Member>)
    requires forall i :: 0 <= i < |members| ==>
               (Untagged(ReadBack(o, members[i].value)) == Untagged(members[i].value) <==> !(o.dropNulls && HasLoneNull(members[i].value)))
    ensures Untagged(ReadBack(o, Object(members))) == Untagged(Object(members)) <==> !(o.dropNulls && HasLoneNull(Object(members)))
  {
    var a, b := Untagged(ReadBack(o, Object(members))).members, Untagged(Object(members)).members;
    assert forall i :: 0 <= i < |members| ==>
      a[i] == Member(members[i].key, Untagged(ReadBack(o, members[i].value))) && b[i] == Member(members[i].key, Untagged(members[i].value));
  }

  /** The value is given back: parse is content, and only the tags of integers differ. */
  predicate GivenBack(p: ParseResult, v: Value) {
    Accepted(p) && Untagged(p.root) == Untagged(v)
  }

  /** Dropping the nulls of this value keeps it readable and whole for this reader. */
  predicate NullsSurvive(f: Features, v: Value) {
    v != Null && !HasLoneNull(v) && (HasGap(v) ==> f.allowDroppedNullPlaceholders)
  }

  /** Exactly which printed values parse gives back. */
  lemma GivenBackExactly(f: Features, o: Style, v: Value, root: Value)
    requires Printable(v)
    ensures GivenBack(Parse(f, Text(o, v), root), v) <==>
            && Depth(o, v) <= f.stackLimit
            && (f.strictRoot ==> v.Array? || v.Object?)
            && (o.dropNulls ==> NullsSurvive(f, v))
  {
    PrintedTextParses(f, o, v, root);
    SameUnlessNullLost(o, v);
  }
}
