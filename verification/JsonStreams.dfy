/** OurReader (server/utils/jsoncpp.cpp) sees a document only as a sequence of tokens: two
    documents with the same tokens, whatever stands between these, parse the same. */
module JsonStreams {
  import opened Util
  import opened Texts
  import opened JsonValues
  import opened JsonStrings
  import opened JsonLexer
  import opened JsonReading

  /** From these positions on the two documents have the same tokens, spelled the same. */
  ghost predicate Agree(f: Features, doc: string, p: nat, doc': string, p': nat)
    requires p <= |doc| && p' <= |doc'|
    decreases |doc| - p
  {
    var t, t' := ReadToken(f, doc, p), ReadToken(f, doc', p');
    SameSpelling(doc, t, doc', t') && (t.start < t.end ==> Agree(f, doc, t.end, doc', t'.end))
  }

  predicate SameSpelling(doc: string, t: Token, doc': string, t': Token)
    requires t.start <= t.end <= |doc| && t'.start <= t'.end <= |doc'|
  {
    t.kind == t'.kind && doc[t.start..t.end] == doc'[t'.start..t'.end]
  }

  /** The same token in both, and the same ones from it and behind it on. */
  ghost predicate AgreeAt(f: Features, doc: string, t: Token, doc': string, t': Token)
    requires t.start <= t.end <= |doc| && t'.start <= t'.end <= |doc'|
  {
    SameSpelling(doc, t, doc', t') && Agree(f, doc, t.start, doc', t'.start) && Agree(f, doc, t.end, doc', t'.end)
  }

  /** Blanks in front of a token are skipped once. */
  lemma {:induction false} SkippedOnce(doc: string, p: nat)
    requires p <= |doc|
    ensures SkipSpaces(doc, SkipSpaces(doc, p)) == SkipSpaces(doc, p)
    decreases |doc| - p
  {
    if p < |doc| && IsSpace(doc[p]) {
      SkippedOnce(doc, p + 1);
    }
  }

  lemma TokenAtStart(f: Features, doc: string, p: nat)
    requires p <= |doc|
    ensures ReadToken(f, doc, ReadToken(f, doc, p).start) == ReadToken(f, doc, p)
  {
    SkippedOnce(doc, p);
  }

  lemma TokensAgree(f: Features, doc: string, p: nat, doc': string, p': nat)
    requires p <= |doc| && p' <= |doc'| && Agree(f, doc, p, doc', p')
    ensures AgreeAt(f, doc, ReadToken(f, doc, p), doc', ReadToken(f, doc', p'))
  {
    var t, t' := ReadToken(f, doc, p), ReadToken(f, doc', p');
    TokenAtStart(f, doc, p);
    TokenAtStart(f, doc', p');
    assert |doc[t.start..t.end]| == |doc'[t'.start..t'.end]|;
  }

  lemma {:induction false} NextAgrees(f: Features, doc: string, p: nat, doc': string, p': nat)
    requires p <= |doc| && p' <= |doc'| && Agree(f, doc, p, doc', p')
    ensures AgreeAt(f, doc, NextToken(f, doc, p), doc', NextToken(f, doc', p'))
    decreases |doc| - p
  {
    TokensAgree(f, doc, p, doc', p');
    var t, t' := ReadToken(f, doc, p), ReadToken(f, doc', p');
    if t.kind == CommentToken {
      NextAgrees(f, doc, t.end, doc', t'.end);
    }
  }

  lemma SkipAgrees(f: Features, doc: string, p: nat, doc': string, p': nat)
    requires p <= |doc| && p' <= |doc'| && Agree(f, doc, p, doc', p')
    ensures AgreeAt(f, doc, SkipCommentTokens(f, doc, p), doc', SkipCommentTokens(f, doc', p'))
  {
    TokensAgree(f, doc, p, doc', p');
    NextAgrees(f, doc, p, doc', p');
  }

  lemma {:induction false} RecoverAgrees(f: Features, doc: string, p: nat, doc': string, p': nat, kind: TokenKind)
    requires p <= |doc| && p' <= |doc'| && Agree(f, doc, p, doc', p')
    ensures Agree(f, doc, Recover(f, doc, p, kind), doc', Recover(f, doc', p', kind))
    decreases |doc| - p
  {
    TokensAgree(f, doc, p, doc', p');
    var t, t' := ReadToken(f, doc, p), ReadToken(f, doc', p');
    if t.kind != kind && t.kind != EndOfStream {
      RecoverAgrees(f, doc, t.end, doc', t'.end, kind);
    }
  }

  // ---- the parts of a value ----

  /** The same verdict, value and depth, and the same tokens behind. */
  ghost predicate SameRead(f: Features, doc: string, r: ReadResult, doc': string, r': ReadResult)
    requires (r.Read? ==> r.pos <= |doc|) && (r'.Read? ==> r'.pos <= |doc'|)
  {
    if r.Throw? then r'.Throw?
    else r'.Read? && r.ok == r'.ok && r.value == r'.value && r.depth == r'.depth && Agree(f, doc, r.pos, doc', r'.pos)
  }

  lemma SameInside(doc: string, t: Token, doc': string, t': Token)
    requires t.start + 2 <= t.end <= |doc| && t'.start + 2 <= t'.end <= |doc'| && SameSpelling(doc, t, doc', t')
    ensures Inside(doc, t) == Inside(doc', t')
  {
    InsideWhole(doc, t, doc[t.start..t.end]);
    InsideWhole(doc', t', doc'[t'.start..t'.end]);
  }

  lemma InsideWhole(doc: string, t: Token, whole: string)
    requires t.start + 2 <= t.end <= |doc| && whole == doc[t.start..t.end]
    ensures Inside(doc, t) == whole[1..|whole| - 1]
  {
    var inside, n := Inside(doc, t), |whole| - 2;
    assert |inside| == n;
    forall i | 0 <= i < n ensures inside[i] == whole[1..n + 1][i] {
      assert whole[1 + i] == doc[t.start + 1 + i];
    }
  }

  lemma ScalarAgrees(f: Features, doc: string, t: Token, doc': string, t': Token, depth: int, prior: Value)
    requires t.start <= t.end <= |doc| && t'.start <= t'.end <= |doc'| && AgreeAt(f, doc, t, doc', t')
    requires t.kind != EndOfStream ==> t.start < t.end && t'.start < t'.end
    requires t.kind == StringToken ==> t.start + 2 <= t.end && t'.start + 2 <= t'.end
    requires IsDroppedNull(f, t.kind) ==> t.end == t.start + 1 && t'.end == t'.start + 1
    ensures SameRead(f, doc, ScalarResult(f, doc, t, depth, prior), doc', ScalarResult(f, doc', t', depth, prior))
  {
    if t.kind == StringToken {
      SameInside(doc, t, doc', t');
    }
  }

  /** The tokens that close or separate are one char long. */
  lemma OneChar(f: Features, doc: string, p: nat)
    requires p <= |doc|
    ensures IsDroppedNull(f, ReadToken(f, doc, p).kind) ==> ReadToken(f, doc, p).end == ReadToken(f, doc, p).start + 1
  {
  }

  lemma {:induction false} OneCharNext(f: Features, doc: string, p: nat)
    requires p <= |doc|
    ensures IsDroppedNull(f, NextToken(f, doc, p).kind) ==> NextToken(f, doc, p).end == NextToken(f, doc, p).start + 1
    decreases |doc| - p
  {
    OneChar(f, doc, p);
    var t := ReadToken(f, doc, p);
    if t.kind == CommentToken {
      OneCharNext(f, doc, t.end);
    }
  }

  ghost predicate SameKey(f: Features, doc: string, k: KeyStep, doc': string, k': KeyStep)
    requires (!k.KeyThrow? ==> k.pos <= |doc|) && (!k'.KeyThrow? ==> k'.pos <= |doc'|)
  {
    match k
    case KeyThrow => k'.KeyThrow?
    case KeyEnd(pos) => k'.KeyEnd? && Agree(f, doc, pos, doc', k'.pos)
    case KeyBad(pos) => k'.KeyBad? && Agree(f, doc, pos, doc', k'.pos)
    case Key(name, pos) => k'.Key? && k'.name == name && Agree(f, doc, pos, doc', k'.pos)
  }

  lemma ColonAgrees(f: Features, doc: string, p: nat, doc': string, p': nat, name: string)
    requires p <= |doc| && p' <= |doc'| && Agree(f, doc, p, doc', p')
    ensures SameKey(f, doc, ColonAt(f, doc, p, name), doc', ColonAt(f, doc', p', name))
  {
    TokensAgree(f, doc, p, doc', p');
    RecoverAgrees(f, doc, ReadToken(f, doc, p).end, doc', ReadToken(f, doc', p').end, ObjectEnd);
  }

  lemma StringKeyAgrees(f: Features, doc: string, p: nat, doc': string, p': nat, last: string, t: Token, t': Token)
    requires p <= |doc| && p' <= |doc'| && t == NextToken(f, doc, p) && t' == NextToken(f, doc', p')
    requires AgreeAt(f, doc, t, doc', t') && t.kind == StringToken
    ensures SameKey(f, doc, KeyAt(f, doc, p, last), doc', KeyAt(f, doc', p', last))
  {
    SameInside(doc, t, doc', t');
    RecoverAgrees(f, doc, t.end, doc', t'.end, ObjectEnd);
    NamedAgrees(f, doc, t.end, doc', t'.end, DecodeFrom(Inside(doc, t), 0));
  }

  /** What a number in front of a member comes to. */
  function NumberKey(f: Features, doc: string, end: nat, v: Option<Value>): (k: KeyStep)
    requires end <= |doc|
    ensures !k.KeyThrow? ==> k.pos <= |doc|
  {
    if f.allowNumericKeys && v.Some? then ColonAt(f, doc, end, KeyText(f, v.value)) else KeyBad(Recover(f, doc, end, ObjectEnd))
  }

  lemma NumberKeyIs(f: Features, doc: string, p: nat, last: string, t: Token)
    requires p <= |doc| && t == NextToken(f, doc, p) && t.kind == NumberToken
    ensures KeyAt(f, doc, p, last) == NumberKey(f, doc, t.end, NumberValue(f, doc[t.start..t.end]))
  {
  }

  lemma NumberKeysAgree(f: Features, doc: string, end: nat, doc': string, end': nat, v: Option<Value>)
    requires end <= |doc| && end' <= |doc'| && Agree(f, doc, end, doc', end')
    ensures SameKey(f, doc, NumberKey(f, doc, end, v), doc', NumberKey(f, doc', end', v))
  {
    RecoverAgrees(f, doc, end, doc', end', ObjectEnd);
    NamedAgrees(f, doc, end, doc', end', if v.Some? then Some(KeyText(f, v.value)) else None);
  }

  lemma NumberKeyAgrees(f: Features, doc: string, p: nat, doc': string, p': nat, last: string, t: Token, t': Token)
    requires p <= |doc| && p' <= |doc'| && t == NextToken(f, doc, p) && t' == NextToken(f, doc', p')
    requires AgreeAt(f, doc, t, doc', t') && t.kind == NumberToken
    ensures SameKey(f, doc, KeyAt(f, doc, p, last), doc', KeyAt(f, doc', p', last))
  {
    NumberKeyIs(f, doc, p, last, t);
    NumberKeyIs(f, doc', p', last, t');
    NumberKeysAgree(f, doc, t.end, doc', t'.end, NumberValue(f, doc[t.start..t.end]));
  }

  lemma KeyAgrees(f: Features, doc: string, p: nat, doc': string, p': nat, last: string)
    requires p <= |doc| && p' <= |doc'| && Agree(f, doc, p, doc', p')
    ensures SameKey(f, doc, KeyAt(f, doc, p, last), doc', KeyAt(f, doc', p', last))
  {
    NextAgrees(f, doc, p, doc', p');
    var t, t' := NextToken(f, doc, p), NextToken(f, doc', p');
    if t.kind == StringToken {
      StringKeyAgrees(f, doc, p, doc', p', last, t, t');
    } else if t.kind == NumberToken {
      NumberKeyAgrees(f, doc, p, doc', p', last, t, t');
    } else {
      RecoverAgrees(f, doc, t.end, doc', t'.end, ObjectEnd);
    }
  }

  lemma NamedAgrees(f: Features, doc: string, p: nat, doc': string, p': nat, name: Option<string>)
    requires p <= |doc| && p' <= |doc'| && Agree(f, doc, p, doc', p')
    ensures name.Some? ==> SameKey(f, doc, ColonAt(f, doc, p, name.value), doc', ColonAt(f, doc', p', name.value))
  {
    if name.Some? {
      ColonAgrees(f, doc, p, doc', p', name.value);
    }
  }

  ghost predicate SameSeparator(f: Features, doc: string, s: SeparatorStep, doc': string, s': SeparatorStep)
    requires s.pos <= |doc| && s'.pos <= |doc'|
  {
    (s.Close? <==> s'.Close?) && (s.More? <==> s'.More?) && Agree(f, doc, s.pos, doc', s'.pos)
  }

  lemma CommaAgrees(f: Features, doc: string, p: nat, doc': string, p': nat)
    requires p <= |doc| && p' <= |doc'| && Agree(f, doc, p, doc', p')
    ensures SameSeparator(f, doc, CommaAt(f, doc, p), doc', CommaAt(f, doc', p'))
  {
    TokensAgree(f, doc, p, doc', p');
    var t, t' := ReadToken(f, doc, p), ReadToken(f, doc', p');
    RecoverAgrees(f, doc, t.end, doc', t'.end, ObjectEnd);
    NextAgrees(f, doc, t.end, doc', t'.end);
  }

  lemma ArraySeparatorAgrees(f: Features, doc: string, p: nat, doc': string, p': nat)
    requires p <= |doc| && p' <= |doc'| && Agree(f, doc, p, doc', p')
    ensures SameSeparator(f, doc, ArraySeparatorAt(f, doc, p), doc', ArraySeparatorAt(f, doc', p'))
  {
    NextAgrees(f, doc, p, doc', p');
    RecoverAgrees(f, doc, NextToken(f, doc, p).end, doc', NextToken(f, doc', p').end, ArrayEnd);
  }

  // ---- values ----

  lemma {:induction false} ValueAgrees(f: Features, doc: string, p: nat, doc': string, p': nat, depth: int, prior: Value)
    requires p <= |doc| && p' <= |doc'| && Agree(f, doc, p, doc', p')
    ensures SameRead(f, doc, ReadValue(f, doc, p, depth, prior), doc', ReadValue(f, doc', p', depth, prior))
    decreases |doc| - p, 2
  {
    if depth < f.stackLimit {
      var t, t' := SkipCommentTokens(f, doc, p), SkipCommentTokens(f, doc', p');
      SkipAgrees(f, doc, p, doc', p');
      OneCharSkipped(f, doc, p);
      OneCharSkipped(f, doc', p');
      TokenValueAgrees(f, doc, t, doc', t', depth, prior);
    }
  }

  lemma OneCharSkipped(f: Features, doc: string, p: nat)
    requires p <= |doc|
    ensures var t := SkipCommentTokens(f, doc, p); IsDroppedNull(f, t.kind) ==> t.end == t.start + 1
  {
    OneChar(f, doc, p);
    OneCharNext(f, doc, p);
  }

  lemma {:induction false} TokenValueAgrees(f: Features, doc: string, t: Token, doc': string, t': Token, depth: int, prior: Value)
    requires t.start <= t.end <= |doc| && t'.start <= t'.end <= |doc'| && AgreeAt(f, doc, t, doc', t')
    requires t.kind != EndOfStream ==> t.start < t.end && t'.start < t'.end
    requires t.kind == StringToken ==> t.start + 2 <= t.end && t'.start + 2 <= t'.end
    requires IsDroppedNull(f, t.kind) ==> t.end == t.start + 1 && t'.end == t'.start + 1
    ensures SameRead(f, doc, TokenValue(f, doc, t, depth, prior), doc', TokenValue(f, doc', t', depth, prior))
    decreases |doc| - t.start, 1
  {
    match t.kind
    case ObjectBegin => MembersAgree(f, doc, t.end, doc', t'.end, depth + 1, [], "");
    case ArrayBegin => ArrayAgrees(f, doc, t.end, doc', t'.end, depth + 1);
    case _ => ScalarAgrees(f, doc, t, doc', t', depth, prior);
  }

  ghost predicate SameMemberTurn(f: Features, doc: string, m: MemberTurn, doc': string, m': MemberTurn)
    requires m.MembersDone? && m.r.Read? ==> m.r.pos <= |doc|
    requires m'.MembersDone? && m'.r.Read? ==> m'.r.pos <= |doc'|
    requires (m.NextMember? ==> m.pos <= |doc|) && (m'.NextMember? ==> m'.pos <= |doc'|)
  {
    match m
    case MembersDone(r) => m'.MembersDone? && SameRead(f, doc, r, doc', m'.r)
    case NextMember(members, name, pos, depth) =>
      m'.NextMember? && m'.members == members && m'.name == name && m'.depth == depth && Agree(f, doc, pos, doc', m'.pos)
  }

  lemma {:induction false} MembersAgree(f: Features, doc: string, p: nat, doc': string, p': nat, depth: int, members: seq<Member>, last: string)
    requires p <= |doc| && p' <= |doc'| && Agree(f, doc, p, doc', p')
    ensures SameRead(f, doc, ReadMembers(f, doc, p, depth, members, last), doc', ReadMembers(f, doc', p', depth, members, last))
    decreases |doc| - p, 4
  {
    var m, m' := ReadMember(f, doc, p, depth, members, last), ReadMember(f, doc', p', depth, members, last);
    MemberAgrees(f, doc, p, doc', p', depth, members, last);
    if m.NextMember? {
      MembersAgree(f, doc, m.pos, doc', m'.pos, m.depth, m.members, m.name);
    }
  }

  lemma {:induction false} MemberAgrees(f: Features, doc: string, p: nat, doc': string, p': nat, depth: int, members: seq<Member>, last: string)
    requires p <= |doc| && p' <= |doc'| && Agree(f, doc, p, doc', p')
    ensures SameMemberTurn(f, doc, ReadMember(f, doc, p, depth, members, last), doc', ReadMember(f, doc', p', depth, members, last))
    decreases |doc| - p, 3
  {
    var k, k' := KeyAt(f, doc, p, last), KeyAt(f, doc', p', last);
    KeyAgrees(f, doc, p, doc', p', last);
    if k.Key? {
      NamedMemberAgrees(f, doc, k.pos, doc', k'.pos, depth, members, k.name);
    }
  }

  lemma {:induction false} NamedMemberAgrees(f: Features, doc: string, p: nat, doc': string, p': nat, depth: int, members: seq<Member>,
                                             name: string)
    requires p <= |doc| && p' <= |doc'| && Agree(f, doc, p, doc', p')
    ensures SameMemberTurn(f, doc, ReadNamed(f, doc, p, depth, members, name), doc', ReadNamed(f, doc', p', depth, members, name))
    decreases |doc| - p, 3
  {
    var prior := Lookup(members, name).GetOr(Null);
    if f.rejectDupKeys && Lookup(members, name).Some? {
      RecoverAgrees(f, doc, p, doc', p', ObjectEnd);
    } else {
      ValueAgrees(f, doc, p, doc', p', depth, prior);
      AfterMemberAgrees(f, doc, ReadValue(f, doc, p, depth, prior), doc', ReadValue(f, doc', p', depth, prior), members, name);
    }
  }

  lemma AfterMemberAgrees(f: Features, doc: string, r: ReadResult, doc': string, r': ReadResult, members: seq<Member>, name: string)
    requires (r.Read? ==> r.pos <= |doc|) && (r'.Read? ==> r'.pos <= |doc'|) && SameRead(f, doc, r, doc', r')
    ensures SameMemberTurn(f, doc, AfterMember(f, doc, members, name, r), doc', AfterMember(f, doc', members, name, r'))
  {
    if r.Read? {
      RecoverAgrees(f, doc, r.pos, doc', r'.pos, ObjectEnd);
      CommaAgrees(f, doc, r.pos, doc', r'.pos);
    }
  }

  /** The peek behind an opening bracket. */
  lemma BracketSeen(f: Features, doc: string, p: nat)
    requires p <= |doc|
    ensures At(doc, SkipSpaces(doc, p)) == ']' <==> ReadToken(f, doc, p).kind == ArrayEnd
    ensures ReadToken(f, doc, p).start == SkipSpaces(doc, p)
    ensures ReadToken(f, doc, SkipSpaces(doc, p)) == ReadToken(f, doc, p)
  {
    TokenAtStart(f, doc, p);
  }

  lemma {:induction false} ArrayAgrees(f: Features, doc: string, p: nat, doc': string, p': nat, depth: int)
    requires p <= |doc| && p' <= |doc'| && Agree(f, doc, p, doc', p')
    ensures SameRead(f, doc, ReadArray(f, doc, p, depth), doc', ReadArray(f, doc', p', depth))
    decreases |doc| - p, 5
  {
    TokensAgree(f, doc, p, doc', p');
    BracketSeen(f, doc, p);
    BracketSeen(f, doc', p');
    if ReadToken(f, doc, p).kind != ArrayEnd {
      ElementsAgree(f, doc, SkipSpaces(doc, p), doc', SkipSpaces(doc', p'), depth, []);
    }
  }

  ghost predicate SameElementTurn(f: Features, doc: string, e: ElementTurn, doc': string, e': ElementTurn)
    requires e.ElementsDone? && e.r.Read? ==> e.r.pos <= |doc|
    requires e'.ElementsDone? && e'.r.Read? ==> e'.r.pos <= |doc'|
    requires (e.NextElement? ==> e.pos <= |doc|) && (e'.NextElement? ==> e'.pos <= |doc'|)
  {
    match e
    case ElementsDone(r) => e'.ElementsDone? && SameRead(f, doc, r, doc', e'.r)
    case NextElement(elems, pos, depth) =>
      e'.NextElement? && e'.elems == elems && e'.depth == depth && Agree(f, doc, pos, doc', e'.pos)
  }

  lemma {:induction false} ElementsAgree(f: Features, doc: string, p: nat, doc': string, p': nat, depth: int, elems: seq<Value>)
    requires p <= |doc| && p' <= |doc'| && Agree(f, doc, p, doc', p')
    ensures SameRead(f, doc, ReadElements(f, doc, p, depth, elems), doc', ReadElements(f, doc', p', depth, elems))
    decreases |doc| - p, 4
  {
    var e, e' := ReadElement(f, doc, p, depth, elems), ReadElement(f, doc', p', depth, elems);
    ElementAgrees(f, doc, p, doc', p', depth, elems);
    if e.NextElement? {
      ElementsAgree(f, doc, e.pos, doc', e'.pos, e.depth, e.elems);
    }
  }

  lemma {:induction false} ElementAgrees(f: Features, doc: string, p: nat, doc': string, p': nat, depth: int, elems: seq<Value>)
    requires p <= |doc| && p' <= |doc'| && Agree(f, doc, p, doc', p')
    ensures SameElementTurn(f, doc, ReadElement(f, doc, p, depth, elems), doc', ReadElement(f, doc', p', depth, elems))
    decreases |doc| - p, 3
  {
    ValueAgrees(f, doc, p, doc', p', depth, Null);
    AfterElementAgrees(f, doc, ReadValue(f, doc, p, depth, Null), doc', ReadValue(f, doc', p', depth, Null), elems);
  }

  lemma AfterElementAgrees(f: Features, doc: string, r: ReadResult, doc': string, r': ReadResult, elems: seq<Value>)
    requires (r.Read? ==> r.pos <= |doc|) && (r'.Read? ==> r'.pos <= |doc'|) && SameRead(f, doc, r, doc', r')
    ensures SameElementTurn(f, doc, AfterElement(f, doc, elems, r), doc', AfterElement(f, doc', elems, r'))
  {
    if r.Read? {
      RecoverAgrees(f, doc, r.pos, doc', r'.pos, ArrayEnd);
      ArraySeparatorAgrees(f, doc, r.pos, doc', r'.pos);
    }
  }

  /** parse sees the tokens of a document and nothing else. */
  lemma ParseSeesTokens(f: Features, doc: string, doc': string, root: Value)
    requires Agree(f, doc, 0, doc', 0)
    ensures Parse(f, doc, root) == Parse(f, doc', root)
  {
    ValueAgrees(f, doc, 0, doc', 0, 0, root);
    var r, r' := ReadValue(f, doc, 0, 0, root), ReadValue(f, doc', 0, 0, root);
    if r.Read? {
      SkipAgrees(f, doc, r.pos, doc', r'.pos);
    }
  }
}
