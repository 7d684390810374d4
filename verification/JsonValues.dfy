/** JSON values and their order (Value::operator<, Value::operator==, CZString of
    server/utils/jsoncpp.cpp). A C++ char is a Dafny char; bytes are the chars 0..255. */
module JsonValues {
  import opened Util

  /** Arrays are dense. A real is kept as the text it was read from. */
  datatype Value =
    | Null
    | Int(i: int)
    | UInt(u: int)
    | Real(text: string)
    | Str(s: string)
    | Bool(b: bool)
    | Array(elems: seq<Value>)
    | Object(members: seq<Member>)

  datatype Member = Member(key: string, value: Value)

  /** The order of the ValueType enumeration. */
  function TypeOf(v: Value): nat {
    match v
    case Null => 0
    case Int(_) => 1
    case UInt(_) => 2
    case Real(_) => 3
    case Str(_) => 4
    case Bool(_) => 5
    case Array(_) => 6
    case Object(_) => 7
  }

  predicate RealFree(v: Value) {
    match v
    case Real(_) => false
    case Array(elems) => forall i :: 0 <= i < |elems| ==> RealFree(elems[i])
    case Object(members) => forall i :: 0 <= i < |members| ==> RealFree(members[i].value)
    case _ => true
  }

  function Weight(v: Value): nat {
    match v
    case Array(elems) => 1 + WeightOfAll(elems)
    case Object(members) => 1 + WeightOfMembers(members)
    case _ => 1
  }

  function WeightOfAll(vs: seq<Value>): nat {
    if vs == [] then 0 else 1 + Weight(vs[0]) + WeightOfAll(vs[1..])
  }

  function WeightOfMembers(ms: seq<Member>): nat {
    if ms == [] then 0 else 1 + Weight(ms[0].value) + WeightOfMembers(ms[1..])
  }

  // ---- strings and keys ----

  /** memcmp of the first n chars: negative, zero or positive. */
  function Memcmp(a: string, b: string, n: nat): int
    requires n <= |a| && n <= |b|
  {
    if n == 0 then 0
    else if a[0] < b[0] then -1
    else if a[0] > b[0] then 1
    else Memcmp(a[1..], b[1..], n - 1)
  }

  predicate StringLess(a: string, b: string) {
    var comp := Memcmp(a, b, Min(|a|, |b|));
    if comp < 0 then true else if comp > 0 then false else |a| < |b|
  }

  predicate StringEqual(a: string, b: string) {
    |a| == |b| && Memcmp(a, b, |a|) == 0
  }

  lemma {:induction false} MemcmpOrder(a: string, b: string, n: nat)
    requires n <= |a| && n <= |b|
    ensures Memcmp(a, b, n) == -Memcmp(b, a, n)
    ensures Memcmp(a, b, n) == 0 <==> a[..n] == b[..n]
  {
    if n > 0 {
      MemcmpOrder(a[1..], b[1..], n - 1);
      assert a[..n] == [a[0]] + a[1..][..n - 1] && b[..n] == [b[0]] + b[1..][..n - 1];
    }
  }

  /** Strings are ordered strictly and totally, and equality is sameness. */
  lemma StringTrichotomy(a: string, b: string)
    ensures StringEqual(a, b) <==> a == b
    ensures StringLess(a, b) ==> !StringLess(b, a) && a != b
    ensures a != b ==> StringLess(a, b) || StringLess(b, a)
  {
    var n := Min(|a|, |b|);
    MemcmpOrder(a, b, n);
    if |a| == |b| {
      assert a[..n] == a && b[..n] == b;
    }
  }

  /** StringLess, one char at a time. */
  lemma StringLessStep(a: string, b: string)
    requires a != "" && b != ""
    ensures StringLess(a, b) <==> a[0] < b[0] || (a[0] == b[0] && StringLess(a[1..], b[1..]))
  {
  }

  lemma {:induction false} StringTransitive(a: string, b: string, c: string)
    requires StringLess(a, b) && StringLess(b, c)
    ensures StringLess(a, c)
    decreases |a|
  {
    if a != "" && b != "" && c != "" {
      StringLessStep(a, b);
      StringLessStep(b, c);
      StringLessStep(a, c);
      if a[0] == b[0] == c[0] {
        StringTransitive(a[1..], b[1..], c[1..]);
      }
    }
  }

  /** The two agree in front of i, and differ there. */
  ghost predicate FirstDifference(a: string, b: string, i: nat) {
    i < |a| && i < |b| && a[..i] == b[..i] && a[i] < b[i]
  }

  /** The order is that of the first chars to differ, and of a string and a longer one that
      begins with it the shorter comes first. */
  lemma {:induction false} StringOrder(a: string, b: string)
    ensures StringLess(a, b) <==> (|a| < |b| && a == b[..|a|]) || exists i :: FirstDifference(a, b, i)
    decreases |a|
  {
    if a != "" && b != "" {
      StringLessStep(a, b);
      if a[0] == b[0] {
        StringOrder(a[1..], b[1..]);
        OneCharFurther(a, b);
      } else {
        FirstCharsDiffer(a, b);
      }
    }
  }

  lemma FrontsDiffer<T>(a: seq<T>, b: seq<T>, i: nat)
    requires 0 < i <= |a| && i <= |b| && a[0] != b[0]
    ensures a[..i] != b[..i]
  {
    var front, front' := a[..i], b[..i];
    assert front[0] != front'[0];
  }

  lemma FirstCharsDiffer(a: string, b: string)
    requires a != "" && b != "" && a[0] != b[0]
    ensures (exists i :: FirstDifference(a, b, i)) <==> a[0] < b[0]
    ensures !(|a| < |b| && a == b[..|a|])
  {
    if a[0] < b[0] {
      assert FirstDifference(a, b, 0);
    }
    forall i: nat | 0 < i < |a| && i < |b| ensures !FirstDifference(a, b, i) {
      FrontsDiffer(a, b, i);
    }
  }

  lemma OneCharFurther(a: string, b: string)
    requires a != "" && b != "" && a[0] == b[0]
    ensures (exists i :: FirstDifference(a, b, i)) <==> exists i :: FirstDifference(a[1..], b[1..], i)
    ensures |a| < |b| && a == b[..|a|] <==> |a[1..]| < |b[1..]| && a[1..] == b[1..][..|a[1..]|]
  {
    var a', b' := a[1..], b[1..];
    forall i: nat | FirstDifference(a', b', i) ensures FirstDifference(a, b, i + 1) {
      assert a[..i + 1] == [a[0]] + a'[..i] && b[..i + 1] == [b[0]] + b'[..i];
    }
    forall i: nat | FirstDifference(a, b, i) ensures i > 0 && FirstDifference(a', b', i - 1) {
      assert a'[..i - 1] == a[..i][1..] && b'[..i - 1] == b[..i][1..];
    }
    assert a == [a[0]] + a' && b == [b[0]] + b';
  }

  // ---- values ----

  predicate Less(a: Value, b: Value)
    requires RealFree(a) && RealFree(b)
    decreases Weight(a) + Weight(b), 0
  {
    if TypeOf(a) != TypeOf(b) then TypeOf(a) < TypeOf(b)
    else
      match a
      case Null => false
      case Int(i) => i < b.i
      case UInt(u) => u < b.u
      case Real(_) => false
      case Str(s) => StringLess(s, b.s)
      case Bool(x) => !x && b.b
      case Array(elems) =>
        if |elems| != |b.elems| then |elems| < |b.elems| else ElementsLess(elems, b.elems)
      case Object(members) =>
        if |members| != |b.members| then |members| < |b.members| else MembersLess(members, b.members)
  }

  /** std::lexicographical_compare; the index keys of two dense arrays agree. */
  predicate ElementsLess(a: seq<Value>, b: seq<Value>)
    requires AllRealFree(a) && AllRealFree(b)
    decreases WeightOfAll(a) + WeightOfAll(b), 1
  {
    if b == [] then false
    else if a == [] then true
    else if Less(a[0], b[0]) then true
    else if Less(b[0], a[0]) then false
    else ElementsLess(a[1..], b[1..])
  }

  predicate MembersLess(a: seq<Member>, b: seq<Member>)
    requires MembersRealFree(a) && MembersRealFree(b)
    decreases WeightOfMembers(a) + WeightOfMembers(b), 1
  {
    if b == [] then false
    else if a == [] then true
    else if PairLess(a[0], b[0]) then true
    else if PairLess(b[0], a[0]) then false
    else MembersLess(a[1..], b[1..])
  }

  /** operator< of std::pair */
  predicate PairLess(a: Member, b: Member)
    requires RealFree(a.value) && RealFree(b.value)
    decreases Weight(a.value) + Weight(b.value), 1
  {
    StringLess(a.key, b.key) || (!StringLess(b.key, a.key) && Less(a.value, b.value))
  }

  predicate AllRealFree(vs: seq<Value>) {
    forall i :: 0 <= i < |vs| ==> RealFree(vs[i])
  }

  predicate MembersRealFree(ms: seq<Member>) {
    forall i :: 0 <= i < |ms| ==> RealFree(ms[i].value)
  }

  predicate Equal(a: Value, b: Value)
    requires RealFree(a) && RealFree(b)
    decreases Weight(a), 0
  {
    TypeOf(a) == TypeOf(b) &&
    match a
    case Null => true
    case Int(i) => i == b.i
    case UInt(u) => u == b.u
    case Real(_) => false
    case Str(s) => StringEqual(s, b.s)
    case Bool(x) => x == b.b
    case Array(elems) => |elems| == |b.elems| && ElementsEqual(elems, b.elems)
    case Object(members) => |members| == |b.members| && MembersEqual(members, b.members)
  }

  predicate ElementsEqual(a: seq<Value>, b: seq<Value>)
    requires AllRealFree(a) && AllRealFree(b) && |a| == |b|
    decreases WeightOfAll(a), 1
  {
    a == [] || (Equal(a[0], b[0]) && ElementsEqual(a[1..], b[1..]))
  }

  predicate MembersEqual(a: seq<Member>, b: seq<Member>)
    requires MembersRealFree(a) && MembersRealFree(b) && |a| == |b|
    decreases WeightOfMembers(a), 1
  {
    a == [] || (StringEqual(a[0].key, b[0].key) && Equal(a[0].value, b[0].value) && MembersEqual(a[1..], b[1..]))
  }

  // ---- operator== is sameness ----

  lemma {:induction false} EqualIsSame(a: Value, b: Value)
    requires RealFree(a) && RealFree(b)
    ensures Equal(a, b) <==> a == b
    decreases Weight(a), 0
  {
    if TypeOf(a) == TypeOf(b) {
      match a
      case Str(s) => StringTrichotomy(s, b.s);
      case Array(elems) =>
        if |elems| == |b.elems| {
          ElementsEqualAreSame(elems, b.elems);
        }
      case Object(members) =>
        if |members| == |b.members| {
          MembersEqualAreSame(members, b.members);
        }
      case _ =>
    }
  }

  lemma {:induction false} ElementsEqualAreSame(a: seq<Value>, b: seq<Value>)
    requires AllRealFree(a) && AllRealFree(b) && |a| == |b|
    ensures ElementsEqual(a, b) <==> a == b
    decreases WeightOfAll(a), 1
  {
    if a != [] {
      EqualIsSame(a[0], b[0]);
      ElementsEqualAreSame(a[1..], b[1..]);
      assert a == [a[0]] + a[1..] && b == [b[0]] + b[1..];
    }
  }

  lemma {:induction false} MembersEqualAreSame(a: seq<Member>, b: seq<Member>)
    requires MembersRealFree(a) && MembersRealFree(b) && |a| == |b|
    ensures MembersEqual(a, b) <==> a == b
    decreases WeightOfMembers(a), 1
  {
    if a != [] {
      StringTrichotomy(a[0].key, b[0].key);
      EqualIsSame(a[0].value, b[0].value);
      MembersEqualAreSame(a[1..], b[1..]);
      assert a == [a[0]] + a[1..] && b == [b[0]] + b[1..];
    }
  }

  // ---- which order it is ----

  /** Values of different types are ordered by their types. */
  lemma TypeOrder(i: int, u: int, text: string, s: string, b: bool, elems: seq<Value>, members: seq<Member>)
    ensures TypeOf(Null) < TypeOf(Int(i)) < TypeOf(UInt(u)) < TypeOf(Real(text))
    ensures TypeOf(Real(text)) < TypeOf(Str(s)) < TypeOf(Bool(b)) < TypeOf(Array(elems)) < TypeOf(Object(members))
  {
  }

  /** Of two arrays of one size the first elements to differ decide. */
  ghost predicate ElementDecides(a: seq<Value>, b: seq<Value>, i: nat)
    requires AllRealFree(a) && AllRealFree(b)
  {
    i < |a| && i < |b| && a[..i] == b[..i] && Less(a[i], b[i])
  }

  /** Of two objects of one size the first members to differ, by their keys and then by
      their values. */
  ghost predicate MemberDecides(a: seq<Member>, b: seq<Member>, i: nat)
    requires MembersRealFree(a) && MembersRealFree(b)
  {
    && i < |a| && i < |b| && a[..i] == b[..i]
    && (StringLess(a[i].key, b[i].key) || (a[i].key == b[i].key && Less(a[i].value, b[i].value)))
  }

  lemma LessExactly(a: Value, b: Value)
    requires RealFree(a) && RealFree(b)
    ensures TypeOf(a) != TypeOf(b) ==> (Less(a, b) <==> TypeOf(a) < TypeOf(b))
    ensures a.Null? && b.Null? ==> !Less(a, b)
    ensures a.Int? && b.Int? ==> (Less(a, b) <==> a.i < b.i)
    ensures a.UInt? && b.UInt? ==> (Less(a, b) <==> a.u < b.u)
    ensures a.Str? && b.Str? ==> (Less(a, b) <==> StringLess(a.s, b.s))
    ensures a.Bool? && b.Bool? ==> (Less(a, b) <==> a == Bool(false) && b == Bool(true))
    ensures a.Array? && b.Array? ==>
              (Less(a, b) <==> |a.elems| < |b.elems| || (|a.elems| == |b.elems| && exists i :: ElementDecides(a.elems, b.elems, i)))
    ensures a.Object? && b.Object? ==>
              (Less(a, b) <==>
               || |a.members| < |b.members|
               || (|a.members| == |b.members| && exists i :: MemberDecides(a.members, b.members, i)))
  {
    if a.Array? && b.Array? && |a.elems| == |b.elems| {
      ElementsOrder(a.elems, b.elems);
    } else if a.Object? && b.Object? && |a.members| == |b.members| {
      MembersOrder(a.members, b.members);
    }
  }

  lemma {:induction false} ElementsOrder(a: seq<Value>, b: seq<Value>)
    requires AllRealFree(a) && AllRealFree(b) && |a| == |b|
    ensures ElementsLess(a, b) <==> exists i :: ElementDecides(a, b, i)
    decreases |a|
  {
    if a != [] {
      var a', b' := a[1..], b[1..];
      Trichotomy(a[0], b[0]);
      if a[0] == b[0] {
        ElementsOrder(a', b');
        forall i: nat | ElementDecides(a', b', i) ensures ElementDecides(a, b, i + 1) {
          assert a[..i + 1] == [a[0]] + a'[..i] && b[..i + 1] == [b[0]] + b'[..i];
        }
        forall i: nat | ElementDecides(a, b, i) ensures i > 0 && ElementDecides(a', b', i - 1) {
          assert a'[..i - 1] == a[..i][1..] && b'[..i - 1] == b[..i][1..];
        }
      } else {
        assert ElementDecides(a, b, 0) <==> Less(a[0], b[0]);
        forall i: nat | 0 < i < |a| ensures !ElementDecides(a, b, i) {
          FrontsDiffer(a, b, i);
        }
      }
    }
  }

  lemma {:induction false} MembersOrder(a: seq<Member>, b: seq<Member>)
    requires MembersRealFree(a) && MembersRealFree(b) && |a| == |b|
    ensures MembersLess(a, b) <==> exists i :: MemberDecides(a, b, i)
    decreases |a|
  {
    if a != [] {
      var a', b' := a[1..], b[1..];
      PairTrichotomy(a[0], b[0]);
      StringTrichotomy(a[0].key, b[0].key);
      if a[0] == b[0] {
        MembersOrder(a', b');
        forall i: nat | MemberDecides(a', b', i) ensures MemberDecides(a, b, i + 1) {
          assert a[..i + 1] == [a[0]] + a'[..i] && b[..i + 1] == [b[0]] + b'[..i];
        }
        forall i: nat | MemberDecides(a, b, i) ensures i > 0 && MemberDecides(a', b', i - 1) {
          assert a'[..i - 1] == a[..i][1..] && b'[..i - 1] == b[..i][1..];
        }
      } else {
        assert MemberDecides(a, b, 0) <==> PairLess(a[0], b[0]);
        forall i: nat | 0 < i < |a| ensures !MemberDecides(a, b, i) {
          FrontsDiffer(a, b, i);
        }
      }
    }
  }

  // ---- exactly one of a < b, a == b, b < a ----

  lemma {:induction false} Trichotomy(a: Value, b: Value)
    requires RealFree(a) && RealFree(b)
    ensures Less(a, b) ==> !Less(b, a) && a != b
    ensures a != b ==> Less(a, b) || Less(b, a)
    decreases Weight(a) + Weight(b), 0
  {
    if TypeOf(a) == TypeOf(b) {
      match a
      case Str(s) => StringTrichotomy(s, b.s);
      case Array(elems) =>
        if |elems| == |b.elems| {
          ElementsTrichotomy(elems, b.elems);
        }
      case Object(members) =>
        if |members| == |b.members| {
          MembersTrichotomy(members, b.members);
        }
      case _ =>
    }
  }

  lemma {:induction false} ElementsTrichotomy(a: seq<Value>, b: seq<Value>)
    requires AllRealFree(a) && AllRealFree(b)
    ensures ElementsLess(a, b) ==> !ElementsLess(b, a) && a != b
    ensures a != b ==> ElementsLess(a, b) || ElementsLess(b, a)
    decreases WeightOfAll(a) + WeightOfAll(b), 1
  {
    if a != [] && b != [] {
      Trichotomy(a[0], b[0]);
      ElementsTrichotomy(a[1..], b[1..]);
      assert a == [a[0]] + a[1..] && b == [b[0]] + b[1..];
    }
  }

  lemma PairTrichotomy(a: Member, b: Member)
    requires RealFree(a.value) && RealFree(b.value)
    ensures PairLess(a, b) ==> !PairLess(b, a) && a != b
    ensures a != b ==> PairLess(a, b) || PairLess(b, a)
    decreases Weight(a.value) + Weight(b.value), 1
  {
    StringTrichotomy(a.key, b.key);
    Trichotomy(a.value, b.value);
  }

  lemma {:induction false} MembersTrichotomy(a: seq<Member>, b: seq<Member>)
    requires MembersRealFree(a) && MembersRealFree(b)
    ensures MembersLess(a, b) ==> !MembersLess(b, a) && a != b
    ensures a != b ==> MembersLess(a, b) || MembersLess(b, a)
    decreases WeightOfMembers(a) + WeightOfMembers(b), 1
  {
    if a != [] && b != [] {
      PairTrichotomy(a[0], b[0]);
      MembersTrichotomy(a[1..], b[1..]);
      assert a == [a[0]] + a[1..] && b == [b[0]] + b[1..];
    }
  }

  // ---- transitivity ----

  lemma {:induction false} Transitive(a: Value, b: Value, c: Value)
    requires RealFree(a) && RealFree(b) && RealFree(c)
    requires Less(a, b) && Less(b, c)
    ensures Less(a, c)
    decreases Weight(a) + Weight(b) + Weight(c), 0
  {
    if TypeOf(a) == TypeOf(b) == TypeOf(c) {
      match a
      case Str(s) => StringTransitive(s, b.s, c.s);
      case Array(elems) =>
        if |elems| == |b.elems| == |c.elems| {
          ElementsTransitive(elems, b.elems, c.elems);
        }
      case Object(members) =>
        if |members| == |b.members| == |c.members| {
          MembersTransitive(members, b.members, c.members);
        }
      case _ =>
    }
  }

  lemma {:induction false} ElementsTransitive(a: seq<Value>, b: seq<Value>, c: seq<Value>)
    requires AllRealFree(a) && AllRealFree(b) && AllRealFree(c)
    requires ElementsLess(a, b) && ElementsLess(b, c)
    ensures ElementsLess(a, c)
    decreases WeightOfAll(a) + WeightOfAll(b) + WeightOfAll(c), 1
  {
    if a != [] && b != [] && c != [] {
      Trichotomy(a[0], b[0]);
      Trichotomy(b[0], c[0]);
      Trichotomy(a[0], c[0]);
      if Less(a[0], b[0]) && Less(b[0], c[0]) {
        Transitive(a[0], b[0], c[0]);
      } else if a[0] == b[0] == c[0] {
        ElementsTransitive(a[1..], b[1..], c[1..]);
      }
    }
  }

  lemma PairTransitive(a: Member, b: Member, c: Member)
    requires RealFree(a.value) && RealFree(b.value) && RealFree(c.value)
    requires PairLess(a, b) && PairLess(b, c)
    ensures PairLess(a, c)
    decreases Weight(a.value) + Weight(b.value) + Weight(c.value), 1
  {
    StringTrichotomy(a.key, b.key);
    StringTrichotomy(b.key, c.key);
    StringTrichotomy(a.key, c.key);
    if StringLess(a.key, b.key) && StringLess(b.key, c.key) {
      StringTransitive(a.key, b.key, c.key);
    } else if a.key == b.key == c.key {
      Transitive(a.value, b.value, c.value);
    }
  }

  lemma {:induction false} MembersTransitive(a: seq<Member>, b: seq<Member>, c: seq<Member>)
    requires MembersRealFree(a) && MembersRealFree(b) && MembersRealFree(c)
    requires MembersLess(a, b) && MembersLess(b, c)
    ensures MembersLess(a, c)
    decreases WeightOfMembers(a) + WeightOfMembers(b) + WeightOfMembers(c), 1
  {
    if a != [] && b != [] && c != [] {
      PairTrichotomy(a[0], b[0]);
      PairTrichotomy(b[0], c[0]);
      PairTrichotomy(a[0], c[0]);
      if PairLess(a[0], b[0]) && PairLess(b[0], c[0]) {
        PairTransitive(a[0], b[0], c[0]);
      } else if a[0] == b[0] == c[0] {
        MembersTransitive(a[1..], b[1..], c[1..]);
      }
    }
  }
}
