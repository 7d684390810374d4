/** FastWriter of server/utils/jsoncpp.cpp: the document on one line. */
module JsonWriter {
  import opened JsonValues
  import opened JsonNumbers
  import opened JsonStrings

  /** The three switches of FastWriter. realText stands for valueToString of a double. */
  datatype Style = Style(yaml: bool, dropNulls: bool, omitLineFeed: bool, realText: string -> string)

  function ValueText(o: Style, v: Value): string
    decreases v, 0
  {
    match v
    case Null => if o.dropNulls then "" else "null"
    case Int(i) => IntText(i)
    case UInt(u) => IntText(u)
    case Real(text) => o.realText(text)
    case Str(s) => Quoted(s)
    case Bool(b) => if b then "true" else "false"
    case Array(elems) => "[" + ElementsText(o, elems, 0) + "]"
    case Object(members) => "{" + MembersText(o, members, 0) + "}"
  }

  function Comma(i: nat): string {
    if i > 0 then "," else ""
  }

  /** The elements from i on, each behind the first with its comma. */
  function ElementsText(o: Style, elems: seq<Value>, i: nat): string
    requires i <= |elems|
    decreases elems, |elems| - i
  {
    if i == |elems| then ""
    else Comma(i) + (ValueText(o, elems[i]) + ElementsText(o, elems, i + 1))
  }

  function KeyAndColon(o: Style, key: string): string {
    Quoted(key) + (if o.yaml then ": " else ":")
  }

  function MembersText(o: Style, members: seq<Member>, i: nat): string
    requires i <= |members|
    decreases members, |members| - i
  {
    if i == |members| then ""
    else Comma(i) + (KeyAndColon(o, members[i].key) + (ValueText(o, members[i].value) + MembersText(o, members, i + 1)))
  }

  function Text(o: Style, root: Value): string {
    ValueText(o, root) + (if o.omitLineFeed then "" else "\n")
  }

  class FastWriter {
    const style: Style
    var document: string

    constructor (style: Style)
      ensures this.style == style && document == ""
    {
      this.style := style;
      document := "";
    }

    method Write(root: Value) returns (text: string)
      requires Writable(root)
      modifies this
      ensures text == document == Text(style, root)
    {
      document := "";
      WriteValue(root);
      if !style.omitLineFeed {
        document := document + "\n";
      }
      text := document;
    }

    method WriteValue(value: Value)
      requires Writable(value)
      modifies this
      ensures document == old(document) + ValueText(style, value)
      decreases value, 0
    {
      match value
      case Null =>
        if !style.dropNulls {
          document := document + "null";
        }
      case Int(i) =>
        var digits := UintToString((if i < 0 then -i else i) as uint64);
        document := document + (if i < 0 then "-" + digits else digits);
      case UInt(u) =>
        var digits := UintToString(u as uint64);
        document := document + digits;
      case Real(text) =>
        document := document + style.realText(text);
      case Str(s) =>
        var quoted := ValueToQuotedString(s);
        document := document + quoted;
      case Bool(b) =>
        document := document + (if b then "true" else "false");
      case Array(elems) =>
        WriteArray(elems);
      case Object(members) =>
        WriteObject(members);
    }

    method WriteArray(elems: seq<Value>)
      requires forall e <- elems :: Writable(e)
      modifies this
      ensures document == old(document) + ValueText(style, Array(elems))
      decreases elems, 1
    {
      ghost var whole := document + ValueText(style, Array(elems));
      document := document + "[";
      var index := 0;
      Regroup(old(document), "[", ElementsText(style, elems, 0), "]");
      while index < |elems|
        invariant 0 <= index <= |elems|
        invariant document + ElementsText(style, elems, index) + "]" == whole
      {
        ElementsStep(style, elems, index, document);
        if index > 0 {
          document := document + ",";
        }
        WriteValue(elems[index]);
        index := index + 1;
      }
      NothingMore(document, "]");
      document := document + "]";
    }

    method WriteObject(members: seq<Member>)
      requires forall m <- members :: Writable(m.value)
      modifies this
      ensures document == old(document) + ValueText(style, Object(members))
      decreases members, 1
    {
      ghost var whole := document + ValueText(style, Object(members));
      document := document + "{";
      var i := 0;
      Regroup(old(document), "{", MembersText(style, members, 0), "}");
      while i < |members|
        invariant 0 <= i <= |members|
        invariant document + MembersText(style, members, i) + "}" == whole
      {
        MembersStep(style, members, i, document);
        if i > 0 {
          document := document + ",";
        }
        var name := ValueToQuotedString(members[i].key);
        document := document + name;
        document := document + (if style.yaml then ": " else ":");
        WriteValue(members[i].value);
        i := i + 1;
      }
      NothingMore(document, "}");
      document := document + "}";
    }
  }

  lemma Regroup(a: string, b: string, c: string, d: string)
    ensures a + b + c + d == a + (b + c + d) == a + (b + (c + d)) == a + b + (c + d)
  {
  }

  lemma NothingMore(a: string, b: string)
    ensures a + "" + b == a + b
  {
  }

  /** One element more is written. */
  lemma ElementsStep(o: Style, elems: seq<Value>, i: nat, done: string)
    requires i < |elems|
    ensures done + ElementsText(o, elems, i) ==
            (if i > 0 then done + "," else done) + ValueText(o, elems[i]) + ElementsText(o, elems, i + 1)
  {
    var v, rest := ValueText(o, elems[i]), ElementsText(o, elems, i + 1);
    assert ElementsText(o, elems, i) == Comma(i) + (v + rest);
    assert done + (Comma(i) + (v + rest)) == done + Comma(i) + v + rest;
  }

  lemma MembersStep(o: Style, members: seq<Member>, i: nat, done: string)
    requires i < |members|
    ensures done + MembersText(o, members, i) ==
            (if i > 0 then done + "," else done) + Quoted(members[i].key) + (if o.yaml then ": " else ":") +
            ValueText(o, members[i].value) + MembersText(o, members, i + 1)
  {
    var q, colon := Quoted(members[i].key), if o.yaml then ": " else ":";
    var v, rest := ValueText(o, members[i].value), MembersText(o, members, i + 1);
    assert MembersText(o, members, i) == Comma(i) + (q + colon + (v + rest));
    Regroup(done, Comma(i), q + colon, v + rest);
    Regroup(done + Comma(i), q, colon, v + rest);
    Regroup(done + Comma(i) + q, colon, v, rest);
  }

  /** The numbers of a value fit in 64 bits, as every number in a Value does. */
  predicate Writable(v: Value) {
    match v
    case Array(elems) => forall e <- elems :: Writable(e)
    case Object(members) => forall m <- members :: Writable(m.value)
    case _ => InLargestRange(v)
  }
}
