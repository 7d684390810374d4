/** JSON strings: valueToQuotedStringN, OurReader::decodeString and codePointToUTF8 of
    server/utils/jsoncpp.cpp. */
module JsonStrings {
  import opened Util
  import opened Texts

  const BACKSPACE := '\U{0008}'
  const FORMFEED := '\U{000C}'

  // ---- hexadecimal ----

  function HexDigit(d: nat, upper: bool): char
    requires d < 16
  {
    if d < 10 then ('0' as int + d) as char
    else if upper then ('A' as int + d - 10) as char
    else ('a' as int + d - 10) as char
  }

  function HexValue(c: char): Option<nat> {
    if '0' <= c <= '9' then Some(c as nat - '0' as nat)
    else if 'a' <= c <= 'f' then Some(c as nat - 'a' as nat + 10)
    else if 'A' <= c <= 'F' then Some(c as nat - 'A' as nat + 10)
    else None
  }

  lemma HexDigitRoundTrip(d: nat, upper: bool)
    requires d < 16
    ensures HexValue(HexDigit(d, upper)) == Some(d)
    ensures HexDigit(d, upper) != '"' && HexDigit(d, upper) != '\\'
  {
  }

  /** The four digits of a 16-bit unit. */
  function Hex4(u: nat, upper: bool): string
    requires u < 0x10000
  {
    [HexDigit(u / 4096, upper), HexDigit(u / 256 % 16, upper), HexDigit(u / 16 % 16, upper), HexDigit(u % 16, upper)]
  }

  // ---- UTF-8 ----

  /** codePointToUTF8 */
  function Utf8(cp: nat): string {
    if cp <= 0x7F then [cp as char]
    else if cp <= 0x7FF then
      [(0xC0 + cp / 64 % 32) as char, (0x80 + cp % 64) as char]
    else if cp <= 0xFFFF then
      [(0xE0 + cp / 4096 % 16) as char, (0x80 + cp / 64 % 64) as char, (0x80 + cp % 64) as char]
    else if cp <= 0x10FFFF then
      [(0xF0 + cp / 262144 % 8) as char, (0x80 + cp / 4096 % 64) as char, (0x80 + cp / 64 % 64) as char, (0x80 + cp % 64) as char]
    else ""
  }

  // ---- writing ----

  predicate NeedsEscape(c: char) {
    c == '"' || c == '\\' || c <= '\U{001F}'
  }

  function Escape(c: char): string {
    if c == '"' then "\\\""
    else if c == '\\' then "\\\\"
    else if c == BACKSPACE then "\\b"
    else if c == FORMFEED then "\\f"
    else if c == '\n' then "\\n"
    else if c == '\r' then "\\r"
    else if c == '\t' then "\\t"
    else if c <= '\U{001F}' then "\\u" + Hex4(c as nat, true)
    else [c]
  }

  function EscapeAll(x: string): string {
    if x == "" then "" else Escape(x[0]) + EscapeAll(x[1..])
  }

  function Quoted(x: string): string {
    "\"" + EscapeAll(x) + "\""
  }

  lemma {:induction false} NothingToEscape(x: string)
    requires forall i :: 0 <= i < |x| ==> !NeedsEscape(x[i])
    ensures EscapeAll(x) == x
  {
    if x != "" {
      NothingToEscape(x[1..]);
      assert x == [x[0]] + x[1..];
    }
  }

  /** strnpbrk and containsControlCharacter0: is there anything to escape? */
  method HasSpecial(value: string) returns (special: bool)
    ensures special <==> exists i :: 0 <= i < |value| && NeedsEscape(value[i])
  {
    var cur := 0;
    while cur < |value|
      invariant 0 <= cur <= |value|
      invariant forall i :: 0 <= i < cur ==> !NeedsEscape(value[i])
    {
      if NeedsEscape(value[cur]) {
        return true;
      }
      cur := cur + 1;
    }
    return false;
  }

  /** The walk over a string with special characters. */
  method EscapeWalk(value: string) returns (result: string)
    ensures result == EscapeAll(value)
  {
    result := "";
    var cur := 0;
    assert value[0..] == value;
    while cur < |value|
      invariant 0 <= cur <= |value|
      invariant result + EscapeAll(value[cur..]) == EscapeAll(value)
    {
      var piece := Escape(value[cur]);
      EscapeFront(value, cur, result);
      result := result + piece;
      cur := cur + 1;
    }
  }

  lemma EscapeFront(value: string, cur: nat, done: string)
    requires cur < |value|
    ensures done + EscapeAll(value[cur..]) == done + Escape(value[cur]) + EscapeAll(value[cur + 1..])
  {
    assert value[cur..][1..] == value[cur + 1..];
    var piece, rest := Escape(value[cur]), EscapeAll(value[cur + 1..]);
    assert EscapeAll(value[cur..]) == piece + rest;
    assert done + (piece + rest) == done + piece + rest;
  }

  /** valueToQuotedStringN: copies a string without special characters whole and walks
      any other one. */
  method ValueToQuotedString(value: string) returns (result: string)
    ensures result == Quoted(value)
  {
    var special := HasSpecial(value);
    if !special {
      NothingToEscape(value);
      result := "\"" + value + "\"";
    } else {
      var walked := EscapeWalk(value);
      result := "\"" + walked + "\"";
    }
  }

  // ---- reading ----

  /** decodeUnicodeEscapeSequence: four hexadecimal digits. */
  function HexUnit(s: string, p: nat): Option<nat>
    requires p <= |s|
  {
    if |s| - p < 4 then None
    else
      match (HexValue(s[p]), HexValue(s[p + 1]), HexValue(s[p + 2]), HexValue(s[p + 3]))
      case (Some(a), Some(b), Some(c), Some(d)) => Some(((a * 16 + b) * 16 + c) * 16 + d)
      case _ => None
  }

  /** decodeUnicodeCodePoint: one unit, or two that form a surrogate pair. */
  function CodePointAt(s: string, p: nat): (r: Option<(nat, nat)>)
    requires p <= |s|
    ensures r.Some? ==> p < r.value.1 <= |s|
  {
    match HexUnit(s, p)
    case None => None
    case Some(unit) =>
      if 0xD800 <= unit <= 0xDBFF then
        if |s| - (p + 4) < 6 || s[p + 4] != '\\' || s[p + 5] != 'u' then None
        else
          match HexUnit(s, p + 6)
          case None => None
          case Some(second) => Some((0x10000 + unit % 1024 * 1024 + second % 1024, p + 10))
      else Some((unit, p + 4))
  }

  /** What the decoding loop does with the char at p: fail, stop, or append some chars
      and go on. */
  datatype Piece = Bad | Stop | Append(text: string, next: nat)

  function PieceAt(s: string, p: nat): (r: Piece)
    requires p < |s|
    ensures r.Append? ==> p < r.next <= |s|
  {
    if s[p] == '"' then Stop
    else if s[p] != '\\' then Append([s[p]], p + 1)
    else if p + 1 == |s| then Bad
    else
      match s[p + 1]
      case '"' => Append("\"", p + 2)
      case '/' => Append("/", p + 2)
      case '\\' => Append("\\", p + 2)
      case 'b' => Append([BACKSPACE], p + 2)
      case 'f' => Append([FORMFEED], p + 2)
      case 'n' => Append("\n", p + 2)
      case 'r' => Append("\r", p + 2)
      case 't' => Append("\t", p + 2)
      case 'u' =>
        (match CodePointAt(s, p + 2)
         case None => Bad
         case Some((unicode, next)) => Append(Utf8(unicode), next))
      case _ => Bad
  }

  function Prepend(x: string, rest: Option<string>): Option<string> {
    if rest.Some? then Some(x + rest.value) else None
  }

  /** decodeString from position p of the chars between the quotes; None is an error. */
  function DecodeFrom(s: string, p: nat): Option<string>
    decreases |s| - p
  {
    if p >= |s| then Some("")
    else
      match PieceAt(s, p)
      case Bad => None
      case Stop => Some("")
      case Append(text, next) => Prepend(text, DecodeFrom(s, next))
  }

  lemma PrependNothing(rest: Option<string>)
    ensures Prepend("", rest) == rest
  {
    if rest.Some? {
      assert "" + rest.value == rest.value;
    }
  }

  lemma PrependTwice(x: string, y: string, rest: Option<string>)
    ensures Prepend(x, Prepend(y, rest)) == Prepend(x + y, rest)
  {
    if rest.Some? {
      assert x + (y + rest.value) == x + y + rest.value;
    }
  }

  /** decodeString over the chars between the quotes of a token. */
  method DecodeString(s: string) returns (r: Option<string>)
    ensures r == DecodeFrom(s, 0)
  {
    var decoded, current := "", 0;
    PrependNothing(DecodeFrom(s, 0));
    while current < |s|
      invariant 0 <= current <= |s|
      invariant DecodeFrom(s, 0) == Prepend(decoded, DecodeFrom(s, current))
      decreases |s| - current
    {
      var piece := PieceAt(s, current);
      match piece {
        case Bad => return None;
        case Stop =>
          assert decoded + "" == decoded;
          return Some(decoded);
        case Append(text, next) =>
          PrependTwice(decoded, text, DecodeFrom(s, next));
          decoded := decoded + text;
          current := next;
      }
    }
    assert decoded + "" == decoded;
    return Some(decoded);
  }

  // ---- reading back what was written ----

  lemma HexUnitRead(s: string, p: nat, u: nat, upper: bool)
    requires u < 0x10000 && Follows(s, p, Hex4(u, upper))
    ensures HexUnit(s, p) == Some(u)
  {
    FollowsAt(s, p, Hex4(u, upper), 0);
    FollowsAt(s, p, Hex4(u, upper), 1);
    FollowsAt(s, p, Hex4(u, upper), 2);
    FollowsAt(s, p, Hex4(u, upper), 3);
    HexDigitRoundTrip(u / 4096, upper);
    HexDigitRoundTrip(u / 256 % 16, upper);
    HexDigitRoundTrip(u / 16 % 16, upper);
    HexDigitRoundTrip(u % 16, upper);
    HexParts(u);
  }

  lemma HexParts(u: nat)
    ensures u == ((u / 4096 * 16 + u / 256 % 16) * 16 + u / 16 % 16) * 16 + u % 16
  {
    assert u / 16 / 16 == u / 256 && u / 256 / 16 == u / 4096;
  }

  lemma EscapedCharRead(s: string, p: nat, c: char)
    requires Follows(s, p, Escape(c))
    ensures p < |s| && PieceAt(s, p) == Append([c], p + |Escape(c)|)
  {
    FollowsAt(s, p, Escape(c), 0);
    if |Escape(c)| > 1 {
      FollowsAt(s, p, Escape(c), 1);
    }
    if |Escape(c)| == 6 {
      FollowsSplit(s, p, "\\u", Hex4(c as nat, true));
      HexUnitRead(s, p + 2, c as nat, true);
    }
  }

  lemma DecodeStep(s: string, p: nat, text: string, next: nat)
    requires p < |s| && PieceAt(s, p) == Append(text, next)
    ensures DecodeFrom(s, p) == Prepend(text, DecodeFrom(s, next))
  {
  }

  lemma EscapedFront(s: string, p: nat, x: string)
    requires x != "" && Follows(s, p, EscapeAll(x))
    ensures Follows(s, p, Escape(x[0])) && Follows(s, p + |Escape(x[0])|, EscapeAll(x[1..]))
    ensures |EscapeAll(x)| == |Escape(x[0])| + |EscapeAll(x[1..])|
  {
    FollowsSplit(s, p, Escape(x[0]), EscapeAll(x[1..]));
  }

  /** Decoding the escaped chars gives the string back. */
  lemma {:induction false} DecodeEscaped(s: string, p: nat, x: string)
    requires Follows(s, p, EscapeAll(x)) && p + |EscapeAll(x)| == |s|
    ensures DecodeFrom(s, p) == Some(x)
    decreases |x|
  {
    if x != "" {
      var next := p + |Escape(x[0])|;
      EscapedFront(s, p, x);
      EscapedCharRead(s, p, x[0]);
      DecodeStep(s, p, [x[0]], next);
      DecodeEscaped(s, next, x[1..]);
      assert x == [x[0]] + x[1..];
    }
  }

  // ---- \\u escapes and UTF-8 ----

  /** A Unicode scalar value. */
  predicate IsScalar(cp: nat) {
    cp <= 0x10FFFF && !(0xD800 <= cp <= 0xDFFF)
  }

  /** Section 7 of RFC 8259: one unit, or a surrogate pair for a value beyond 16 bits. */
  function ScalarEscape(cp: nat, upper: bool): string
    requires IsScalar(cp)
  {
    if cp < 0x10000 then UnitEscape(cp, upper)
    else UnitEscape(0xD800 + (cp - 0x10000) / 1024, upper) + UnitEscape(0xDC00 + (cp - 0x10000) % 1024, upper)
  }

  function UnitEscape(u: nat, upper: bool): (e: string)
    requires u < 0x10000
    ensures |e| == 6
  {
    "\\u" + Hex4(u, upper)
  }

  function ScalarEscapes(cps: seq<nat>, upper: bool): string
    requires forall i :: 0 <= i < |cps| ==> IsScalar(cps[i])
  {
    if cps == [] then "" else ScalarEscape(cps[0], upper) + ScalarEscapes(cps[1..], upper)
  }

  function Utf8All(cps: seq<nat>): string {
    if cps == [] then "" else Utf8(cps[0]) + Utf8All(cps[1..])
  }

  lemma SmallScalarRead(s: string, p: nat, cp: nat, upper: bool)
    requires IsScalar(cp) && cp < 0x10000 && Follows(s, p, UnitEscape(cp, upper))
    ensures p + 6 <= |s| && s[p] == '\\' && s[p + 1] == 'u' && CodePointAt(s, p + 2) == Some((cp, p + 6))
  {
    FollowsSplit(s, p, "\\u", Hex4(cp, upper));
    FollowsAt(s, p, "\\u", 0);
    FollowsAt(s, p, "\\u", 1);
    HexUnitRead(s, p + 2, cp, upper);
  }

  lemma UnitRead(s: string, p: nat, u: nat, upper: bool)
    requires u < 0x10000 && Follows(s, p, UnitEscape(u, upper))
    ensures p + 6 <= |s| && s[p] == '\\' && s[p + 1] == 'u' && HexUnit(s, p + 2) == Some(u)
  {
    FollowsSplit(s, p, "\\u", Hex4(u, upper));
    FollowsAt(s, p, "\\u", 0);
    FollowsAt(s, p, "\\u", 1);
    HexUnitRead(s, p + 2, u, upper);
  }

  lemma PairJoined(s: string, p: nat, high: nat, low: nat)
    requires p + 12 <= |s| && HexUnit(s, p + 2) == Some(high) && s[p + 6] == '\\' && s[p + 7] == 'u'
    requires HexUnit(s, p + 8) == Some(low) && 0xD800 <= high <= 0xDBFF
    ensures CodePointAt(s, p + 2) == Some((0x10000 + high % 1024 * 1024 + low % 1024, p + 12))
  {
  }

  lemma SurrogateArithmetic(cp: nat)
    requires 0x10000 <= cp <= 0x10FFFF
    ensures var (high, low) := (0xD800 + (cp - 0x10000) / 1024, 0xDC00 + (cp - 0x10000) % 1024);
            && 0xD800 <= high <= 0xDBFF && 0xDC00 <= low <= 0xDFFF
            && 0x10000 + high % 1024 * 1024 + low % 1024 == cp
  {
    var x := cp - 0x10000;
    assert (0xD800 + x / 1024) % 1024 == x / 1024 && (0xDC00 + x % 1024) % 1024 == x % 1024;
  }

  lemma PairRead(s: string, p: nat, cp: nat, upper: bool)
    requires 0x10000 <= cp <= 0x10FFFF && Follows(s, p, ScalarEscape(cp, upper))
    ensures p + 12 <= |s| && s[p] == '\\' && s[p + 1] == 'u' && CodePointAt(s, p + 2) == Some((cp, p + 12))
  {
    SurrogateArithmetic(cp);
    var high, low := 0xD800 + (cp - 0x10000) / 1024, 0xDC00 + (cp - 0x10000) % 1024;
    FollowsSplit(s, p, UnitEscape(high, upper), UnitEscape(low, upper));
    UnitRead(s, p, high, upper);
    UnitRead(s, p + 6, low, upper);
    PairJoined(s, p, high, low);
  }

  lemma ScalarRead(s: string, p: nat, cp: nat, upper: bool)
    requires IsScalar(cp) && Follows(s, p, ScalarEscape(cp, upper))
    ensures p < |s| && PieceAt(s, p) == Append(Utf8(cp), p + |ScalarEscape(cp, upper)|)
  {
    if cp < 0x10000 {
      SmallScalarRead(s, p, cp, upper);
    } else {
      PairRead(s, p, cp, upper);
    }
  }

  lemma ScalarsFront(s: string, p: nat, cps: seq<nat>, upper: bool)
    requires cps != [] && forall i :: 0 <= i < |cps| ==> IsScalar(cps[i])
    requires Follows(s, p, ScalarEscapes(cps, upper))
    ensures var next := p + |ScalarEscape(cps[0], upper)|;
            && Follows(s, p, ScalarEscape(cps[0], upper))
            && Follows(s, next, ScalarEscapes(cps[1..], upper))
            && next + |ScalarEscapes(cps[1..], upper)| == p + |ScalarEscapes(cps, upper)|
  {
    FollowsSplit(s, p, ScalarEscape(cps[0], upper), ScalarEscapes(cps[1..], upper));
  }

  /** Any sequence of scalar values written as escapes decodes to its UTF-8 form. */
  lemma {:induction false} ScalarsDecodeToUtf8(s: string, p: nat, cps: seq<nat>, upper: bool)
    requires forall i :: 0 <= i < |cps| ==> IsScalar(cps[i])
    requires Follows(s, p, ScalarEscapes(cps, upper)) && p + |ScalarEscapes(cps, upper)| == |s|
    ensures DecodeFrom(s, p) == Some(Utf8All(cps))
    decreases |cps|
  {
    if cps != [] {
      ScalarsFront(s, p, cps, upper);
      ScalarRead(s, p, cps[0], upper);
      DecodeStep(s, p, Utf8(cps[0]), p + |ScalarEscape(cps[0], upper)|);
      ScalarsDecodeToUtf8(s, p + |ScalarEscape(cps[0], upper)|, cps[1..], upper);
    }
  }

  // ---- UTF-8 read back, by the syntax of section 4 of RFC 3629 ----

  predicate IsTail(c: char) {
    0x80 <= c as int <= 0xBF
  }

  /** The scalar value that starts at p and its length, in its shortest form only. */
  function Utf8ScalarAt(s: string, p: nat): (r: Option<(nat, nat)>)
    requires p < |s|
    ensures r.Some? ==> 1 <= r.value.1 && p + r.value.1 <= |s| && IsScalar(r.value.0)
  {
    var b := s[p] as int;
    var left := |s| - p;
    if b <= 0x7F then Some((b, 1))
    else if 0xC2 <= b <= 0xDF then
      if left < 2 || !IsTail(s[p + 1]) then None
      else Some(((b - 0xC0) * 64 + (s[p + 1] as int - 0x80), 2))
    else if 0xE0 <= b <= 0xEF then
      if left < 3 || !IsTail(s[p + 1]) || !IsTail(s[p + 2]) then None
      else
        var v := ((b - 0xE0) * 64 + (s[p + 1] as int - 0x80)) * 64 + (s[p + 2] as int - 0x80);
        if v < 0x800 || 0xD800 <= v <= 0xDFFF then None else Some((v, 3))
    else if 0xF0 <= b <= 0xF4 then
      if left < 4 || !IsTail(s[p + 1]) || !IsTail(s[p + 2]) || !IsTail(s[p + 3]) then None
      else
        var v := (((b - 0xF0) * 64 + (s[p + 1] as int - 0x80)) * 64 + (s[p + 2] as int - 0x80)) * 64 + (s[p + 3] as int - 0x80);
        if v < 0x10000 || v > 0x10FFFF then None else Some((v, 4))
    else None
  }

  function Utf8Scalars(s: string, p: nat): Option<seq<nat>>
    decreases |s| - p
  {
    if p >= |s| then Some([])
    else
      match Utf8ScalarAt(s, p)
      case None => None
      case Some((cp, length)) =>
        match Utf8Scalars(s, p + length)
        case None => None
        case Some(rest) => Some([cp] + rest)
  }

  lemma TwoByteRead(s: string, p: nat, cp: nat)
    requires 0x7F < cp <= 0x7FF && Follows(s, p, Utf8(cp))
    ensures p < |s| && Utf8ScalarAt(s, p) == Some((cp, 2))
  {
    FollowsAt(s, p, Utf8(cp), 0);
    FollowsAt(s, p, Utf8(cp), 1);
    assert cp / 64 % 32 == cp / 64;
  }

  lemma ThreeByteRead(s: string, p: nat, cp: nat)
    requires IsScalar(cp) && 0x7FF < cp <= 0xFFFF && Follows(s, p, Utf8(cp))
    ensures p < |s| && Utf8ScalarAt(s, p) == Some((cp, 3))
  {
    FollowsAt(s, p, Utf8(cp), 0);
    FollowsAt(s, p, Utf8(cp), 1);
    FollowsAt(s, p, Utf8(cp), 2);
    assert cp / 4096 % 16 == cp / 4096;
    assert cp == (cp / 4096 * 64 + cp / 64 % 64) * 64 + cp % 64;
  }

  lemma FourByteRead(s: string, p: nat, cp: nat)
    requires 0xFFFF < cp <= 0x10FFFF && Follows(s, p, Utf8(cp))
    ensures p < |s| && Utf8ScalarAt(s, p) == Some((cp, 4))
  {
    FollowsAt(s, p, Utf8(cp), 0);
    FollowsAt(s, p, Utf8(cp), 1);
    FollowsAt(s, p, Utf8(cp), 2);
    FollowsAt(s, p, Utf8(cp), 3);
    FourParts(cp);
    FourByteValue(s, p, cp, cp / 262144, cp / 4096 % 64, cp / 64 % 64, cp % 64);
  }

  lemma FourParts(cp: nat)
    requires cp <= 0x10FFFF
    ensures cp / 262144 % 8 == cp / 262144 <= 4
    ensures cp == ((cp / 262144 * 64 + cp / 4096 % 64) * 64 + cp / 64 % 64) * 64 + cp % 64
  {
    assert cp / 64 / 64 == cp / 4096 && cp / 4096 / 64 == cp / 262144;
  }

  lemma FourByteValue(s: string, p: nat, cp: nat, a: nat, b: nat, c: nat, d: nat)
    requires 0xFFFF < cp <= 0x10FFFF && a <= 4 && b < 64 && c < 64 && d < 64
    requires cp == ((a * 64 + b) * 64 + c) * 64 + d && p + 4 <= |s|
    requires s[p] as int == 0xF0 + a && s[p + 1] as int == 0x80 + b && s[p + 2] as int == 0x80 + c && s[p + 3] as int == 0x80 + d
    ensures Utf8ScalarAt(s, p) == Some((cp, 4))
  {
  }

  lemma Utf8ScalarRead(s: string, p: nat, cp: nat)
    requires IsScalar(cp) && Follows(s, p, Utf8(cp))
    ensures p < |s| && Utf8ScalarAt(s, p) == Some((cp, |Utf8(cp)|))
  {
    if cp <= 0x7F {
      FollowsAt(s, p, Utf8(cp), 0);
    } else if cp <= 0x7FF {
      TwoByteRead(s, p, cp);
    } else if cp <= 0xFFFF {
      ThreeByteRead(s, p, cp);
    } else {
      FourByteRead(s, p, cp);
    }
  }

  lemma Utf8Front(s: string, p: nat, cps: seq<nat>, cp: nat, rest: seq<nat>, next: nat)
    requires cps != [] && cp == cps[0] && rest == cps[1..] && Follows(s, p, Utf8All(cps)) && next == p + |Utf8(cp)|
    ensures Follows(s, p, Utf8(cp)) && Follows(s, next, Utf8All(rest))
    ensures p + |Utf8All(cps)| == next + |Utf8All(rest)|
  {
    FollowsSplit(s, p, Utf8(cp), Utf8All(rest));
  }

  lemma Utf8Step(s: string, p: nat, cp: nat, length: nat, next: nat, rest: seq<nat>)
    requires p < |s| && length >= 1 && next == p + length && Utf8ScalarAt(s, p) == Some((cp, length))
    requires Utf8Scalars(s, next) == Some(rest)
    ensures Utf8Scalars(s, p) == Some([cp] + rest)
  {
  }

  lemma {:induction false} Utf8RoundTrip(s: string, p: nat, cps: seq<nat>)
    requires forall i :: 0 <= i < |cps| ==> IsScalar(cps[i])
    requires Follows(s, p, Utf8All(cps)) && p + |Utf8All(cps)| == |s|
    ensures Utf8Scalars(s, p) == Some(cps)
    decreases |cps|
  {
    if cps != [] {
      var cp, rest, next := cps[0], cps[1..], p + |Utf8(cps[0])|;
      Utf8Front(s, p, cps, cp, rest, next);
      Utf8ScalarRead(s, p, cp);
      Utf8RoundTrip(s, next, rest);
      Utf8Step(s, p, cp, |Utf8(cp)|, next, rest);
      assert cps == [cp] + rest;
    }
  }

  /** Scalar values to escapes, through decodeString, and read as UTF-8: the same ones. */
  lemma EscapedScalarsSurvive(cps: seq<nat>, upper: bool)
    requires forall i :: 0 <= i < |cps| ==> IsScalar(cps[i])
    ensures DecodeFrom(ScalarEscapes(cps, upper), 0) == Some(Utf8All(cps))
    ensures Utf8Scalars(Utf8All(cps), 0) == Some(cps)
  {
    ScalarsDecodeToUtf8(ScalarEscapes(cps, upper), 0, cps, upper);
    Utf8RoundTrip(Utf8All(cps), 0, cps);
  }
}
