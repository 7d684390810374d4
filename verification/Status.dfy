/** The status dump (server/info.cpp, cmd_status), the byte codec it uses
    (server/server.hpp, send) and the program that reads it (client/pm_info, show). */
module Status {
  import opened Util

  type Bytes = seq<nat>

  // ---- the codec: 32-bit little-endian integers, length-prefixed strings ----

  predicate IsInt32(v: int) {
    -0x8000_0000 <= v < 0x8000_0000
  }

  function IntBytes(v: int): (b: Bytes)
    ensures |b| == 4
  {
    var u := v % 0x1_0000_0000;
    [u % 256, u / 256 % 256, u / 65536 % 256, u / 16777216]
  }

  function Unsigned(b: Bytes): nat {
    if b == [] then 0 else b[0] + 256 * Unsigned(b[1..])
  }

  /** struct.unpack("i", ...) */
  function IntOf(b: Bytes): int {
    var u := Unsigned(b);
    if u < 0x8000_0000 then u else u - 0x1_0000_0000
  }

  lemma UnsignedFront(a: nat, rest: Bytes)
    ensures Unsigned([a] + rest) == a + 256 * Unsigned(rest)
  {
    assert ([a] + rest)[1..] == rest;
  }

  lemma UnsignedFour(a: nat, b: nat, c: nat, d: nat)
    ensures Unsigned([a, b, c, d]) == a + 256 * (b + 256 * (c + 256 * d))
  {
    var three, two, one := [b] + ([c] + ([d] + [])), [c] + ([d] + []), [d] + [];
    UnsignedFront(d, []);
    UnsignedFront(c, one);
    UnsignedFront(b, two);
    UnsignedFront(a, three);
    assert [a, b, c, d] == [a] + three;
  }

  lemma IntRoundTrip(v: int)
    requires IsInt32(v)
    ensures IntOf(IntBytes(v)) == v
  {
    var u := v % 0x1_0000_0000;
    UnsignedFour(u % 256, u / 256 % 256, u / 65536 % 256, u / 16777216);
    assert u / 65536 == u / 256 / 256 && u / 16777216 == u / 256 / 256 / 256;
    assert u == u % 256 + 256 * (u / 256);
    assert u / 256 == u / 256 % 256 + 256 * (u / 256 / 256);
    assert u / 256 / 256 == u / 256 / 256 % 256 + 256 * (u / 256 / 256 / 256);
  }

  lemma FourDigits(a: nat, b: nat, c: nat, d: nat, u: nat)
    requires a < 256 && b < 256 && c < 256 && d < 256 && u == a + 256 * (b + 256 * (c + 256 * d))
    ensures u < 0x1_0000_0000 && [u % 256, u / 256 % 256, u / 65536 % 256, u / 16777216] == [a, b, c, d]
  {
    var v := b + 256 * (c + 256 * d);
    assert u / 256 == v && v / 256 == c + 256 * d && u / 65536 == v / 256;
    assert u / 16777216 == v / 65536 == d;
  }

  lemma SameRemainder(v: int, u: nat)
    requires u < 0x1_0000_0000 && (v == u || v == u - 0x1_0000_0000)
    ensures v % 0x1_0000_0000 == u
  {
  }

  /** The lowest byte goes first, and a negative number goes as its complement. */
  lemma LowestByteFirst(v: int, a: nat, b: nat, c: nat, d: nat, u: nat)
    requires a < 256 && b < 256 && c < 256 && d < 256 && u == a + 256 * (b + 256 * (c + 256 * d))
    requires v == u || v == u - 0x1_0000_0000
    ensures IntBytes(v) == [a, b, c, d]
  {
    FourDigits(a, b, c, d, u);
    SameRemainder(v, u);
  }

  function TextBytes(t: Bytes): Bytes {
    IntBytes(|t|) + t
  }

  function IntsBytes(v: seq<int>): Bytes {
    IntBytes(|v|) + Flatten(Ints(v))
  }

  function Ints(v: seq<int>): (bs: seq<Bytes>)
    ensures |bs| == |v|
  {
    seq(|v|, i requires 0 <= i < |v| => IntBytes(v[i]))
  }

  // ---- the inventory ----

  /** A voltage is the four bytes of a float. */
  datatype LineInfo = LineInfo(id: int, name: Bytes, voltage: Bytes, description: Bytes, computer: Bytes)

  datatype CounterInfo = CounterInfo(id: int, ip: Bytes, lines: seq<int>)

  datatype DeviceInfo = DeviceInfo(
    name: Bytes,
    maxFrequency: int,
    n_lines: int,
    pdu: bool,
    computer: Bytes,
    lines: seq<LineInfo>,
    counters: seq<CounterInfo>)

  predicate TextOk(t: Bytes) {
    |t| < 0x8000_0000
  }

  predicate LineOk(l: LineInfo) {
    IsInt32(l.id) && TextOk(l.name) && |l.voltage| == 4 && TextOk(l.description) && TextOk(l.computer)
  }

  predicate CounterOk(c: CounterInfo) {
    IsInt32(c.id) && TextOk(c.ip) && IsInt32(|c.lines|) && forall i :: 0 <= i < |c.lines| ==> IsInt32(c.lines[i])
  }

  /** The number of lines a device announces is the number it has configured: the
      check in the Config module. */
  predicate DeviceOk(d: DeviceInfo) {
    && TextOk(d.name) && IsInt32(d.maxFrequency) && TextOk(d.computer)
    && IsInt32(d.n_lines) && d.n_lines == |d.lines| && (forall i :: 0 <= i < |d.lines| ==> LineOk(d.lines[i]))
    && IsInt32(|d.counters|) && (forall i :: 0 <= i < |d.counters| ==> CounterOk(d.counters[i]))
  }

  predicate InventoryOk(ds: seq<DeviceInfo>) {
    IsInt32(|ds|) && forall i :: 0 <= i < |ds| ==> DeviceOk(ds[i])
  }

  // ---- what is sent ----

  function LineBytes(pdu: bool, l: LineInfo): Bytes {
    IntBytes(l.id) + TextBytes(l.name) + l.voltage + TextBytes(l.description) + (if pdu then TextBytes(l.computer) else [])
  }

  function CounterBytes(c: CounterInfo): Bytes {
    IntBytes(c.id) + TextBytes(c.ip) + IntsBytes(c.lines)
  }

  function LinesBytes(pdu: bool, ls: seq<LineInfo>): (bs: seq<Bytes>)
    ensures |bs| == |ls|
  {
    seq(|ls|, i requires 0 <= i < |ls| => LineBytes(pdu, ls[i]))
  }

  function CountersBytes(cs: seq<CounterInfo>): (bs: seq<Bytes>)
    ensures |bs| == |cs|
  {
    seq(|cs|, i requires 0 <= i < |cs| => CounterBytes(cs[i]))
  }

  function HeaderBytes(d: DeviceInfo): Bytes {
    TextBytes(d.name) + IntBytes(d.maxFrequency) + IntBytes(d.n_lines) + IntBytes(if d.pdu then 1 else 0)
    + (if d.pdu then [] else TextBytes(d.computer))
  }

  function DeviceBytes(d: DeviceInfo): Bytes {
    HeaderBytes(d) + Flatten(LinesBytes(d.pdu, d.lines)) + IntBytes(|d.counters|) + Flatten(CountersBytes(d.counters))
  }

  function DevicesBytes(ds: seq<DeviceInfo>): (bs: seq<Bytes>)
    ensures |bs| == |ds|
  {
    seq(|ds|, i requires 0 <= i < |ds| => DeviceBytes(ds[i]))
  }

  function StatusBytes(ds: seq<DeviceInfo>): Bytes {
    IntBytes(|ds|) + Flatten(DevicesBytes(ds))
  }

  lemma SmallInt(k: nat)
    requires k < 256
    ensures IntBytes(k) == [k, 0, 0, 0]
  {
  }

  /** A line and a counter, byte by byte. */
  lemma SampleParts(pdu: bool)
    ensures LineBytes(pdu, LineInfo(7, [76], [1, 2, 3, 4], [], [67])) ==
            [7, 0, 0, 0] + [1, 0, 0, 0, 76] + [1, 2, 3, 4] + [0, 0, 0, 0] + (if pdu then [1, 0, 0, 0, 67] else [])
    ensures CounterBytes(CounterInfo(9, [73], [7])) == [9, 0, 0, 0] + [1, 0, 0, 0, 73] + ([1, 0, 0, 0] + [7, 0, 0, 0])
  {
    SmallInt(0);
    SmallInt(1);
    SmallInt(7);
    SmallInt(9);
    assert Ints([7]) == [IntBytes(7)];
    OnePart(IntBytes(7));
  }

  lemma OnePart(x: Bytes)
    ensures Flatten([x]) == x
  {
    assert [x][1..] == [] && x + [] == x;
  }

  /** A device in front of its lines, byte by byte. */
  lemma SampleHeader(pdu: bool, lines: seq<LineInfo>, counters: seq<CounterInfo>)
    ensures HeaderBytes(DeviceInfo([68], 50, 1, pdu, [67], lines, counters)) ==
            [1, 0, 0, 0, 68] + [50, 0, 0, 0] + [1, 0, 0, 0] + (if pdu then [1, 0, 0, 0] else [0, 0, 0, 0]) +
            (if pdu then [] else [1, 0, 0, 0, 67])
  {
    SmallInt(0);
    SmallInt(1);
    SmallInt(50);
  }

  /** What is sent of one device with one line and one counter: how many devices, the device,
      its line, how many counters, and the counter. */
  lemma SampleDump(d: DeviceInfo, line: LineInfo, counter: CounterInfo)
    requires d.lines == [line] && d.counters == [counter]
    ensures StatusBytes([d]) == [1, 0, 0, 0] + (HeaderBytes(d) + LineBytes(d.pdu, line) + [1, 0, 0, 0] + CounterBytes(counter))
  {
    SmallInt(1);
    assert LinesBytes(d.pdu, [line]) == [LineBytes(d.pdu, line)];
    assert CountersBytes([counter]) == [CounterBytes(counter)];
    assert DevicesBytes([d]) == [DeviceBytes(d)];
    OnePart(LineBytes(d.pdu, line));
    OnePart(CounterBytes(counter));
    OnePart(DeviceBytes(d));
  }

  // ---- what the reader shows ----

  datatype ShownLine = ShownLine(id: int, name: Bytes, voltage: Bytes, description: Bytes, computer: Option<Bytes>)

  datatype ShownDevice = ShownDevice(
    name: Bytes,
    maxFrequency: int,
    n_lines: int,
    computer: Option<Bytes>,
    lines: seq<ShownLine>,
    counters: seq<CounterInfo>)

  function LineShown(pdu: bool, l: LineInfo): ShownLine {
    ShownLine(l.id, l.name, l.voltage, l.description, if pdu then Some(l.computer) else None)
  }

  function LinesShown(pdu: bool, ls: seq<LineInfo>): (r: seq<ShownLine>)
    ensures |r| == |ls|
  {
    seq(|ls|, i requires 0 <= i < |ls| => LineShown(pdu, ls[i]))
  }

  /** A line's computer belongs to the line on a PDU and to the device otherwise; the
      counters are shown only with that option on. */
  function DeviceShown(d: DeviceInfo, counters: bool): ShownDevice {
    ShownDevice(d.name, d.maxFrequency, d.n_lines, if d.pdu then None else Some(d.computer),
                LinesShown(d.pdu, d.lines), if counters then d.counters else [])
  }

  function DevicesShown(ds: seq<DeviceInfo>, counters: bool): (r: seq<ShownDevice>)
    ensures |r| == |ds|
  {
    seq(|ds|, i requires 0 <= i < |ds| => DeviceShown(ds[i], counters))
  }

  // ---- reading a stream, whatever it holds ----

  /** What is read off the front of a stream, and what is left of it; or the program ends,
      because the stream does or because a length is negative. */
  datatype Taken<+T> = Failed | Taken(value: T, left: Bytes) {
    predicate IsFailure() {
      Failed?
    }

    function PropagateFailure<U>(): Taken<U>
      requires Failed?
    {
      Failed
    }

    function Extract(): Taken<T>
      requires Taken?
    {
      this
    }
  }

  /** receive_data: exactly n bytes. */
  function TakeExact(b: Bytes, n: nat): Taken<Bytes> {
    if |b| < n then Failed else Taken(b[..n], b[n..])
  }

  function TakeInt(b: Bytes): Taken<int> {
    if |b| < 4 then Failed else Taken(IntOf(b[..4]), b[4..])
  }

  /** client.recv: at the end of the stream it returns what there is. */
  function TakeUpTo(b: Bytes, n: int): Taken<Bytes> {
    if n < 0 then Failed
    else
      var m := Min(n, |b|);
      Taken(b[..m], b[m..])
  }

  function TakeText(b: Bytes): Taken<Bytes> {
    var n :- TakeInt(b);
    TakeUpTo(n.left, n.value)
  }

  function LineFrom(b: Bytes, pdu: bool): Taken<ShownLine> {
    var id :- TakeInt(b);
    var name :- TakeText(id.left);
    var voltage :- TakeExact(name.left, 4);
    var description :- TakeText(voltage.left);
    if pdu then
      var computer :- TakeText(description.left);
      Taken(ShownLine(id.value, name.value, voltage.value, description.value, Some(computer.value)), computer.left)
    else
      Taken(ShownLine(id.value, name.value, voltage.value, description.value, None), description.left)
  }

  function LineReader(pdu: bool): Bytes -> Taken<ShownLine> {
    (b: Bytes) => LineFrom(b, pdu)
  }

  /** The loops of show: as many items as announced, none for a negative number. */
  function ListFrom<T>(read: Bytes -> Taken<T>, b: Bytes, n: int): Taken<seq<T>>
    decreases n
  {
    if n <= 0 then Taken([], b)
    else
      match read(b)
      case Failed => Failed
      case Taken(first, left) => Behind([first], ListFrom(read, left, n - 1))
  }

  /** A list, the front of which is already read. */
  function Behind<T>(front: seq<T>, t: Taken<seq<T>>): Taken<seq<T>> {
    match t
    case Failed => Failed
    case Taken(value, left) => Taken(front + value, left)
  }

  function CounterFrom(b: Bytes): Taken<CounterInfo> {
    var id :- TakeInt(b);
    var ip :- TakeText(id.left);
    var n :- TakeInt(ip.left);
    var lines :- ListFrom(TakeInt, n.left, n.value);
    Taken(CounterInfo(id.value, ip.value, lines.value), lines.left)
  }

  function CounterReader(): Bytes -> Taken<CounterInfo> {
    (b: Bytes) => CounterFrom(b)
  }

  /** The first fields of a device, up to its lines. */
  datatype Header = Header(name: Bytes, maxFrequency: int, n_lines: int, pdu: bool, computer: Option<Bytes>)

  function HeaderFrom(b: Bytes): Taken<Header> {
    var name :- TakeText(b);
    var frequency :- TakeInt(name.left);
    var lines :- TakeInt(frequency.left);
    var kind :- TakeInt(lines.left);
    if kind.value != 0 then
      Taken(Header(name.value, frequency.value, lines.value, true, None), kind.left)
    else
      var computer :- TakeText(kind.left);
      Taken(Header(name.value, frequency.value, lines.value, false, Some(computer.value)), computer.left)
  }

  /** One device; its counter entries are read only with the counters option on. */
  function DeviceFrom(b: Bytes, counters: bool): Taken<ShownDevice> {
    var h :- HeaderFrom(b);
    var lines :- ListFrom(LineReader(h.value.pdu), h.left, h.value.n_lines);
    var n :- TakeInt(lines.left);
    var cs :- if n.value != 0 && counters then ListFrom(CounterReader(), n.left, n.value) else Taken([], n.left);
    Taken(ShownDevice(h.value.name, h.value.maxFrequency, h.value.n_lines, h.value.computer, lines.value, cs.value), cs.left)
  }

  function DeviceReader(counters: bool): Bytes -> Taken<ShownDevice> {
    (b: Bytes) => DeviceFrom(b, counters)
  }

  /** The answer to the status request, as show reads it. */
  function ShowFrom(b: Bytes, counters: bool): Taken<seq<ShownDevice>> {
    var n :- TakeInt(b);
    ListFrom(DeviceReader(counters), n.left, n.value)
  }

  /** What a method has read, and what it left in the stream. */
  ghost predicate Reads<T>(t: Taken<T>, r: Option<T>, left: Bytes) {
    match t
    case Failed => r == None
    case Taken(value, rest) => r == Some(value) && left == rest
  }

  /** A connection seen from one end: bytes sent so far, or bytes not yet received before
      the other end closes it. */
  class Socket {
    var bytes: Bytes

    constructor (bytes: Bytes)
      ensures this.bytes == bytes
    {
      this.bytes := bytes;
    }

    method SendInt(v: int)
      modifies this
      ensures bytes == old(bytes) + IntBytes(v)
    {
      bytes := bytes + IntBytes(v);
    }

    method SendRaw(raw: Bytes)
      modifies this
      ensures bytes == old(bytes) + raw
    {
      bytes := bytes + raw;
    }

    method SendText(t: Bytes)
      modifies this
      ensures bytes == old(bytes) + TextBytes(t)
    {
      SendInt(|t|);
      SendRaw(t);
      assert old(bytes) + IntBytes(|t|) + t == old(bytes) + TextBytes(t);
    }

    method SendInts(v: seq<int>)
      modifies this
      ensures bytes == old(bytes) + IntsBytes(v)
    {
      SendInt(|v|);
      ghost var before := bytes;
      var i := 0;
      while i < |v|
        invariant 0 <= i <= |v|
        invariant bytes == before + Flatten(Ints(v)[..i])
      {
        FlattenTake(Ints(v), i);
        SendInt(v[i]);
        i := i + 1;
      }
      assert Ints(v)[..|v|] == Ints(v);
      assert old(bytes) + IntBytes(|v|) + Flatten(Ints(v)) == old(bytes) + IntsBytes(v);
    }

    method Receive(n: nat) returns (r: Option<Bytes>)
      modifies this
      ensures Reads(TakeExact(old(bytes), n), r, bytes)
    {
      if |bytes| < n {
        return None;
      }
      r := Some(bytes[..n]);
      bytes := bytes[n..];
    }

    method ReceiveInt() returns (r: Option<int>)
      modifies this
      ensures Reads(TakeInt(old(bytes)), r, bytes)
    {
      var raw :- Receive(4);
      r := Some(IntOf(raw));
    }

    method ReceiveUpTo(n: int) returns (r: Option<Bytes>)
      modifies this
      ensures Reads(TakeUpTo(old(bytes), n), r, bytes)
    {
      if n < 0 {
        return None;
      }
      var size := Min(n, |bytes|);
      r := Some(bytes[..size]);
      bytes := bytes[size..];
    }

    method ReceiveText() returns (r: Option<Bytes>)
      modifies this
      ensures Reads(TakeText(old(bytes)), r, bytes)
    {
      var n :- ReceiveInt();
      r := ReceiveUpTo(n);
    }
  }

  // ---- cmd_status ----

  /** One more block sent. */
  lemma SentBlock(before: Bytes, parts: seq<Bytes>, i: nat, now: Bytes, x: Bytes)
    requires i < |parts| && now == before + Flatten(parts[..i]) && parts[i] == x
    ensures now + x == before + Flatten(parts[..i + 1])
    ensures Flatten(parts[..|parts|]) == Flatten(parts)
  {
    FlattenTake(parts, i);
    TwoParts(before, Flatten(parts[..i]), x);
  }

  method SendLines(sock: Socket, pdu: bool, lines: seq<LineInfo>)
    modifies sock
    ensures sock.bytes == old(sock.bytes) + Flatten(LinesBytes(pdu, lines))
  {
    ghost var before, parts := sock.bytes, LinesBytes(pdu, lines);
    var i := 0;
    while i < |lines|
      invariant 0 <= i <= |lines|
      invariant sock.bytes == before + Flatten(parts[..i])
    {
      ghost var now, block := sock.bytes, LineBytes(pdu, lines[i]);
      SendLine(sock, pdu, lines[i]);
      SentBlock(before, parts, i, now, block);
      i := i + 1;
    }
    assert parts[..|lines|] == parts;
  }

  method SendLine(sock: Socket, pdu: bool, lin: LineInfo)
    modifies sock
    ensures sock.bytes == old(sock.bytes) + LineBytes(pdu, lin)
  {
    sock.SendInt(lin.id);
    sock.SendText(lin.name);
    sock.SendRaw(lin.voltage);
    sock.SendText(lin.description);
    if pdu {
      sock.SendText(lin.computer);
    }
  }

  method SendCounter(sock: Socket, cnt: CounterInfo)
    modifies sock
    ensures sock.bytes == old(sock.bytes) + CounterBytes(cnt)
  {
    sock.SendInt(cnt.id);
    sock.SendText(cnt.ip);
    sock.SendInts(cnt.lines);
  }

  method SendCounters(sock: Socket, counters: seq<CounterInfo>)
    modifies sock
    ensures sock.bytes == old(sock.bytes) + Flatten(CountersBytes(counters))
  {
    ghost var before, parts := sock.bytes, CountersBytes(counters);
    var i := 0;
    while i < |counters|
      invariant 0 <= i <= |counters|
      invariant sock.bytes == before + Flatten(parts[..i])
    {
      ghost var now, block := sock.bytes, CounterBytes(counters[i]);
      SendCounter(sock, counters[i]);
      SentBlock(before, parts, i, now, block);
      i := i + 1;
    }
    assert parts[..|counters|] == parts;
  }

  method SendHeader(sock: Socket, dev: DeviceInfo)
    modifies sock
    ensures sock.bytes == old(sock.bytes) + HeaderBytes(dev)
  {
    sock.SendText(dev.name);
    sock.SendInt(dev.maxFrequency);
    sock.SendInt(dev.n_lines);
    if dev.pdu {
      sock.SendInt(1);
    } else {
      sock.SendInt(0);
      sock.SendText(dev.computer);
    }
  }

  lemma FourParts(o: Bytes, a: Bytes, b: Bytes, c: Bytes, d: Bytes)
    ensures o + a + b + c + d == o + (a + b + c + d)
    ensures a + b + c + d + o == a + (b + (c + (d + o)))
  {
  }

  method SendDevice(sock: Socket, dev: DeviceInfo)
    modifies sock
    ensures sock.bytes == old(sock.bytes) + DeviceBytes(dev)
  {
    SendHeader(sock, dev);
    SendLines(sock, dev.pdu, dev.lines);
    sock.SendInt(|dev.counters|);
    SendCounters(sock, dev.counters);
    FourParts(old(sock.bytes), HeaderBytes(dev), Flatten(LinesBytes(dev.pdu, dev.lines)),
      IntBytes(|dev.counters|), Flatten(CountersBytes(dev.counters)));
  }

  method SendDevices(sock: Socket, devices: seq<DeviceInfo>)
    modifies sock
    ensures sock.bytes == old(sock.bytes) + Flatten(DevicesBytes(devices))
  {
    ghost var before, parts := sock.bytes, DevicesBytes(devices);
    var i := 0;
    while i < |devices|
      invariant 0 <= i <= |devices|
      invariant sock.bytes == before + Flatten(parts[..i])
    {
      ghost var now, block := sock.bytes, DeviceBytes(devices[i]);
      SendDevice(sock, devices[i]);
      SentBlock(before, parts, i, now, block);
      i := i + 1;
    }
    assert parts[..|devices|] == parts;
  }

  method CmdStatus(sock: Socket, devices: seq<DeviceInfo>)
    modifies sock
    ensures sock.bytes == old(sock.bytes) + StatusBytes(devices)
  {
    sock.SendInt(|devices|);
    SendDevices(sock, devices);
    TwoParts(old(sock.bytes), IntBytes(|devices|), Flatten(DevicesBytes(devices)));
  }

  lemma TwoParts(o: Bytes, a: Bytes, b: Bytes)
    ensures o + a + b == o + (a + b) && a + b + o == a + (b + o)
  {
  }

  // ---- show ----

  method ReadLine(client: Socket, is_pdu: bool) returns (shown: Option<ShownLine>)
    modifies client
    ensures Reads(LineFrom(old(client.bytes), is_pdu), shown, client.bytes)
  {
    var lin_number :- client.ReceiveInt();
    var lin_name :- client.ReceiveText();
    var lin_voltage :- client.Receive(4);
    var lin_desc :- client.ReceiveText();
    var computer := None;
    if is_pdu {
      var comp_name :- client.ReceiveText();
      computer := Some(comp_name);
    }
    shown := Some(ShownLine(lin_number, lin_name, lin_voltage, lin_desc, computer));
  }

  lemma ListStep<T>(read: Bytes -> Taken<T>, b: Bytes, n: int, m: int, x: T, left: Bytes)
    requires n == m + 1 > 0 && read(b) == Taken(x, left)
    ensures ListFrom(read, b, n) == Behind([x], ListFrom(read, left, m))
  {
  }

  /** One item more is read. */
  lemma ListTurn<T>(read: Bytes -> Taken<T>, front: seq<T>, b: Bytes, n: int, x: T, left: Bytes, m: int)
    requires n == m + 1 > 0 && read(b) == Taken(x, left)
    ensures Behind(front, ListFrom(read, b, n)) == Behind(front + [x], ListFrom(read, left, m))
  {
    var t := ListFrom(read, left, m);
    if t.Taken? {
      assert front + ([x] + t.value) == front + [x] + t.value;
    }
  }

  lemma BehindNone<T>(t: Taken<seq<T>>)
    ensures Behind([], t) == t
  {
    if t.Taken? {
      assert [] + t.value == t.value;
    }
  }

  lemma BehindEnd<T>(front: seq<T>, b: Bytes)
    ensures Behind(front, Taken([], b)) == Taken(front, b)
  {
    assert front + [] == front;
  }

  method ReadLines(client: Socket, is_pdu: bool, dev_lines: int) returns (shown: Option<seq<ShownLine>>)
    modifies client
    ensures Reads(ListFrom(LineReader(is_pdu), old(client.bytes), dev_lines), shown, client.bytes)
  {
    ghost var read := LineReader(is_pdu);
    ghost var all := ListFrom(read, client.bytes, dev_lines);
    var lines := [];
    var left := dev_lines;
    BehindNone(all);
    while left > 0
      invariant all == Behind(lines, ListFrom(read, client.bytes, left))
    {
      ghost var before, turns := client.bytes, left;
      var line :- ReadLine(client, is_pdu);
      left := left - 1;
      ListTurn(read, lines, before, turns, line, client.bytes, left);
      lines := lines + [line];
    }
    BehindEnd(lines, client.bytes);
    shown := Some(lines);
  }

  method ReadInts(client: Socket, count: int) returns (r: Option<seq<int>>)
    modifies client
    ensures Reads(ListFrom(TakeInt, old(client.bytes), count), r, client.bytes)
  {
    ghost var all := ListFrom(TakeInt, client.bytes, count);
    var ints := [];
    var left := count;
    BehindNone(all);
    while left > 0
      invariant all == Behind(ints, ListFrom(TakeInt, client.bytes, left))
    {
      ghost var before, turns := client.bytes, left;
      var x :- client.ReceiveInt();
      left := left - 1;
      ListTurn(TakeInt, ints, before, turns, x, client.bytes, left);
      ints := ints + [x];
    }
    BehindEnd(ints, client.bytes);
    r := Some(ints);
  }

  method ReadCounter(client: Socket) returns (counter: Option<CounterInfo>)
    modifies client
    ensures Reads(CounterFrom(old(client.bytes)), counter, client.bytes)
  {
    var counter_id :- client.ReceiveInt();
    var counter_add :- client.ReceiveText();
    var counter_lines :- client.ReceiveInt();
    var counter_lines_array :- ReadInts(client, counter_lines);
    counter := Some(CounterInfo(counter_id, counter_add, counter_lines_array));
  }

  method ReadCounters(client: Socket, dev_counters: int) returns (r: Option<seq<CounterInfo>>)
    modifies client
    ensures Reads(ListFrom(CounterReader(), old(client.bytes), dev_counters), r, client.bytes)
  {
    ghost var read := CounterReader();
    ghost var all := ListFrom(read, client.bytes, dev_counters);
    var counters := [];
    var left := dev_counters;
    BehindNone(all);
    while left > 0
      invariant all == Behind(counters, ListFrom(read, client.bytes, left))
    {
      ghost var before, turns := client.bytes, left;
      var counter :- ReadCounter(client);
      left := left - 1;
      ListTurn(read, counters, before, turns, counter, client.bytes, left);
      counters := counters + [counter];
    }
    BehindEnd(counters, client.bytes);
    r := Some(counters);
  }

  method ReadHeader(client: Socket) returns (header: Option<Header>)
    modifies client
    ensures Reads(HeaderFrom(old(client.bytes)), header, client.bytes)
  {
    var dev_name :- client.ReceiveText();
    var dev_freq :- client.ReceiveInt();
    var dev_lines :- client.ReceiveInt();
    var devtype :- client.ReceiveInt();
    var is_pdu := devtype != 0;
    var computer := None;
    if !is_pdu {
      var comp_name :- client.ReceiveText();
      computer := Some(comp_name);
    }
    header := Some(Header(dev_name, dev_freq, dev_lines, is_pdu, computer));
  }

  method ReadDevice(client: Socket, counters: bool) returns (shown: Option<ShownDevice>)
    modifies client
    ensures Reads(DeviceFrom(old(client.bytes), counters), shown, client.bytes)
  {
    var h :- ReadHeader(client);
    var lines :- ReadLines(client, h.pdu, h.n_lines);
    var dev_counters :- client.ReceiveInt();
    var shownCounters := [];
    if dev_counters != 0 && counters {
      shownCounters :- ReadCounters(client, dev_counters);
    }
    shown := Some(ShownDevice(h.name, h.maxFrequency, h.n_lines, h.computer, lines, shownCounters));
  }

  method ReadDevices(client: Socket, n_dev: int, counters: bool) returns (shown: Option<seq<ShownDevice>>)
    modifies client
    ensures Reads(ListFrom(DeviceReader(counters), old(client.bytes), n_dev), shown, client.bytes)
  {
    ghost var read := DeviceReader(counters);
    ghost var all := ListFrom(read, client.bytes, n_dev);
    var devices := [];
    var left := n_dev;
    BehindNone(all);
    while left > 0
      invariant all == Behind(devices, ListFrom(read, client.bytes, left))
    {
      ghost var before, turns := client.bytes, left;
      var device :- ReadDevice(client, counters);
      left := left - 1;
      ListTurn(read, devices, before, turns, device, client.bytes, left);
      devices := devices + [device];
    }
    BehindEnd(devices, client.bytes);
    shown := Some(devices);
  }

  /** show, on any stream. */
  method Show(client: Socket, counters: bool) returns (shown: Option<seq<ShownDevice>>)
    modifies client
    ensures Reads(ShowFrom(old(client.bytes), counters), shown, client.bytes)
  {
    var n_dev :- client.ReceiveInt();
    shown := ReadDevices(client, n_dev, counters);
  }

  // ---- reading what was sent ----

  lemma IntTaken(v: int, rest: Bytes)
    requires IsInt32(v)
    ensures TakeInt(IntBytes(v) + rest) == Taken(v, rest)
  {
    var b := IntBytes(v) + rest;
    IntRoundTrip(v);
    assert b[..4] == IntBytes(v) && b[4..] == rest;
  }

  lemma ExactTaken(raw: Bytes, rest: Bytes)
    ensures TakeExact(raw + rest, |raw|) == Taken(raw, rest) == TakeUpTo(raw + rest, |raw|)
  {
    var b := raw + rest;
    assert b[..|raw|] == raw && b[|raw|..] == rest;
  }

  lemma TextTaken(t: Bytes, rest: Bytes)
    requires TextOk(t)
    ensures TakeText(TextBytes(t) + rest) == Taken(t, rest)
  {
    assert TextBytes(t) + rest == IntBytes(|t|) + (t + rest);
    IntTaken(|t|, t + rest);
    ExactTaken(t, rest);
  }

  lemma FiveParts(a: Bytes, b: Bytes, c: Bytes, d: Bytes, e: Bytes, o: Bytes)
    ensures a + b + c + d + e + o == a + (b + (c + (d + (e + o))))
  {
  }

  lemma LineTaken(pdu: bool, l: LineInfo, rest: Bytes)
    requires LineOk(l)
    ensures LineFrom(LineBytes(pdu, l) + rest, pdu) == Taken(LineShown(pdu, l), rest)
  {
    var last := if pdu then TextBytes(l.computer) else [];
    var r4 := last + rest;
    var r3 := TextBytes(l.description) + r4;
    var r2 := l.voltage + r3;
    var r1 := TextBytes(l.name) + r2;
    FiveParts(IntBytes(l.id), TextBytes(l.name), l.voltage, TextBytes(l.description), last, rest);
    LineParts(pdu, IntBytes(l.id) + r1, l, r1, r2, r3, r4, rest);
  }

  lemma LineParts(pdu: bool, b: Bytes, l: LineInfo, r1: Bytes, r2: Bytes, r3: Bytes, r4: Bytes, rest: Bytes)
    requires LineOk(l) && b == IntBytes(l.id) + r1 && r1 == TextBytes(l.name) + r2 && r2 == l.voltage + r3
    requires r3 == TextBytes(l.description) + r4 && r4 == (if pdu then TextBytes(l.computer) else []) + rest
    ensures LineFrom(b, pdu) == Taken(LineShown(pdu, l), rest)
  {
    assert TakeInt(b) == Taken(l.id, r1) by { IntTaken(l.id, r1); }
    assert TakeText(r1) == Taken(l.name, r2) by { TextTaken(l.name, r2); }
    assert TakeExact(r2, 4) == Taken(l.voltage, r3) by { ExactTaken(l.voltage, r3); }
    assert TakeText(r3) == Taken(l.description, r4) by { TextTaken(l.description, r4); }
    if pdu {
      assert TakeText(r4) == Taken(l.computer, rest) by { TextTaken(l.computer, rest); }
    } else {
      assert r4 == rest;
    }
  }

  /** The rest of a list: its first block, then the others. */
  lemma FrontBlock(parts: seq<Bytes>, rest: Bytes)
    requires parts != []
    ensures Flatten(parts) + rest == parts[0] + (Flatten(parts[1..]) + rest)
  {
    FlattenFront(parts);
  }

  /** Blocks that read back one by one read back as a list. */
  lemma {:induction false} ListTaken<T>(read: Bytes -> Taken<T>, parts: seq<Bytes>, xs: seq<T>, n: nat, rest: Bytes)
    requires n == |parts| == |xs|
    requires forall i, after :: 0 <= i < n ==> read(parts[i] + after) == Taken(xs[i], after)
    ensures ListFrom(read, Flatten(parts) + rest, n) == Taken(xs, rest)
    decreases n
  {
    if n > 0 {
      var left, m := Flatten(parts[1..]) + rest, n - 1;
      FrontBlock(parts, rest);
      forall i, after | 0 <= i < m ensures read(parts[1..][i] + after) == Taken(xs[1..][i], after) {
        assert read(parts[i + 1] + after) == Taken(xs[i + 1], after);
      }
      ListTaken(read, parts[1..], xs[1..], m, rest);
      ListStep(read, parts[0] + left, n, m, xs[0], left);
      assert xs == [xs[0]] + xs[1..];
    }
  }

  lemma LinesTaken(pdu: bool, ls: seq<LineInfo>, rest: Bytes)
    requires forall i :: 0 <= i < |ls| ==> LineOk(ls[i])
    ensures ListFrom(LineReader(pdu), Flatten(LinesBytes(pdu, ls)) + rest, |ls|) == Taken(LinesShown(pdu, ls), rest)
  {
    var read, parts, xs := LineReader(pdu), LinesBytes(pdu, ls), LinesShown(pdu, ls);
    forall i, after | 0 <= i < |ls| ensures read(parts[i] + after) == Taken(xs[i], after) {
      LineTaken(pdu, ls[i], after);
    }
    ListTaken(read, parts, xs, |ls|, rest);
  }

  lemma IntsTaken(v: seq<int>, rest: Bytes)
    requires forall i :: 0 <= i < |v| ==> IsInt32(v[i])
    ensures ListFrom(TakeInt, Flatten(Ints(v)) + rest, |v|) == Taken(v, rest)
  {
    forall i, after | 0 <= i < |v| ensures TakeInt(Ints(v)[i] + after) == Taken(v[i], after) {
      IntTaken(v[i], after);
    }
    ListTaken(TakeInt, Ints(v), v, |v|, rest);
  }

  lemma CounterTaken(c: CounterInfo, rest: Bytes)
    requires CounterOk(c)
    ensures CounterFrom(CounterBytes(c) + rest) == Taken(c, rest)
  {
    var r3 := Flatten(Ints(c.lines)) + rest;
    var r2 := IntBytes(|c.lines|) + r3;
    var r1 := TextBytes(c.ip) + r2;
    assert CounterBytes(c) + rest == IntBytes(c.id) + r1;
    IntTaken(c.id, r1);
    TextTaken(c.ip, r2);
    IntTaken(|c.lines|, r3);
    IntsTaken(c.lines, rest);
  }

  lemma CountersTaken(cs: seq<CounterInfo>, rest: Bytes)
    requires forall i :: 0 <= i < |cs| ==> CounterOk(cs[i])
    ensures ListFrom(CounterReader(), Flatten(CountersBytes(cs)) + rest, |cs|) == Taken(cs, rest)
  {
    var read, parts := CounterReader(), CountersBytes(cs);
    forall i, after | 0 <= i < |cs| ensures read(parts[i] + after) == Taken(cs[i], after) {
      CounterTaken(cs[i], after);
    }
    ListTaken(read, parts, cs, |cs|, rest);
  }

  lemma HeaderTaken(d: DeviceInfo, rest: Bytes)
    requires DeviceOk(d)
    ensures HeaderFrom(HeaderBytes(d) + rest) ==
            Taken(Header(d.name, d.maxFrequency, d.n_lines, d.pdu, if d.pdu then None else Some(d.computer)), rest)
  {
    var kind := if d.pdu then 1 else 0;
    var last := if d.pdu then [] else TextBytes(d.computer);
    var r4 := last + rest;
    var r3 := IntBytes(kind) + r4;
    var r2 := IntBytes(d.n_lines) + r3;
    var r1 := IntBytes(d.maxFrequency) + r2;
    FiveParts(TextBytes(d.name), IntBytes(d.maxFrequency), IntBytes(d.n_lines), IntBytes(kind), last, rest);
    HeaderParts(d, TextBytes(d.name) + r1, kind, r1, r2, r3, r4, rest);
  }

  lemma HeaderParts(d: DeviceInfo, b: Bytes, kind: int, r1: Bytes, r2: Bytes, r3: Bytes, r4: Bytes, rest: Bytes)
    requires DeviceOk(d) && kind == (if d.pdu then 1 else 0)
    requires b == TextBytes(d.name) + r1 && r1 == IntBytes(d.maxFrequency) + r2 && r2 == IntBytes(d.n_lines) + r3
    requires r3 == IntBytes(kind) + r4 && r4 == (if d.pdu then [] else TextBytes(d.computer)) + rest
    ensures HeaderFrom(b) == Taken(Header(d.name, d.maxFrequency, d.n_lines, d.pdu, if d.pdu then None else Some(d.computer)), rest)
  {
    assert TakeText(b) == Taken(d.name, r1) by { TextTaken(d.name, r1); }
    assert TakeInt(r1) == Taken(d.maxFrequency, r2) by { IntTaken(d.maxFrequency, r2); }
    assert TakeInt(r2) == Taken(d.n_lines, r3) by { IntTaken(d.n_lines, r3); }
    assert TakeInt(r3) == Taken(kind, r4) by { IntTaken(kind, r4); }
    if d.pdu {
      assert r4 == rest;
    } else {
      assert TakeText(r4) == Taken(d.computer, rest) by { TextTaken(d.computer, rest); }
    }
  }

  /** What is left of a device's own bytes when it was read. */
  function Unread(d: DeviceInfo, counters: bool): Bytes {
    if counters then [] else Flatten(CountersBytes(d.counters))
  }

  /** A device is shown as it was sent, but with the counters option off the entries of its
      counters stay in the stream. */
  lemma DeviceTaken(d: DeviceInfo, counters: bool, rest: Bytes)
    requires DeviceOk(d)
    ensures DeviceFrom(DeviceBytes(d) + rest, counters) == Taken(DeviceShown(d, counters), Unread(d, counters) + rest)
  {
    var entries := Flatten(CountersBytes(d.counters));
    var r3 := entries + rest;
    var r2 := IntBytes(|d.counters|) + r3;
    var r1 := Flatten(LinesBytes(d.pdu, d.lines)) + r2;
    FourParts(rest, HeaderBytes(d), Flatten(LinesBytes(d.pdu, d.lines)), IntBytes(|d.counters|), entries);
    HeaderTaken(d, r1);
    LinesTaken(d.pdu, d.lines, r2);
    IntTaken(|d.counters|, r3);
    if counters {
      CountersTaken(d.counters, rest);
      assert d.counters == [] ==> entries == [];
      assert [] + rest == rest;
    }
  }

  /** Each counter entry has at least its three lengths. */
  lemma {:induction false} EntriesLong(cs: seq<CounterInfo>)
    ensures |Flatten(CountersBytes(cs))| >= 12 * |cs|
  {
    if cs != [] {
      var front := cs[..|cs| - 1];
      EntriesLong(front);
      assert CountersBytes(cs)[..|cs| - 1] == CountersBytes(front);
    }
  }

  /** The stream is left right behind a device exactly when its counters are read or it
      has none. */
  lemma ConsumedExactly(d: DeviceInfo, counters: bool, rest: Bytes)
    requires DeviceOk(d)
    ensures DeviceFrom(DeviceBytes(d) + rest, counters) == Taken(DeviceShown(d, counters), rest) <==>
            counters || d.counters == []
  {
    DeviceTaken(d, counters, rest);
    EntriesLong(d.counters);
    assert |Unread(d, counters) + rest| == |Unread(d, counters)| + |rest|;
    if counters || d.counters == [] {
      assert Unread(d, counters) + rest == rest;
    }
  }

  // ---- whole dumps ----

  predicate NoCounters(ds: seq<DeviceInfo>) {
    forall i :: 0 <= i < |ds| ==> ds[i].counters == []
  }

  lemma DevicesTaken(ds: seq<DeviceInfo>, counters: bool, rest: Bytes)
    requires forall i :: 0 <= i < |ds| ==> DeviceOk(ds[i])
    requires counters || NoCounters(ds)
    ensures ListFrom(DeviceReader(counters), Flatten(DevicesBytes(ds)) + rest, |ds|) == Taken(DevicesShown(ds, counters), rest)
  {
    var read, parts, xs := DeviceReader(counters), DevicesBytes(ds), DevicesShown(ds, counters);
    forall i, after | 0 <= i < |ds| ensures read(parts[i] + after) == Taken(xs[i], after) {
      ConsumedExactly(ds[i], counters, after);
    }
    ListTaken(read, parts, xs, |ds|, rest);
  }

  // ---- how much of the stream is consumed ----

  function TextSize(t: Bytes): nat {
    4 + |t|
  }

  function ComputerSize(c: Option<Bytes>): nat {
    match c
    case None => 0
    case Some(name) => TextSize(name)
  }

  function LineSize(l: ShownLine): nat {
    4 + TextSize(l.name) + 4 + TextSize(l.description) + ComputerSize(l.computer)
  }

  function TotalSize<T>(size: T -> nat, xs: seq<T>): nat {
    if xs == [] then 0 else size(xs[0]) + TotalSize(size, xs[1..])
  }

  /** Without its counters. */
  function DeviceSize(d: ShownDevice): nat {
    TextSize(d.name) + 12 + ComputerSize(d.computer) + TotalSize(LineSize, d.lines) + 4
  }

  /** Reading consumes as many bytes as the value shows. */
  ghost predicate Consumes<T>(t: Taken<T>, b: Bytes, size: T -> nat) {
    t.Taken? ==> |b| == size(t.value) + |t.left|
  }

  lemma {:induction false} ListConsumes<T>(read: Bytes -> Taken<T>, size: T -> nat, b: Bytes, n: int)
    requires forall c :: Consumes(read(c), c, size)
    ensures var t := ListFrom(read, b, n); t.Taken? ==> |b| == TotalSize(size, t.value) + |t.left|
    decreases n
  {
    if n > 0 && read(b).Taken? {
      var x, left, m := read(b).value, read(b).left, n - 1;
      assert Consumes(read(b), b, size);
      ListConsumes(read, size, left, m);
      ListStep(read, b, n, m, x, left);
      var t := ListFrom(read, left, m);
      if t.Taken? {
        assert ([x] + t.value)[1..] == t.value;
      }
    }
  }

  lemma TextConsumes(b: Bytes)
    ensures var t := TakeText(b); t.Taken? ==> |b| == TextSize(t.value) + |t.left|
  {
  }

  lemma LineConsumes(b: Bytes, pdu: bool)
    ensures Consumes(LineFrom(b, pdu), b, LineSize)
  {
    var id := TakeInt(b);
    if id.Taken? {
      var name := TakeText(id.left);
      TextConsumes(id.left);
      if name.Taken? {
        var voltage := TakeExact(name.left, 4);
        if voltage.Taken? {
          RestConsumes(voltage.left, pdu);
        }
      }
    }
  }

  lemma RestConsumes(b: Bytes, pdu: bool)
    ensures var d := TakeText(b);
            d.Taken? ==>
              && |b| == TextSize(d.value) + |d.left|
              && var c := TakeText(d.left); c.Taken? ==> |d.left| == TextSize(c.value) + |c.left|
  {
    var d := TakeText(b);
    TextConsumes(b);
    if d.Taken? {
      TextConsumes(d.left);
    }
  }

  lemma HeaderConsumes(b: Bytes)
    ensures var h := HeaderFrom(b); h.Taken? ==> |b| == TextSize(h.value.name) + 12 + ComputerSize(h.value.computer) + |h.left|
  {
  }

  lemma DeviceConsumes(b: Bytes)
    ensures Consumes(DeviceFrom(b, false), b, DeviceSize)
  {
    var h := HeaderFrom(b);
    HeaderConsumes(b);
    if h.Taken? {
      var read := LineReader(h.value.pdu);
      forall c ensures Consumes(read(c), c, LineSize) {
        LineConsumes(c, h.value.pdu);
      }
      ListConsumes(read, LineSize, h.left, h.value.n_lines);
    }
  }

  /** A device is sent in as many bytes as it shows, and those of its counters. */
  lemma DeviceLength(d: DeviceInfo)
    requires DeviceOk(d)
    ensures |DeviceBytes(d)| == DeviceSize(DeviceShown(d, false)) + |Flatten(CountersBytes(d.counters))|
  {
    DeviceTaken(d, false, []);
    DeviceConsumes(DeviceBytes(d) + []);
  }

  lemma {:induction false} DevicesLength(ds: seq<DeviceInfo>)
    requires forall i :: 0 <= i < |ds| ==> DeviceOk(ds[i])
    ensures |Flatten(DevicesBytes(ds))| >= TotalSize(DeviceSize, DevicesShown(ds, false)) + 12 * CounterCount(ds)
    decreases |ds|
  {
    if ds != [] {
      DeviceLength(ds[0]);
      EntriesLong(ds[0].counters);
      DevicesLength(ds[1..]);
      FrontLength(ds, ds[1..]);
      FrontSize(ds, ds[1..]);
    }
  }

  lemma FrontLength(ds: seq<DeviceInfo>, tail: seq<DeviceInfo>)
    requires ds != [] && tail == ds[1..]
    ensures |Flatten(DevicesBytes(ds))| == |DeviceBytes(ds[0])| + |Flatten(DevicesBytes(tail))|
  {
    assert DevicesBytes(ds)[1..] == DevicesBytes(tail);
    FlattenFront(DevicesBytes(ds));
  }

  lemma FrontSize(ds: seq<DeviceInfo>, tail: seq<DeviceInfo>)
    requires ds != [] && tail == ds[1..]
    ensures TotalSize(DeviceSize, DevicesShown(ds, false)) ==
            DeviceSize(DeviceShown(ds[0], false)) + TotalSize(DeviceSize, DevicesShown(tail, false))
  {
    assert DevicesShown(ds, false)[1..] == DevicesShown(tail, false);
  }

  function CounterCount(ds: seq<DeviceInfo>): nat {
    if ds == [] then 0 else |ds[0].counters| + CounterCount(ds[1..])
  }

  lemma {:induction false} SomeCounter(ds: seq<DeviceInfo>)
    ensures CounterCount(ds) == 0 <==> NoCounters(ds)
  {
    if ds != [] {
      SomeCounter(ds[1..]);
      assert NoCounters(ds) <==> ds[0].counters == [] && NoCounters(ds[1..]) by {
        assert forall i :: 0 < i < |ds| ==> ds[i] == ds[1..][i - 1];
      }
    }
  }

  /** show gives back exactly the inventory that was sent and consumes exactly the dump, if
      and only if the counters option is on or no device has counters. */
  lemma ShowExactly(ds: seq<DeviceInfo>, counters: bool, rest: Bytes)
    requires InventoryOk(ds)
    ensures ShowFrom(StatusBytes(ds) + rest, counters) == Taken(DevicesShown(ds, counters), rest) <==> counters || NoCounters(ds)
  {
    var all := Flatten(DevicesBytes(ds));
    TwoParts(rest, IntBytes(|ds|), all);
    IntTaken(|ds|, all + rest);
    if counters || NoCounters(ds) {
      DevicesTaken(ds, counters, rest);
    } else if ShowFrom(StatusBytes(ds) + rest, false) == Taken(DevicesShown(ds, false), rest) {
      var read := DeviceReader(false);
      forall c ensures Consumes(read(c), c, DeviceSize) {
        DeviceConsumes(c);
      }
      ListConsumes(read, DeviceSize, all + rest, |ds|);
      DevicesLength(ds);
      SomeCounter(ds);
    }
  }

  /** Where it goes wrong: behind a device with one counter that has no address and no
      lines, the next device is read from that counter's fields, and shows as one without
      a name, a frequency and lines. */
  lemma NextDeviceMisread(d: DeviceInfo, next: DeviceInfo, rest: Bytes)
    requires DeviceOk(d) && d.counters == [CounterInfo(0, [], [])] && DeviceOk(next) && next.name != []
    ensures var t := ShowFrom(StatusBytes([d, next]) + rest, false);
            t.Taken? && t.value == [DeviceShown(d, false), ShownDevice([], 0, 0, None, [], [])]
  {
    var after := DeviceBytes(next) + rest;
    var b, misread := DeviceBytes(d) + after, Unread(d, false) + after;
    var shown, read := DeviceShown(d, false), DeviceReader(false);
    TwoDevices(d, next, rest);
    IntTaken(2, b);
    DeviceTaken(d, false, after);
    CounterMisread(next, rest, misread);
    OneAfterAnother(read, b, misread, shown);
  }

  lemma TwoDevices(d: DeviceInfo, next: DeviceInfo, rest: Bytes)
    ensures StatusBytes([d, next]) + rest == IntBytes(2) + (DeviceBytes(d) + (DeviceBytes(next) + rest))
  {
    assert DevicesBytes([d, next]) == [DeviceBytes(d), DeviceBytes(next)];
    FlattenTwo(DeviceBytes(d), DeviceBytes(next));
    Reassociate(IntBytes(2), DeviceBytes(d), DeviceBytes(next), rest);
  }

  lemma FlattenTwo(a: Bytes, b: Bytes)
    ensures Flatten([a, b]) == a + b
  {
    assert [a, b] == [] + [a] + [b];
    FlattenSnoc([], a);
    FlattenSnoc([] + [a], b);
  }

  lemma Reassociate(n: Bytes, a: Bytes, b: Bytes, o: Bytes)
    ensures n + (a + b) + o == n + (a + (b + o))
  {
  }

  lemma OneAfterAnother<T>(read: Bytes -> Taken<T>, b: Bytes, left: Bytes, x: T)
    requires read(b) == Taken(x, left) && read(left).Taken?
    ensures var t := ListFrom(read, b, 2); t.Taken? && t.value == [x, read(left).value]
  {
    ListStep(read, b, 2, 1, x, left);
    ListStep(read, left, 1, 0, read(left).value, read(left).left);
  }

  /** The entry of that counter, and a device behind it, read as a device. */
  lemma CounterMisread(next: DeviceInfo, rest: Bytes, b: Bytes)
    requires DeviceOk(next) && next.name != []
    requires b == Flatten(CountersBytes([CounterInfo(0, [], [])])) + (DeviceBytes(next) + rest)
    ensures var t := DeviceFrom(b, false); t.Taken? && t.value == ShownDevice([], 0, 0, None, [], [])
  {
    var n, behind := |next.name|, DeviceBytes(next)[4..] + rest;
    EntryBytes();
    SentFront(next);
    EntryParts(IntBytes(0), IntBytes(n), DeviceBytes(next)[4..], rest);
    HeaderMisread(b, n, behind);
    DeviceLength(next);
  }

  lemma EntryBytes()
    ensures Flatten(CountersBytes([CounterInfo(0, [], [])])) == IntBytes(0) + IntBytes(0) + IntBytes(0)
    ensures TextBytes([]) == IntBytes(0)
  {
    var entry := CounterInfo(0, [], []);
    assert CountersBytes([entry]) == [CounterBytes(entry)] && Flatten([CounterBytes(entry)]) == CounterBytes(entry);
  }

  lemma SentFront(d: DeviceInfo)
    ensures |DeviceBytes(d)| >= 4 && DeviceBytes(d) == IntBytes(|d.name|) + DeviceBytes(d)[4..]
  {
    assert DeviceBytes(d)[..4] == IntBytes(|d.name|);
  }

  lemma EntryParts(z: Bytes, first: Bytes, later: Bytes, rest: Bytes)
    ensures z + z + z + (first + later + rest) == z + (z + (z + (first + (later + rest))))
  {
    assert first + later + rest == first + (later + rest);
  }

  lemma HeaderMisread(b: Bytes, n: int, behind: Bytes)
    requires IsInt32(n) && n != 0 && b == TextBytes([]) + (IntBytes(0) + (IntBytes(0) + (IntBytes(n) + behind)))
    ensures HeaderFrom(b) == Taken(Header([], 0, 0, true, None), behind)
  {
    var r3 := IntBytes(n) + behind;
    var r2 := IntBytes(0) + r3;
    var r1 := IntBytes(0) + r2;
    assert TakeText(b) == Taken([], r1) by { TextTaken([], r1); }
    assert TakeInt(r1) == Taken(0, r2) by { IntTaken(0, r2); }
    assert TakeInt(r2) == Taken(0, r3) by { IntTaken(0, r3); }
    assert TakeInt(r3) == Taken(n, behind) by { IntTaken(n, behind); }
  }
}
