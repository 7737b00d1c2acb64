/** The remote-port packet codec: big-endian packed structures, the writers that send a packet in
    pieces, and the reader that frames the byte stream again. */
module RemotePort {
  import opened Arithmetic
  import opened MachineTypes

  const HELLO: U32 := 1
  const READ: U32 := 3
  const WRITE: U32 := 4
  const INTERRUPT: U32 := 5
  const SYNC: U32 := 6

  const EXT_BASE: U64 := 4   // RP_BUS_ATTR_EXT_BASE

  // Sizes of the packed structures.
  const HDR_SIZE := 20
  const HELLO_SIZE := 32
  const BUS_SIZE := 58
  const EXT_SIZE := 80
  const INTERRUPT_SIZE := 41
  const SYNC_SIZE := 28

  // ----- big-endian fields

  function Bound(n: nat): (b: nat)
    ensures b > 0
  {
    if n == 0 then 1 else 256 * Bound(n - 1)
  }

  function Be(n: nat, v: nat): (bs: seq<Byte>)
    ensures |bs| == n
  {
    if n == 0 then [] else Be(n - 1, v / 256) + [v % 256]
  }

  function FromBe(bs: seq<Byte>): (v: nat)
    ensures v < Bound(|bs|)
  {
    if bs == [] then 0 else FromBe(bs[..|bs| - 1]) * 256 + bs[|bs| - 1]
  }

  lemma {:induction false} BeRoundTrip(n: nat, v: nat)
    requires v < Bound(n)
    ensures FromBe(Be(n, v)) == v
  {
    if n > 0 {
      BeRoundTrip(n - 1, v / 256);
      assert Be(n, v)[..n - 1] == Be(n - 1, v / 256);
    }
  }

  /** A field in front of the rest of a packet. */
  function Put(n: nat, v: nat, rest: seq<Byte>): seq<Byte> {
    Be(n, v) + rest
  }

  function Get(n: nat, bs: seq<Byte>): (v: nat)
    requires n <= |bs|
    ensures v < Bound(n)
  {
    FromBe(bs[..n])
  }

  lemma GetPut(n: nat, v: nat, rest: seq<Byte>)
    requires v < Bound(n)
    ensures var bs := Put(n, v, rest); |bs| == n + |rest| && Get(n, bs) == v && bs[n..] == rest
  {
    assert Put(n, v, rest)[..n] == Be(n, v);
    BeRoundTrip(n, v);
  }

  lemma Bounds()
    ensures Bound(1) == 0x100 && Bound(2) == 0x1_0000 && Bound(4) == 0x1_0000_0000
    ensures Bound(8) == 0x1_0000_0000_0000_0000
  {
    assert Bound(1) == 256;
    assert Bound(2) == 256 * Bound(1);
    assert Bound(3) == 256 * Bound(2);
    assert Bound(4) == 256 * Bound(3);
    assert Bound(5) == 256 * Bound(4);
    assert Bound(6) == 256 * Bound(5);
    assert Bound(7) == 256 * Bound(6);
    assert Bound(8) == 256 * Bound(7);
  }

  // ----- headers

  datatype Header = Header(cmd: U32, len: U32, id: U32, flags: U32, dev: U32)

  function PutHeader(h: Header, rest: seq<Byte>): seq<Byte> {
    Put(4, h.cmd, Put(4, h.len, Put(4, h.id, Put(4, h.flags, Put(4, h.dev, rest)))))
  }

  function GetHeader(bs: seq<Byte>): Header
    requires |bs| >= HDR_SIZE
  {
    Bounds();
    Header(Get(4, bs), Get(4, bs[4..]), Get(4, bs[8..]), Get(4, bs[12..]), Get(4, bs[16..]))
  }

  lemma HeaderRoundTrip(h: Header, rest: seq<Byte>)
    ensures var bs := PutHeader(h, rest);
            |bs| == HDR_SIZE + |rest| && GetHeader(bs) == h && bs[HDR_SIZE..] == rest
  {
    Bounds();
    var r4 := Put(4, h.dev, rest);
    var r3 := Put(4, h.flags, r4);
    var r2 := Put(4, h.id, r3);
    var r1 := Put(4, h.len, r2);
    var bs := Put(4, h.cmd, r1);
    GetPut(4, h.dev, rest);
    GetPut(4, h.flags, r4);
    GetPut(4, h.id, r3);
    GetPut(4, h.len, r2);
    GetPut(4, h.cmd, r1);
    hide Put, Get;
    assert bs[8..] == bs[4..][4..] && bs[12..] == bs[8..][4..] && bs[16..] == bs[12..][4..] &&
           bs[20..] == bs[16..][4..];
  }

  // ----- bus accesses

  /** The fields both layouts start with. */
  datatype Common = Common(
    timestamp: U64, attributes: U64, addr: U64, len: U32, width: U32, streamWidth: U32, masterId: U16)

  /** What the extended layout adds. */
  datatype Extension = Extension(
    masterId31: U16, masterId63: U32, dataOffset: U32, nextOffset: U32, enableOffset: U32, enableLen: U32)

  function PutCommon(c: Common, rest: seq<Byte>): seq<Byte> {
    Put(8, c.timestamp, Put(8, c.attributes, Put(8, c.addr, Put(4, c.len, Put(4, c.width,
      Put(4, c.streamWidth, Put(2, c.masterId, rest)))))))
  }

  function GetCommon(bs: seq<Byte>): Common
    requires |bs| >= BUS_SIZE - HDR_SIZE
  {
    Bounds();
    Common(Get(8, bs), Get(8, bs[8..]), Get(8, bs[16..]), Get(4, bs[24..]), Get(4, bs[28..]), Get(4, bs[32..]),
           Get(2, bs[36..]))
  }

  lemma CommonRoundTrip(c: Common, rest: seq<Byte>)
    ensures var bs := PutCommon(c, rest);
            |bs| == 38 + |rest| && GetCommon(bs) == c && bs[38..] == rest
  {
    Bounds();
    var r6 := Put(2, c.masterId, rest);
    var r5 := Put(4, c.streamWidth, r6);
    var r4 := Put(4, c.width, r5);
    var r3 := Put(4, c.len, r4);
    var r2 := Put(8, c.addr, r3);
    var r1 := Put(8, c.attributes, r2);
    var bs := Put(8, c.timestamp, r1);
    GetPut(2, c.masterId, rest);
    GetPut(4, c.streamWidth, r6);
    GetPut(4, c.width, r5);
    GetPut(4, c.len, r4);
    GetPut(8, c.addr, r3);
    GetPut(8, c.attributes, r2);
    GetPut(8, c.timestamp, r1);
    hide Put, Get;
    assert bs[16..] == bs[8..][8..] && bs[24..] == bs[16..][8..] && bs[28..] == bs[24..][4..];
    assert bs[32..] == bs[28..][4..] && bs[36..] == bs[32..][4..] && bs[38..] == bs[36..][2..];
  }

  function PutExtension(e: Extension, rest: seq<Byte>): seq<Byte> {
    Put(2, e.masterId31, Put(4, e.masterId63, Put(4, e.dataOffset, Put(4, e.nextOffset, Put(4, e.enableOffset,
      Put(4, e.enableLen, rest))))))
  }

  function GetExtension(bs: seq<Byte>): Extension
    requires |bs| >= EXT_SIZE - BUS_SIZE
  {
    Bounds();
    Extension(Get(2, bs), Get(4, bs[2..]), Get(4, bs[6..]), Get(4, bs[10..]), Get(4, bs[14..]), Get(4, bs[18..]))
  }

  lemma ExtensionRoundTrip(e: Extension, rest: seq<Byte>)
    ensures var bs := PutExtension(e, rest);
            |bs| == 22 + |rest| && GetExtension(bs) == e && bs[22..] == rest
  {
    Bounds();
    var r5 := Put(4, e.enableLen, rest);
    var r4 := Put(4, e.enableOffset, r5);
    var r3 := Put(4, e.nextOffset, r4);
    var r2 := Put(4, e.dataOffset, r3);
    var r1 := Put(4, e.masterId63, r2);
    var bs := Put(2, e.masterId31, r1);
    GetPut(4, e.enableLen, rest);
    GetPut(4, e.enableOffset, r5);
    GetPut(4, e.nextOffset, r4);
    GetPut(4, e.dataOffset, r3);
    GetPut(4, e.masterId63, r2);
    GetPut(2, e.masterId31, r1);
    hide Put, Get;
    assert bs[6..] == bs[2..][4..] && bs[10..] == bs[6..][4..] && bs[14..] == bs[10..][4..];
    assert bs[18..] == bs[14..][4..] && bs[22..] == bs[18..][4..];
  }

  // ----- messages

  /** The arguments of rp_encode_busaccess, with the data and byte enables its caller writes after it. */
  datatype Access = Access(
    write: bool, id: U32, flags: U32, dev: U32, clk: U64, masterId: U64, addr: U64, attr: U64,
    width: U32, streamWidth: U32, data: seq<Byte>, size: U32, enables: seq<Byte>)

  /** RP_PKT_FLAGS_response, bit 1. */
  predicate IsResponse(flags: U32) {
    (flags / 2) % 2 == 1
  }

  /** RP_BUS_ATTR_EXT_BASE, bit 2. */
  predicate HasExtBit(attr: U64) {
    (attr / 4) % 2 == 1
  }

  function WithExtBit(attr: U64): U64 {
    if HasExtBit(attr) then attr else attr + EXT_BASE
  }

  /** Requests carry the data of writes, responses that of reads. */
  predicate CarriesData(a: Access) {
    a.write != IsResponse(a.flags)
  }

  predicate Extended(peerExt: bool, a: Access) {
    peerExt || HasExtBit(a.attr)
  }

  function HeaderOf(a: Access, len: U32): Header {
    Header(if a.write then WRITE else READ, len, a.id, a.flags, a.dev)
  }

  /** The header length counts data and byte enables, the latter only in the extended layout. */
  function HeaderLen(peerExt: bool, a: Access): nat {
    if Extended(peerExt, a) then EXT_SIZE - HDR_SIZE + |Carried(a)| + |a.enables|
    else BUS_SIZE - HDR_SIZE + |Carried(a)|
  }

  function Carried(a: Access): seq<Byte> {
    if CarriesData(a) then a.data else []
  }

  /** Data of the announced size, an old-layout master ID in 16 bits, and lengths that fit their fields. */
  predicate Sendable(peerExt: bool, a: Access) {
    && |a.data| == a.size
    && (!Extended(peerExt, a) ==> a.masterId < 0xFFFF)
    && EXT_SIZE + |a.data| + |a.enables| < 0x1_0000_0000
  }

  function CommonOf(a: Access, attr: U64): Common {
    Common(a.clk, attr, a.addr, a.size, a.width, a.streamWidth, a.masterId % 0x1_0000)
  }

  function ExtensionOf(a: Access): Extension
    requires EXT_SIZE + |a.data| + |a.enables| < 0x1_0000_0000
  {
    Extension((a.masterId / 0x1_0000) % 0x1_0000, a.masterId / 0x1_0000_0000, EXT_SIZE, 0, EXT_SIZE + |Carried(a)|,
              |a.enables|)
  }

  datatype Message =
    | Bus(peerExt: bool, access: Access)
    | Hello(id: U32, dev: U32, major: U16, minor: U16, caps: seq<U32>)
    | Interrupt(id: U32, dev: U32, flags: U32, clk: U64, vector: U64, line: U32, val: Byte)
    | Sync(id: U32, dev: U32, flags: U32, clk: U64)

  function PutCaps(caps: seq<U32>): (bs: seq<Byte>)
    ensures |bs| == 4 * |caps|
  {
    if caps == [] then [] else Put(4, caps[0], PutCaps(caps[1..]))
  }

  predicate Sound(m: Message) {
    match m
    case Bus(ext, a) => Sendable(ext, a)
    case Hello(_, _, _, _, caps) => |caps| < 0x1_0000
    case Interrupt(_, _, _, _, _, _, _) => true
    case Sync(_, _, _, _) => true
  }

  /** What rp_encode_busaccess puts behind the header, followed by what its callers write. */
  function BusBody(peerExt: bool, a: Access): seq<Byte>
    requires Sendable(peerExt, a)
  {
    var tail := Carried(a) + a.enables;
    if Extended(peerExt, a) then PutCommon(CommonOf(a, WithExtBit(a.attr)), PutExtension(ExtensionOf(a), tail))
    else PutCommon(CommonOf(a, a.attr), tail)
  }

  function HelloBody(major: U16, minor: U16, caps: seq<U32>): seq<Byte>
    requires |caps| < 0x1_0000
  {
    Put(2, major, Put(2, minor, Put(4, HELLO_SIZE, Put(2, |caps|, Put(2, 0, PutCaps(caps))))))
  }

  function HeaderFor(m: Message): Header
    requires Sound(m)
  {
    match m
    case Bus(ext, a) => HeaderOf(a, HeaderLen(ext, a))
    case Hello(id, dev, major, minor, caps) => Header(HELLO, HELLO_SIZE - HDR_SIZE + 4 * |caps|, id, 0, dev)
    case Interrupt(id, dev, flags, clk, vector, line, val) => Header(INTERRUPT, INTERRUPT_SIZE - HDR_SIZE, id,
                                                                     flags, dev)
    case Sync(id, dev, flags, clk) => Header(SYNC, SYNC_SIZE - HDR_SIZE, id, flags, dev)
  }

  function Body(m: Message): seq<Byte>
    requires Sound(m)
  {
    match m
    case Bus(ext, a) => BusBody(ext, a)
    case Hello(id, dev, major, minor, caps) => HelloBody(major, minor, caps)
    case Interrupt(id, dev, flags, clk, vector, line, val) => Put(8, clk, Put(8, vector, Put(4, line, Put(1, val, []))))
    case Sync(id, dev, flags, clk) => Put(8, clk, [])
  }

  /** The bytes on the socket. */
  function Packet(m: Message): seq<Byte>
    requires Sound(m)
  {
    PutHeader(HeaderFor(m), Body(m))
  }

  // ----- the reader

  /** A received packet: `payload` is what the command handlers get, `dataAt` what the data offset
      points to, `enables` what the byte enable offset points to. */
  datatype Received =
    | BusRx(h: Header, timestamp: U64, attributes: U64, addr: U64, len: U32, width: U32, streamWidth: U32,
            masterId: U16,
            payload: seq<Byte>, dataAt: seq<Byte>, enables: seq<Byte>)
    | HelloRx(h: Header, major: U16, minor: U16, caps: seq<U32>)
    | InterruptRx(h: Header, timestamp: U64, vector: U64, line: U32, val: Byte)
    | SyncRx(h: Header, timestamp: U64)
    | OtherRx(h: Header)

  function Swapped(v: U16): U16 {
    v % 256 * 256 + v / 256
  }

  /** The low half of the master ID is converted twice: on a little-endian host its bytes end up swapped. */
  function MasterId(littleEndian: bool, v: U16): U16 {
    if littleEndian then Swapped(v) else v
  }

  function DecodeBus(littleEndian: bool, pkt: seq<Byte>): Option<Received>
    requires |pkt| >= HDR_SIZE
  {
    var h, body := GetHeader(pkt), pkt[HDR_SIZE..];
    if |body| < BUS_SIZE - HDR_SIZE then None
    else
      var c, rest := GetCommon(body), body[38..];
      if HasExtBit(c.attributes) then
        if |rest| < EXT_SIZE - BUS_SIZE then None
        else
          var e := GetExtension(rest);
          if e.dataOffset > |pkt| || e.enableOffset + e.enableLen > |pkt| ||
              (e.enableLen > 0 && e.enableOffset < EXT_SIZE) then None
          else
            Some(BusRx(h, c.timestamp, c.attributes, c.addr, c.len, c.width, c.streamWidth,
                       MasterId(littleEndian, c.masterId),
              rest[22..], pkt[e.dataOffset..], pkt[e.enableOffset..][..e.enableLen]))
      else
        Some(BusRx(h, c.timestamp, c.attributes, c.addr, c.len, c.width, c.streamWidth,
                   MasterId(littleEndian, c.masterId),
          rest, pkt[BUS_SIZE..], []))
  }

  function GetCaps(bs: seq<Byte>, n: nat): seq<U32>
    requires |bs| >= 4 * n
  {
    Bounds();
    if n == 0 then [] else [Get(4, bs)] + GetCaps(bs[4..], n - 1)
  }

  function DecodeHello(pkt: seq<Byte>): Option<Received>
    requires |pkt| >= HDR_SIZE
  {
    Bounds();
    var h, body := GetHeader(pkt), pkt[HDR_SIZE..];
    if |body| < 4 then None
    else if |body| - 4 < 8 then Some(HelloRx(h, Get(2, body), Get(2, body[2..]), []))
    else
      var offset, n := Get(4, body[4..]), Get(2, body[8..]);
      if offset + 4 * n > |pkt| then None
      else Some(HelloRx(h, Get(2, body), Get(2, body[2..]), GetCaps(pkt[offset..], n)))
  }

  /** rp_decode_hdr and rp_decode_payload on one packet; None where an assertion fails or memory outside
      the packet would be read. */
  function Decode(littleEndian: bool, pkt: seq<Byte>): Option<Received>
    requires |pkt| >= HDR_SIZE
  {
    Bounds();
    var h, body := GetHeader(pkt), pkt[HDR_SIZE..];
    if h.cmd == READ || h.cmd == WRITE then DecodeBus(littleEndian, pkt)
    else if h.cmd == HELLO then DecodeHello(pkt)
    else if h.cmd == INTERRUPT then
      if |body| < 21 then None
      else Some(InterruptRx(h, Get(8, body), Get(8, body[8..]), Get(4, body[16..]), Get(1, body[20..])))
    else if h.cmd == SYNC then
      if |body| < 8 then None else Some(SyncRx(h, Get(8, body)))
    else Some(OtherRx(h))
  }

  /** The packets of a byte stream: a header, then as many bytes as it announces. */
  function ReadAll(littleEndian: bool, stream: seq<Byte>): Option<seq<Received>>
    decreases |stream|
  {
    if stream == [] then Some([])
    else if |stream| < HDR_SIZE then None
    else
      var n := HDR_SIZE + GetHeader(stream).len;
      if |stream| < n then None
      else
        var first, rest := Decode(littleEndian, stream[..n]), ReadAll(littleEndian, stream[n..]);
        if first.Some? && rest.Some? then Some([first.value] + rest.value) else None
  }

  // ----- what arrives

  /** Byte enables are announced only in the extended layout. */
  predicate Framed(m: Message) {
    m.Bus? ==> Extended(m.peerExt, m.access) || m.access.enables == []
  }

  /** The same command, fields, data and byte enables; only the master ID is special. */
  function Expected(littleEndian: bool, m: Message): Received
    requires Sound(m)
  {
    var h := HeaderFor(m);
    match m
    case Bus(ext, a) =>
      var tail := Carried(a) + a.enables;
      BusRx(h, a.clk, if Extended(ext, a) then WithExtBit(a.attr) else a.attr, a.addr, a.size, a.width, a.streamWidth,
        MasterId(littleEndian, a.masterId % 0x1_0000), tail, tail, a.enables)
    case Hello(id, dev, major, minor, caps) => HelloRx(h, major, minor, caps)
    case Interrupt(id, dev, flags, clk, vector, line, val) => InterruptRx(h, clk, vector, line, val)
    case Sync(id, dev, flags, clk) => SyncRx(h, clk)
  }

  /** Every packet starts with its header. */
  lemma PacketHeader(m: Message)
    requires Sound(m)
    ensures |Packet(m)| == HDR_SIZE + |Body(m)| && GetHeader(Packet(m)) == HeaderFor(m) &&
            Packet(m)[HDR_SIZE..] == Body(m)
  {
    HeaderRoundTrip(HeaderFor(m), Body(m));
  }

  lemma BusBodyLength(peerExt: bool, a: Access)
    requires Sendable(peerExt, a)
    ensures |BusBody(peerExt, a)| == HeaderLen(peerExt, a) + if Extended(peerExt, a) then 0 else |a.enables|
  {
    var tail := Carried(a) + a.enables;
    if Extended(peerExt, a) {
      ExtensionRoundTrip(ExtensionOf(a), tail);
      CommonRoundTrip(CommonOf(a, WithExtBit(a.attr)), PutExtension(ExtensionOf(a), tail));
    } else {
      CommonRoundTrip(CommonOf(a, a.attr), tail);
    }
    hide PutCommon, PutExtension;
  }

  lemma HelloBodyFields(major: U16, minor: U16, caps: seq<U32>)
    requires |caps| < 0x1_0000
    ensures var b := HelloBody(major, minor, caps);
            && |b| == 12 + 4 * |caps| && Get(2, b) == major && Get(2, b[2..]) == minor
            && Get(4, b[4..]) == HELLO_SIZE && Get(2, b[8..]) == |caps| && b[12..] == PutCaps(caps)
  {
    Bounds();
    var r4 := Put(2, 0, PutCaps(caps));
    var r3 := Put(2, |caps|, r4);
    var r2 := Put(4, HELLO_SIZE, r3);
    var r1 := Put(2, minor, r2);
    GetPut(2, 0, PutCaps(caps));
    GetPut(2, |caps|, r4);
    GetPut(4, HELLO_SIZE, r3);
    GetPut(2, minor, r2);
    GetPut(2, major, r1);
    hide Put, Get;
    var b := HelloBody(major, minor, caps);
    assert b == Put(2, major, r1);
    assert b[4..] == b[2..][2..] && b[8..] == b[4..][4..] && b[10..] == b[8..][2..] && b[12..] == b[10..][2..];
  }

  lemma {:induction false} CapsRoundTrip(caps: seq<U32>)
    ensures GetCaps(PutCaps(caps), |caps|) == caps
  {
    Bounds();
    if caps != [] {
      GetPut(4, caps[0], PutCaps(caps[1..]));
      CapsRoundTrip(caps[1..]);
    }
  }

  /** Header plus announced length is the length of the packet, unless byte enables are written behind
      the old layout, which does not announce them. */
  lemma FramedExactly(m: Message)
    requires Sound(m)
    ensures |Packet(m)| == HDR_SIZE + GetHeader(Packet(m)).len <==> Framed(m)
  {
    PacketHeader(m);
    Bounds();
    match m
    case Bus(ext, a) => BusBodyLength(ext, a);
    case Hello(id, dev, major, minor, caps) => HelloBodyFields(major, minor, caps);
    case Interrupt(id, dev, flags, clk, vector, line, val) =>
    case Sync(id, dev, flags, clk) =>
  }

  lemma ExtBitSet(attr: U64)
    ensures HasExtBit(WithExtBit(attr))
  {
  }

  lemma DecodeExtended(littleEndian: bool, pkt: seq<Byte>, c: Common, e: Extension, tail: seq<Byte>, k: nat)
    requires |pkt| >= HDR_SIZE && pkt[HDR_SIZE..] == PutCommon(c, PutExtension(e, tail)) && HasExtBit(c.attributes)
    requires e.dataOffset == EXT_SIZE && e.enableOffset == EXT_SIZE + k && k + e.enableLen == |tail|
    ensures DecodeBus(littleEndian, pkt) ==
            Some(BusRx(GetHeader(pkt), c.timestamp, c.attributes, c.addr, c.len, c.width, c.streamWidth,
              MasterId(littleEndian, c.masterId), tail, tail, tail[k..]))
  {
    ExtensionRoundTrip(e, tail);
    CommonRoundTrip(c, PutExtension(e, tail));
    hide GetHeader, GetCommon, GetExtension, PutCommon, PutExtension, HasExtBit, MasterId;
    assert pkt[EXT_SIZE..] == pkt[HDR_SIZE..][38..][22..] == tail;
    assert pkt[EXT_SIZE + k..] == tail[k..] == tail[k..][..e.enableLen];
  }

  lemma DecodeOld(littleEndian: bool, pkt: seq<Byte>, c: Common, tail: seq<Byte>)
    requires |pkt| >= HDR_SIZE && pkt[HDR_SIZE..] == PutCommon(c, tail) && !HasExtBit(c.attributes)
    ensures DecodeBus(littleEndian, pkt) ==
            Some(BusRx(GetHeader(pkt), c.timestamp, c.attributes, c.addr, c.len, c.width, c.streamWidth,
              MasterId(littleEndian, c.masterId), tail, tail, []))
  {
    CommonRoundTrip(c, tail);
    hide GetHeader, GetCommon, PutCommon, HasExtBit, MasterId;
    assert pkt[BUS_SIZE..] == pkt[HDR_SIZE..][38..] == tail;
  }

  lemma DecodeBusPacket(littleEndian: bool, m: Message)
    requires Sound(m) && Framed(m) && m.Bus?
    ensures DecodeBus(littleEndian, Packet(m)) == Some(Expected(littleEndian, m))
  {
    hide Packet, GetHeader, PutCommon, PutExtension, HasExtBit, WithExtBit, MasterId, DecodeBus, HeaderLen;
    var a, pkt := m.access, Packet(m);
    var tail := Carried(a) + a.enables;
    PacketHeader(m);
    ExtBitSet(a.attr);
    if Extended(m.peerExt, a) {
      DecodeExtended(littleEndian, pkt, CommonOf(a, WithExtBit(a.attr)), ExtensionOf(a), tail, |Carried(a)|);
      assert tail[|Carried(a)|..] == a.enables;
    } else {
      DecodeOld(littleEndian, pkt, CommonOf(a, a.attr), tail);
    }
  }

  function WithResponseFlag(flags: U32): (f: U32)
    ensures IsResponse(f) && (IsResponse(flags) ==> f == flags)
  {
    if IsResponse(flags) then flags else flags + 2
  }

  /** The answer to a received request: no attributes, no byte enables. */
  function ResponseTo(rx: Received, clk: U64, data: seq<Byte>): Access
    requires rx.BusRx?
  {
    Access(rx.h.cmd == WRITE, rx.h.id, WithResponseFlag(rx.h.flags), rx.h.dev, clk, rx.masterId, rx.addr, 0, rx.width,
           rx.streamWidth, data, rx.len, [])
  }

  /** The requester reads the answer to its own request, with the data of a read.  Its layout is decided by
      the capability of the peer alone: it is that of the request if and only if the two agree. */
  lemma ResponseReadBack(littleEndian: bool, rx: Received, peerExt: bool, clk: U64, data: seq<Byte>)
    requires rx.BusRx? && Sound(Bus(peerExt, ResponseTo(rx, clk, data)))
    ensures var rsp := DecodeBus(littleEndian, Packet(Bus(peerExt, ResponseTo(rx, clk, data))));
            && rsp.Some?
            && rsp.value.h.id == rx.h.id && rsp.value.h.dev == rx.h.dev && IsResponse(rsp.value.h.flags)
            && (rsp.value.h.cmd == WRITE <==> rx.h.cmd == WRITE)
            && rsp.value.addr == rx.addr && rsp.value.payload == (if rx.h.cmd == WRITE then [] else data)
            && (HasExtBit(rsp.value.attributes) <==> peerExt)
            && (HasExtBit(rsp.value.attributes) == HasExtBit(rx.attributes) <==> peerExt == HasExtBit(rx.attributes))
  {
    hide DecodeBus, Packet, IsResponse;
    DecodeBusPacket(littleEndian, Bus(peerExt, ResponseTo(rx, clk, data)));
  }

  lemma DecodeHelloPacket(m: Message)
    requires Sound(m) && m.Hello?
    ensures DecodeHello(Packet(m)) == Some(HelloRx(HeaderFor(m), m.major, m.minor, m.caps))
  {
    var pkt := Packet(m);
    PacketHeader(m);
    HelloBodyFields(m.major, m.minor, m.caps);
    CapsRoundTrip(m.caps);
    hide Packet, GetHeader, Get, PutCaps, GetCaps, HelloBody;
    assert pkt[HELLO_SIZE..] == pkt[HDR_SIZE..][12..];
  }

  lemma DecodeSync(littleEndian: bool, m: Message)
    requires Sound(m) && m.Sync?
    ensures Decode(littleEndian, Packet(m)) == Some(Expected(littleEndian, m))
  {
    Bounds();
    PacketHeader(m);
    GetPut(8, m.clk, []);
    hide Put, Get, GetHeader, PutHeader, Packet;
  }

  lemma InterruptFields(m: Message, b: seq<Byte>)
    requires m.Interrupt? && b == Put(8, m.clk, Put(8, m.vector, Put(4, m.line, Put(1, m.val, []))))
    ensures |b| == 21 && Get(8, b) == m.clk && Get(8, b[8..]) == m.vector && Get(4, b[16..]) == m.line &&
            Get(1, b[20..]) == m.val
  {
    Bounds();
    var r3 := Put(1, m.val, []);
    var r2 := Put(4, m.line, r3);
    var r1 := Put(8, m.vector, r2);
    GetPut(1, m.val, []);
    GetPut(4, m.line, r3);
    GetPut(8, m.vector, r2);
    GetPut(8, m.clk, r1);
    hide Put, Get;
    assert b[16..] == b[8..][8..] && b[20..] == b[16..][4..];
  }

  lemma DecodeInterrupt(littleEndian: bool, m: Message)
    requires Sound(m) && m.Interrupt?
    ensures Decode(littleEndian, Packet(m)) == Some(Expected(littleEndian, m))
  {
    PacketHeader(m);
    InterruptFields(m, Body(m));
    hide Put, Get, GetHeader, PutHeader, Packet;
  }

  /** A packet is decoded into what was sent. */
  lemma DecodePacket(littleEndian: bool, m: Message)
    requires Sound(m) && Framed(m)
    ensures |Packet(m)| >= HDR_SIZE && Decode(littleEndian, Packet(m)) == Some(Expected(littleEndian, m))
  {
    hide Packet, DecodeBus, DecodeHello, Expected, Sound, Framed;
    PacketHeader(m);
    if m.Bus? {
      DecodeBusPacket(littleEndian, m);
      DecodeByCommand(littleEndian, m);
    } else if m.Hello? {
      DecodeHelloPacket(m);
      DecodeByCommand(littleEndian, m);
      ExpectedHello(littleEndian, m);
    } else if m.Interrupt? {
      DecodeInterrupt(littleEndian, m);
    } else {
      DecodeSync(littleEndian, m);
    }
  }

  lemma DecodeByCommand(littleEndian: bool, m: Message)
    requires Sound(m) && |Packet(m)| >= HDR_SIZE && GetHeader(Packet(m)) == HeaderFor(m)
    ensures m.Bus? ==> Decode(littleEndian, Packet(m)) == DecodeBus(littleEndian, Packet(m))
    ensures m.Hello? ==> Decode(littleEndian, Packet(m)) == DecodeHello(Packet(m))
  {
    hide Packet, DecodeBus, DecodeHello, HeaderLen, GetHeader;
  }

  lemma ExpectedHello(littleEndian: bool, m: Message)
    requires Sound(m) && m.Hello?
    ensures Expected(littleEndian, m) == HelloRx(HeaderFor(m), m.major, m.minor, m.caps)
  {
  }

  function Stream(ms: seq<Message>): seq<Byte>
    requires forall m :: m in ms ==> Sound(m)
  {
    if ms == [] then [] else Packet(ms[0]) + Stream(ms[1..])
  }

  /** Any packets written one after the other are read back as those packets, in order. */
  lemma {:induction false} StreamRoundTrip(littleEndian: bool, ms: seq<Message>)
    requires forall m :: m in ms ==> Sound(m) && Framed(m)
    ensures var r := ReadAll(littleEndian, Stream(ms));
            && r.Some? && |r.value| == |ms|
            && forall i :: 0 <= i < |ms| ==> r.value[i] == Expected(littleEndian, ms[i])
    decreases |ms|
  {
    hide Packet, Expected, Sound, Framed, ReadAll;
    if ms == [] {
      ReadNothing(littleEndian);
    } else {
      StreamRoundTrip(littleEndian, ms[1..]);
      ReadFirst(littleEndian, ms[0], Stream(ms[1..]));
    }
  }

  lemma ReadNothing(littleEndian: bool)
    ensures ReadAll(littleEndian, []) == Some([])
  {
  }

  lemma ReadFirst(littleEndian: bool, m: Message, rest: seq<Byte>)
    requires Sound(m) && Framed(m) && ReadAll(littleEndian, rest).Some?
    ensures ReadAll(littleEndian, Packet(m) + rest) == Some([Expected(littleEndian, m)] + ReadAll(littleEndian,
        rest).value)
  {
    hide Body, HeaderFor, Decode, GetHeader, PutHeader, Expected, Sound, Framed;
    var pkt := Packet(m);
    DecodePacket(littleEndian, m);
    FramedExactly(m);
    PacketHeader(m);
    HeaderThen(HeaderFor(m), Body(m), rest);
    assert (pkt + rest)[..|pkt|] == pkt && (pkt + rest)[|pkt|..] == rest;
  }

  /** The header is read the same whatever follows the packet. */
  lemma HeaderThen(h: Header, body: seq<Byte>, rest: seq<Byte>)
    ensures GetHeader(PutHeader(h, body) + rest) == h && |PutHeader(h, body)| >= HDR_SIZE
  {
    HeaderRoundTrip(h, body);
    var bs := PutHeader(h, body);
    assert (bs + rest)[4..][..4] == bs[4..][..4] && (bs + rest)[8..][..4] == bs[8..][..4];
    assert (bs + rest)[12..][..4] == bs[12..][..4] && (bs + rest)[16..][..4] == bs[16..][..4];
    assert (bs + rest)[..4] == bs[..4];
    hide PutHeader;
  }

  /** The master ID survives a little-endian receiver exactly when its two low bytes are equal. */
  lemma MasterIdExactly(littleEndian: bool, v: U16)
    ensures MasterId(littleEndian, v) == v <==> !littleEndian || v % 256 == v / 256
  {
  }
}
