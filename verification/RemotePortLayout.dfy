/** The bytes of remote-port packets, place by place. */
module RemotePortLayout {
  import opened Arithmetic
  import opened MachineTypes
  import opened RemotePort

  function Power256(n: nat): (p: nat)
    ensures p > 0
  {
    if n == 0 then 1 else 256 * Power256(n - 1)
  }

  /** Byte i of v in n bytes, most significant byte first. */
  function ByteOf(n: nat, v: nat, i: nat): Byte
    requires i < n
  {
    v / Power256(n - 1 - i) % 256
  }

  /** v stands in the n bytes from `at` on. */
  ghost predicate FieldAt(bs: seq<Byte>, at: nat, n: nat, v: nat) {
    at + n <= |bs| && forall i :: 0 <= i < n ==> bs[at + i] == ByteOf(n, v, i)
  }

  lemma DivideTwice(v: nat, b: nat)
    requires b > 0
    ensures v / 256 / b == v / (256 * b)
  {
    var q, r := v / 256 / b, v / 256 % b;
    var x := b * q;
    assert v / 256 == x + r;
    Scaled(b, q, x);
    ModUnique(v, 256 * b, q, 256 * r + v % 256);
  }

  lemma Scaled(b: nat, q: nat, x: nat)
    requires x == b * q
    ensures 256 * b * q == 256 * x
  {
  }

  lemma {:induction false} BigEndian(n: nat, v: nat, i: nat)
    requires i < n
    ensures Be(n, v)[i] == ByteOf(n, v, i)
  {
    if i < n - 1 {
      BigEndian(n - 1, v / 256, i);
      DivideTwice(v, Power256(n - 2 - i));
    }
  }

  /** A field in front of the rest of a packet, seen from the start of the packet. */
  lemma FieldThen(bs: seq<Byte>, at: nat, n: nat, v: nat, rest: seq<Byte>)
    requires at <= |bs| && bs[at..] == Put(n, v, rest)
    ensures FieldAt(bs, at, n, v) && |bs| == at + n + |rest| && bs[at + n..] == rest
  {
    assert bs[at + n..] == bs[at..][n..];
    forall i | 0 <= i < n ensures bs[at + i] == ByteOf(n, v, i) {
      assert bs[at + i] == bs[at..][i] == Be(n, v)[i];
      BigEndian(n, v, i);
    }
  }

  // ----- the header

  /** The number of the command. */
  function Command(m: Message): nat {
    match m
    case Bus(_, a) => if a.write then 4 else 3
    case Hello(_, _, _, _, _) => 1
    case Interrupt(_, _, _, _, _, _, _) => 5
    case Sync(_, _, _, _) => 6
  }

  /** A response to a read and a request to write carry the data. */
  function Blob(a: Access): seq<Byte> {
    if a.write == (a.flags / 2 % 2 == 0) then a.data else []
  }

  /** The extended layout is used when the peer knows it or bit 2 of the attributes is set already. */
  predicate InExtendedLayout(peerExt: bool, a: Access) {
    peerExt || a.attr / 4 % 2 == 1
  }

  /** The length announced: what follows the 20 bytes of the header, without the byte enables in the old layout. */
  function Announced(m: Message): nat {
    match m
    case Bus(ext, a) => if InExtendedLayout(ext, a) then 60 + |Blob(a)| + |a.enables| else 38 + |Blob(a)|
    case Hello(_, _, _, _, caps) => 12 + 4 * |caps|
    case Interrupt(_, _, _, _, _, _, _) => 21
    case Sync(_, _, _, _) => 8
  }

  /** Command, length, ID, flags and device, in this order. */
  lemma HeaderLayout(m: Message)
    requires Sound(m)
    ensures var bs := Packet(m);
            && FieldAt(bs, 0, 4, Command(m)) && FieldAt(bs, 4, 4, Announced(m))
            && FieldAt(bs, 8, 4, match m case Bus(_, a) => a.id case _ => m.id)
            && FieldAt(bs, 12, 4, match m case Bus(_, a) => a.flags case Hello(_, _, _, _, _) => 0 case _ => m.flags)
            && FieldAt(bs, 16, 4, match m case Bus(_, a) => a.dev case _ => m.dev)
            && |bs| >= 20 && bs[20..] == Body(m)
  {
    hide FieldAt, Body, Put;
    HeaderFields(m);
    RawHeader(HeaderFor(m), Body(m));
  }

  lemma HeaderFields(m: Message)
    requires Sound(m)
    ensures var h := HeaderFor(m);
            && h.cmd == Command(m) && h.len == Announced(m)
            && h.id == (match m case Bus(_, a) => a.id case _ => m.id)
            && h.flags == (match m case Bus(_, a) => a.flags case Hello(_, _, _, _, _) => 0 case _ => m.flags)
            && h.dev == (match m case Bus(_, a) => a.dev case _ => m.dev)
  {
  }

  lemma RawHeader(h: Header, body: seq<Byte>)
    ensures var bs := PutHeader(h, body);
            && FieldAt(bs, 0, 4, h.cmd) && FieldAt(bs, 4, 4, h.len) && FieldAt(bs, 8, 4, h.id)
            && FieldAt(bs, 12, 4, h.flags) && FieldAt(bs, 16, 4, h.dev) && |bs| >= 20 && bs[20..] == body
  {
    hide Put, FieldAt;
    var bs := PutHeader(h, body);
    var r4 := Put(4, h.dev, body);
    var r3 := Put(4, h.flags, r4);
    var r2 := Put(4, h.id, r3);
    var r1 := Put(4, h.len, r2);
    assert bs[0..] == bs;
    FieldThen(bs, 0, 4, h.cmd, r1);
    FieldThen(bs, 4, 4, h.len, r2);
    FieldThen(bs, 8, 4, h.id, r3);
    FieldThen(bs, 12, 4, h.flags, r4);
    FieldThen(bs, 16, 4, h.dev, body);
  }

  // ----- the bodies

  /** Bus accesses: timestamp, attributes, address, length, widths and the low half of the master ID, in both
      layouts; then the rest of the master ID and the offsets in the extended one; then data and byte enables. */
  lemma BusLayout(ext: bool, a: Access)
    requires Sound(Bus(ext, a))
    ensures var bs := Packet(Bus(ext, a));
            && FieldAt(bs, 20, 8, a.clk)
            && FieldAt(bs, 28, 8, if InExtendedLayout(ext, a) && a.attr / 4 % 2 == 0 then a.attr + 4 else a.attr)
            && FieldAt(bs, 36, 8, a.addr) && FieldAt(bs, 44, 4, a.size) && FieldAt(bs, 48, 4, a.width)
            && FieldAt(bs, 52, 4, a.streamWidth) && FieldAt(bs, 56, 2, a.masterId % 0x1_0000)
    ensures var bs := Packet(Bus(ext, a));
            if InExtendedLayout(ext, a) then
              && FieldAt(bs, 58, 2, a.masterId / 0x1_0000 % 0x1_0000) && FieldAt(bs, 60, 4, a.masterId / 0x1_0000_0000)
              && FieldAt(bs, 64, 4, 80) && FieldAt(bs, 68, 4, 0)
              && FieldAt(bs, 72, 4, 80 + |Blob(a)|) && FieldAt(bs, 76, 4, |a.enables|)
              && bs[80..] == Blob(a) + a.enables
            else bs[58..] == Blob(a) + a.enables
  {
    hide Packet, FieldAt, PutCommon, PutExtension, HeaderFor;
    var bs, tail := Packet(Bus(ext, a)), Carried(a) + a.enables;
    HeaderLayout(Bus(ext, a));
    var c := CommonOf(a, if Extended(ext, a) then WithExtBit(a.attr) else a.attr);
    var rest := if Extended(ext, a) then PutExtension(ExtensionOf(a), tail) else tail;
    CommonLayout(bs, c, rest);
    if Extended(ext, a) {
      ExtensionLayout(bs, ExtensionOf(a), tail);
    }
  }

  lemma CommonLayout(bs: seq<Byte>, c: Common, rest: seq<Byte>)
    requires |bs| >= 20 && bs[20..] == PutCommon(c, rest)
    ensures FieldAt(bs, 20, 8, c.timestamp) && FieldAt(bs, 28, 8, c.attributes) && FieldAt(bs, 36, 8, c.addr)
    ensures FieldAt(bs, 44, 4, c.len) && FieldAt(bs, 48, 4, c.width) && FieldAt(bs, 52, 4, c.streamWidth)
    ensures FieldAt(bs, 56, 2, c.masterId) && |bs| >= 58 && bs[58..] == rest
  {
    var r6 := Put(2, c.masterId, rest);
    var r5 := Put(4, c.streamWidth, r6);
    var r4 := Put(4, c.width, r5);
    var r3 := Put(4, c.len, r4);
    var r2 := Put(8, c.addr, r3);
    var r1 := Put(8, c.attributes, r2);
    hide Put, FieldAt;
    FieldThen(bs, 20, 8, c.timestamp, r1);
    FieldThen(bs, 28, 8, c.attributes, r2);
    FieldThen(bs, 36, 8, c.addr, r3);
    FieldThen(bs, 44, 4, c.len, r4);
    FieldThen(bs, 48, 4, c.width, r5);
    FieldThen(bs, 52, 4, c.streamWidth, r6);
    FieldThen(bs, 56, 2, c.masterId, rest);
  }

  lemma ExtensionLayout(bs: seq<Byte>, e: Extension, rest: seq<Byte>)
    requires |bs| >= 58 && bs[58..] == PutExtension(e, rest)
    ensures FieldAt(bs, 58, 2, e.masterId31) && FieldAt(bs, 60, 4, e.masterId63) && FieldAt(bs, 64, 4, e.dataOffset)
    ensures FieldAt(bs, 68, 4, e.nextOffset) && FieldAt(bs, 72, 4, e.enableOffset) && FieldAt(bs, 76, 4, e.enableLen)
    ensures |bs| >= 80 && bs[80..] == rest
  {
    var r5 := Put(4, e.enableLen, rest);
    var r4 := Put(4, e.enableOffset, r5);
    var r3 := Put(4, e.nextOffset, r4);
    var r2 := Put(4, e.dataOffset, r3);
    var r1 := Put(4, e.masterId63, r2);
    hide Put, FieldAt;
    FieldThen(bs, 58, 2, e.masterId31, r1);
    FieldThen(bs, 60, 4, e.masterId63, r2);
    FieldThen(bs, 64, 4, e.dataOffset, r3);
    FieldThen(bs, 68, 4, e.nextOffset, r4);
    FieldThen(bs, 72, 4, e.enableOffset, r5);
    FieldThen(bs, 76, 4, e.enableLen, rest);
  }

  /** Hello: version, then offset and number of the capabilities, which follow one by one. */
  lemma HelloLayout(m: Message)
    requires Sound(m) && m.Hello?
    ensures var bs := Packet(m);
            && FieldAt(bs, 20, 2, m.major) && FieldAt(bs, 22, 2, m.minor)
            && FieldAt(bs, 24, 4, 32) && FieldAt(bs, 28, 2, |m.caps|) && FieldAt(bs, 30, 2, 0)
            && |bs| == 32 + 4 * |m.caps|
            && forall i :: 0 <= i < |m.caps| ==> FieldAt(bs, 32 + 4 * i, 4, m.caps[i])
  {
    hide Packet, Put, FieldAt, PutCaps, HeaderFor;
    var bs := Packet(m);
    HeaderLayout(m);
    var r4 := Put(2, 0, PutCaps(m.caps));
    var r3 := Put(2, |m.caps|, r4);
    var r2 := Put(4, 32, r3);
    var r1 := Put(2, m.minor, r2);
    assert bs[20..] == Put(2, m.major, r1);
    FieldThen(bs, 20, 2, m.major, r1);
    FieldThen(bs, 22, 2, m.minor, r2);
    FieldThen(bs, 24, 4, 32, r3);
    FieldThen(bs, 28, 2, |m.caps|, r4);
    FieldThen(bs, 30, 2, 0, PutCaps(m.caps));
    CapsLayout(bs, 32, m.caps);
  }

  lemma {:induction false} CapsLayout(bs: seq<Byte>, at: nat, caps: seq<U32>)
    requires at <= |bs| && bs[at..] == PutCaps(caps)
    ensures forall i :: 0 <= i < |caps| ==> FieldAt(bs, at + 4 * i, 4, caps[i])
    decreases |caps|
  {
    hide Put, FieldAt;
    if caps != [] {
      FieldThen(bs, at, 4, caps[0], PutCaps(caps[1..]));
      CapsLayout(bs, at + 4, caps[1..]);
      forall i | 0 <= i < |caps| ensures FieldAt(bs, at + 4 * i, 4, caps[i]) {
        if i > 0 {
          assert caps[1..][i - 1] == caps[i] && at + 4 + 4 * (i - 1) == at + 4 * i;
        }
      }
    }
  }

  /** Interrupts: timestamp, vector, line and value.  Synchronisation: the timestamp alone. */
  lemma EventLayout(m: Message)
    requires Sound(m) && (m.Interrupt? || m.Sync?)
    ensures FieldAt(Packet(m), 20, 8, m.clk)
    ensures m.Interrupt? ==> FieldAt(Packet(m), 28, 8, m.vector) && FieldAt(Packet(m), 36, 4, m.line) &&
                             FieldAt(Packet(m), 40, 1, m.val)
    ensures |Packet(m)| == if m.Interrupt? then 41 else 28
  {
    hide Packet, Put, FieldAt, HeaderFor;
    var bs := Packet(m);
    HeaderLayout(m);
    if m.Interrupt? {
      FieldThen(bs, 20, 8, m.clk, Put(8, m.vector, Put(4, m.line, Put(1, m.val, []))));
      FieldThen(bs, 28, 8, m.vector, Put(4, m.line, Put(1, m.val, [])));
      FieldThen(bs, 36, 4, m.line, Put(1, m.val, []));
      FieldThen(bs, 40, 1, m.val, []);
    } else {
      FieldThen(bs, 20, 8, m.clk, []);
    }
  }
}
