/** The remote-port adaptor: the pieces it writes, the packets it reads, and a device that processes
    packets and waits for answers. */
module RemotePortTlm {
  import opened MachineTypes
  import opened RemotePort
  import opened ResponseSlots

  // ----- the socket

  class Socket {
    const littleEndian: bool
    var wire: seq<Byte>   // written so far
    var pos: nat          // read so far

    constructor (littleEndian: bool)
      ensures this.littleEndian == littleEndian && wire == [] && pos == 0
    {
      this.littleEndian, wire, pos := littleEndian, [], 0;
    }

    method Write(bytes: seq<Byte>)
      modifies this`wire
      ensures wire == old(wire) + bytes
    {
      wire := wire + bytes;
    }

    /** The structure of rp_encode_busaccess, with the data of a read response behind it. */
    method EncodeBusaccess(peerExt: bool, a: Access) returns (pkt: seq<Byte>)
      requires Sendable(peerExt, a)
      ensures Packet(Bus(peerExt, a)) == pkt + (if a.write && !IsResponse(a.flags) then a.data else []) + a.enables
    {
      hide Put, IsResponse, HasExtBit, WithExtBit;
      var hsize := 0;
      if a.write && !IsResponse(a.flags) { hsize := a.size; }
      if !a.write && IsResponse(a.flags) { hsize := a.size; }
      var tail := if !a.write && IsResponse(a.flags) then a.data else [];
      var rest := (if a.write && !IsResponse(a.flags) then a.data else []) + a.enables;
      assert tail + rest == Carried(a) + a.enables;
      if !peerExt && !HasExtBit(a.attr) {
        var h := HeaderOf(a, BUS_SIZE - HDR_SIZE + hsize);
        pkt := PutHeader(h, PutCommon(CommonOf(a, a.attr), tail));
        CommonThen(CommonOf(a, a.attr), tail, rest);
        HeaderBefore(h, PutCommon(CommonOf(a, a.attr), tail), rest);
      } else {
        var h := HeaderOf(a, EXT_SIZE - HDR_SIZE + hsize + |a.enables|);
        var c := CommonOf(a, WithExtBit(a.attr));
        pkt := PutHeader(h, PutCommon(c, PutExtension(ExtensionOf(a), tail)));
        ExtensionThen(ExtensionOf(a), tail, rest);
        CommonThen(c, PutExtension(ExtensionOf(a), tail), rest);
        HeaderBefore(h, PutCommon(c, PutExtension(ExtensionOf(a), tail)), rest);
      }
      assert pkt + rest == pkt + (if a.write && !IsResponse(a.flags) then a.data else []) + a.enables;
    }

    /** A bus access goes out in up to three writes: structure, data, byte enables. */
    method SendAccess(peerExt: bool, a: Access)
      requires Sendable(peerExt, a)
      modifies this`wire
      ensures wire == old(wire) + Packet(Bus(peerExt, a))
    {
      hide Packet;
      var pkt := EncodeBusaccess(peerExt, a);
      Write(pkt);
      if a.write && !IsResponse(a.flags) {
        Write(a.data);
      }
      if a.enables != [] {
        Write(a.enables);
      }
    }

    /** The caps of a hello packet follow in a second write. */
    method SendHello(id: U32, dev: U32, major: U16, minor: U16, caps: seq<U32>)
      requires |caps| < 0x1_0000
      modifies this`wire
      ensures wire == old(wire) + Packet(Hello(id, dev, major, minor, caps))
    {
      hide Put, PutHeader, PutCaps, Packet;
      var m := Hello(id, dev, major, minor, caps);
      var capsOut := EncodeCaps(caps);
      HelloPieces(m);
      Write(PutHeader(HeaderFor(m), Put(2, major, Put(2, minor, Put(4, HELLO_SIZE, Put(2, |caps|, Put(2, 0, [])))))));
      Write(capsOut);
    }

    static method EncodeCaps(caps: seq<U32>) returns (bs: seq<Byte>)
      ensures bs == PutCaps(caps)
    {
      bs := [];
      var i := |caps|;
      while i > 0
        invariant 0 <= i <= |caps| && bs == PutCaps(caps[i..])
      {
        i := i - 1;
        assert caps[i..][1..] == caps[i + 1..];
        bs := Put(4, caps[i], bs);
      }
      assert caps[0..] == caps;
    }

    /** Header first, then as much as it announces. */
    method ReadPacket() returns (r: Option<Received>)
      requires pos + HDR_SIZE <= |wire| && pos + HDR_SIZE + GetHeader(wire[pos..]).len <= |wire|
      modifies this`pos
      ensures pos == old(pos) + HDR_SIZE + GetHeader(wire[old(pos)..]).len
      ensures r == Decode(littleEndian, wire[old(pos)..pos])
    {
      hide Decode;
      var h := GetHeader(wire[pos..]);
      var pkt := wire[pos..pos + HDR_SIZE] + wire[pos + HDR_SIZE..pos + HDR_SIZE + h.len];
      assert pkt == wire[pos..pos + HDR_SIZE + h.len];
      r := Decode(littleEndian, pkt);
      pos := pos + |pkt|;
    }
  }

  lemma PutThen(n: nat, v: nat, a: seq<Byte>, b: seq<Byte>)
    ensures Put(n, v, a + b) == Put(n, v, a) + b
  {
  }

  lemma CommonThen(c: Common, a: seq<Byte>, b: seq<Byte>)
    ensures PutCommon(c, a + b) == PutCommon(c, a) + b
  {
    var r6 := Put(2, c.masterId, a);
    var r5 := Put(4, c.streamWidth, r6);
    var r4 := Put(4, c.width, r5);
    var r3 := Put(4, c.len, r4);
    var r2 := Put(8, c.addr, r3);
    var r1 := Put(8, c.attributes, r2);
    PutThen(2, c.masterId, a, b);
    PutThen(4, c.streamWidth, r6, b);
    PutThen(4, c.width, r5, b);
    PutThen(4, c.len, r4, b);
    PutThen(8, c.addr, r3, b);
    PutThen(8, c.attributes, r2, b);
    PutThen(8, c.timestamp, r1, b);
    hide Put;
  }

  lemma ExtensionThen(e: Extension, a: seq<Byte>, b: seq<Byte>)
    ensures PutExtension(e, a + b) == PutExtension(e, a) + b
  {
    var r5 := Put(4, e.enableLen, a);
    var r4 := Put(4, e.enableOffset, r5);
    var r3 := Put(4, e.nextOffset, r4);
    var r2 := Put(4, e.dataOffset, r3);
    var r1 := Put(4, e.masterId63, r2);
    PutThen(4, e.enableLen, a, b);
    PutThen(4, e.enableOffset, r5, b);
    PutThen(4, e.nextOffset, r4, b);
    PutThen(4, e.dataOffset, r3, b);
    PutThen(4, e.masterId63, r2, b);
    PutThen(2, e.masterId31, r1, b);
    hide Put;
  }

  lemma HeaderBefore(h: Header, a: seq<Byte>, b: seq<Byte>)
    ensures PutHeader(h, a + b) == PutHeader(h, a) + b
  {
    var r4 := Put(4, h.dev, a);
    var r3 := Put(4, h.flags, r4);
    var r2 := Put(4, h.id, r3);
    var r1 := Put(4, h.len, r2);
    PutThen(4, h.dev, a, b);
    PutThen(4, h.flags, r4, b);
    PutThen(4, h.id, r3, b);
    PutThen(4, h.len, r2, b);
    PutThen(4, h.cmd, r1, b);
    hide Put;
  }

  lemma HelloPieces(m: Message)
    requires m.Hello? && Sound(m)
    ensures Packet(m) == PutHeader(HeaderFor(m),
                                   Put(2, m.major,
                                       Put(2, m.minor, Put(4, HELLO_SIZE, Put(2, |m.caps|, Put(2, 0, [])))))) +
                         PutCaps(m.caps)
  {
    var caps := PutCaps(m.caps);
    var r4 := Put(2, 0, []);
    var r3 := Put(2, |m.caps|, r4);
    var r2 := Put(4, HELLO_SIZE, r3);
    var r1 := Put(2, m.minor, r2);
    assert [] + caps == caps;
    PutThen(2, 0, [], caps);
    PutThen(2, |m.caps|, r4, caps);
    PutThen(4, HELLO_SIZE, r3, caps);
    PutThen(2, m.minor, r2, caps);
    PutThen(2, m.major, r1, caps);
    HeaderBefore(HeaderFor(m), Put(2, m.major, r1), caps);
    hide Put, PutHeader, PutCaps;
  }

  // ----- response slots

  /** The slots of one device. */
  class Device {
    const resp: array<Slot>

    constructor ()
      ensures fresh(resp) && resp.Length == MAX_OUTSTANDING && forall i :: 0 <= i < resp.Length ==> !resp[i].used
      ensures SoundSlots(resp[..], 0)
    {
      resp := new Slot[MAX_OUTSTANDING](_ => Slot(false, false, 0, Reply(0, [])));
    }

    method ResponseLookup(id: nat) returns (i: nat)
      ensures i == Lookup(resp[..], id)
    {
      i := 0;
      assert resp[..][0..] == resp[..];
      while i < resp.Length
        invariant 0 <= i <= resp.Length && Lookup(resp[..], id) == i + Lookup(resp[..][i..], id)
      {
        if resp[i].used && resp[i].id == id { return; }
        assert resp[..][i..][1..] == resp[..][i + 1..];
        i := i + 1;
      }
    }

    method FreeSlot() returns (i: nat)
      ensures i == FirstFree(resp[..])
    {
      i := 0;
      assert resp[..][0..] == resp[..];
      while i < resp.Length
        invariant 0 <= i <= resp.Length && FirstFree(resp[..]) == i + FirstFree(resp[..][i..])
      {
        if !resp[i].used { return; }
        assert resp[..][i..][1..] == resp[..][i + 1..];
        i := i + 1;
      }
    }

    method Take(i: nat, id: nat)
      requires i < resp.Length
      modifies resp
      ensures resp[..] == Taken(old(resp[..]), i, id)
    {
      resp[i] := resp[i].(id := id, used := true);
    }

    /** An answer goes into the slot that waits for its ID. */
    method TakeAnswer(reply: Reply) returns (known: bool)
      modifies resp
      ensures known <==> Lookup(old(resp[..]), reply.id) < resp.Length
      ensures resp[..] == if known then Answered(old(resp[..]), Lookup(old(resp[..]), reply.id), reply)
                          else old(resp[..])
    {
      var i := ResponseLookup(reply.id);
      known := i < resp.Length;
      if known {
        resp[i] := resp[i].(valid := true, pkt := reply);
      }
    }

    method ResponseDone(index: nat)
      requires index < resp.Length
      modifies resp
      ensures resp[..] == Freed(old(resp[..]), index)
    {
      resp[index] := resp[index].(valid := false, used := false);
    }
  }

  /** The adaptor and its devices. */
  class Adaptor {
    const devs: seq<Device>
    var nextId: nat   // rp_pkt_id

    ghost function Arrays(): (r: set<array<Slot>>)
      ensures forall d :: 0 <= d < |devs| ==> devs[d].resp in r
    {
      set d | d in devs :: d.resp
    }

    ghost predicate Apart() {
      && (forall d :: 0 <= d < |devs| ==> devs[d].resp.Length == MAX_OUTSTANDING)
      && (forall d, e :: 0 <= d < e < |devs| ==> devs[d].resp != devs[e].resp)
    }

    ghost predicate Valid()
      reads this, Arrays()
    {
      Apart() && Consistent(Now())
    }

    ghost function Now(): (t: Table)
      reads this, Arrays()
      ensures |t.devs| == |devs| && t.nextId == nextId
      ensures forall d :: 0 <= d < |devs| ==> t.devs[d] == devs[d].resp[..]
    {
      Table(seq(|devs|, d requires 0 <= d < |devs| reads Arrays() => devs[d].resp[..]), nextId)
    }

    constructor (devs: seq<Device>)
      requires forall d :: 0 <= d < |devs| ==> devs[d].resp.Length == MAX_OUTSTANDING && SoundSlots(devs[d].resp[..], 0)
      requires forall d, e :: 0 <= d < e < |devs| ==> devs[d].resp != devs[e].resp
      ensures Valid() && this.devs == devs && nextId == 0
    {
      this.devs, nextId := devs, 0;
    }

    /** Only the slots of one device have changed. */
    lemma OneChanged(t: Table, dev: nat)
      requires |t.devs| == |devs| && dev < |devs| && nextId == t.nextId
      requires forall d :: 0 <= d < |devs| && d != dev ==> devs[d].resp[..] == t.devs[d]
      ensures Now() == WithSlots(t, dev, devs[dev].resp[..])
    {
      assert Now().devs == t.devs[dev := devs[dev].resp[..]];
    }

    /** A request of the peer: its handling sends requests of its own, each waited for in turn. */
    method HandleRequest(waits: seq<nat>, events: seq<Event>) returns (r: Outcome)
      requires Valid()
      modifies Arrays(), this`nextId
      ensures Valid()
      ensures var h := Handle(old(Now()), waits, events); r == h.outcome && Now() == h.table
      decreases |events|, 3, |waits|
    {
      hide Consistent, Lookup, Wait, Freed;
      ghost var t := Now();
      if waits == [] { return Returned(events); }
      var dev, id := waits[0], nextId;
      NextFits(t, dev);
      nextId := nextId + 1;
      assert Now() == t.(nextId := t.nextId + 1);
      var index;
      r, index := ResponseWait(dev, id, events);
      if r.Returned? {
        HandleKeeps(t, [dev], events);
        HandleOne(t, dev, events);
        Done(dev, index);
        r := HandleRequest(waits[1..], r.rest);
      }
    }

    /** response_done after a wait. */
    method Done(dev: nat, index: nat)
      requires Valid() && dev < |devs| && index < |Now().devs[dev]|
      modifies devs[dev].resp
      ensures Now() == WithSlots(old(Now()), dev, Freed(old(Now()).devs[dev], index))
    {
      hide Consistent;
      ghost var t := Now();
      devs[dev].ResponseDone(index);
      OneChanged(t, dev);
    }

    /** rp_process: packets are handled until an answer has been read. */
    method RpProcess(events: seq<Event>) returns (r: Outcome)
      requires Valid()
      modifies Arrays(), this`nextId
      ensures Valid()
      ensures var p := Process(old(Now()), events); r == p.outcome && Now() == p.table
      decreases |events|, 0, 0
    {
      hide Consistent, Lookup, Process, Handle, Answered;
      ghost var p := Process(Now(), events);
      var rest := events;
      while true
        invariant Valid() && |rest| <= |events| && Process(Now(), rest) == p
        decreases |rest|
      {
        ProcessCases(Now(), rest);
        if rest == [] { return Blocked; }
        match rest[0] {
          case PostedResponse =>
            return Returned(rest[1..]);
          case Response(dev, reply) =>
            var known := StoreAnswer(dev, reply);
            return if known then Returned(rest[1..]) else Asserted;
          case Request(waits) =>
            r := HandleRequest(waits, rest[1..]);
            if !r.Returned? { return; }
            rest := r.rest;
        }
      }
    }

    method StoreAnswer(dev: nat, reply: Reply) returns (known: bool)
      requires Valid()
      modifies Arrays()
      ensures Valid()
      ensures var s := Stored(old(Now()), dev, reply);
              known == s.Some? && Now() == if known then s.value else old(Now())
    {
      hide Consistent, Lookup;
      ghost var t := Now();
      if dev >= |devs| { return false; }
      known := devs[dev].TakeAnswer(reply);
      OneChanged(t, dev);
      if known {
        StoredKeeps(t, Response(dev, reply));
      } else {
        assert Now() == t;
      }
    }

    /** response_wait in the adaptor's own process: a slot is taken, then packets are processed until it
        is valid. */
    method ResponseWait(dev: nat, id: nat, events: seq<Event>) returns (r: Outcome, index: nat)
      requires Valid() && id < nextId && Lookup(SlotsOf(Now(), dev), id) == |SlotsOf(Now(), dev)|
      modifies Arrays(), this`nextId
      ensures Valid()
      ensures var w := Wait(old(Now()), dev, id, events);
              r == w.outcome && Now() == w.table && (r.Returned? ==> index == w.index)
      decreases |events|, 2, 0
    {
      hide Consistent, Lookup, Until, Process;
      ghost var t := Now();
      if dev >= |devs| { return Asserted, 0; }
      index := devs[dev].FreeSlot();
      if index >= devs[dev].resp.Length { return Asserted, 0; }
      TakenConsistent(t, dev, index, id);
      devs[dev].Take(index, id);
      OneChanged(t, dev);
      r := ProcessUntil(dev, index, events);
    }

    /** The loop of response_wait. */
    method ProcessUntil(dev: nat, index: nat, events: seq<Event>) returns (r: Outcome)
      requires Valid() && index < |SlotsOf(Now(), dev)|
      modifies Arrays(), this`nextId
      ensures Valid()
      ensures var u := Until(old(Now()), dev, index, events);
              r == u.outcome && Now() == u.table && (r.Returned? ==> index == u.index)
      decreases |events|, 1, 0
    {
      hide Consistent, Lookup, Until, Process;
      ghost var u := Until(Now(), dev, index, events);
      UntilCases(Now(), dev, index, events);
      r := RpProcess(events);
      while r.Returned? && !devs[dev].resp[index].valid
        invariant Valid() && (r.Returned? ==> |r.rest| < |events|)
        invariant u == if r.Returned? && !devs[dev].resp[index].valid then Until(Now(), dev, index, r.rest)
                       else Result(r, Now(), u.index)
        invariant r.Returned? && devs[dev].resp[index].valid ==> u.index == index
        decreases if r.Returned? then |r.rest| + 1 else 0
      {
        UntilCases(Now(), dev, index, r.rest);
        r := RpProcess(r.rest);
      }
    }
  }
}
