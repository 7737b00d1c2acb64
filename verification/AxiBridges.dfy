/** The data phases of the two AXI bridges and the strobe checker, as loops over lanes. */
module AxiBridges {
  import opened Arithmetic
  import opened AxiBeats
  import opened MachineTypes

  /** Where the data of beat k begins in the payload. */
  function Offset(p: Burst, k: nat): (o: nat)
    requires p.width > 0
  {
    StartNext(p, k);
    if k == 0 then 0 else Start(p, k) - p.addr
  }

  /** The lane of the byte at `offset`. */
  function LaneAt(p: Burst, offset: nat): (l: nat)
    requires p.bus > 0
    ensures l < p.bus
  {
    (p.addr + offset) % p.bus
  }

  /** How many bytes of the payload, from `offset` on, one beat takes. */
  function BeatLength(p: Burst, offset: nat): int
    requires Valid(p)
  {
    Min(Min(|p.data| - offset, p.bus - LaneAt(p, offset)), p.width)
  }

  /** For a regular burst the bytes a beat takes are exactly those of its container. */
  lemma BeatAt(p: Burst, k: nat)
    requires Regular(p) && k < NumBeats(p)
    ensures Offset(p, k) < |p.data| && LaneAt(p, Offset(p, k)) == LowerLane(p, k)
    ensures BeatLength(p, Offset(p, k)) > 0 &&
            LowerLane(p, k) + BeatLength(p, Offset(p, k)) <= UpperLane(p, k) + 1 <= p.bus
    ensures Offset(p, k) + BeatLength(p, Offset(p, k)) == if k + 1 < NumBeats(p) then Offset(p, k + 1) else |p.data|
    ensures forall l :: LowerLane(p, k) <= l < p.bus ==> ByteOn(p, k, l) == Offset(p, k) + l - LowerLane(p, k)
    ensures forall l :: 0 <= l < LowerLane(p, k) ==> ByteOn(p, k, l) < 0 || l < FirstLane(p, k)
    ensures Offset(p, k) + UpperLane(p, k) + 1 - LowerLane(p, k) == Offset(p, k + 1)
  {
    LanesFit(p, k);
    FirstByteLane(p);
    BeatNeeded(p, k);
    BeatNeeded(p, k + 1);
    StartNext(p, 0);
    StartNext(p, k);
    StartNext(p, k + 1);
    hide FirstLane, Start, NumBeats;
    assert LaneAt(p, Offset(p, k)) == LowerLane(p, k) by { FirstLaneIs(p, k); }
    if p.width == p.bus {
      FullWidthLane(p, k);
    }
  }

  lemma FirstLaneIs(p: Burst, k: nat)
    requires Valid(p)
    ensures FirstLane(p, k) == Start(p, k) % p.bus
  {
  }

  lemma FullWidthLane(p: Burst, k: nat)
    requires Valid(p) && p.width == p.bus
    ensures FirstLane(p, k) == 0
  {
    LanesFit(p, k);
  }

  /** The same when the address starts over after every `streamingWidth` bytes. */
  function StreamedLength(p: Burst, streamingWidth: nat, offset: nat): (n: int)
    requires Valid(p) && streamingWidth > 0
    ensures offset < |p.data| ==> 0 < n <= |p.data| - offset && n <= p.bus - LaneAt(p, offset % streamingWidth)
  {
    var o := offset % streamingWidth;
    Min(Min(|p.data| - offset, Min(p.bus - LaneAt(p, o), streamingWidth - o)), p.width)
  }

  lemma NotStreamed(p: Burst, streamingWidth: nat, offset: nat)
    requires Valid(p) && offset < |p.data| <= streamingWidth
    ensures offset % streamingWidth == offset && StreamedLength(p, streamingWidth, offset) == BeatLength(p, offset)
  {
    SmallMod(offset, streamingWidth);
  }

  // ----- tlm2axi, write side

  /** One beat: `wlen` bytes from `offset` on, each byte and its strobe on the lane of its address. */
  method PrepareWbeat(p: Burst, streamingWidth: nat, offset: nat) returns (strb: seq<bool>, data: seq<Byte>, wlen: nat)
    requires Valid(p) && offset < |p.data| && streamingWidth > 0
    ensures wlen == StreamedLength(p, streamingWidth, offset) && |strb| == |data| == p.bus
    ensures var lane := LaneAt(p, offset % streamingWidth);
            && (forall l :: 0 <= l < p.bus ==>
                  (strb[l] <==> lane <= l < lane + wlen && EnabledAt(p, offset + l - lane)))
            && (forall l :: lane <= l < lane + wlen ==> data[l] == p.data[offset + l - lane])
  {
    hide NumBeats;
    var lane := (p.addr + offset % streamingWidth) % p.bus;
    var maxlen := p.bus - lane;
    if maxlen > streamingWidth - offset % streamingWidth {
      maxlen := streamingWidth - offset % streamingWidth;
    }
    wlen := if |p.data| - offset <= maxlen then |p.data| - offset else maxlen;
    wlen := if wlen <= p.width then wlen else p.width;
    var bits := new bool[p.bus](_ => false);
    for i := 0 to wlen
      invariant forall k :: 0 <= k < p.bus ==> (bits[k] <==> k < i && EnabledAt(p, offset + k))
    {
      bits[i] := p.enables == [] || p.enables[(i + offset) % |p.enables|];
    }
    strb := Rotated(bits[..], lane, wlen);
    data := CopyLanes(p.data[offset..offset + wlen], lane, p.bus);
  }

  /** Bytes copied onto the lanes from `lane` on, eight at a time. */
  method CopyLanes(bytes: seq<Byte>, lane: nat, bus: nat) returns (data: seq<Byte>)
    requires lane + |bytes| <= bus
    ensures |data| == bus && forall l :: lane <= l < lane + |bytes| ==> data[l] == bytes[l - lane]
  {
    var lanes := new Byte[bus](_ => 0);
    var i, wlen := 0, |bytes|;
    while i < wlen
      invariant 0 <= i < wlen + 8
      invariant forall l :: lane <= l < lane + i && l < lane + wlen ==> lanes[l] == bytes[l - lane]
    {
      var copylen := Min(wlen - i, 8);
      for c := 0 to copylen
        invariant forall l :: lane <= l < lane + i + c ==> lanes[l] == bytes[l - lane]
      {
        lanes[lane + i + c] := bytes[i + c];
      }
      i := i + 8;
    }
    data := lanes[..];
  }

  /** The strobes of the first n lanes moved up by `up` lanes. */
  method Rotated(bits: seq<bool>, up: nat, n: nat) returns (r: seq<bool>)
    requires up + n <= |bits| && forall k :: n <= k < |bits| ==> !bits[k]
    ensures |r| == |bits| && forall l :: 0 <= l < |bits| ==> (r[l] <==> up <= l < up + n && bits[l - up])
  {
    r := bits[|bits| - up..] + bits[..|bits| - up];
  }

  /** The write data phase of a transaction: beats until the data is out, wlast by the beat counter. */
  method WriteDataPhase(p: Burst, streamingWidth: nat) returns (beats: seq<Beat>)
    requires Regular(p) && |p.data| <= streamingWidth
    ensures |beats| == NumBeats(p)
    ensures forall k :: 0 <= k < |beats| ==> Carries(p, k, beats[k]) && (beats[k].last <==> k == NumBeats(p) - 1)
  {
    hide Carries, Start, FirstLane, NumBeats, Offset, BeatLength, ByteOn, LowerLane, UpperLane;
    var pos, beat := 0, 1;
    beats := [];
    RoomCovers(p);
    OffsetZero(p);
    while pos < |p.data|
      invariant beat == |beats| + 1 && beat <= NumBeats(p) + 1
      invariant pos == if beat <= NumBeats(p) then Offset(p, beat - 1) else |p.data|
      invariant forall k :: 0 <= k < |beats| ==> Carries(p, k, beats[k]) && (beats[k].last <==> k == NumBeats(p) - 1)
      decreases NumBeats(p) + 1 - beat
    {
      BeatAt(p, beat - 1);
      NotStreamed(p, streamingWidth, pos);
      var strb, data, wlen := PrepareWbeat(p, streamingWidth, pos);
      BeatCarries(p, beat - 1, Beat(strb, data, beat == NumBeats(p)), wlen);
      beats := beats + [Beat(strb, data, beat == NumBeats(p))];
      pos := pos + wlen;
      beat := beat + 1;
    }
    if beat <= NumBeats(p) {
      BeatAt(p, beat - 1);
      assert false;
    }
  }

  lemma OffsetZero(p: Burst)
    requires p.width > 0
    ensures Offset(p, 0) == 0
  {
  }

  lemma BeatCarries(p: Burst, k: nat, b: Beat, wlen: nat)
    requires Regular(p) && k < NumBeats(p) && |b.strb| == |b.data| == p.bus
    requires var offset := Offset(p, k);
             var lane := LaneAt(p, offset);
             && wlen == BeatLength(p, offset)
             && (forall l :: 0 <= l < p.bus ==>
                   (b.strb[l] <==> lane <= l < lane + wlen && EnabledAt(p, offset + l - lane)))
             && (forall l :: lane <= l < lane + wlen ==> b.data[l] == p.data[offset + l - lane])
    ensures Carries(p, k, b)
  {
    BeatAt(p, k);
    BeatNeeded(p, k + 1);
    hide FirstLane, Start, NumBeats;
    var offset, lane := Offset(p, k), LowerLane(p, k);
    forall l | 0 <= l < p.bus ensures Used(p, k, l) <==> lane <= l < lane + wlen {
      UsedLanes(p, k, l);
    }
  }

  lemma UsedLanes(p: Burst, k: nat, l: nat)
    requires Regular(p) && k < NumBeats(p) && l < p.bus
    ensures Used(p, k, l) <==> LowerLane(p, k) <= l < LowerLane(p, k) + BeatLength(p, Offset(p, k))
  {
    BeatAt(p, k);
    StartNext(p, k);
    BeatNeeded(p, k + 1);
    FirstByteLane(p);
    hide FirstLane, Start, NumBeats;
  }

  // ----- the checker

  /** CheckWstrb: true exactly when the strobes of beat `beat` (from 1) are allowed. */
  method CheckWstrb(p: Burst, fixed: bool, beat: nat, numBeats: nat, wstrb: seq<bool>,
                    allowGaps: bool) returns (ok: bool)
    requires Valid(p) && |wstrb| == p.bus && beat > 0
    ensures var k := if fixed && beat > 1 then 0 else beat - 1;
            ok <==> Allowed(wstrb, if beat == 1 then p.addr % p.bus else FirstLane(p, k), UpperLane(p, k),
                            beat == numBeats, allowGaps)
  {
    var lower, upper := Lanes(p, fixed, beat);
    ok := CheckLanes(wstrb, lower, upper, beat == numBeats, allowGaps);
  }

  /** The lane equations of the standard; a FIXED burst stays at its address. */
  method Lanes(p: Burst, fixed: bool, beat: nat) returns (lower: int, upper: int)
    requires Valid(p) && beat > 0
    ensures var k := if fixed && beat > 1 then 0 else beat - 1;
            lower == (if beat == 1 then p.addr % p.bus else FirstLane(p, k)) && upper == UpperLane(p, k)
    ensures 0 <= lower <= upper < p.bus
  {
    LanesFit(p, if fixed && beat > 1 then 0 else beat - 1);
    AlignedLane(p);
    AlignIs(p.addr, p.width);
    AlignIs(p.addr, p.bus);
    hide Align;
    var alignedAddress := Align(p.addr, p.width);
    if beat == 1 {
      lower := p.addr - Align(p.addr, p.bus);
      upper := alignedAddress + (p.width - 1) - Align(p.addr, p.bus);
    } else {
      var addr := if fixed then alignedAddress else alignedAddress + (beat - 1) * p.width;
      AlignIs(addr, p.bus);
      BeatAddress(p, fixed, beat, addr);
      hide FirstLane;
      lower := addr - Align(addr, p.bus);
      upper := lower + p.width - 1;
    }
  }

  function Align(addr: nat, alignTo: nat): nat
    requires alignTo > 0
  {
    addr / alignTo * alignTo
  }

  lemma AlignIs(addr: nat, alignTo: nat)
    requires alignTo > 0
    ensures Align(addr, alignTo) == addr - addr % alignTo
  {
    assert alignTo * (addr / alignTo) == addr / alignTo * alignTo;
  }

  lemma BeatAddress(p: Burst, fixed: bool, beat: nat, addr: nat)
    requires Valid(p) && beat > 1
    requires addr == p.addr - p.addr % p.width + if fixed then 0 else (beat - 1) * p.width
    ensures addr % p.bus == FirstLane(p, if fixed then 0 else beat - 1)
  {
    StartNext(p, 0);
  }

  /** A write whose beats all go through the checker, gaps allowed only when there are byte enables. */
  method CheckedWrite(p: Burst, streamingWidth: nat) returns (ok: bool)
    requires Regular(p) && |p.data| <= streamingWidth
    ensures ok
  {
    var beats := WriteDataPhase(p, streamingWidth);
    ok := true;
    for k := 0 to |beats|
      invariant ok
    {
      hide NumBeats, FirstLane, Allowed, Carries;
      CarriesWide(p, k, beats[k]);
      BeatAllowed(p, k, beats[k]);
      var passes := CheckWstrb(p, false, k + 1, |beats|, beats[k].strb, p.enables != []);
      ok := ok && passes;
    }
  }

  lemma CarriesWide(p: Burst, k: nat, b: Beat)
    requires p.bus > 0 && p.width > 0 && Carries(p, k, b)
    ensures |b.strb| == |b.data| == p.bus
  {
  }

  lemma AlignedLane(p: Burst)
    requires Valid(p)
    ensures p.addr - p.addr % p.width + (p.width - 1) - (p.addr - p.addr % p.bus) == UpperLane(p, 0)
    ensures p.addr % p.bus == FirstLane(p, 0) + p.addr % p.width && FirstLane(p, 0) + p.width <= p.bus
  {
    FirstByteLane(p);
    LanesFit(p, 0);
    StartNext(p, 0);
  }

  method CheckLanes(wstrb: seq<bool>, lower: int, upper: int, last: bool, allowGaps: bool) returns (ok: bool)
    requires 0 <= lower <= upper < |wstrb|
    ensures ok <==> Allowed(wstrb, lower, upper, last, allowGaps)
  {
    var i := 0;
    while i < lower
      invariant 0 <= i <= lower
      invariant forall l :: 0 <= l < i ==> !wstrb[l]
    {
      if wstrb[i] { return false; }
      i := i + 1;
    }
    ghost var end := upper + 1;   // first lane checked for zero again
    if !allowGaps {
      if last {
        if !wstrb[i] { return false; }
        i := i + 1;
        while i <= upper
          invariant lower < i <= upper + 1
          invariant forall l :: lower <= l < i ==> wstrb[l]
        {
          if !wstrb[i] { break; }
          i := i + 1;
        }
        end := i;
      } else {
        while i <= upper
          invariant lower <= i <= upper + 1
          invariant forall l :: lower <= l < i ==> wstrb[l]
        {
          if !wstrb[i] { return false; }
          i := i + 1;
        }
      }
    } else {
      i := upper + 1;
    }
    while i < |wstrb|
      invariant end <= i <= |wstrb|
      invariant forall l :: end <= l < i ==> !wstrb[l]
    {
      if wstrb[i] {
        if i <= upper {
          HoleFound(wstrb, lower, end, i, upper);
        }
        return false;
      }
      i := i + 1;
    }
    ok := true;
  }

  /** A strobe behind a cleared lane is a gap. */
  lemma {:induction false} HoleFound(wstrb: seq<bool>, lower: int, hole: int, i: int, upper: int)
    requires 0 <= lower <= hole < i <= upper < |wstrb| && !wstrb[hole] && wstrb[i]
    ensures exists l :: lower <= l < upper && wstrb[l + 1] && !wstrb[l]
    decreases i - hole
  {
    if !wstrb[i - 1] {
      assert wstrb[(i - 1) + 1];
    } else {
      HoleFound(wstrb, lower, hole, i - 1, upper);
    }
  }

  // ----- axi2tlm, write side

  /** A write transaction being gathered: each lane in turn gives the next byte or marks it disabled. */
  class WriteTransaction {
    const bus: nat
    const address: nat
    const data: array<Byte>
    const be: array<bool>
    var withBe: bool
    var beat: nat
    var dataIdx: nat
    ghost var seen: seq<Beat>   // the beats filled in so far

    ghost predicate Valid()
      reads this, data, be
    {
      && bus > 0 && be.Length == data.Length && (be as object) != data && dataIdx <= data.Length
      && (forall b :: b in seen ==> |b.strb| == |b.data| == bus)
      && (seen == [] ==> dataIdx == 0)
      && (seen != [] ==> dataIdx == data.Length || Reached(|seen|))
      && forall j :: 0 <= j < dataIdx ==> Says(seen, j, be[j], data[j])
    }

    /** The bytes of the first m bus words are in. */
    ghost predicate Reached(m: nat)
      reads this
      requires bus > 0
    {
      Skipped() + dataIdx == Words(m)
    }

    /** Lanes left out before the first byte. */
    function Skipped(): nat
      requires bus > 0
    {
      address % bus
    }

    /** Lanes of m bus words. */
    ghost function Words(m: nat): nat {
      bus * m
    }

    lemma WordsNext(m: nat)
      ensures Words(0) == 0 && Words(m + 1) == Words(m) + bus
    {
    }

    /** Bus word and lane that byte j comes from. */
    function Word(j: nat): nat
      requires bus > 0
    {
      (Skipped() + j) / bus
    }

    function Lane(j: nat): (l: nat)
      requires bus > 0
      ensures l < bus
    {
      (Skipped() + j) % bus
    }

    lemma ByteAt(j: nat, m: nat, i: nat)
      requires bus > 0 && Skipped() + j == Words(m) + i && i < bus
      ensures Word(j) == m && Lane(j) == i
    {
      ModUnique(Skipped() + j, bus, m, i);
    }

    /** What the lane of byte j said in these beats: its enable and, when set, its data. */
    ghost predicate Says(beats: seq<Beat>, j: nat, enabled: bool, byte: Byte)
      requires bus > 0 && forall b :: b in beats ==> |b.strb| == |b.data| == bus
    {
      Word(j) < |beats| && enabled == beats[Word(j)].strb[Lane(j)] && (enabled ==> byte == beats[Word(j)].data[Lane(j)])
    }

    constructor (bus: nat, numberBytes: nat, address: nat, burstLen: nat)
      requires bus > 0 && numberBytes > 0 && burstLen > 0
      ensures Valid() && seen == [] && beat == 1 && withBe && this.bus == bus && this.address == address
      ensures data.Length == numberBytes - address % numberBytes + (burstLen - 1) * numberBytes
      ensures fresh(data) && fresh(be)
    {
      var dataLen := numberBytes - (address - Align(address, numberBytes)) + (burstLen - 1) * numberBytes;
      AlignIs(address, numberBytes);
      this.bus, this.address, withBe, beat, dataIdx, seen := bus, address, true, 1, 0, [];
      data := new Byte[dataLen](_ => 0);
      be := new bool[dataLen](_ => false);
    }

    method FillData(b: Beat)
      requires Valid() && beat == |seen| + 1 && |b.strb| == |b.data| == bus
      modifies this`dataIdx, this`seen, data, be
      ensures Valid() && seen == old(seen) + [b]
    {
      hide Words, Word, Lane, Skipped;
      var i := 0;
      ghost var m := |seen|;
      WordsNext(m);
      if beat == 1 {
        SkippedIs();
        i := address - Align(address, bus);
      }
      seen := seen + [b];
      assert forall j :: 0 <= j < dataIdx ==> Says(old(seen), j, be[j], data[j]);
      while i < bus && dataIdx < data.Length
        invariant seen == old(seen) + [b] && dataIdx <= data.Length && 0 <= i <= bus
        invariant dataIdx == data.Length || Skipped() + dataIdx == Words(m) + i
        invariant forall j :: 0 <= j < dataIdx ==> Says(seen, j, be[j], data[j])
      {
        ByteAt(dataIdx, m, i);
        if b.strb[i] {
          be[dataIdx] := true;
          data[dataIdx] := b.data[i];
        } else {
          be[dataIdx] := false;
        }
        dataIdx := dataIdx + 1;
        i := i + 1;
      }
    }

    lemma SkippedIs()
      requires bus > 0
      ensures address - Align(address, bus) == Skipped() < bus
    {
      AlignIs(address, bus);
    }

    method IncBeat()
      modifies this`beat
      ensures beat == old(beat) + 1
    {
      beat := beat + 1;
    }

    /** The enables are dropped when they enable everything. */
    method TryDropBE()
      requires Valid()
      modifies this`withBe
      ensures Valid() && (withBe <==> old(withBe) && exists j :: 0 <= j < be.Length && !be[j])
    {
      var i := 0;
      while i < be.Length
        invariant 0 <= i <= be.Length
        invariant forall j :: 0 <= j < i ==> be[j]
      {
        if !be[i] { break; }
        i := i + 1;
      }
      if i == be.Length {
        withBe := false;
      }
    }
  }

  /** The room for a burst holds no more than its beats bring. */
  lemma RoomFits(p: Burst)
    requires Valid(p)
    ensures p.addr % p.bus + Room(p) <= p.bus * NumBeats(p)
    ensures Room(p) == p.width - p.addr % p.width + (NumBeats(p) - 1) * p.width
  {
    RoomCovers(p);
    FirstByteLane(p);
    LanesFit(p, 0);
    StartNext(p, 0);
    var n := NumBeats(p) - 1;
    MulMonotone(n, p.width, p.bus);
    assert p.bus * NumBeats(p) == n * p.bus + p.bus && n * p.width <= n * p.bus;
  }

  /** A write through both bridges.  Byte j of the receiver is enabled exactly when the lane it is taken from
      was strobed, and then holds the byte that lane stands for.  When no bus word carries two beats that is
      byte j of the payload; otherwise some byte is out of reach, and lost if the payload enables it. */
  method WriteThrough(p: Burst, streamingWidth: nat) returns (t: WriteTransaction)
    requires Regular(p) && |p.data| <= streamingWidth
    ensures fresh(t) && t.Valid() && t.address == p.addr && t.data.Length == t.be.Length == Room(p) >= |p.data|
    ensures OneWordPerBeat(p) ==>
              forall j :: 0 <= j < Room(p) ==>
                (t.be[j] <==> j < |p.data| && Enables(p, j)) && (t.be[j] ==> t.data[j] == p.data[j])
    ensures forall j :: 0 <= j < Room(p) ==> (t.be[j] <==> Strobed(p, TakenBeat(p, j), TakenLane(p, j)))
    ensures forall j :: 0 <= j < Room(p) && t.be[j] ==>
              var i := ByteOn(p, TakenBeat(p, j), TakenLane(p, j)); 0 <= i < |p.data| && t.data[j] == p.data[i]
    ensures !OneWordPerBeat(p) ==> exists j: nat :: Unreachable(p, j)
    ensures !OneWordPerBeat(p) && p.enables == [] ==> exists j: nat :: Lost(p, j)
    ensures t.withBe <==> exists j :: 0 <= j < Room(p) && !t.be[j]
  {
    var beats := WriteDataPhase(p, streamingWidth);
    RoomCovers(p);
    RoomFits(p);
    hide Carries, Room, NumBeats, OneWordPerBeat;
    t := new WriteTransaction(p.bus, p.width, p.addr, NumBeats(p));
    for k := 0 to |beats|
      invariant fresh(t) && fresh(t.data) && fresh(t.be) && t.Valid() && t.seen == beats[..k] && t.beat == k + 1 &&
                t.withBe
    {
      CarriesWide(p, k, beats[k]);
      t.FillData(beats[k]);
      t.IncBeat();
    }
    assert beats[..|beats|] == beats;
    AllFilled(p, t, beats);
    if OneWordPerBeat(p) {
      FilledRight(p, t, beats);
      SameEnables(p);
    } else {
      var j := SomeUnreachable(p);
    }
    forall j | 0 <= j < Room(p)
      ensures t.be[j] <==> Strobed(p, TakenBeat(p, j), TakenLane(p, j))
      ensures t.be[j] ==>
                var i := ByteOn(p, TakenBeat(p, j), TakenLane(p, j)); 0 <= i < |p.data| && t.data[j] == p.data[i]
    {
      FilledByte(p, t, beats, j);
    }
    hide Strobed, ByteOn, Lost, Unreachable, EnabledAt, TakenBeat, TakenLane;
    t.TryDropBE();
  }

  /** The receiver of all beats of a burst has filled its room. */
  ghost predicate Filled(p: Burst, t: WriteTransaction, beats: seq<Beat>)
    reads t, t.data, t.be
  {
    && Valid(p) && t.Valid() && t.bus == p.bus && t.address == p.addr && t.seen == beats && |beats| == NumBeats(p)
    && t.data.Length == Room(p)
    && forall k :: 0 <= k < |beats| ==> Carries(p, k, beats[k])
  }

  lemma AllFilled(p: Burst, t: WriteTransaction, beats: seq<Beat>)
    requires Filled(p, t, beats)
    ensures t.dataIdx == Room(p)
  {
    RoomCovers(p);
    RoomFits(p);
  }

  /** What it holds at byte j is what the beat put on the lane it looks at. */
  lemma FilledByte(p: Burst, t: WriteTransaction, beats: seq<Beat>, j: nat)
    requires Filled(p, t, beats) && j < Room(p)
    ensures t.be[j] <==> Strobed(p, TakenBeat(p, j), TakenLane(p, j))
    ensures t.be[j] ==> 0 <= ByteOn(p, TakenBeat(p, j), TakenLane(p, j)) < |p.data| &&
                        t.data[j] == p.data[ByteOn(p, TakenBeat(p, j), TakenLane(p, j))]
  {
    AllFilled(p, t, beats);
    hide Room, NumBeats, ByteOn, FirstLane;
    assert t.Says(beats, j, t.be[j], t.data[j]);
    assert t.Word(j) == TakenBeat(p, j) && t.Lane(j) == TakenLane(p, j);
    hide TakenBeat, TakenLane, EnabledAt;
    assert Carries(p, TakenBeat(p, j), beats[TakenBeat(p, j)]);
  }

  lemma FilledRight(p: Burst, t: WriteTransaction, beats: seq<Beat>)
    requires Filled(p, t, beats) && OneWordPerBeat(p)
    ensures forall j :: 0 <= j < Room(p) ==>
              (t.be[j] <==> j < |p.data| && EnabledAt(p, j)) && (t.be[j] ==> t.data[j] == p.data[j])
  {
    RebuiltWhenOneWord(p);
    RoomCovers(p);
    forall j | 0 <= j < Room(p)
      ensures (t.be[j] <==> j < |p.data| && EnabledAt(p, j)) && (t.be[j] ==> t.data[j] == p.data[j])
    {
      hide Room, NumBeats, ByteOn, FirstLane, TakenBeat, TakenLane, EnabledAt, Strobed;
      assert Arrives(p, j);
      FilledByte(p, t, beats, j);
    }
  }

  lemma SomeUnreachable(p: Burst) returns (j: nat)
    requires Valid(p) && !OneWordPerBeat(p)
    ensures Unreachable(p, j) && (p.enables == [] ==> Lost(p, j))
  {
    j := NarrowLoses(p);
  }

  // ----- reads

  /** A read transaction being sent: each beat puts the next bytes on its lanes. */
  class ReadTransaction {
    const shape: Burst       // bus, width and address of the burst; its data is not looked at
    const gpData: seq<Byte>
    const fixed: bool
    var beat: nat
    var dataIdx: nat

    constructor (shape: Burst, gpData: seq<Byte>, fixed: bool)
      ensures this.shape == shape && this.gpData == gpData && this.fixed == fixed && beat == 1 && dataIdx == 0
    {
      this.shape, this.gpData, this.fixed, beat, dataIdx := shape, gpData, fixed, 1, 0;
    }

    /** Lanes outside the beat keep what they had. */
    method GetData(tmp: seq<Byte>) returns (data: seq<Byte>)
      requires Valid(shape) && beat > 0 && |tmp| == shape.bus
      requires fixed ==> dataIdx + shape.bus <= |gpData|
      requires !fixed ==> dataIdx + UpperLane(shape, beat - 1) + 1 - LowerLane(shape, beat - 1) <= |gpData|
      modifies this`dataIdx
      ensures var lower := if fixed then 0 else LowerLane(shape, beat - 1);
              var upper := if fixed then shape.bus - 1 else UpperLane(shape, beat - 1);
              && dataIdx == old(dataIdx) + upper + 1 - lower && |data| == shape.bus
              && forall l :: 0 <= l < shape.bus ==>
                   data[l] == if lower <= l <= upper then gpData[old(dataIdx) + l - lower] else tmp[l]
    {
      if fixed {
        data := FillLanes(tmp, gpData, dataIdx, 0, shape.bus - 1);
        dataIdx := dataIdx + shape.bus;
      } else {
        var lower, upper := Lanes(shape, false, beat);
        data := FillLanes(tmp, gpData, dataIdx, lower, upper);
        dataIdx := dataIdx + upper + 1 - lower;
      }
    }
  }

  /** The bytes from idx on, one after the other on the lanes from lower to upper. */
  method FillLanes(tmp: seq<Byte>, gpData: seq<Byte>, idx: nat, lower: int, upper: int) returns (data: seq<Byte>)
    requires 0 <= lower <= upper < |tmp| && idx + upper + 1 - lower <= |gpData|
    ensures |data| == |tmp|
    ensures forall l :: 0 <= l < |tmp| ==> data[l] == if lower <= l <= upper then gpData[idx + l - lower] else tmp[l]
  {
    var lanes := new Byte[|tmp|](l requires 0 <= l < |tmp| => tmp[l]);
    var dataIdx := idx;
    for i := 0 to |tmp|
      invariant dataIdx == idx + (if i <= lower then 0 else if i <= upper then i - lower else upper + 1 - lower)
      invariant forall l :: 0 <= l < |tmp| ==>
                  lanes[l] == if lower <= l <= upper && l < i then gpData[idx + l - lower] else tmp[l]
    {
      if i >= lower && i <= upper {
        lanes[i] := gpData[dataIdx];
        dataIdx := dataIdx + 1;
      }
    }
    data := lanes[..];
  }

  /** One read beat taken into the buffer, eight bytes at a time, leaving disabled bytes alone. */
  method TakeReadBeat(p: Burst, rdata: seq<Byte>, data: array<Byte>, pos: nat) returns (pos': nat)
    requires Valid(p) && |rdata| == p.bus && data.Length == |p.data| && pos < |p.data|
    modifies data
    ensures pos' == pos + BeatLength(p, pos)
    ensures var lane := LaneAt(p, pos);
            forall i :: 0 <= i < data.Length ==>
              data[i] == if pos <= i < pos' && EnabledAt(p, i) then rdata[lane + i - pos] else old(data[i])
  {
    var lane := (p.addr + pos) % p.bus;
    var readlen := p.bus - lane;
    readlen := if readlen <= |p.data| - pos then readlen else |p.data| - pos;
    readlen := if readlen <= p.width then readlen else p.width;
    pos' := pos;
    var w := 0;
    while w < readlen
      invariant 0 <= w < readlen + 8 && pos' == pos + Min(w, readlen)
      invariant forall i :: 0 <= i < data.Length ==>
                  data[i] == if pos <= i < pos' && EnabledAt(p, i) then rdata[lane + i - pos] else old(data[i])
    {
      var copylen := Min(readlen - w, 8);
      for c := 0 to copylen
        invariant forall i :: 0 <= i < data.Length ==>
                    data[i] == if pos <= i < pos' + c && EnabledAt(p, i) then rdata[lane + i - pos] else old(data[i])
      {
        if EnabledAt(p, pos' + c) {
          data[pos' + c] := rdata[lane + w + c];
        }
      }
      pos' := pos' + copylen;
      w := w + 8;
    }
  }

  /** Beat k of a read: what one bridge puts on its lanes the other takes from them. */
  method PassReadBeat(t: ReadTransaction, tmp: seq<Byte>, data: array<Byte>, pos: nat, ghost k: nat)
    returns (rdata: seq<Byte>, pos': nat)
    requires Regular(t.shape) && |tmp| == t.shape.bus && data.Length == |t.shape.data| && k < NumBeats(t.shape)
    requires !t.fixed && |t.gpData| == Room(t.shape) && t.beat == k + 1 && t.dataIdx == pos == Offset(t.shape, k)
    modifies t`dataIdx, data
    ensures |rdata| == t.shape.bus
    ensures k + 1 < NumBeats(t.shape) ==> pos' == t.dataIdx == Offset(t.shape, k + 1)
    ensures k + 1 == NumBeats(t.shape) ==> pos' == |t.shape.data|
    ensures pos <= pos' <= data.Length <= |t.gpData|
    ensures forall i :: 0 <= i < data.Length ==>
              data[i] == if pos <= i < pos' && EnabledAt(t.shape, i) then t.gpData[i] else old(data[i])
  {
    hide NumBeats, Room, Offset, BeatLength, LaneAt, LowerLane, UpperLane, ByteOn, FirstLane, Start, EnabledAt;
    RoomCovers(t.shape);
    BeatAt(t.shape, k);
    RoomOfBeat(t.shape, k);
    if k + 1 < NumBeats(t.shape) {
      BeatAt(t.shape, k + 1);
    }
    rdata := t.GetData(tmp);
    pos' := TakeReadBeat(t.shape, rdata, data, pos);
  }

  /** A read through both bridges fills the buffer with the bytes of the addressed range, byte enables
      respected; the beat marked last is the one that completes it. */
  method ReadThrough(p: Burst, gpData: seq<Byte>, data: array<Byte>) returns (beats: nat, premature: bool)
    requires Regular(p) && |gpData| == Room(p) && data.Length == |p.data|
    modifies data
    ensures data.Length <= |gpData|
    ensures forall i :: 0 <= i < data.Length ==> data[i] == if Enables(p, i) then gpData[i] else old(data[i])
    ensures beats == NumBeats(p) && !premature
  {
    hide NumBeats, Room, Offset, EnabledAt, Enables;
    SameEnables(p);
    var t := new ReadTransaction(p, gpData, false);
    var pos := 0;
    var rdata: seq<Byte> := seq(p.bus, _ => 0);
    beats, premature := 0, false;
    RoomCovers(p);
    OffsetZero(p);
    while pos < |p.data|
      invariant beats <= NumBeats(p) && |rdata| == p.bus && !premature && pos <= data.Length
      invariant t.beat == beats + 1 && (beats < NumBeats(p) ==> t.dataIdx == pos == Offset(p, beats))
      invariant beats == NumBeats(p) ==> pos == |p.data|
      invariant forall i :: 0 <= i < data.Length ==>
                  data[i] == if i < pos && EnabledAt(p, i) then gpData[i] else old(data[i])
      decreases NumBeats(p) - beats
    {
      var last := t.beat == NumBeats(p);
      rdata, pos := PassReadBeat(t, rdata, data, pos, beats);
      if last && pos < |p.data| {
        premature := true;
      }
      t.beat := t.beat + 1;
      beats := beats + 1;
    }
    if beats < NumBeats(p) {
      BeatAt(p, beats);
      assert false;
    }
  }

  lemma SameEnables(p: Burst)
    ensures forall i: nat :: EnabledAt(p, i) == Enables(p, i)
  {
  }

  /** The lanes of a beat lie inside the room. */
  lemma RoomOfBeat(p: Burst, k: nat)
    requires Regular(p) && k < NumBeats(p)
    ensures Offset(p, k) + UpperLane(p, k) + 1 - LowerLane(p, k) <= Room(p)
    ensures k + 1 == NumBeats(p) ==> Offset(p, k) + UpperLane(p, k) + 1 - LowerLane(p, k) == Room(p)
  {
    BeatAt(p, k);
    RoomCovers(p);
    StartNext(p, k);
    StartMonotone(p, k, NumBeats(p) - 1);
    hide FirstLane;
  }

  lemma StartMonotone(p: Burst, j: nat, k: nat)
    requires p.width > 0 && j <= k
    ensures Start(p, j) <= Start(p, k)
  {
    MulMonotone(p.width, j, k);
  }
}
