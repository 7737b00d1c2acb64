/** The data beats of an INCR write burst: which byte travels on which lane of which beat, and what the
    strobe rules and the receiving bridge make of it. */
module AxiBeats {
  import opened Arithmetic
  import opened Bits
  import opened MachineTypes

  /** A payload on its way through a bridge: bus and burst width in bytes, enables repeated over the data. */
  datatype Burst = Burst(bus: nat, width: nat, addr: nat, data: seq<Byte>, enables: seq<bool>)

  datatype Beat = Beat(strb: seq<bool>, data: seq<Byte>, last: bool)

  predicate Valid(p: Burst) {
    p.bus > 0 && p.width > 0 && p.bus % p.width == 0 && p.data != []
  }

  /** The cases the beat loop is meant for: an aligned address, or beats as wide as the bus. */
  predicate Regular(p: Burst) {
    Valid(p) && (p.addr % p.width == 0 || p.width == p.bus)
  }

  predicate EnabledAt(p: Burst, j: nat) {
    p.enables == [] || p.enables[j % |p.enables|]
  }

  function NumBeats(p: Burst): nat
    requires p.width > 0
  {
    (|p.data| + p.addr % p.width + p.width - 1) / p.width
  }

  /** The aligned address beat k (counted from 0) stands for. */
  function Start(p: Burst, k: nat): nat
    requires p.width > 0
  {
    p.addr - p.addr % p.width + k * p.width
  }

  function FirstLane(p: Burst, k: nat): (l: nat)
    requires p.bus > 0 && p.width > 0
    ensures l < p.bus
  {
    Start(p, k) % p.bus
  }

  /** The byte of the payload lane l of beat k stands for; it may lie before or behind the data. */
  function ByteOn(p: Burst, k: nat, l: nat): int
    requires p.bus > 0 && p.width > 0
  {
    Start(p, k) - p.addr + l - FirstLane(p, k)
  }

  predicate Used(p: Burst, k: nat, l: nat)
    requires p.bus > 0 && p.width > 0
  {
    FirstLane(p, k) <= l < FirstLane(p, k) + p.width && 0 <= ByteOn(p, k, l) < |p.data|
  }

  predicate Strobed(p: Burst, k: nat, l: nat)
    requires p.bus > 0 && p.width > 0
  {
    Used(p, k, l) && EnabledAt(p, ByteOn(p, k, l))
  }

  /** The beat carries exactly the enabled bytes of its part of the payload, each on its own lane. */
  ghost predicate Carries(p: Burst, k: nat, b: Beat)
    requires p.bus > 0 && p.width > 0
  {
    && |b.strb| == |b.data| == p.bus
    && (forall l :: 0 <= l < p.bus ==> (b.strb[l] <==> Strobed(p, k, l)))
    && (forall l :: 0 <= l < p.bus && Strobed(p, k, l) ==> b.data[l] == p.data[ByteOn(p, k, l)])
  }

  // ----- arithmetic of beats

  lemma CeilDiv(x: nat, d: nat, k: nat)
    requires d > 0
    ensures k < (x + d - 1) / d <==> k * d < x
  {
    var q, r := (x + d - 1) / d, (x + d - 1) % d;
    assert x + d - 1 == d * q + r;
    if k < q {
      MulMonotone(d, k + 1, q);
    } else {
      MulMonotone(d, q, k);
    }
    assert d * k == k * d && d * (k + 1) == d * k + d;
  }

  lemma StartNext(p: Burst, k: nat)
    requires p.width > 0
    ensures Start(p, k + 1) == Start(p, k) + p.width
    ensures Start(p, 0) == p.addr - p.addr % p.width
    ensures k > 0 ==> Start(p, k) > p.addr
  {
    assert (k + 1) * p.width == k * p.width + p.width;
    if k > 0 {
      MulMonotone(p.width, 1, k);
      assert k * p.width == p.width * k;
    }
  }

  /** There is a beat k exactly when some data lies at or behind its address. */
  lemma BeatNeeded(p: Burst, k: nat)
    requires p.width > 0
    ensures k < NumBeats(p) <==> Start(p, k) < p.addr + |p.data|
  {
    CeilDiv(|p.data| + p.addr % p.width, p.width, k);
  }

  /** Every beat lies inside the bus. */
  lemma LanesFit(p: Burst, k: nat)
    requires Valid(p)
    ensures FirstLane(p, k) + p.width <= p.bus
    ensures Start(p, k) % p.width == 0
  {
    var a := p.addr - p.addr % p.width;
    assert a == p.width * (p.addr / p.width);
    ModUnique(a, p.width, p.addr / p.width, 0);
    assert k * p.width == p.width * k + 0;
    ModUnique(k * p.width, p.width, k, 0);
    SumOfMultiples(a, k * p.width, p.width);
    ReducedMultiple(Start(p, k), p.bus, p.width);
    DifferenceOfMultiples(p.bus, FirstLane(p, k), p.width);
    PositiveMultiple(p.bus - FirstLane(p, k), p.width);
  }

  lemma ModOffset(x: nat, i: nat, d: nat)
    requires d > 0 && x % d + i < d
    ensures (x + i) % d == x % d + i
  {
    ModUnique(x + i, d, x / d, x % d + i);
  }

  /** The lane of the first byte of the payload. */
  lemma FirstByteLane(p: Burst)
    requires Valid(p)
    ensures p.addr % p.bus == FirstLane(p, 0) + p.addr % p.width
  {
    LanesFit(p, 0);
    StartNext(p, 0);
    ModOffset(Start(p, 0), p.addr % p.width, p.bus);
  }

  // ----- the strobe rules of section A3.4 of ARM IHI 0022D

  /** Lowest and highest lane of beat k by the equations of the standard. */
  function LowerLane(p: Burst, k: nat): nat
    requires p.bus > 0 && p.width > 0
  {
    if k == 0 then p.addr % p.bus else FirstLane(p, k)
  }

  function UpperLane(p: Burst, k: nat): int
    requires p.bus > 0 && p.width > 0
  {
    FirstLane(p, k) + p.width - 1
  }

  /** No strobe outside the lanes of the beat; without gaps every lane in between is set, in the last
      beat at least the lowest one and then all up to the end of the data. */
  ghost predicate Allowed(strb: seq<bool>, lower: int, upper: int, last: bool, gaps: bool) {
    && 0 <= lower <= upper < |strb|
    && (forall l :: 0 <= l < |strb| && strb[l] ==> lower <= l <= upper)
    && (!gaps && !last ==> forall l :: lower <= l <= upper ==> strb[l])
    && (!gaps && last ==> strb[lower] && forall l :: lower <= l < upper && strb[l + 1] ==> strb[l])
  }

  /** Every beat obeys them: gap-free when the payload has no byte enables. */
  lemma BeatAllowed(p: Burst, k: nat, b: Beat)
    requires Valid(p) && k < NumBeats(p) && Carries(p, k, b)
    ensures Allowed(b.strb, LowerLane(p, k), UpperLane(p, k), k == NumBeats(p) - 1, p.enables != [])
  {
    LanesFit(p, k);
    FirstByteLane(p);
    BeatNeeded(p, k);
    BeatNeeded(p, k + 1);
    StartNext(p, k);
    hide FirstLane, Start, NumBeats;
    if p.enables == [] {
      forall l | 0 <= l < p.bus ensures b.strb[l] <==> Used(p, k, l) {
        assert b.strb[l] <==> Strobed(p, k, l);
      }
    }
  }

  // ----- what the receiving bridge rebuilds

  /** Bytes the receiver makes room for: from the first byte to the end of the last beat. */
  function Room(p: Burst): nat
    requires p.width > 0
  {
    p.width - p.addr % p.width + (if NumBeats(p) == 0 then 0 else NumBeats(p) - 1) * p.width
  }

  /** The beat and the lane from which the receiver takes byte j: lane after lane, bus word after bus word. */
  function TakenBeat(p: Burst, j: nat): nat
    requires p.bus > 0
  {
    (p.addr % p.bus + j) / p.bus
  }

  function TakenLane(p: Burst, j: nat): (l: nat)
    requires p.bus > 0
    ensures l < p.bus
  {
    (p.addr % p.bus + j) % p.bus
  }

  /** Byte j arrives when it was enabled, and only then. */
  ghost predicate Arrives(p: Burst, j: nat)
    requires p.bus > 0 && p.width > 0
  {
    Strobed(p, TakenBeat(p, j), TakenLane(p, j)) <==> j < |p.data| && EnabledAt(p, j)
  }

  /** The receiver rebuilds the payload: the same bytes are enabled and hold the same data. */
  ghost predicate Rebuilt(p: Burst)
    requires p.bus > 0 && p.width > 0
  {
    forall j :: 0 <= j < Room(p) ==>
      Arrives(p, j) && (j < |p.data| && EnabledAt(p, j) ==> ByteOn(p, TakenBeat(p, j), TakenLane(p, j)) == j)
  }

  /** One beat, beats as wide as the bus, or two beats that meet at the end of a bus word. */
  predicate OneWordPerBeat(p: Burst)
    requires p.bus > 0 && p.width > 0
  {
    p.width == p.bus || NumBeats(p) == 1 || (NumBeats(p) == 2 && FirstLane(p, 0) + p.width == p.bus)
  }

  lemma RoomCovers(p: Burst)
    requires Valid(p)
    ensures NumBeats(p) > 0 && Room(p) == Start(p, NumBeats(p) - 1) + p.width - p.addr
    ensures Room(p) >= |p.data|
  {
    BeatNeeded(p, 0);
    StartNext(p, 0);
    BeatNeeded(p, NumBeats(p));
    StartNext(p, NumBeats(p) - 1);
  }

  /** A byte inside the room of beat k is on its lane of beat k. */
  lemma ByteInBeat(p: Burst, k: nat, j: nat)
    requires Valid(p) && Start(p, k) <= p.addr + j < Start(p, k) + p.width
    ensures TakenLane(p, j) == FirstLane(p, k) + p.addr + j - Start(p, k)
    ensures ByteOn(p, k, TakenLane(p, j)) == j
    ensures Strobed(p, k, TakenLane(p, j)) <==> j < |p.data| && EnabledAt(p, j)
  {
    LanesFit(p, k);
    ModAdd(p.addr, j, p.bus);
    ModOffset(Start(p, k), p.addr + j - Start(p, k), p.bus);
  }

  /** Byte j travels on lane l of beat k: the lane of its address, in the beat of its aligned container. */
  predicate Travels(p: Burst, j: nat, k: nat, l: nat)
    requires p.bus > 0 && p.width > 0
  {
    k == (p.addr % p.width + j) / p.width && l == (p.addr + j) % p.bus
  }

  /** Byte j is enabled; the byte enables repeat, and none at all enable everything. */
  predicate Enables(p: Burst, j: nat) {
    |p.enables| > 0 ==> p.enables[j % |p.enables|]
  }

  lemma TravelsIs(p: Burst, j: nat, k: nat)
    requires Valid(p) && k == (p.addr % p.width + j) / p.width
    ensures Start(p, k) <= p.addr + j < Start(p, k) + p.width && TakenLane(p, j) == (p.addr + j) % p.bus
  {
    ModAdd(p.addr, j, p.bus);
    var r := (p.addr % p.width + j) % p.width;
    assert p.addr % p.width + j == p.width * k + r && p.width * k == k * p.width;
  }

  /** What a beat carries, byte by byte: each byte of the payload that travels in it is strobed exactly if it is
      enabled, and nothing else is strobed. */
  lemma BeatBytes(p: Burst, k: nat, b: Beat)
    requires Valid(p) && Carries(p, k, b)
    ensures |b.strb| == |b.data| == p.bus
    ensures forall j: nat, l: nat :: j < |p.data| && Travels(p, j, k, l) ==>
              (b.strb[l] <==> Enables(p, j)) && (b.strb[l] ==> b.data[l] == p.data[j])
    ensures forall l :: 0 <= l < p.bus && b.strb[l] ==> exists j :: 0 <= j < |p.data| && Travels(p, j, k, l)
  {
    forall j: nat, l: nat | j < |p.data| && Travels(p, j, k, l)
      ensures (b.strb[l] <==> Enables(p, j)) && (b.strb[l] ==> b.data[l] == p.data[j])
    {
      TravelsIs(p, j, k);
      ByteInBeat(p, k, j);
    }
    forall l | 0 <= l < p.bus && b.strb[l] ensures exists j :: 0 <= j < |p.data| && Travels(p, j, k, l) {
      assert Strobed(p, k, l);
      StrobedTravels(p, k, l);
      assert Travels(p, ByteOn(p, k, l), k, l);
    }
  }

  lemma StrobedTravels(p: Burst, k: nat, l: nat)
    requires Valid(p) && l < p.bus && Used(p, k, l)
    ensures Travels(p, ByteOn(p, k, l), k, l)
  {
    var j := ByteOn(p, k, l);
    LanesFit(p, k);
    ModOffset(Start(p, k), l - FirstLane(p, k), p.bus);
    assert p.addr % p.width + j == p.width * k + (l - FirstLane(p, k)) by { assert p.width * k == k * p.width; }
    ModUnique(p.addr % p.width + j, p.width, k, l - FirstLane(p, k));
  }

  lemma RebuiltWhenOneWord(p: Burst)
    requires Valid(p) && OneWordPerBeat(p)
    ensures Rebuilt(p)
  {
    RoomCovers(p);
    forall j | 0 <= j < Room(p)
      ensures Arrives(p, j) && (j < |p.data| && EnabledAt(p, j) ==> ByteOn(p, TakenBeat(p, j), TakenLane(p, j)) == j)
    {
      TakenIsSent(p, j);
      ByteInBeat(p, TakenBeat(p, j), j);
    }
  }

  /** Then the receiver takes every byte from the beat it was put on. */
  lemma TakenIsSent(p: Burst, j: nat)
    requires Valid(p) && OneWordPerBeat(p) && j < Room(p)
    ensures Start(p, TakenBeat(p, j)) <= p.addr + j < Start(p, TakenBeat(p, j)) + p.width
  {
    if p.width == p.bus {
      TakenFullWidth(p, j);
    } else {
      hide FirstLane, Start, NumBeats, Room, ByteOn;
      RoomCovers(p);
      FirstByteLane(p);
      LanesFit(p, 0);
      StartNext(p, 0);
      if p.addr % p.bus + j < p.bus {
        SmallQuotient(p.addr % p.bus + j, p.bus);
      } else {
        ModDrop(p.addr % p.bus + j, p.bus);
        SmallQuotient(p.addr % p.bus + j - p.bus, p.bus);
      }
    }
  }

  lemma TakenFullWidth(p: Burst, j: nat)
    requires Valid(p) && p.width == p.bus
    ensures Start(p, TakenBeat(p, j)) <= p.addr + j < Start(p, TakenBeat(p, j)) + p.width
  {
    var k := TakenBeat(p, j);
    assert p.addr % p.bus + j == p.bus * k + TakenLane(p, j);
    assert p.bus * k == k * p.width;
  }

  /** Otherwise the first byte of the second beat, or of the third, is looked for on a lane that its
      bus word does not use. */
  lemma NarrowLoses(p: Burst) returns (j: nat)
    requires Valid(p) && !OneWordPerBeat(p)
    ensures j < |p.data| && !Used(p, TakenBeat(p, j), TakenLane(p, j))
  {
    RoomCovers(p);
    FirstByteLane(p);
    StartNext(p, 0);
    StartNext(p, 1);
    LanesFit(p, 0);
    BeatNeeded(p, 1);
    j := Start(p, 1) - p.addr;
    if FirstLane(p, 0) + p.width < p.bus {
      SmallQuotient(p.addr % p.bus + j, p.bus);
    } else {
      BeatNeeded(p, 2);
      j := j + p.width;
      ModDrop(p.addr % p.bus + j, p.bus);
      SmallQuotient(p.width, p.bus);
      SecondAtZero(p);
    }
  }

  lemma SmallQuotient(x: nat, d: nat)
    requires x < d
    ensures x / d == 0 && x % d == x
  {
    QuotientUnique(d, 0, x, x / d, x % d);
  }

  lemma SecondAtZero(p: Burst)
    requires Valid(p) && FirstLane(p, 0) + p.width == p.bus
    ensures FirstLane(p, 1) == 0
  {
    StartNext(p, 0);
    var q := Start(p, 0) / p.bus;
    assert p.bus * (q + 1) == p.bus * q + p.bus;
    ModUnique(Start(p, 1), p.bus, q + 1, 0);
  }

  /** The burst with other byte enables. */
  ghost predicate RebuiltWith(p: Burst, enables: seq<bool>)
    requires p.bus > 0 && p.width > 0
  {
    Rebuilt(p.(enables := enables))
  }

  /** The receiver rebuilds the payload, whatever its byte enables, exactly when no bus word carries two beats. */
  lemma RebuiltExactly(p: Burst)
    requires Valid(p)
    ensures (forall enables :: RebuiltWith(p, enables)) <==> OneWordPerBeat(p)
  {
    if OneWordPerBeat(p) {
      forall enables ensures RebuiltWith(p, enables) {
        RebuiltWhenOneWord(p.(enables := enables));
      }
    } else {
      var all := p.(enables := []);
      var j := NarrowLoses(all);
      RoomCovers(all);
      assert !Arrives(all, j);
      assert !RebuiltWith(p, []);
    }
  }

  /** An enabled byte of the payload that does not arrive. */
  ghost predicate Lost(p: Burst, j: nat)
    requires p.bus > 0 && p.width > 0
  {
    j < |p.data| && EnabledAt(p, j) && !Strobed(p, TakenBeat(p, j), TakenLane(p, j))
  }

  /** A byte that does not arrive whatever the byte enables are: if it is enabled it is lost. */
  ghost predicate Unreachable(p: Burst, j: nat)
    requires p.bus > 0 && p.width > 0
  {
    j < |p.data| && !Used(p, TakenBeat(p, j), TakenLane(p, j))
  }
}
