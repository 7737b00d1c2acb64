/** The DMA module as it runs: one update per clock edge, in place. */
module Dma {
  import opened DmaEngine
  import opened MachineTypes

  class Dma<E> {
    const mm2s: bool
    const zero: E
    const ram: array<E>
    var descriptors: seq<Descriptor>
    var executeIndex: U32
    var currentRamIndex: U32
    var xCountRemaining: U32
    var descriptorCount: nat
    var transFinished: bool

    constructor (mm2s: bool, zero: E, ram: array<E>)
      ensures this.mm2s == mm2s && this.zero == zero && this.ram == ram
      ensures State() == Engine(0, 0, 0) && descriptors == [] && descriptorCount == 0 && !transFinished
    {
      this.mm2s, this.zero, this.ram := mm2s, zero, ram;
      descriptors, executeIndex, currentRamIndex, xCountRemaining := [], 0, 0, 0;
      descriptorCount, transFinished := 0, false;
    }

    function State(): Engine
      reads this
    {
      Engine(executeIndex, currentRamIndex, xCountRemaining)
    }

    /** The engine moves at this edge. */
    predicate Active(enable: bool)
      reads this
      requires executeIndex < |descriptors|
    {
      enable && descriptors[executeIndex].state != SUSPENDED
    }

    method LoadProgram(program: seq<Descriptor>)
      requires program != []
      modifies this`descriptors, this`executeIndex, this`currentRamIndex, this`xCountRemaining
      ensures descriptors == program && State() == Loaded(program, 0)
    {
      descriptors := [];
      for i := 0 to |program|
        invariant descriptors == program[..i]
      {
        descriptors := descriptors + [program[i]];
      }
      executeIndex := 0;
      currentRamIndex := descriptors[executeIndex].start;
      xCountRemaining := descriptors[executeIndex].xCount;
    }

    /** Descriptors arriving one at a time; the first one replaces whatever was there and is loaded. */
    method LoadDescriptor(d: Descriptor)
      modifies this`descriptors, this`executeIndex, this`currentRamIndex, this`xCountRemaining, this`descriptorCount
      ensures descriptorCount == old(descriptorCount) + 1
      ensures descriptors == (if old(descriptorCount) == 0 then [] else old(descriptors)) + [d]
      ensures State() == if old(descriptorCount) == 0 then Loaded([d], 0) else old(State())
    {
      if descriptorCount == 0 {
        descriptors := [];
      }
      descriptors := descriptors + [d];
      descriptorCount := descriptorCount + 1;
      if descriptorCount == 1 {
        executeIndex := 0;
        currentRamIndex := descriptors[executeIndex].start;
        xCountRemaining := descriptors[executeIndex].xCount;
      }
    }

    /** A rising edge, or a reset.  `bus` is the stream before the edge; `out` is what is written to it. */
    method Update(reset: bool, enable: bool, bus: E) returns (out: Option<E>)
      requires !reset ==> executeIndex < |descriptors|
      requires !reset && Active(enable) ==>
                 Fits(descriptors, State()) && (Transfers(descriptors, State()) ==> currentRamIndex < ram.Length)
      modifies this, ram
      ensures reset ==> descriptors == [Descriptor(0, 0, SUSPENDED, 0, 0)] && State() == Engine(0, 0, 0)
                        && descriptorCount == 0 && !transFinished && ram[..] == old(ram[..]) && out == None
      ensures !reset ==> descriptors == old(descriptors) && descriptorCount == old(descriptorCount)
      ensures !reset ==> State() == if old(Active(enable)) then Next(old(descriptors), old(State())) else old(State())
      ensures !reset ==> ram[..] == if old(Active(enable)) && !mm2s && Transfers(old(descriptors), old(State()))
                                    then old(ram[..])[old(currentRamIndex) := bus] else old(ram[..])
      ensures !reset ==> out == if !mm2s then None
                                else if old(Active(enable))
                                then Some(Sent(old(descriptors), old(State()), old(ram[..]), zero)) else Some(zero)
      ensures !reset ==> transFinished == if old(Active(enable)) then FinishesTransfer(old(descriptors), old(State()))
                                          else old(transFinished)
    {
      out := None;
      if reset {
        executeIndex := 0;
        transFinished := false;
        descriptors := [Descriptor(0, 0, SUSPENDED, 0, 0)];
        currentRamIndex := descriptors[executeIndex].start;
        xCountRemaining := descriptors[executeIndex].xCount;
        descriptorCount := 0;
      } else if enable && descriptors[executeIndex].state != SUSPENDED {
        if descriptors[executeIndex].state == TRANSFER {
          if mm2s {
            out := Some(ram[currentRamIndex]);
          } else {
            ram[currentRamIndex] := bus;
          }
          currentRamIndex := (currentRamIndex + descriptors[executeIndex].xModify) % WORDS;
        } else if mm2s {
          out := Some(zero);
        }
        xCountRemaining := (xCountRemaining - 1) % WORDS;
        transFinished := false;
        if xCountRemaining == 0 {
          if descriptors[executeIndex].state == TRANSFER {
            transFinished := true;
          }
          executeIndex := descriptors[executeIndex].next;
          currentRamIndex := descriptors[executeIndex].start;
          xCountRemaining := descriptors[executeIndex].xCount;
        }
      } else if mm2s {
        out := Some(zero);
      }
    }

    /** k enabled edges of an S2MM engine whose program was just loaded; edge m reads bus(m). */
    method Receive(k: nat, bus: nat -> E)
      requires !mm2s && Closed(descriptors) && State() == Loaded(descriptors, 0)
      requires forall m :: 0 <= m < k && Transfers(descriptors, After(descriptors, m)) ==>
                 After(descriptors, m).ramIndex < ram.Length
      modifies this, ram
      ensures descriptors == old(descriptors) && State() == After(descriptors, k)
      ensures ram[..] == Written(descriptors, old(ram[..]), bus, k)
    {
      for m := 0 to k
        invariant descriptors == old(descriptors) && State() == After(descriptors, m)
        invariant ram[..] == Written(descriptors, old(ram[..]), bus, m)
      {
        var _ := Update(false, true, bus(m));
      }
    }
  }

  /** For a WAIT and a TRANSFER the finished flag is set at the last edge of the TRANSFER and at no other. */
  lemma FinishedExactly(ds: seq<Descriptor>, wait: nat, start: nat, count: nat, k: nat)
    requires IsWaitTransfer(ds, wait, start, count)
    ensures FinishesTransfer(ds, After(ds, k)) <==> k == wait + count - 1
  {
    WaitTransferAfter(ds, wait, start, count, k);
    if wait <= k < wait + count {
      EngineFollowsChain(ds, k);
      assert Locate(ds, 0, k) == Locate(ds, 1, k - wait) == (1, k - wait);
      assert After(ds, k).remaining == (count - (k - wait)) % WORDS;
    }
  }

  /** The edge at which a transfer ends. */
  predicate FinishesTransfer(ds: seq<Descriptor>, e: Engine)
    requires e.index < |ds|
  {
    Transfers(ds, e) && e.remaining == 1
  }
}
