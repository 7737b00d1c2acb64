/** The engine that writes the windows back to the source memory, and the delay word it needs. */
module Loopback {
  import opened Arithmetic
  import opened DmaEngine
  import opened Systolic
  import opened Convolution

  /** The shape of a compute chain and of the loopback program behind it. */
  datatype Setup = Setup(groups: nat, size: nat, programs: seq<seq<Descriptor>>, wait: nat, starts: seq<nat>,
                         count: nat, back: seq<Descriptor>, delay: nat, base: nat, words: nat) {
    ghost predicate Valid() {
      && groups > 0 && 0 < size <= count && |programs| == |starts| == groups
      && (forall g :: 0 <= g < groups ==> Closed(programs[g]))
      && (forall g :: 0 <= g < groups ==> IsWaitTransfer(programs[g], wait + g * size, starts[g], count))
      && IsWaitTransfer(back, delay, base, words)
    }

    /** A chain of this shape with its weights and RAM contents, and a target memory. */
    ghost predicate Loads(c: Chain<int>, ram: seq<int>) {
      && c.arith == INTEGERS && c.groups == groups && c.size == size && c.programs == programs
      && Staggered(c, wait, starts, count) && base + words <= |ram|
    }
  }

  /** Once word n of the area has been written it holds window n. */
  ghost predicate HoldsWindow(s: Setup, c: Chain<int>, ram: seq<int>, n: nat, k: nat)
    requires s.Valid() && s.Loads(c, ram) && n + s.size <= s.count && n < s.words
  {
    MulMonotone(c.size, 1, c.groups);
    InsideTransfer(c, s.wait, s.starts, s.count, n);
    Written(s.back, ram, Output(c), k)[s.base + n] == Window(c, s.starts, n, |c.weights|)
  }

  ghost predicate StoresInPlace(s: Setup)
    requires s.Valid()
  {
    forall c, ram, n: nat, k: nat ::
      s.Loads(c, ram) && n + s.size <= s.count && n < s.words && k > s.delay + n ==> HoldsWindow(s, c, ram, n, k)
  }

  lemma {:induction false} ZeroWeights(c: Chain<int>, j: nat, t: nat)
    requires WellFormed(c) && c.arith == INTEGERS && j < |c.weights| && forall i :: 0 <= i <= j ==> c.weights[i] == 0
    ensures Register(c, j, t) == 0
    decreases t
  {
    if t > 0 && j > 0 {
      ZeroWeights(c, j - 1, t - 1);
    }
  }

  ghost predicate LastTapOnly(c: Chain<int>) {
    && WellFormed(c) && c.arith == INTEGERS && |c.weights| > 0
    && c.weights[|c.weights| - 1] == 1 && forall i :: 0 <= i < |c.weights| - 1 ==> c.weights[i] == 0
  }

  /** Then the last register repeats the bus of the last group. */
  lemma LastTap(c: Chain<int>, t: nat)
    requires LastTapOnly(c) && t > 0
    ensures Output(c)(t) == Bus(c, Group(c, |c.weights| - 1), t - 1)
  {
    var j := |c.weights| - 1;
    hide Bus, WellFormed;
    if j > 0 {
      ZeroWeights(c, j - 1, t - 1);
    }
    assert Carry(c, j, t - 1) == 0;
    assert Register(c, j, t) == Bus(c, Group(c, j), t - 1) * c.weights[j] + Carry(c, j, t - 1);
  }

  /** Only the last tap counts, and only the last word of the first window of the last group is not zero. */
  ghost function Probe(s: Setup): Chain<int>
    requires s.Valid()
  {
    MulMonotone(s.size, 1, s.groups);
    Chain(INTEGERS, s.groups, s.size, seq(s.groups * s.size, _ => 0)[s.groups * s.size - 1 := 1], s.programs,
          seq(s.groups, g requires 0 <= g < s.groups => ProbeRam(s, g)))
  }

  function ProbeRam(s: Setup, g: nat): seq<int>
    requires g < |s.starts|
  {
    seq(s.starts[g] + s.count, a => if g == s.groups - 1 && a == s.starts[g] + s.size - 1 then 1 else 0)
  }

  lemma ProbeLoads(s: Setup)
    requires s.Valid()
    ensures s.Loads(Probe(s), seq(s.base + s.words, _ => 0)) && LastTapOnly(Probe(s))
  {
    hide IsWaitTransfer, Closed;
    MulMonotone(s.size, 1, s.groups);
  }

  lemma LastGroup(s: Setup)
    requires s.Valid()
    ensures |Probe(s).weights| == s.groups * s.size
    ensures (s.groups * s.size - 1) / s.size == s.groups - 1
    ensures (s.groups - 1) * s.size + s.size == s.groups * s.size
  {
    MulMonotone(s.size, 1, s.groups);
    ModUnique(s.groups * s.size - 1, s.size, s.groups - 1, s.size - 1);
  }

  /** The probe shows its one word after exactly one edge. */
  lemma ProbeOutput(s: Setup, t: nat)
    requires s.Valid() && t > 0
    ensures LastTapOnly(Probe(s))
    ensures Output(Probe(s))(t) == if t == s.wait + s.groups * s.size + 1 then 1 else 0
  {
    var c, g := Probe(s), s.groups - 1;
    ProbeLoads(s);
    LastTap(c, t);
    LastGroup(s);
    assert Group(c, |c.weights| - 1) == g;
    hide Output, Closed;
    if t > 1 {
      WaitTransferAfter(s.programs[g], s.wait + g * s.size, s.starts[g], s.count, t - 2);
      hide After, IsWaitTransfer;
      assert c.rams[g] == ProbeRam(s, g);
    }
  }

  /** The delay word of the loopback engine is right, for all weights and images, if and only if it is
      wait + groups * size + 1. */
  lemma LoopbackExactly(s: Setup)
    requires s.Valid()
    ensures StoresInPlace(s) <==> s.delay == s.wait + s.groups * s.size + 1
  {
    hide HoldsWindow, Staggered;
    if s.delay == s.wait + s.groups * s.size + 1 {
      forall c, ram, n: nat, k: nat
        | s.Loads(c, ram) && n + s.size <= s.count && n < s.words && k > s.delay + n
        ensures HoldsWindow(s, c, ram, n, k)
      {
        InPlace(s, c, ram, n, k);
      }
    } else {
      FirstWindowLost(s);
    }
  }

  lemma InPlace(s: Setup, c: Chain<int>, ram: seq<int>, n: nat, k: nat)
    requires s.Valid() && s.Loads(c, ram) && s.delay == s.wait + s.groups * s.size + 1
    requires n + s.size <= s.count && n < s.words && k > s.delay + n
    ensures HoldsWindow(s, c, ram, n, k)
  {
    hide Register, Window, Written, Staggered, IsWaitTransfer;
    LoopbackWord(c, s.wait, s.starts, s.count, n, s.back, s.delay, s.base, s.words, ram, k);
    assert n + s.wait + c.groups * c.size + 1 - s.delay == n;
  }

  lemma WordIs(s: Setup, c: Chain<int>, ram: seq<int>, k: nat)
    requires s.Valid() && s.Loads(c, ram) && k > s.delay
    ensures |c.weights| > 0
    ensures HoldsWindow(s, c, ram, 0, k) <==> Output(c)(s.delay) == Output(c)(s.wait + s.groups * s.size + 1)
  {
    hide Register, Window, Written;
    ChainComputesWindow(c, s.wait, s.starts, s.count, 0);
    WrittenWindow(s.back, ram, Output(c), s.delay, s.base, s.words, k);
    assert Written(s.back, ram, Output(c), k)[s.base + 0] == Output(c)(s.delay);
    assert s.wait + c.groups * c.size + 0 + 1 == s.wait + s.groups * s.size + 1;
    assert Window(c, s.starts, 0, |c.weights|) == Output(c)(s.wait + s.groups * s.size + 1);
  }

  /** With any other delay word the probe's first window, 1, is not in the first word of the area. */
  lemma FirstWindowLost(s: Setup)
    requires s.Valid() && s.delay != s.wait + s.groups * s.size + 1
    ensures s.Loads(Probe(s), seq(s.base + s.words, _ => 0))
    ensures !HoldsWindow(s, Probe(s), seq(s.base + s.words, _ => 0), 0, s.delay + 1)
  {
    hide Probe, HoldsWindow, LastTapOnly, Output, Staggered;
    ProbeLoads(s);
    ProbeOutput(s, s.delay);
    ProbeOutput(s, s.wait + s.groups * s.size + 1);
    WordIs(s, Probe(s), seq(s.base + s.words, _ => 0), s.delay + 1);
  }

  // ----- the program of descriptors.h

  const SHIPPED_LOOPBACK: seq<Descriptor> :=
    [Descriptor(1, 0, 3, 327, 1), Descriptor(2, 512, 1, 100, 1), Descriptor(2, 0, 0, 0, 1)]

  /** The shipped loopback program stores the convolution at row y, column x in word 512 + 10 * y + x + 1,
      one word late. */
  lemma ShippedLoopbackLate(weights: seq<int>, images: seq<seq<int>>, ram: seq<int>, y: nat, x: nat, k: nat)
    requires ShippedSizes(weights, images) && |ram| >= 612 && y <= 7 && x <= 7 && k > 328 + 10 * y + x
    ensures WellFormed(ShippedChain(weights, images)) && Inside(ShippedLayer(weights, images), y, x)
    ensures Written(SHIPPED_LOOPBACK, ram, Output(ShippedChain(weights, images)), k)[512 + (10 * y + x) + 1] ==
            SumChannels(ShippedLayer(weights, images), y, x, 3)
  {
    hide Register, Written, SumChannels;
    ShippedProgramConvolves(weights, images, y, x);
    WrittenWindow(SHIPPED_LOOPBACK, ram, Output(ShippedChain(weights, images)), 327, 512, 100, k);
  }

  function OneWeight(): seq<int> {
    seq(27, _ => 0)[26 := 1]
  }

  /** The third image has a single pixel, in row 2 and column 2. */
  function OnePixel(): seq<seq<int>> {
    [seq(200, _ => 0), seq(200, _ => 0), seq(200, _ => 0)[22 := 1]]
  }

  lemma OneReady()
    ensures ShippedSizes(OneWeight(), OnePixel())
    ensures LastTapOnly(ShippedChain(OneWeight(), OnePixel()))
  {
    ShippedStaggered(OneWeight(), OnePixel());
  }

  /** Word 512 is then 0 although the convolution at row 0, column 0 is 1. */
  lemma ShippedFirstWord(ram: seq<int>, k: nat) returns (weights: seq<int>, images: seq<seq<int>>)
    requires |ram| >= 612 && k > 327
    ensures weights == OneWeight() && images == OnePixel()
    ensures ShippedSizes(weights, images) && WellFormed(ShippedChain(weights, images))
    ensures Inside(ShippedLayer(weights, images), 0, 0)
    ensures SumChannels(ShippedLayer(weights, images), 0, 0, 3) == 1
    ensures Written(SHIPPED_LOOPBACK, ram, Output(ShippedChain(weights, images)), k)[512] == 0
  {
    hide Written, SumChannels, Output, ShippedSizes, OneWeight, OnePixel, ShippedChain, Inside;
    weights, images := OneWeight(), OnePixel();
    OneReady();
    OnePixelOutput();
    FirstSum(weights, images);
    FirstLoopbackWord(ShippedChain(weights, images), ram, k);
  }

  lemma FirstSum(weights: seq<int>, images: seq<seq<int>>)
    requires ShippedSizes(weights, images)
    ensures WellFormed(ShippedChain(weights, images)) && Inside(ShippedLayer(weights, images), 0, 0)
    ensures SumChannels(ShippedLayer(weights, images), 0, 0, 3) == Output(ShippedChain(weights, images))(328)
  {
    hide Register, SumChannels;
    ShippedProgramConvolves(weights, images, 0, 0);
  }

  lemma OnePixelOutput()
    ensures WellFormed(ShippedChain(OneWeight(), OnePixel()))
    ensures Output(ShippedChain(OneWeight(), OnePixel()))(327) == 0
    ensures Output(ShippedChain(OneWeight(), OnePixel()))(328) == 1
  {
    var c := ShippedChain(OneWeight(), OnePixel());
    OneReady();
    OnePixelBus();
    assert Group(c, 26) == 8;
    hide Output, Bus;
    LastTap(c, 327);
    LastTap(c, 328);
  }

  lemma FirstLoopbackWord(c: Chain<int>, ram: seq<int>, k: nat)
    requires WellFormed(c) && |c.weights| > 0 && |ram| >= 612 && k > 327
    ensures Closed(SHIPPED_LOOPBACK) && Written(SHIPPED_LOOPBACK, ram, Output(c), k)[512] == Output(c)(327)
  {
    WrittenWindow(SHIPPED_LOOPBACK, ram, Output(c), 327, 512, 100, k);
  }

  lemma OnePixelBus()
    ensures WellFormed(ShippedChain(OneWeight(), OnePixel()))
    ensures Bus(ShippedChain(OneWeight(), OnePixel()), 8, 326) == 0
    ensures Bus(ShippedChain(OneWeight(), OnePixel()), 8, 327) == 1
  {
    var c := ShippedChain(OneWeight(), OnePixel());
    assert ShippedSizes(OneWeight(), OnePixel());
    ShippedStaggered(OneWeight(), OnePixel());
    WaitTransferAfter(c.programs[8], 324, 20, 100, 325);
    WaitTransferAfter(c.programs[8], 324, 20, 100, 326);
    hide After;
  }
}
