/** The chain of multiply-accumulate registers and what it computes.

    The arithmetic is a parameter: results are stated in the order the hardware accumulates, so they
    hold for rounded arithmetic as well. */
module Systolic {
  import opened Arithmetic
  import opened DmaEngine

  datatype Arith<!E> = Arith(zero: E, add: (E, E) -> E, mul: (E, E) -> E)

  /** `groups` groups of `size` registers; group g has its own descriptor program and RAM. */
  datatype Chain<!E> = Chain(
    arith: Arith<E>, groups: nat, size: nat, weights: seq<E>, programs: seq<seq<Descriptor>>, rams: seq<seq<E>>)

  ghost predicate WellFormed<E>(c: Chain<E>) {
    && c.size > 0
    && |c.weights| == c.groups * c.size
    && |c.programs| == |c.rams| == c.groups
    && forall g :: 0 <= g < c.groups ==> Closed(c.programs[g])
  }

  lemma GroupOf(c: nat, size: nat, j: nat)
    requires size > 0 && j < c * size
    ensures j / size < c
  {
    if j / size >= c {
      MulMonotone(size, c, j / size);
    }
  }

  /** Register j belongs to this group. */
  function Group<E>(c: Chain<E>, j: nat): (g: nat)
    requires WellFormed(c) && j < |c.weights|
    ensures g < c.groups
  {
    GroupOf(c.groups, c.size, j);
    j / c.size
  }

  /** The pixel bus of group g after t enabled edges. */
  function Bus<E>(c: Chain<E>, g: nat, t: nat): E
    requires WellFormed(c) && g < c.groups
  {
    if t == 0 then c.arith.zero else StreamAt(c.programs[g], c.rams[g], c.arith.zero, t - 1)
  }

  /** Register j after t enabled edges; every edge reads what the previous edge left. */
  function Register<E>(c: Chain<E>, j: nat, t: nat): E
    requires WellFormed(c) && j < |c.weights|
    decreases t, 0
  {
    if t == 0 then c.arith.zero
    else c.arith.add(c.arith.mul(Bus(c, Group(c, j), t - 1), c.weights[j]), Carry(c, j, t - 1))
  }

  /** The partial sum register j reads: the register before it, or zero at the head of the chain. */
  function Carry<E>(c: Chain<E>, j: nat, t: nat): E
    requires WellFormed(c) && j < |c.weights|
    decreases t, 1
  {
    if j == 0 then c.arith.zero else Register(c, j - 1, t)
  }

  // ----- the window sum

  /** Group g waits wait + g * size edges, then sends `count` words of its RAM from starts[g] on. */
  ghost predicate Staggered<E>(c: Chain<E>, wait: nat, starts: seq<nat>, count: nat) {
    && WellFormed(c)
    && |starts| == c.groups
    && forall g :: 0 <= g < c.groups ==>
         IsWaitTransfer(c.programs[g], wait + g * c.size, starts[g], count) && starts[g] + count <= |c.rams[g]|
  }

  /** The word tap j multiplies in window n. */
  function Pixel<E>(c: Chain<E>, starts: seq<nat>, n: nat, j: nat): E
    requires WellFormed(c) && j < |c.weights| && |starts| == c.groups
    requires starts[Group(c, j)] + n + j % c.size < |c.rams[Group(c, j)]|
  {
    c.rams[Group(c, j)][starts[Group(c, j)] + n + j % c.size]
  }

  ghost predicate WindowInside<E>(c: Chain<E>, starts: seq<nat>, n: nat) {
    WellFormed(c) && |starts| == c.groups &&
    forall g :: 0 <= g < c.groups ==> starts[g] + n + c.size <= |c.rams[g]|
  }

  /** Window n over the first i taps, accumulated in the order of the chain. */
  ghost function Window<E>(c: Chain<E>, starts: seq<nat>, n: nat, i: nat): E
    requires WindowInside(c, starts, n) && i <= |c.weights|
  {
    if i == 0 then c.arith.zero
    else c.arith.add(c.arith.mul(Pixel(c, starts, n, i - 1), c.weights[i - 1]), Window(c, starts, n, i - 1))
  }

  /** The bus of tap j's group carries tap j's word of window n exactly when the partial sum arrives. */
  lemma PixelMeetsSum<E>(c: Chain<E>, wait: nat, starts: seq<nat>, count: nat, n: nat, j: nat)
    requires Staggered(c, wait, starts, count) && n + c.size <= count && j < |c.weights|
    requires WindowInside(c, starts, n)
    ensures Bus(c, Group(c, j), wait + n + j + 1) == Pixel(c, starts, n, j)
  {
    var g, p := Group(c, j), j % c.size;
    assert j == g * c.size + p;
    WaitTransferAfter(c.programs[g], wait + g * c.size, starts[g], count, wait + n + j);
  }

  /** The partial sum of window n leaves tap i - 1 after wait + n + i + 1 edges. */
  lemma {:induction false} PartialSum<E>(c: Chain<E>, wait: nat, starts: seq<nat>, count: nat, n: nat, i: nat)
    requires Staggered(c, wait, starts, count) && n + c.size <= count && i < |c.weights|
    requires WindowInside(c, starts, n)
    ensures Register(c, i, wait + n + i + 2) == Window(c, starts, n, i + 1)
  {
    PixelMeetsSum(c, wait, starts, count, n, i);
    if i > 0 {
      PartialSum(c, wait, starts, count, n, i - 1);
    }
  }

  lemma InsideTransfer<E>(c: Chain<E>, wait: nat, starts: seq<nat>, count: nat, n: nat)
    requires Staggered(c, wait, starts, count) && n + c.size <= count
    ensures WindowInside(c, starts, n)
  {
  }

  /** Latency: after edge number wait + groups * size + n, counted from 0, the last register of the
      chain holds window n, for every n inside the transfer. */
  lemma ChainComputesWindow<E>(c: Chain<E>, wait: nat, starts: seq<nat>, count: nat, n: nat)
    requires Staggered(c, wait, starts, count) && n + c.size <= count && c.groups > 0
    ensures |c.weights| > 0 && WindowInside(c, starts, n)
    ensures var edge := wait + c.groups * c.size + n;
            Register(c, |c.weights| - 1, edge + 1) == Window(c, starts, n, |c.weights|)
  {
    InsideTransfer(c, wait, starts, count, n);
    MulMonotone(c.size, 1, c.groups);
    PartialSum(c, wait, starts, count, n, |c.weights| - 1);
  }

  /** What a synchronous reader of the last register sees at edge m. */
  ghost function Output<E>(c: Chain<E>): nat -> E
    requires WellFormed(c) && |c.weights| > 0
  {
    (m: nat) => Register(c, |c.weights| - 1, m)
  }

  /** A loopback engine that waits `delay` edges stores window n in word n + wait + groups * size + 1 - delay
      of its area. */
  lemma LoopbackWord<E>(c: Chain<E>, wait: nat, starts: seq<nat>, count: nat, n: nat,
                        ds: seq<Descriptor>, delay: nat, base: nat, words: nat, ram: seq<E>, k: nat)
    requires Staggered(c, wait, starts, count) && n + c.size <= count && c.groups > 0
    requires IsWaitTransfer(ds, delay, base, words) && base + words <= |ram|
    requires delay <= wait + c.groups * c.size + 1 + n < k && n + wait + c.groups * c.size + 1 - delay < words
    ensures |c.weights| > 0 && WindowInside(c, starts, n)
    ensures var word := n + wait + c.groups * c.size + 1 - delay;
            Written(ds, ram, Output(c), k)[base + word] == Window(c, starts, n, |c.weights|)
  {
    hide Register, Window, Written;
    ChainComputesWindow(c, wait, starts, count, n);
    WrittenWindow(ds, ram, Output(c), delay, base, words, k);
  }
}
