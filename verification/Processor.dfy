/** The whole accelerator: the source memory, the engines that split it over the RAMs, the chain that
    reads the RAMs and the engine that writes the windows back, all moved by one clock. */
module Processor {
  import opened Arithmetic
  import opened MachineTypes
  import opened DmaEngine
  import opened Systolic

  /** `late(m, g)`: at edge m the engine of group g runs after the engines that write; g == groups is the
      engine of the source.  Processes of one edge run in any order. */
  datatype Processor<!E> = Processor(
    arith: Arith<E>, groups: nat, size: nat, weights: seq<E>, n: U32, fills: seq<seq<Descriptor>>,
    programs: seq<seq<Descriptor>>, ramOf: seq<nat>, back: seq<Descriptor>,
    source: seq<E>, rams: seq<seq<E>>, late: (nat, nat) -> bool)

  /** What the parts hold after an edge: memories, the stream of the source, the buses and the registers. */
  datatype Board<E> = Board(source: seq<E>, rams: seq<seq<E>>, stream: E, pixels: seq<E>, registers: seq<E>)

  ghost predicate WellWired<E>(p: Processor<E>) {
    && p.size > 0 && p.groups > 0 && p.n > 0
    && |p.weights| == p.groups * p.size > 0
    && |p.programs| == |p.ramOf| == p.groups && |p.fills| == |p.rams|
    && (forall g :: 0 <= g < p.groups ==> Closed(p.programs[g]) && p.ramOf[g] < |p.rams|)
    && (forall i :: 0 <= i < |p.fills| ==> Closed(p.fills[i]))
    && Closed(p.back)
  }

  ghost predicate Shaped<E>(p: Processor<E>, b: Board<E>) {
    |b.rams| == |p.rams| && |b.pixels| == p.groups && |b.registers| == |p.weights|
  }

  function Accumulate<E>(p: Processor<E>, b: Board<E>, j: nat): E
    requires WellWired(p) && Shaped(p, b) && j < |p.weights|
  {
    GroupOf(p.groups, p.size, j);
    p.arith.add(p.arith.mul(b.pixels[j / p.size], p.weights[j]),
                if j == 0 then p.arith.zero else b.registers[j - 1])
  }

  /** Enabled edge number m. */
  function Step<E>(p: Processor<E>, b: Board<E>, m: nat): (b': Board<E>)
    requires WellWired(p) && Shaped(p, b)
    ensures Shaped(p, b')
  {
    var source := Store(p.back, m, b.source, b.registers[|p.weights| - 1]);
    var rams := seq(|p.rams|, i requires 0 <= i < |p.rams| => Store(p.fills[i], m, b.rams[i], b.stream));
    Board(source, rams,
          StreamAt(Cyclic(p.n), if p.late(m, p.groups) then source else b.source, p.arith.zero, m),
          seq(p.groups, g requires 0 <= g < p.groups =>
            StreamAt(p.programs[g], if p.late(m, g) then rams[p.ramOf[g]] else b.rams[p.ramOf[g]], p.arith.zero, m)),
          seq(|p.weights|, j requires 0 <= j < |p.weights| => Accumulate(p, b, j)))
  }

  /** The board after t enabled edges. */
  function At<E>(p: Processor<E>, t: nat): (b: Board<E>)
    requires WellWired(p)
    ensures Shaped(p, b)
  {
    if t == 0 then
      Board(p.source, p.rams, p.arith.zero, seq(p.groups, _ => p.arith.zero), seq(|p.weights|, _ => p.arith.zero))
    else Step(p, At(p, t - 1), t - 1)
  }

  /** What the engines that receive the source's stream see at edge m. */
  ghost function Stream<E>(p: Processor<E>): nat -> E
    requires WellWired(p)
  {
    (m: nat) => At(p, m).stream
  }

  /** What the loopback engine sees at edge m. */
  ghost function StreamOut<E>(p: Processor<E>): nat -> E
    requires WellWired(p)
  {
    (m: nat) => At(p, m).registers[|p.weights| - 1]
  }

  lemma Start<E>(p: Processor<E>)
    requires WellWired(p)
    ensures At(p, 0).source == p.source && At(p, 0).rams == p.rams
    ensures forall g :: 0 <= g < p.groups ==> At(p, 0).pixels[g] == p.arith.zero
    ensures forall j :: 0 <= j < |p.weights| ==> At(p, 0).registers[j] == p.arith.zero
  {
  }

  lemma NextSource<E>(p: Processor<E>, t: nat)
    requires WellWired(p)
    ensures At(p, t + 1).source == Store(p.back, t, At(p, t).source, StreamOut(p)(t))
  {
    hide Store, Written;
  }

  lemma NextRam<E>(p: Processor<E>, i: nat, t: nat)
    requires WellWired(p) && i < |p.rams|
    ensures At(p, t + 1).rams[i] == Store(p.fills[i], t, At(p, t).rams[i], Stream(p)(t))
  {
    hide Store, Written;
  }

  lemma NextPixel<E>(p: Processor<E>, g: nat, t: nat)
    requires WellWired(p) && g < p.groups
    ensures At(p, t + 1).pixels[g] == StreamAt(p.programs[g], At(p, t).rams[p.ramOf[g]], p.arith.zero, t)
         || At(p, t + 1).pixels[g] == StreamAt(p.programs[g], At(p, t + 1).rams[p.ramOf[g]], p.arith.zero, t)
  {
    hide Store, StreamAt;
  }

  lemma {:induction false} SourceAt<E>(p: Processor<E>, t: nat)
    requires WellWired(p)
    ensures At(p, t).source == Written(p.back, p.source, StreamOut(p), t)
  {
    hide At, Store, StreamOut, Closed, After, WellWired, Shaped, Step, Accumulate;
    Start(p);
    if t > 0 {
      SourceAt(p, t - 1);
      NextSource(p, t - 1);
    }
  }

  lemma {:induction false} RamAt<E>(p: Processor<E>, i: nat, t: nat)
    requires WellWired(p) && i < |p.rams|
    ensures At(p, t).rams[i] == Written(p.fills[i], p.rams[i], Stream(p), t)
  {
    hide At, Store, Stream, Closed, After, WellWired, Shaped, Step, Accumulate;
    Start(p);
    if t > 0 {
      RamAt(p, i, t - 1);
      NextRam(p, i, t - 1);
    }
  }

  // ----- the schedule

  /** The descriptor programs of the whole accelerator. */
  datatype Schedule = Schedule(s: nat, parts: nat, wait: nat, starts: seq<nat>, count: nat,
                               delay: nat, base: nat, words: nat)

  /** The source sends parts of s words, one for each RAM; group g starts after its RAM is complete; the
      windows go behind the words that are sent. */
  ghost predicate Scheduled<E>(p: Processor<E>, d: Schedule) {
    && WellWired(p) && 0 < d.s && p.n == d.s * d.parts && |p.rams| == d.parts && |d.starts| == p.groups
    && (forall i :: 0 <= i < d.parts ==> d.s <= |p.rams[i]| && IsWaitTransfer(p.fills[i], FillWait(d, i), 0, d.s))
    && (forall g :: 0 <= g < p.groups ==> GroupScheduled(p, d, g))
    && IsWaitTransfer(p.back, d.delay, d.base, d.words)
    && p.n <= d.base && d.base + d.words <= |p.source|
  }

  function FillWait(d: Schedule, i: nat): nat {
    1 + d.s * i
  }

  ghost predicate GroupScheduled<E>(p: Processor<E>, d: Schedule, g: nat)
    requires WellWired(p) && g < p.groups == |d.starts| && |p.rams| == d.parts
  {
    && IsWaitTransfer(p.programs[g], d.wait + g * p.size, d.starts[g], d.count)
    && d.starts[g] + d.count <= |p.rams[p.ramOf[g]]|
    && FillWait(d, p.ramOf[g] + 1) <= d.wait + g * p.size
  }

  lemma PartInside<E>(p: Processor<E>, d: Schedule, i: nat)
    requires Scheduled(p, d) && i < d.parts
    ensures 0 <= d.s * i && d.s * i + d.s <= p.n <= |p.source|
  {
    MulMonotone(d.s, i + 1, d.parts);
  }

  /** What RAM i holds from the edge on at which it is complete. */
  function Complete<E>(p: Processor<E>, d: Schedule, i: nat): (r: seq<E>)
    requires Scheduled(p, d) && i < d.parts
    ensures |r| == |p.rams[i]|
  {
    PartInside(p, d, i);
    WithPart(p.source, d.s, i, p.rams[i])
  }

  /** The words sent are never overwritten. */
  lemma SourceKept<E>(p: Processor<E>, d: Schedule, t: nat, a: nat)
    requires Scheduled(p, d) && a < p.n
    ensures |At(p, t).source| == |p.source| && At(p, t).source[a] == p.source[a]
  {
    hide At, Written, GroupScheduled;
    SourceAt(p, t);
    WrittenWindow(p.back, p.source, StreamOut(p), d.delay, d.base, d.words, t);
  }

  lemma StreamIs<E>(p: Processor<E>, d: Schedule, m: nat)
    requires Scheduled(p, d) && m < p.n
    ensures At(p, m + 1).stream == p.source[m]
  {
    hide GroupScheduled, IsWaitTransfer;
    SourceKept(p, d, m, m);
    SourceKept(p, d, m + 1, m);
    FirstPass(p.n, At(p, m).source, p.arith.zero, m);
    FirstPass(p.n, At(p, m + 1).source, p.arith.zero, m);
  }

  lemma StreamCarries<E>(p: Processor<E>, d: Schedule)
    requires Scheduled(p, d)
    ensures CarriesFirstPass(Stream(p), p.source, p.n)
  {
    hide Scheduled, WellWired, At;
    NotBeyond(p, d);
    forall m: nat | 1 <= m <= p.n ensures At(p, m).stream == p.source[m - 1] {
      StreamIs(p, d, m - 1);
    }
  }

  lemma NotBeyond<E>(p: Processor<E>, d: Schedule)
    requires Scheduled(p, d)
    ensures WellWired(p) && p.n == d.s * d.parts <= |p.source| && 0 < d.s
  {
  }

  lemma FillOf<E>(p: Processor<E>, d: Schedule, i: nat)
    requires Scheduled(p, d) && i < d.parts
    ensures i < |p.rams| == |p.fills| && d.s <= |p.rams[i]| && IsWaitTransfer(p.fills[i], FillWait(d, i), 0, d.s)
  {
  }

  /** From then on RAM i holds its part of the source, and behind it what it held before. */
  lemma RamComplete<E>(p: Processor<E>, d: Schedule, i: nat, t: nat)
    requires Scheduled(p, d) && i < d.parts && t >= FillWait(d, i + 1)
    ensures At(p, t).rams[i] == Complete(p, d, i)
  {
    hide Scheduled, At, Written, WithPart, IsWaitTransfer, WellWired, Stream;
    NotBeyond(p, d);
    FillOf(p, d, i);
    PartInside(p, d, i);
    RamAt(p, i, t);
    StreamCarries(p, d);
    StaggeredSplit(d.s, d.parts, p.source, Stream(p), p.fills[i], i, p.rams[i], t);
  }

  /** The chain over complete RAMs. */
  function Final<E>(p: Processor<E>, d: Schedule): Chain<E>
    requires Scheduled(p, d)
  {
    Chain(p.arith, p.groups, p.size, p.weights, p.programs,
          seq(p.groups, g requires 0 <= g < p.groups => Complete(p, d, p.ramOf[g])))
  }

  lemma FinalStaggered<E>(p: Processor<E>, d: Schedule)
    requires Scheduled(p, d)
    ensures Staggered(Final(p, d), d.wait, d.starts, d.count)
  {
    hide Complete, IsWaitTransfer, Closed;
    forall g | 0 <= g < p.groups ensures GroupScheduled(p, d, g) && |Final(p, d).rams[g]| == |p.rams[p.ramOf[g]]| {
    }
  }

  lemma GroupOfSchedule<E>(p: Processor<E>, d: Schedule, g: nat)
    requires Scheduled(p, d) && g < p.groups
    ensures g < |p.programs| == |p.ramOf| == |d.starts| && p.ramOf[g] < d.parts == |p.rams| && GroupScheduled(p, d, g)
    ensures WellFormed(Final(p, d)) && g < Final(p, d).groups
    ensures Final(p, d).rams[g] == Complete(p, d, p.ramOf[g]) && Final(p, d).programs[g] == p.programs[g]
  {
    FinalStaggered(p, d);
  }

  /** A group only reads its RAM when it is complete, before or after the writes of the edge. */
  lemma PixelAt<E>(p: Processor<E>, d: Schedule, g: nat, t: nat)
    requires Scheduled(p, d) && g < p.groups
    ensures WellFormed(Final(p, d)) && At(p, t).pixels[g] == Bus(Final(p, d), g, t)
  {
    hide Scheduled, WellFormed, WellWired, At, Complete, Closed, Final, After, IsWaitTransfer, Shaped, Step, Accumulate,
         GroupScheduled, FillWait;
    NotBeyond(p, d);
    GroupOfSchedule(p, d, g);
    Start(p);
    SameShape(p, d);
    if t > 0 {
      var k := t - 1;
      NextPixel(p, g, k);
      WaitTransferAfter(p.programs[g], d.wait + g * p.size, d.starts[g], d.count, k);
      if d.wait + g * p.size <= k {
        RamComplete(p, d, p.ramOf[g], k);
        RamComplete(p, d, p.ramOf[g], k + 1);
      }
    }
  }

  lemma NextRegister<E>(p: Processor<E>, j: nat, t: nat)
    requires WellWired(p) && j < |p.weights|
    ensures At(p, t + 1).registers[j] == Accumulate(p, At(p, t), j)
  {
    hide Store, StreamAt, Accumulate;
  }

  lemma RegisterNext<E>(c: Chain<E>, j: nat, t: nat)
    requires WellFormed(c) && j < |c.weights|
    ensures j / c.size < c.groups
    ensures Register(c, j, 0) == c.arith.zero
    ensures Register(c, j, t + 1) ==
            c.arith.add(c.arith.mul(Bus(c, j / c.size, t), c.weights[j]),
                        if j == 0 then c.arith.zero else Register(c, j - 1, t))
  {
    hide Bus, Closed;
    assert Group(c, j) == j / c.size;
  }

  lemma SameShape<E>(p: Processor<E>, d: Schedule)
    requires Scheduled(p, d)
    ensures WellFormed(Final(p, d)) && Final(p, d).arith == p.arith && Final(p, d).weights == p.weights
    ensures Final(p, d).size == p.size && Final(p, d).groups == p.groups
  {
    FinalStaggered(p, d);
  }

  /** The registers of the running accelerator are those of the chain over complete RAMs, at every edge. */
  lemma {:induction false} RegisterAt<E>(p: Processor<E>, d: Schedule, j: nat, t: nat)
    requires Scheduled(p, d) && j < |p.weights|
    ensures WellFormed(Final(p, d)) && At(p, t).registers[j] == Register(Final(p, d), j, t)
    decreases t
  {
    hide Register, Bus, Scheduled, WellFormed, WellWired, At, Final;
    NotBeyond(p, d);
    SameShape(p, d);
    Start(p);
    if t == 0 {
      RegisterNext(Final(p, d), j, 0);
    } else {
      RegisterNext(Final(p, d), j, t - 1);
      NextRegister(p, j, t - 1);
      PixelAt(p, d, j / p.size, t - 1);
      if j > 0 {
        RegisterAt(p, d, j - 1, t - 1);
      }
    }
  }

  /** The source memory after any number of edges: each word of the loopback area holds the last register of
      one edge, and every other word is what it was. */
  lemma SourceExactly<E>(p: Processor<E>, d: Schedule, t: nat, a: nat)
    requires Scheduled(p, d) && a < |p.source|
    ensures WellFormed(Final(p, d)) && |At(p, t).source| == |p.source|
    ensures At(p, t).source[a] ==
            if d.base <= a < d.base + d.words && d.delay + (a - d.base) < t
            then Register(Final(p, d), |p.weights| - 1, d.delay + (a - d.base)) else p.source[a]
  {
    hide Scheduled, WellFormed, WellWired, At, Written, Register, IsWaitTransfer, Closed, After, Shaped, Step,
         Accumulate, Final;
    NotBeyond(p, d);
    GroupOfSchedule(p, d, 0);
    BackOf(p, d);
    SourceAt(p, t);
    WrittenWindow(p.back, p.source, StreamOut(p), d.delay, d.base, d.words, t);
    if d.base <= a < d.base + d.words {
      RegisterAt(p, d, |p.weights| - 1, d.delay + (a - d.base));
    }
  }

  lemma BackOf<E>(p: Processor<E>, d: Schedule)
    requires Scheduled(p, d)
    ensures IsWaitTransfer(p.back, d.delay, d.base, d.words) && p.n <= d.base && d.base + d.words <= |p.source|
    ensures p.groups > 0 && |p.weights| > 0
  {
  }

  /** End to end: the source is split, convolved and written back while it goes on being sent, and window n
      over the parts is in its word of the loopback area. */
  lemma WindowWrittenBack<E>(p: Processor<E>, d: Schedule, n: nat, t: nat)
    requires Scheduled(p, d) && n + p.size <= d.count
    requires d.delay <= n + d.wait + p.groups * p.size + 1 < d.delay + d.words
    requires t > n + d.wait + p.groups * p.size + 1
    ensures WindowInside(Final(p, d), d.starts, n) && |At(p, t).source| == |p.source|
    ensures At(p, t).source[d.base + (n + d.wait + p.groups * p.size + 1 - d.delay)] ==
            Window(Final(p, d), d.starts, n, |p.weights|)
  {
    hide At, Register, Window;
    FinalStaggered(p, d);
    ChainComputesWindow(Final(p, d), d.wait, d.starts, d.count, n);
    var a := d.base + (n + d.wait + p.groups * p.size + 1 - d.delay);
    SourceExactly(p, d, t, a);
  }
}
