/** The compute half of the accelerator as SystemC runs it: at a clock edge every register and DMA
    engine reads the values of before the edge, then the forwarding processes run delta cycle after
    delta cycle until no signal changes. */
module Accelerator {
  import opened Arithmetic
  import opened DmaEngine
  import opened Systolic

  /** What feeds the link into group g: the last register of the group before, or the constant zero. */
  function Source<E>(output: seq<E>, g: nat, size: nat, zero: E): E {
    if 0 < g * size <= |output| then output[g * size - 1] else zero
  }

  lemma LastOfGroup(groups: nat, size: nat, g: nat)
    requires size > 0 && 0 < g <= groups
    ensures 0 < g * size <= groups * size
  {
    MulMonotone(size, 1, g);
    MulMonotone(size, g, groups);
  }

  function Longest(hops: seq<nat>): (m: nat)
    ensures forall g :: 0 <= g < |hops| ==> hops[g] <= m
  {
    if hops == [] then 0
    else
      var m := Longest(hops[..|hops| - 1]);
      if m < hops[|hops| - 1] then hops[|hops| - 1] else m
  }

  ghost predicate AllAre<E>(s: seq<E>, d: nat, e: E) {
    forall i :: 0 <= i < |s| && i < d ==> s[i] == e
  }

  lemma EngineStep<E>(c: Chain<E>, g: nat, t: nat)
    requires WellFormed(c) && g < c.groups
    ensures var e := After(c.programs[g], t);
            && Bus(c, g, t + 1) == Sent(c.programs[g], e, c.rams[g], c.arith.zero)
            && After(c.programs[g], t + 1) == Next(c.programs[g], e)
  {
  }

  class Right<E(==)> {
    const arith: Arith<E>
    const groups: nat
    const size: nat
    const programs: seq<seq<Descriptor>>
    const rams: seq<seq<E>>
    const hops: seq<nat>   // forwarded signals before each group and, last, before the output stream

    const weights: array<E>
    const output: array<E>        // of each multiply-accumulate unit
    const pixel: array<E>         // the bus of each group
    const engine: array<Engine>   // the DMA engine of each group
    const link: array<seq<E>>     // link[g]: the signals between group g - 1, or the constant 0, and group g

    ghost predicate Shape() {
      && size > 0
      && weights.Length == output.Length == groups * size
      && pixel.Length == engine.Length == |programs| == |rams| == groups
      && link.Length == |hops| == groups + 1
      && weights != output && weights != pixel && output != pixel
      && (engine as object) != weights && (engine as object) != output && (engine as object) != pixel
      && (link as object) != weights && (link as object) != output && (link as object) != pixel &&
          (link as object) != engine
      && (forall g :: 0 <= g < groups ==> Closed(programs[g]))
      && (forall g :: 0 <= g <= groups ==> hops[g] > 0)
    }

    ghost predicate Linked()
      reads link
    {
      Shape() && forall g :: 0 <= g <= groups ==> |link[g]| == hops[g]
    }

    constructor (arith: Arith<E>, groups: nat, size: nat, programs: seq<seq<Descriptor>>, rams: seq<seq<E>>,
                 hops: seq<nat>)
      requires size > 0 && |programs| == |rams| == groups && |hops| == groups + 1
      requires forall g :: 0 <= g < groups ==> Closed(programs[g])
      requires forall g :: 0 <= g <= groups ==> hops[g] > 0
      ensures RegistersAt(0) && Settled()
      ensures fresh(weights) && fresh(output) && fresh(pixel) && fresh(engine) && fresh(link)
      ensures this.arith == arith && this.groups == groups && this.size == size
      ensures this.programs == programs && this.rams == rams && this.hops == hops
    {
      hide Register, Bus, After;
      this.arith, this.groups, this.size := arith, groups, size;
      this.programs, this.rams, this.hops := programs, rams, hops;
      weights := new E[groups * size](_ => arith.zero);
      output := new E[groups * size](_ => arith.zero);
      pixel := new E[groups](_ => arith.zero);
      engine := new Engine[groups](g requires 0 <= g < groups => Loaded(programs[g], 0));
      link := new seq<E>[groups + 1](g requires 0 <= g <= groups => seq(hops[g], _ => arith.zero));
      new;
      StartsAtZero();
      StartsSettled();
    }

    lemma StartsAtZero()
      requires Shape()
      requires forall j :: 0 <= j < output.Length ==> output[j] == arith.zero
      requires forall g :: 0 <= g < groups ==> pixel[g] == arith.zero && engine[g] == Loaded(programs[g], 0)
      ensures RegistersAt(0)
    {
    }

    lemma StartsSettled()
      requires Linked()
      requires forall j :: 0 <= j < output.Length ==> output[j] == arith.zero
      requires forall g :: 0 <= g <= groups ==> AllAre(link[g], |link[g]|, arith.zero)
      ensures Settled()
    {
    }

    /** The chain with the weights loaded now. */
    function Now(): Chain<E>
      reads weights
    {
      Chain(arith, groups, size, weights[..], programs, rams)
    }

    /** The registers are those of the specification after t edges. */
    ghost predicate RegistersAt(t: nat)
      reads weights, output, pixel, engine
    {
      && Shape()
      && (forall j :: 0 <= j < output.Length ==> output[j] == Register(Now(), j, t))
      && (forall g :: 0 <= g < groups ==> pixel[g] == Bus(Now(), g, t))
      && (forall g :: 0 <= g < groups ==> engine[g] == After(programs[g], t))
    }

    /** What feeds link g. */
    function Fed(g: nat): E
      reads output
    {
      Source(output[..], g, size, arith.zero)
    }

    /** The first d signals of every link carry what feeds it. */
    ghost predicate SettledTo(d: nat)
      reads link, output
    {
      Linked() && forall g :: 0 <= g <= groups ==> AllAre(link[g], d, Fed(g))
    }

    ghost predicate Settled()
      reads link, output
    {
      Linked() && forall g :: 0 <= g <= groups ==> AllAre(link[g], |link[g]|, Fed(g))
    }

    /** The first weights given replace those of group g; there may be fewer or more than it has registers. */
    method LoadWeights(g: nat, ws: seq<E>)
      requires Shape() && g < groups
      modifies weights
      ensures forall j :: 0 <= j < weights.Length ==>
                weights[j] == if 0 <= j - First(g) < size && j - First(g) < |ws| then ws[j - First(g)]
                    else old(weights[j])
      ensures old(RegistersAt(0)) ==> RegistersAt(0)
    {
      FirstFits(g);
      hide First;
      var first, n, i := First(g), size, 0;
      assert first + n <= weights.Length;
      while i < n && i < |ws|
        invariant 0 <= i <= n && i <= |ws|
        invariant forall j :: 0 <= j < weights.Length ==>
                    weights[j] == if 0 <= j - first < i then ws[j - first] else old(weights[j])
      {
        weights[first + i] := ws[i];
        i := i + 1;
      }
    }

    /** The first register of group g. */
    function First(g: nat): nat {
      g * size
    }

    lemma FirstFits(g: nat)
      requires size > 0 && g < groups
      ensures First(g) + size <= groups * size
    {
      LastOfGroup(groups, size, g + 1);
    }

    /** The partial sum unit j reads: the link into its group, or the unit before it in the group. */
    function PartialIn(j: nat): E
      requires Linked() && j < output.Length
      reads link, output
    {
      GroupOf(groups, size, j);
      if j % size == 0 then link[j / size][hops[j / size] - 1] else output[j - 1]
    }

    /** What unit j computes at a clock edge. */
    function Accumulated(j: nat): E
      requires Linked() && j < output.Length
      reads link, output, pixel, weights
    {
      GroupOf(groups, size, j);
      arith.add(arith.mul(pixel[j / size], weights[j]), PartialIn(j))
    }

    lemma AccumulatedIsRegister(j: nat, t: nat)
      requires RegistersAt(t) && Settled() && j < output.Length
      ensures Accumulated(j) == Register(Now(), j, t + 1)
    {
      GroupOf(groups, size, j);
      var g := j / size;
      if j % size == 0 {
        assert j == g * size;
        assert AllAre(link[g], |link[g]|, Fed(g));
      }
      assert PartialIn(j) == Carry(Now(), j, t);
      assert pixel[g] == Bus(Now(), g, t);
    }

    method EvaluateUnits() returns (values: array<E>)
      requires Linked()
      ensures fresh(values) && values.Length == output.Length
      ensures forall j :: 0 <= j < output.Length ==> values[j] == Accumulated(j)
    {
      hide Accumulated;
      values := new E[output.Length](_ => arith.zero);
      for j := 0 to output.Length
        invariant forall i :: 0 <= i < j ==> values[i] == Accumulated(i)
      {
        values[j] := Accumulated(j);
      }
    }

    method EvaluateEngines(ghost t: nat) returns (pixels: array<E>, engines: array<Engine>)
      requires RegistersAt(t)
      ensures fresh(pixels) && fresh(engines) && pixels.Length == engines.Length == groups
      ensures forall g :: 0 <= g < groups ==> pixels[g] == Bus(Now(), g, t + 1)
      ensures forall g :: 0 <= g < groups ==> engines[g] == After(programs[g], t + 1)
    {
      hide Register, Bus, After, Next;
      pixels, engines := new E[groups](_ => arith.zero), new Engine[groups](_ => Engine(0, 0, 0));
      for g := 0 to groups
        invariant forall i :: 0 <= i < g ==> pixels[i] == Bus(Now(), i, t + 1)
        invariant forall i :: 0 <= i < g ==> engines[i] == After(programs[i], t + 1)
      {
        EngineStep(Now(), g, t);
        var e := engine[g];
        pixels[g] := Sent(programs[g], e, rams[g], arith.zero);
        engines[g] := Next(programs[g], e);
      }
    }

    /** One clock edge with enable high: every value read is the one of before the edge. */
    method Edge(ghost t: nat)
      requires RegistersAt(t) && Settled()
      modifies output, pixel, engine
      ensures RegistersAt(t + 1)
    {
      var values := EvaluateUnits();
      var pixels, engines := EvaluateEngines(t);
      forall j | 0 <= j < output.Length ensures values[j] == Register(Now(), j, t + 1) {
        AccumulatedIsRegister(j, t);
      }
      hide Register, Bus, After;
      Commit(values, pixels, engines);
    }

    /** The update phase of the edge. */
    method Commit(values: array<E>, pixels: array<E>, engines: array<Engine>)
      requires Shape() && values.Length == output.Length && pixels.Length == engines.Length == groups
      requires {values as object, pixels, engines} !! {output as object, pixel, engine}
      modifies output, pixel, engine
      ensures forall j :: 0 <= j < output.Length ==> output[j] == old(values[j])
      ensures forall g :: 0 <= g < groups ==> pixel[g] == old(pixels[g]) && engine[g] == old(engines[g])
    {
      forall j | 0 <= j < output.Length { output[j] := values[j]; }
      forall g | 0 <= g < groups { pixel[g] := pixels[g]; }
      forall g | 0 <= g < groups { engine[g] := engines[g]; }
    }

    /** One delta cycle: every forwarding process copies the signal before it. */
    method Delta(ghost d: nat) returns (changed: bool)
      requires SettledTo(d)
      modifies link
      ensures SettledTo(d + 1)
      ensures !changed ==> Settled()
      ensures old(Settled()) ==> !changed
    {
      changed := false;
      for g := 0 to groups + 1
        invariant Linked()
        invariant forall h :: g <= h <= groups ==> link[h] == old(link[h])
        invariant forall h :: 0 <= h < g ==> AllAre(link[h], d + 1, Fed(h))
        invariant changed || forall h :: 0 <= h < g ==> AllAre(link[h], |link[h]|, Fed(h))
        invariant old(Settled()) ==> !changed
      {
        hide AllAre, Source;
        var source := Feed(g);
        var next := [source] + link[g][..hops[g] - 1];
        Shifted(link[g], next, d, source);
        if next != link[g] {
          changed := true;
        }
        link[g] := next;
      }
    }

    static lemma Shifted(s: seq<E>, next: seq<E>, d: nat, source: E)
      requires s != [] && next == [source] + s[..|s| - 1] && AllAre(s, d, source)
      ensures AllAre(next, d + 1, source)
      ensures next == s <==> AllAre(s, |s|, source)
    {
      if next == s {
        Constant(s, |s|);
      }
    }

    static lemma {:induction false} Constant(s: seq<E>, n: nat)
      requires 0 < n <= |s| && s == [s[0]] + s[..|s| - 1]
      ensures AllAre(s, n, s[0])
    {
      if n > 1 {
        Constant(s, n - 1);
        assert s[n - 1] == ([s[0]] + s[..|s| - 1])[n - 1];
      }
    }

    method Feed(g: nat) returns (e: E)
      requires Shape() && g <= groups
      ensures e == Fed(g)
    {
      if g == 0 {
        e := arith.zero;
      } else {
        LastOfGroup(groups, size, g);
        e := output[g * size - 1];
      }
    }

    /** Delta cycles until no signal changes. */
    method Settle()
      requires Linked()
      modifies link
      ensures Settled()
    {
      hide Source;
      ghost var d, longest: nat := 0, Longest(hops);
      var changed := true;
      while changed
        invariant SettledTo(d) && (changed || Settled()) && (d <= longest || !changed)
        decreases longest + 1 - d
      {
        assert d == longest ==> Settled();
        var more := Delta(d);
        changed, d := more, d + 1;
      }
    }

    /** n enabled edges from the initial state leave in every register what the specification says, and
        the output stream carries the last register. */
    method Run(n: nat)
      requires RegistersAt(0) && Settled()
      modifies output, pixel, engine, link
      ensures RegistersAt(n) && Settled()
      ensures groups > 0 ==>
                output.Length > 0 && link[groups][hops[groups] - 1] == Register(Now(), output.Length - 1, n)
    {
      hide Register, Bus, After;
      for t := 0 to n
        invariant RegistersAt(t) && Settled()
      {
        Edge(t);
        Settle();
      }
      LastOfStream();
    }

    /** After edge number wait + groups * size + n, counted from 0, the output stream carries window n. */
    method RunToWindow(wait: nat, ghost starts: seq<nat>, ghost count: nat, n: nat)
      requires RegistersAt(0) && Settled() && groups > 0
      requires Staggered(Now(), wait, starts, count) && n + size <= count
      modifies output, pixel, engine, link
      ensures Settled() && WindowInside(Now(), starts, n)
      ensures link[groups][hops[groups] - 1] == Window(Now(), starts, n, output.Length)
    {
      hide Register, Bus, After, Window, Staggered;
      Run(wait + groups * size + n + 1);
      ChainComputesWindow(Now(), wait, starts, count, n);
    }

    lemma LastOfStream()
      requires Settled()
      ensures groups > 0 ==> output.Length > 0 && link[groups][hops[groups] - 1] == output[output.Length - 1]
    {
      if groups > 0 {
        LastOfGroup(groups, size, groups);
        assert AllAre(link[groups], |link[groups]|, Fed(groups));
      }
    }
  }
}
