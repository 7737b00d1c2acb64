/** The descriptor-driven DMA engine: its state from edge to edge and after any number of edges. */
module DmaEngine {
  import opened Arithmetic
  import opened MachineTypes

  const WORDS := 0x1_0000_0000

  const SUSPENDED: U32 := 0
  const TRANSFER: U32 := 1

  /** Any state but SUSPENDED and TRANSFER waits, TRANSFER_WITH_FORWARD included. */
  datatype Descriptor = Descriptor(next: U32, start: U32, state: U32, xCount: U32, xModify: U32)

  /** execute_index, current_ram_index and x_count_remaining. */
  datatype Engine = Engine(index: U32, ramIndex: U32, remaining: U32)

  /** Descriptors only lead to descriptors. */
  ghost predicate Closed(ds: seq<Descriptor>) {
    0 < |ds| <= WORDS && forall i :: 0 <= i < |ds| ==> ds[i].next < |ds|
  }

  ghost predicate Fits(ds: seq<Descriptor>, e: Engine) {
    Closed(ds) && e.index < |ds|
  }

  function Loaded(ds: seq<Descriptor>, i: U32): Engine
    requires i < |ds|
  {
    Engine(i, ds[i].start, ds[i].xCount)
  }

  predicate Transfers(ds: seq<Descriptor>, e: Engine)
    requires e.index < |ds|
  {
    ds[e.index].state == TRANSFER
  }

  /** One enabled clock edge. */
  function Next(ds: seq<Descriptor>, e: Engine): (e': Engine)
    requires Fits(ds, e)
    ensures Fits(ds, e')
  {
    var d := ds[e.index];
    if d.state == SUSPENDED then e
    else
      var remaining := (e.remaining - 1) % WORDS;
      if remaining == 0 then Loaded(ds, d.next)
      else Engine(e.index, if d.state == TRANSFER then (e.ramIndex + d.xModify) % WORDS else e.ramIndex, remaining)
  }

  /** The state after k enabled edges. */
  function After(ds: seq<Descriptor>, k: nat): (e: Engine)
    requires Closed(ds)
    ensures Fits(ds, e)
  {
    if k == 0 then Loaded(ds, 0) else Next(ds, After(ds, k - 1))
  }

  /** Edges a descriptor lasts; the counter is tested after it is decremented, so 0 lasts 2^32 edges. */
  function Cycles(d: Descriptor): (n: nat)
    ensures n > 0
  {
    if d.xCount == 0 then WORDS else d.xCount
  }

  /** Follow the chain of descriptors from i for k edges: the descriptor reached and how long it has run. */
  function Locate(ds: seq<Descriptor>, i: U32, k: nat): (r: (U32, nat))
    requires Closed(ds) && i < |ds|
    ensures r.0 < |ds| && if ds[r.0].state == SUSPENDED then r.1 == 0 else r.1 < Cycles(ds[r.0])
    decreases k
  {
    if ds[i].state == SUSPENDED then (i, 0)
    else if k < Cycles(ds[i]) then (i, k)
    else Locate(ds, ds[i].next, k - Cycles(ds[i]))
  }

  /** The state of descriptor i when it has run for j edges. */
  function Within(ds: seq<Descriptor>, i: U32, j: nat): Engine
    requires i < |ds|
  {
    Engine(i, if ds[i].state == TRANSFER then RamIndexAt(ds[i], j) else ds[i].start, RemainingAt(ds[i], j))
  }

  function RamIndexAt(d: Descriptor, j: nat): U32 {
    (d.start + j * d.xModify) % WORDS
  }

  function RemainingAt(d: Descriptor, j: nat): U32 {
    (d.xCount - j) % WORDS
  }

  lemma ModPlus(a: int, b: int)
    ensures (a % WORDS + b) % WORDS == (a + b) % WORDS
  {
  }

  lemma CountDown(d: Descriptor, j: nat)
    requires j < Cycles(d)
    ensures (RemainingAt(d, j) - 1) % WORDS == RemainingAt(d, j + 1)
    ensures RemainingAt(d, j + 1) == 0 <==> j + 1 == Cycles(d)
  {
    ModPlus(d.xCount - j, -1);
  }

  lemma StepUp(d: Descriptor, j: nat)
    ensures (RamIndexAt(d, j) + d.xModify) % WORDS == RamIndexAt(d, j + 1)
  {
    var p := j * d.xModify;
    ModPlus(d.start + p, d.xModify);
    assert (j + 1) * d.xModify == p + d.xModify;
  }

  lemma WithinNext(ds: seq<Descriptor>, i: U32, j: nat)
    requires Closed(ds) && i < |ds| && ds[i].state != SUSPENDED && j < Cycles(ds[i])
    ensures Next(ds, Within(ds, i, j)) ==
            if j + 1 == Cycles(ds[i]) then Loaded(ds, ds[i].next) else Within(ds, i, j + 1)
  {
    hide RamIndexAt, RemainingAt;
    CountDown(ds[i], j);
    StepUp(ds[i], j);
  }

  lemma {:induction false} LocateNext(ds: seq<Descriptor>, i: U32, k: nat)
    requires Closed(ds) && i < |ds|
    ensures var (a, j) := Locate(ds, i, k);
            Locate(ds, i, k + 1) ==
            if ds[a].state == SUSPENDED then (a, 0)
            else if j + 1 < Cycles(ds[a]) then (a, j + 1)
            else Locate(ds, ds[a].next, 0)
    decreases k
  {
    if ds[i].state != SUSPENDED && k >= Cycles(ds[i]) {
      LocateNext(ds, ds[i].next, k - Cycles(ds[i]));
    }
  }

  lemma WithinStart(ds: seq<Descriptor>, i: U32)
    requires Closed(ds) && i < |ds|
    ensures Within(ds, i, 0) == Loaded(ds, i)
    ensures ds[i].state == SUSPENDED ==> Next(ds, Within(ds, i, 0)) == Within(ds, i, 0)
  {
  }

  /** After k edges the engine is where the unrolled chain of descriptors says, for any program. */
  lemma {:induction false} EngineFollowsChain(ds: seq<Descriptor>, k: nat)
    requires Closed(ds)
    ensures var (i, j) := Locate(ds, 0, k); After(ds, k) == Within(ds, i, j)
  {
    hide Within, Next;
    if k == 0 {
      WithinStart(ds, 0);
    } else {
      EngineFollowsChain(ds, k - 1);
      LocateNext(ds, 0, k - 1);
      var (i, j) := Locate(ds, 0, k - 1);
      WithinStart(ds, ds[i].next);
      if ds[i].state == SUSPENDED {
        WithinStart(ds, i);
      } else {
        WithinNext(ds, i, j);
      }
    }
  }

  // ----- the values that pass

  /** What an MM2S engine in state e puts on its stream at an enabled edge. */
  function Sent<E>(ds: seq<Descriptor>, e: Engine, ram: seq<E>, zero: E): E
    requires e.index < |ds|
  {
    if Transfers(ds, e) && e.ramIndex < |ram| then ram[e.ramIndex] else zero
  }

  /** What an MM2S engine puts on its stream at edge k, counted from 0. */
  function StreamAt<E>(ds: seq<Descriptor>, ram: seq<E>, zero: E, k: nat): E
    requires Closed(ds)
  {
    Sent(ds, After(ds, k), ram, zero)
  }

  /** WAIT for `wait` edges, TRANSFER `count` words from `start`, then stop. */
  ghost predicate IsWaitTransfer(ds: seq<Descriptor>, wait: nat, start: nat, count: nat) {
    && |ds| == 3 && Closed(ds)
    && wait > 0 && count > 0 && start + count <= WORDS
    && ds[0].state != SUSPENDED && ds[0].state != TRANSFER && ds[0].xCount == wait && ds[0].next == 1
    && ds[1].state == TRANSFER && ds[1].start == start && ds[1].xCount == count && ds[1].xModify == 1 && ds[1].next == 2
    && ds[2].state == SUSPENDED
  }

  lemma WaitTransferAfter(ds: seq<Descriptor>, wait: nat, start: nat, count: nat, k: nat)
    requires IsWaitTransfer(ds, wait, start, count)
    ensures var e := After(ds, k);
            if wait <= k < wait + count then Transfers(ds, e) && e.ramIndex == start + (k - wait)
            else !Transfers(ds, e)
  {
    EngineFollowsChain(ds, k);
    if wait <= k {
      assert Locate(ds, 0, k) == Locate(ds, 1, k - wait);
      if wait + count <= k {
        assert Locate(ds, 1, k - wait) == Locate(ds, 2, k - wait - count) == (2, 0);
      } else {
        assert Within(ds, 1, k - wait).ramIndex == start + (k - wait);
      }
    }
  }

  /** With any stride a TRANSFER moves word start + (k - wait) * stride, in 32 bits, at edge k. */
  lemma StridedTransfer(ds: seq<Descriptor>, wait: nat, count: nat, k: nat)
    requires |ds| == 3 && Closed(ds) && 0 < wait < WORDS && 0 < count < WORDS
    requires ds[0].state > 1 && ds[0].xCount == wait && ds[0].next == 1
    requires ds[1].state == 1 && ds[1].xCount == count && ds[1].next == 2
    requires ds[2].state == 0
    ensures var e := After(ds, k);
            if wait <= k < wait + count
            then e.index == 1 && e.ramIndex == (ds[1].start + (k - wait) * ds[1].xModify) % 0x1_0000_0000
            else ds[e.index].state != 1
  {
    EngineFollowsChain(ds, k);
    if wait <= k {
      assert Locate(ds, 0, k) == Locate(ds, 1, k - wait);
      if wait + count <= k {
        assert Locate(ds, 1, k - wait) == Locate(ds, 2, k - wait - count) == (2, 0);
      }
    }
  }

  /** A descriptor with a count of 0 lasts 2^32 edges. */
  lemma ZeroCount(ds: seq<Descriptor>, k: nat)
    requires Closed(ds) && ds[0].state != 0 && ds[0].xCount == 0 && k < 0x1_0000_0000
    ensures After(ds, k).index == 0 && After(ds, 0x1_0000_0000) == Loaded(ds, ds[0].next)
  {
    EngineFollowsChain(ds, k);
    EngineFollowsChain(ds, 0x1_0000_0000);
    WithinStart(ds, ds[0].next);
  }

  /** The program of descriptors.h for the source: transfer n words and start over. */
  function Cyclic(n: U32): (ds: seq<Descriptor>) {
    [Descriptor(0, 0, TRANSFER, n, 1)]
  }

  lemma {:induction false} CyclicLocate(n: U32, q: nat, r: nat)
    requires r < n
    ensures Locate(Cyclic(n), 0, n * q + r) == (0, r)
  {
    if q > 0 {
      CyclicLocate(n, q - 1, r);
      assert n * q + r - n == n * (q - 1) + r;
      MulMonotone(n, 1, q);
    }
  }

  lemma CyclicAt<E>(n: U32, ram: seq<E>, zero: E, k: nat, r: nat)
    requires r < n <= |ram| && Locate(Cyclic(n), 0, k) == (0, r)
    ensures StreamAt(Cyclic(n), ram, zero, k) == ram[r]
  {
    hide After, Next, Locate;
    EngineFollowsChain(Cyclic(n), k);
    assert After(Cyclic(n), k).index == 0 && After(Cyclic(n), k).ramIndex == r;
  }

  /** The q-th pass over the source puts its words on the stream in order. */
  lemma CyclicStream<E>(n: U32, ram: seq<E>, zero: E, q: nat, r: nat)
    requires r < n <= |ram|
    ensures StreamAt(Cyclic(n), ram, zero, n * q + r) == ram[r]
  {
    CyclicLocate(n, q, r);
    CyclicAt(n, ram, zero, n * q + r, r);
  }

  // ----- stream to memory

  /** The memory of an S2MM engine after edge m, counted from 0, when that edge reads `word`. */
  function Store<E>(ds: seq<Descriptor>, m: nat, ram: seq<E>, word: E): (r: seq<E>)
    requires Closed(ds)
    ensures |r| == |ram|
  {
    var e := After(ds, m);
    if Transfers(ds, e) && e.ramIndex < |ram| then ram[e.ramIndex := word] else ram
  }

  /** The RAM of an S2MM engine after k edges when edge m reads bus(m). */
  function Written<E>(ds: seq<Descriptor>, ram: seq<E>, bus: nat -> E, k: nat): (r: seq<E>)
    requires Closed(ds)
    ensures |r| == |ram|
  {
    if k == 0 then ram else Store(ds, k - 1, Written(ds, ram, bus, k - 1), bus(k - 1))
  }

  /** A WAIT of `wait` edges and a TRANSFER of `count` words capture exactly that window of the stream. */
  lemma {:induction false} WrittenWindow<E>(ds: seq<Descriptor>, ram: seq<E>, bus: nat -> E, wait: nat, start: nat,
                                            count: nat, k: nat)
    requires IsWaitTransfer(ds, wait, start, count) && start + count <= |ram|
    ensures forall a :: 0 <= a < |ram| ==>
              Written(ds, ram, bus, k)[a] ==
              if start <= a < start + count && wait + (a - start) < k then bus(wait + (a - start)) else ram[a]
  {
    if k > 0 {
      WrittenWindow(ds, ram, bus, wait, start, count, k - 1);
      WaitTransferAfter(ds, wait, start, count, k - 1);
    }
  }

  lemma FirstPass<E>(n: U32, ram: seq<E>, zero: E, k: nat)
    requires k < n <= |ram|
    ensures StreamAt(Cyclic(n), ram, zero, k) == ram[k]
  {
    CyclicAt(n, ram, zero, k, k);
  }

  /** RAM contents once part p of a source of parts of s words is in their first s words. */
  function WithPart<E>(source: seq<E>, s: nat, p: nat, ram: seq<E>): (r: seq<E>)
    requires 0 <= s * p && s * p + s <= |source| && s <= |ram|
    ensures |r| == |ram|
  {
    source[s * p..s * p + s] + ram[s..]
  }

  /** A bus that carries the first pass over the source, each word one edge after it was sent. */
  ghost predicate CarriesFirstPass<E>(bus: nat -> E, source: seq<E>, n: nat)
    requires n <= |source|
  {
    forall m {:trigger bus(m)} :: 1 <= m <= n ==> bus(m) == source[m - 1]
  }

  /** Waits of 1, 1 + s, 1 + 2s, ... split the source into RAMs, no word lost and none twice, and leave the
      words behind the part as they were. */
  lemma StaggeredSplit<E>(s: nat, parts: nat, source: seq<E>, bus: nat -> E, ds: seq<Descriptor>, p: nat, ram: seq<E>,
                          k: nat)
    requires 0 < s <= |ram| && p < parts && s * parts <= |source|
    requires CarriesFirstPass(bus, source, s * parts)
    requires IsWaitTransfer(ds, 1 + s * p, 0, s)
    requires k >= 1 + s * (p + 1)
    ensures 0 <= s * p && s * p + s <= |source|
    ensures Written(ds, ram, bus, k) == WithPart(source, s, p, ram)
  {
    MulMonotone(s, p + 1, parts);
    var off := s * p;
    assert s * (p + 1) == off + s;
    hide Written, IsWaitTransfer, WithPart;
    WrittenWindow(ds, ram, bus, 1 + off, 0, s, k);
    PartIs(source, s, p, ram, Written(ds, ram, bus, k));
  }

  lemma PartIs<E>(source: seq<E>, s: nat, p: nat, ram: seq<E>, r: seq<E>)
    requires 0 <= s * p && s * p + s <= |source| && s <= |ram| == |r|
    requires forall a :: 0 <= a < |r| ==> r[a] == if a < s then source[s * p + a] else ram[a]
    ensures r == WithPart(source, s, p, ram)
  {
    var off := s * p;
    assert r == source[off..off + s] + ram[s..];
  }
}
