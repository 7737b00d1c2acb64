/** Statements about whole runs, and the two requests that do not keep the flat-memory picture. */
module AceRuns {
  import opened AceCoherence
  import opened AceRefinement
  import opened AceSnoop
  import opened AceSystem
  import opened AceTypes
  import opened MachineTypes

  ghost predicate Initial(s: System) {
    && WellSized(s)
    && forall i :: 0 <= i < |s.caches| ==>
         s.caches[i].pend.Idle? && forall n :: 0 <= n < NUM_LINES ==> !s.caches[i].lines[n].valid
  }

  /** ss[n + 1] is reached from ss[n] by steps[n]; any master may move at any point. */
  ghost predicate IsPath(ss: seq<System>, steps: seq<Step>) {
    && |ss| == |steps| + 1
    && (forall n :: 0 <= n < |ss| ==> WellSized(ss[n]))
    && (forall n :: 0 <= n < |steps| ==> Enabled(ss[n], steps[n]) && ss[n + 1] == Apply(ss[n], steps[n]))
  }

  /** The same, with faithful requests only. */
  ghost predicate IsRun(ss: seq<System>, steps: seq<Step>) {
    IsPath(ss, steps) && forall n :: 0 <= n < |steps| ==> FaithfulStep(steps[n])
  }

  /** The stores of a run's first n steps, in order. */
  ghost function Log(ss: seq<System>, steps: seq<Step>, n: nat): (log: seq<Entry>)
    requires IsPath(ss, steps) && n <= |steps|
    ensures |log| == n
  {
    seq(n, m requires 0 <= m < n => EntryOf(ss[m], steps[m]))
  }

  /** The flat memory: one memory to which the stores are applied in order. */
  ghost function Replay(mem: Memory, log: seq<Entry>): Memory {
    if log == [] then mem
    else FlatApply(Replay(mem, log[..|log| - 1]), log[|log| - 1])
  }

  /** The byte most recently stored at (k, off) by any master, else what memory held first. */
  ghost function LastStored(mem: Memory, log: seq<Entry>, k: Key, off: nat): Byte
    requires off < LINE_SIZE
  {
    if log == [] then mem[k][off]
    else
      match log[|log| - 1]
      case Stored(_, key, w) =>
        if key == k && w.Covers(off) then w.data[off - w.off] else LastStored(mem, log[..|log| - 1], k, off)
      case Nothing => LastStored(mem, log[..|log| - 1], k, off)
  }

  /** The byte most recently stored at address addr + b. */
  ghost function ByteAt(mem: Memory, log: seq<Entry>, addr: nat, secure: bool, b: nat): Byte {
    LastStored(mem, log, KeyOf(addr + b, secure), (addr + b) % LINE_SIZE)
  }

  lemma {:induction false} ReplayIsLastStored(mem: Memory, log: seq<Entry>, k: Key, off: nat)
    requires off < LINE_SIZE
    ensures Replay(mem, log)[k][off] == LastStored(mem, log, k, off)
  {
    if log != [] {
      ReplayIsLastStored(mem, log[..|log| - 1], k, off);
    }
  }

  lemma LastStoredSnoc(mem: Memory, log: seq<Entry>, e: Entry, k: Key, off: nat)
    requires off < LINE_SIZE
    ensures LastStored(mem, log + [e], k, off) ==
            if e.Stored? && e.key == k && e.st.Covers(off) then e.st.data[off - e.st.off]
            else LastStored(mem, log, k, off)
  {
    assert (log + [e])[..|log|] == log;
  }

  lemma InitialSound(s: System)
    requires Initial(s)
    ensures Invariant(s, s.mem)
  {
    forall i | 0 <= i < |s.caches|
      ensures CacheFits(s.caches[i])
    {
      assert forall n :: 0 <= n < NUM_LINES ==> LineFits(s.caches[i], n);
    }
    forall q: Key
      ensures Coherent(s, q, s.mem[q])
    {
      assert forall i :: 0 <= i < |s.caches| ==> CopyOf(s.caches[i], q) == None;
    }
  }

  ghost function FlatAt(ss: seq<System>, steps: seq<Step>, n: nat): Memory
    requires IsRun(ss, steps) && n <= |steps|
  {
    Replay(ss[0].mem, Log(ss, steps, n))
  }

  lemma FlatAtNext(ss: seq<System>, steps: seq<Step>, n: nat)
    requires IsRun(ss, steps) && n < |steps|
    ensures FlatAt(ss, steps, n + 1) == FlatApply(FlatAt(ss, steps, n), EntryOf(ss[n], steps[n]))
  {
    assert Log(ss, steps, n + 1)[..n] == Log(ss, steps, n);
  }

  /** The coherence invariant holds in every state of every run. */
  lemma {:induction false} RunSound(ss: seq<System>, steps: seq<Step>, n: nat)
    requires IsRun(ss, steps) && Initial(ss[0]) && n <= |steps|
    ensures Invariant(ss[n], FlatAt(ss, steps, n))
  {
    if n == 0 {
      InitialSound(ss[0]);
    } else {
      RunSound(ss, steps, n - 1);
      StepSound(ss[n - 1], steps[n - 1], FlatAt(ss, steps, n - 1));
      FlatAtNext(ss, steps, n - 1);
    }
  }

  /** What a load of a cache, or a ReadOnce of a master without a cache, returns is in the flat memory. */
  lemma LoadReadsFlat(s: System, st: Step, flat: Memory)
    requires Invariant(s, flat) && Enabled(s, st) && (st.Load? || st.IoRead?)
    ensures IsWindow(st.data, flat[st.key], st.off)
  {
    assert Coherent(s, st.key, flat[st.key]);
    match st {
      case Load(i, k, _, _) => assert Copies(s, k)[i] == CopyOf(s.caches[i], k) == Some(Slot(s.caches[i], k));
      case IoRead(k, _, _, src) => FetchedIsFlat(s, |s.caches|, ReadOnce, k, src, flat[k]);
    }
  }

  /** data is what was last stored at off, off + 1, ... */
  ghost predicate AreLastStored(data: seq<Byte>, mem: Memory, log: seq<Entry>, k: Key, off: nat) {
    off + |data| <= LINE_SIZE &&
    forall b :: 0 <= b < |data| ==> data[b] == LastStored(mem, log, k, off + b)
  }

  lemma WindowIsLastStored(data: seq<Byte>, mem: Memory, log: seq<Entry>, k: Key, off: nat)
    requires IsWindow(data, Replay(mem, log)[k], off)
    ensures AreLastStored(data, mem, log, k, off)
  {
    forall b | 0 <= b < |data|
      ensures data[b] == LastStored(mem, log, k, off + b)
    {
      ReplayIsLastStored(mem, log, k, off + b);
    }
  }

  /** Over every interleaving, a load returns the bytes last stored there by any master. */
  lemma LoadsReturnLastStore(ss: seq<System>, steps: seq<Step>, n: nat)
    requires IsRun(ss, steps) && Initial(ss[0]) && n < |steps|
    requires steps[n].Load? || steps[n].IoRead?
    ensures AreLastStored(steps[n].data, ss[0].mem, Log(ss, steps, n), steps[n].key, steps[n].off)
  {
    RunSound(ss, steps, n);
    LoadReadsFlat(ss[n], steps[n], FlatAt(ss, steps, n));
    WindowIsLastStored(steps[n].data, ss[0].mem, Log(ss, steps, n), steps[n].key, steps[n].off);
  }

  /** A cache that is just announcing the eviction of the line of k, which it had lost. */
  ghost predicate Leaving(c: Cache, k: Key) {
    c.pend == Writing(Evict, Index(k), true)
  }

  /** When two caches have valid lines of k, an unshared line is the only copy, at most one is dirty, and
      they agree, unless one of them is just being evicted again. */
  lemma CopiesAgree(ss: seq<System>, steps: seq<Step>, n: nat, k: Key, i: nat, j: nat)
    requires IsRun(ss, steps) && Initial(ss[0]) && n <= |steps|
    requires i < |ss[n].caches| && j < |ss[n].caches| && i != j
    requires InCache(ss[n].caches[i].lines, k) && InCache(ss[n].caches[j].lines, k)
    ensures var a, b := Slot(ss[n].caches[i], k), Slot(ss[n].caches[j], k);
            || Leaving(ss[n].caches[i], k) || Leaving(ss[n].caches[j], k)
            || (a.shared && b.shared && !(a.dirty && b.dirty) && a.data == b.data)
  {
    RunSound(ss, steps, n);
    assert CacheFits(ss[n].caches[i]) && CacheFits(ss[n].caches[j]);
    assert Coherent(ss[n], k, FlatAt(ss, steps, n)[k]);
    assert Copies(ss[n], k)[i] == CopyOf(ss[n].caches[i], k);
    assert Copies(ss[n], k)[j] == CopyOf(ss[n].caches[j], k);
  }

  ghost predicate NoDirtyCopy(s: System, k: Key)
    requires WellSized(s)
  {
    var copies := Copies(s, k);
    forall i :: 0 <= i < |copies| && copies[i].Some? ==> !copies[i].value.dirty
  }

  /** Evictions lose nothing: without a dirty copy, memory holds the last stored bytes. */
  lemma MemoryHoldsLastStore(ss: seq<System>, steps: seq<Step>, n: nat, k: Key, off: nat)
    requires IsRun(ss, steps) && Initial(ss[0]) && n <= |steps| && off < LINE_SIZE
    requires NoDirtyCopy(ss[n], k)
    ensures ss[n].mem[k][off] == LastStored(ss[0].mem, Log(ss, steps, n), k, off)
  {
    RunSound(ss, steps, n);
    assert Coherent(ss[n], k, FlatAt(ss, steps, n)[k]);
    ReplayIsLastStored(ss[0].mem, Log(ss, steps, n), k, off);
  }

  lemma CleanSharedCleans(s: System, i: nat, src: Option<nat>, dirtySrc: Option<nat>)
    requires WellSized(s) && Enabled(s, CompleteRequest(i, src, dirtySrc)) && PendingFits(s.caches[i])
    requires s.caches[i].pend.req.CleanShared?
    ensures NoDirtyCopy(Perform(s, i, src, dirtySrc), s.caches[i].pend.key)
  {
    var k := s.caches[i].pend.key;
    PerformCopies(s, i, src, dirtySrc, k);
    assert Copies(s, k)[i] == CopyOf(s.caches[i], k);
  }

  /** A CleanShared leaves no dirty copy anywhere, so memory holds the line. */
  lemma CleanSharedReachesMemory(s: System, flat: Memory, i: nat, src: Option<nat>, dirtySrc: Option<nat>)
    requires Invariant(s, flat) && Enabled(s, CompleteRequest(i, src, dirtySrc))
    requires s.caches[i].pend.req.CleanShared?
    ensures var k := s.caches[i].pend.key;
            NoDirtyCopy(Perform(s, i, src, dirtySrc), k) && Perform(s, i, src, dirtySrc).mem[k] == flat[k]
  {
    var k := s.caches[i].pend.key;
    assert CacheFits(s.caches[i]);
    CleanSharedCleans(s, i, src, dirtySrc);
    assert Coherent(s, k, flat[k]);
    CleanSharedCoherent(s, i, src, dirtySrc, flat[k]);
  }

  // ----- where the flat-memory picture breaks

  /** A request about to take effect in an otherwise coherent system. */
  ghost predicate AboutToPerform(s: System, flat: Block, i: nat, src: Option<nat>, dirtySrc: Option<nat>, r: Request) {
    && WellSized(s)
    && Enabled(s, CompleteRequest(i, src, dirtySrc))
    && s.caches[i].pend.req == r
    && (forall j :: 0 <= j < |s.caches| ==>
          PendingFits(s.caches[j]) && forall n :: 0 <= n < NUM_LINES ==> LineFits(s.caches[j], n))
    && Coherent(s, s.caches[i].pend.key, flat)
  }

  /** The request does to the line what its store does to the flat memory. */
  ghost predicate KeepsCoherence(s: System, flat: Block, i: nat, src: Option<nat>, dirtySrc: Option<nat>, w: Store)
    requires w.Fits() && WellSized(s) && Enabled(s, CompleteRequest(i, src, dirtySrc))
  {
    Coherent(Perform(s, i, src, dirtySrc), s.caches[i].pend.key, Merge(flat, w))
  }

  function FilledBlock(b: Byte): (r: Block) {
    seq(LINE_SIZE, n => b)
  }

  /** A memory that holds b everywhere. */
  ghost function FilledMemory(b: Byte): Memory {
    imap k: Key :: FilledBlockAt(k, b)
  }

  function FilledBlockAt(k: Key, b: Byte): Block {
    FilledBlock(b)
  }

  /** One cache whose lines hold byte a, the line of key 0 valid or not, waiting with request r over
      a memory of bytes b. */
  ghost function OneCache(valid: bool, writeThrough: bool, r: Request, a: Byte, b: Byte): (s: System)
    ensures WellSized(s)
  {
    var k := Key(0, false);
    var lines := seq(NUM_LINES, n => Line(false, k, false, false, FilledBlock(a)));
    System([Cache(lines[Index(k) := Line(valid, k, false, false, FilledBlock(a))], Waiting(r, k), writeThrough)],
           FilledMemory(b))
  }

  lemma OneCacheAboutToPerform(valid: bool, writeThrough: bool, r: Request, a: Byte, b: Byte)
    requires RequestAllowed(OneCache(valid, writeThrough, r, a, b).caches[0], r)
    requires IsFill(r) ==> !valid
    requires r.CleanUnique? ==> valid
    requires valid ==> a == b
    ensures AboutToPerform(OneCache(valid, writeThrough, r, a, b), FilledBlock(b), 0, None, None, r)
  {
    var s := OneCache(valid, writeThrough, r, a, b);
    var k := Key(0, false);
    assert Copies(s, k)[0] == CopyOf(s.caches[0], k);
    assert Enabled(s, CompleteRequest(0, None, None));
  }

  /** A whole-line store by MakeUnique is right in every state exactly when it enables every byte:
      MakeUnique does not fetch the bytes it leaves alone. */
  lemma MakeUniqueExact(w: Store)
    requires w.WholeLine()
    ensures (forall s, flat, i, src, dirtySrc ::
               AboutToPerform(s, flat, i, src, dirtySrc, MakeUnique(w)) ==> KeepsCoherence(s, flat, i, src,
                   dirtySrc, w))
            <==> w.NoSparse()
  {
    if w.NoSparse() {
      forall s, flat, i, src, dirtySrc | AboutToPerform(s, flat, i, src, dirtySrc, MakeUnique(w))
        ensures KeepsCoherence(s, flat, i, src, dirtySrc, w)
      {
        MakeUniqueCoherent(s, i, src, dirtySrc, flat);
      }
    } else {
      var n :| 0 <= n < |w.en| && !w.en[n];
      SlotByteKept(w, n);
    }
  }

  /** The line keeps a byte of the slot where the store enables none. */
  lemma SlotByteKept(w: Store, n: nat)
    requires w.WholeLine() && n < LINE_SIZE && !w.en[n]
    ensures exists s, flat, i, src, dirtySrc ::
              && AboutToPerform(s, flat, i, src, dirtySrc, MakeUnique(w))
              && !KeepsCoherence(s, flat, i, src, dirtySrc, w)
  {
    var s := OneCache(false, false, MakeUnique(w), 0, 1);
    OneCacheAboutToPerform(false, false, MakeUnique(w), 0, 1);
    var k := Key(0, false);
    var s' := Perform(s, 0, None, None);
    assert Copies(s', k)[0] == CopyOf(s'.caches[0], k) == Some(Slot(s'.caches[0], k));
    assert Slot(s'.caches[0], k).data[n] == 0 && Merge(FilledBlock(1), w)[n] == 1;
    assert !KeepsCoherence(s, FilledBlock(1), 0, None, None, w);
  }

  /** The own copy of a write-through store that starts too late keeps its old bytes. */
  lemma StaleOwnCopy(w: Store, pos: nat, n: nat)
    requires w.Fits() && pos >= |w.data| && n < |w.en| && w.en[n]
    ensures exists s, flat, i, src, dirtySrc ::
              && AboutToPerform(s, flat, i, src, dirtySrc, WriteUnique(w, pos))
              && !KeepsCoherence(s, flat, i, src, dirtySrc, w)
  {
    var b: Byte := if w.data[n] == 0 then 1 else 0;
    var r := WriteUnique(w, pos);
    var s := OneCache(true, true, r, b, b);
    OneCacheAboutToPerform(true, true, r, b, b);
    var k := Key(0, false);
    var s' := Perform(s, 0, None, None);
    assert Copies(s', k)[0] == CopyOf(s'.caches[0], k) == Some(Slot(s.caches[0], k));
    assert w.Covers(w.off + n) && Merge(FilledBlock(b), w)[w.off + n] != b;
    assert !KeepsCoherence(s, FilledBlock(b), 0, None, None, w);
  }

  /** A write-through store leaves its own cached copy right in every state exactly when its chunk
      starts before its own length, or enables no byte at all: otherwise the copy is not updated. */
  lemma WriteUniqueExact(w: Store, pos: nat)
    requires w.Fits()
    ensures (forall s, flat, i, src, dirtySrc ::
               AboutToPerform(s, flat, i, src, dirtySrc, WriteUnique(w, pos)) ==> KeepsCoherence(s, flat, i, src,
                   dirtySrc, w))
            <==> pos < |w.data| || w.EnablesNone()
  {
    if pos < |w.data| || w.EnablesNone() {
      forall s, flat, i, src, dirtySrc | AboutToPerform(s, flat, i, src, dirtySrc, WriteUnique(w, pos))
        ensures KeepsCoherence(s, flat, i, src, dirtySrc, w)
      {
        WriteUniqueCoherent(s, i, src, dirtySrc, flat);
      }
    } else {
      var n :| 0 <= n < |w.en| && w.en[n];
      StaleOwnCopy(w, pos, n);
    }
  }
}
