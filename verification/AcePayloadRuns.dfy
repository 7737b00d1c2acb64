/** Runs in which one cache stores a payload chunk by chunk: exactly which payloads keep every load right. */
module AcePayloadRuns {
  import opened AceCoherence
  import opened AceInterference
  import opened AcePayload
  import opened AceRefinement
  import opened AceRuns
  import opened AceSnoop
  import opened AceSystem
  import opened AceTypes
  import opened MachineTypes

  datatype Payload = Payload(addr: nat, secure: bool, data: seq<Byte>, be: seq<bool>)

  /** A store loop at pos comes to position p. */
  predicate CutAt(a: Payload, pos: nat, p: nat)
    requires pos <= |a.data|
    decreases |a.data| - pos
  {
    p == pos || (pos < |a.data| && CutAt(a, pos + ChunkLen(a.addr, |a.data|, pos), p))
  }

  function KeyAt(a: Payload, p: nat): Key {
    KeyOf(a.addr + p, a.secure)
  }

  function StoreAt(a: Payload, p: nat): (w: Store)
    requires p < |a.data|
    ensures w.Fits()
  {
    ChunkStore(a.addr, a.data, a.be, p)
  }

  function ChunksAt(a: Payload, p: nat): seq<(Key, Store)>
    requires p <= |a.data|
  {
    Chunks(a.addr, a.secure, a.data, a.be, p)
  }

  /** What the store loop asks for at p when it misses, or writes through. */
  function RequestAt(a: Payload, writeThrough: bool, p: nat): Request
    requires p < |a.data|
  {
    var w := StoreAt(a, p);
    if writeThrough then if GoesWhole(w) then WriteLineUnique(w) else WriteUnique(w, p)
    else if w.WholeLine() then MakeUnique(w) else Request.ReadUnique
  }

  predicate IsStore(r: Request) {
    r.MakeUnique? || r.WriteUnique? || r.WriteLineUnique?
  }

  ghost predicate ForChunk(a: Payload, writeThrough: bool, k: Key, r: Request) {
    exists p :: 0 <= p < |a.data| && CutAt(a, 0, p) && k == KeyAt(a, p) && r == RequestAt(a, writeThrough, p)
  }

  /** Cache 0 only issues storing requests for chunks of the payload; every other request is faithful. */
  ghost predicate StepFor(a: Payload, writeThrough: bool, st: Step) {
    st.StartRequest? ==>
      if st.i == 0 && IsStore(st.req) then ForChunk(a, writeThrough, st.key, st.req) else Faithful(st.req)
  }

  /** From an initial state, cache 0 has stored the first chunks of the payload, in order, and nothing else;
      the other masters did anything. */
  ghost predicate StoresPayload(ss: seq<System>, steps: seq<Step>, writeThrough: bool, a: Payload) {
    && IsPath(ss, steps) && Initial(ss[0])
    && |ss[0].caches| > 0 && ss[0].caches[0].writeThrough == writeThrough
    && (forall n :: 0 <= n < |steps| ==> StepFor(a, writeThrough, steps[n]))
    && OwnStores(Log(ss, steps, |steps|), 0) <= ChunksAt(a, 0)
  }

  /** Every load returns the bytes last stored. */
  ghost predicate LoadsRight(ss: seq<System>, steps: seq<Step>)
    requires IsPath(ss, steps)
  {
    forall n :: 0 <= n < |steps| && (steps[n].Load? || steps[n].IoRead?) ==> LoadRight(ss, steps, n)
  }

  ghost predicate LoadRight(ss: seq<System>, steps: seq<Step>, n: nat)
    requires IsPath(ss, steps) && n < |steps| && (steps[n].Load? || steps[n].IoRead?)
  {
    AreLastStored(steps[n].data, ss[0].mem, Log(ss, steps, n), steps[n].key, steps[n].off)
  }

  /** With the payload's requests faithful, every such run is one of faithful requests. */
  lemma FaithfulRight(ss: seq<System>, steps: seq<Step>, writeThrough: bool, a: Payload)
    requires StoresPayload(ss, steps, writeThrough, a)
    requires forall p :: 0 <= p < |a.data| && CutAt(a, 0, p) ==> Faithful(RequestAt(a, writeThrough, p))
    ensures LoadsRight(ss, steps)
  {
    forall n | 0 <= n < |steps| ensures FaithfulStep(steps[n]) {
      assert StepFor(a, writeThrough, steps[n]);
    }
    forall n | 0 <= n < |steps| && (steps[n].Load? || steps[n].IoRead?) ensures LoadRight(ss, steps, n) {
      LoadsReturnLastStore(ss, steps, n);
    }
  }

  lemma {:induction false} NoSparseAt(a: Payload, pos: nat, p: nat)
    requires pos <= |a.data| && p < |a.data| && NoSparseLine(a.addr, a.data, a.be, pos) && CutAt(a, pos, p)
    ensures StoreAt(a, p).WholeLine() ==> StoreAt(a, p).NoSparse()
    decreases |a.data| - pos
  {
    if p != pos {
      NoSparseAt(a, pos + ChunkLen(a.addr, |a.data|, pos), p);
    }
  }

  lemma {:induction false} SparseAt(a: Payload, pos: nat) returns (p: nat)
    requires pos <= |a.data| && !NoSparseLine(a.addr, a.data, a.be, pos)
    ensures p < |a.data| && CutAt(a, pos, p) && StoreAt(a, p).WholeLine() && !StoreAt(a, p).NoSparse()
    decreases |a.data| - pos
  {
    var w := StoreAt(a, pos);
    if w.WholeLine() && !w.NoSparse() {
      p := pos;
    } else {
      p := SparseAt(a, pos + ChunkLen(a.addr, |a.data|, pos));
    }
  }

  lemma {:induction false} HarmlessAt(a: Payload, pos: nat, p: nat)
    requires pos <= |a.data| && p < |a.data| && AllHarmless(a.addr, a.data, a.be, pos) && CutAt(a, pos, p)
    ensures Harmless(StoreAt(a, p), p)
    decreases |a.data| - pos
  {
    if p != pos {
      HarmlessAt(a, pos + ChunkLen(a.addr, |a.data|, pos), p);
    }
  }

  lemma {:induction false} HarmfulAt(a: Payload, pos: nat) returns (p: nat)
    requires pos <= |a.data| && !AllHarmless(a.addr, a.data, a.be, pos)
    ensures p < |a.data| && CutAt(a, pos, p) && !Harmless(StoreAt(a, p), p)
    decreases |a.data| - pos
  {
    if !Harmless(StoreAt(a, pos), pos) {
      p := pos;
    } else {
      p := HarmfulAt(a, pos + ChunkLen(a.addr, |a.data|, pos));
    }
  }

  // ----- a run of one cache, step by step

  datatype Run = Run(ss: seq<System>, steps: seq<Step>)

  function Last(r: Run): System
    requires |r.ss| == |r.steps| + 1
  {
    r.ss[|r.steps|]
  }

  /** A run of cache 0 alone that has stored `own`. */
  ghost predicate Built(r: Run, writeThrough: bool, a: Payload, own: seq<(Key, Store)>) {
    && IsPath(r.ss, r.steps) && Initial(r.ss[0])
    && |r.ss[0].caches| == 1 && r.ss[0].caches[0].writeThrough == writeThrough
    && |Last(r).caches| == 1 && |Last(r).caches[0].lines| == NUM_LINES
    && Last(r).caches[0].writeThrough == writeThrough
    && (forall n :: 0 <= n < |r.steps| ==> StepFor(a, writeThrough, r.steps[n]))
    && OwnStores(FullLog(r), 0) == own
  }

  ghost function FullLog(r: Run): seq<Entry>
    requires IsPath(r.ss, r.steps)
  {
    Log(r.ss, r.steps, |r.steps|)
  }

  /** Between two of its actions. */
  ghost predicate Resting(r: Run, writeThrough: bool, a: Payload, own: seq<(Key, Store)>) {
    Built(r, writeThrough, a, own) && Last(r).caches[0].pend.Idle?
  }

  function Then(r: Run, st: Step): Run
    requires |r.ss| == |r.steps| + 1 && WellSized(Last(r)) && Enabled(Last(r), st)
  {
    Run(r.ss + [Apply(Last(r), st)], r.steps + [st])
  }

  function OwnPart(e: Entry): seq<(Key, Store)> {
    if e.Stored? && e.port == 0 then [(e.key, e.st)] else []
  }

  lemma BuiltIs(r: Run, writeThrough: bool, a: Payload, own: seq<(Key, Store)>)
    requires Built(r, writeThrough, a, own)
    ensures |r.ss| == |r.steps| + 1 && WellSized(Last(r)) && |Last(r).caches| == 1
    ensures Last(r).caches == [Last(r).caches[0]] && Last(r).caches[0].writeThrough == writeThrough
    ensures |Last(r).caches[0].lines| == NUM_LINES
    ensures IsPath(r.ss, r.steps)
  {
  }

  lemma ThenBuilt(r: Run, st: Step, writeThrough: bool, a: Payload, own: seq<(Key, Store)>)
    requires Built(r, writeThrough, a, own) && WellSized(Last(r)) && Enabled(Last(r), st)
    requires StepFor(a, writeThrough, st)
    requires |Apply(Last(r), st).caches| == 1 && Apply(Last(r), st).caches[0].writeThrough == writeThrough
    ensures Built(Then(r, st), writeThrough, a, own + OwnPart(EntryOf(Last(r), st)))
    ensures Last(Then(r, st)) == Apply(Last(r), st) && Then(r, st).ss[0] == r.ss[0]
    ensures FullLog(Then(r, st)) == FullLog(r) + [EntryOf(Last(r), st)]
  {
    hide Apply, Enabled, OwnStores, StepFor;
    var t := Then(r, st);
    assert IsPath(t.ss, t.steps) by {
      forall n | 0 <= n < |t.steps| ensures Enabled(t.ss[n], t.steps[n]) && t.ss[n + 1] == Apply(t.ss[n], t.steps[n]) {
      }
    }
    assert FullLog(t) == FullLog(r) + [EntryOf(Last(r), st)];
    OwnStoresSnoc(FullLog(r), EntryOf(Last(r), st), 0);
  }

  // ----- the actions of the witness runs

  /** Slot n is evicted if it is valid. */
  lemma EmptySlot(r: Run, n: nat, writeThrough: bool, a: Payload, own: seq<(Key, Store)>) returns (t: Run)
    requires Resting(r, writeThrough, a, own) && n < NUM_LINES
    ensures Resting(t, writeThrough, a, own) && !Last(t).caches[0].lines[n].valid
  {
    t := r;
    BuiltIs(t, writeThrough, a, own);
    assert own + [] == own;
    var l := Last(r).caches[0].lines[n];
    if l.valid {
      var st := StartWrite(0, n, if l.dirty then WriteBack else Evict);
      hide Built;
      ThenBuilt(t, st, writeThrough, a, own);
      t := Then(t, st);
      BuiltIs(t, writeThrough, a, own);
      ThenBuilt(t, CompleteWrite(0), writeThrough, a, own);
      t := Then(t, CompleteWrite(0));
      BuiltIs(t, writeThrough, a, own);
    }
  }

  /** What a request of the only cache leaves. */
  function AfterRequest(s: System, k: Key, req: Request): System
    requires WellSized(s) && |s.caches| == 1 && RequestAllowed(s.caches[0], req)
  {
    var c := Answered(s.caches[0].(pend := Waiting(req, k)), req, k, s.mem[k], false, false);
    System([c], WrittenMemory(s.mem, req, k))
  }

  lemma PerformAlone(s: System, k: Key, req: Request)
    requires WellSized(s) && |s.caches| == 1 && s.caches[0].pend == Waiting(req, k) && RequestAllowed(s.caches[0], req)
    ensures Enabled(s, CompleteRequest(0, None, None))
    ensures Perform(s, 0, None, None) == AfterRequest(s, k, req)
  {
    var st := CompleteRequest(0, None, None);
    assert Enabled(s, st);
    assert Perform(s, 0, None, None).caches == AfterRequest(s, k, req).caches;
  }

  /** Cache 0 issues a request and gets its answer. */
  lemma Ask(r: Run, k: Key, req: Request, writeThrough: bool, a: Payload, own: seq<(Key, Store)>) returns (t: Run)
    requires Resting(r, writeThrough, a, own) && WellSized(Last(r)) && Enabled(Last(r), StartRequest(0, k, req))
    requires StepFor(a, writeThrough, StartRequest(0, k, req)) && !req.CleanUnique?
    ensures Resting(t, writeThrough, a, own + if IsStore(req) then [(k, req.st)] else [])
    ensures Last(t) == AfterRequest(Last(r), k, req) && t.ss[0] == r.ss[0]
    ensures FullLog(t) == FullLog(r) + [Nothing] + [if IsStore(req) then Stored(0, k, req.st) else Nothing]
  {
    hide Built, StepFor;
    BuiltIs(r, writeThrough, a, own);
    assert own + [] == own;
    ThenBuilt(r, StartRequest(0, k, req), writeThrough, a, own);
    t := Then(r, StartRequest(0, k, req));
    BuiltIs(t, writeThrough, a, own);
    PerformAlone(Last(t), k, req);
    Issued(t, writeThrough, a, own);
    t := Then(t, CompleteRequest(0, None, None));
    BuiltIs(t, writeThrough, a, own + if IsStore(req) then [(k, req.st)] else []);
  }

  lemma Issued(r: Run, writeThrough: bool, a: Payload, own: seq<(Key, Store)>)
    requires Built(r, writeThrough, a, own) && WellSized(Last(r)) && Enabled(Last(r), CompleteRequest(0, None, None))
    requires Perform(Last(r), 0, None, None).caches[0].writeThrough == writeThrough
    ensures var req := Last(r).caches[0].pend.req;
            var k := Last(r).caches[0].pend.key;
            var t := Then(r, CompleteRequest(0, None, None));
            && Built(t, writeThrough, a, own + if IsStore(req) then [(k, req.st)] else [])
            && Last(t) == Perform(Last(r), 0, None, None) && t.ss[0] == r.ss[0]
            && FullLog(t) == FullLog(r) + [if IsStore(req) then Stored(0, k, req.st) else Nothing]
  {
    BuiltIs(r, writeThrough, a, own);
    hide Built, Perform;
    ThenBuilt(r, CompleteRequest(0, None, None), writeThrough, a, own);
  }

  /** The chunk at p is stored. */
  lemma StoreOne(r: Run, p: nat, writeThrough: bool, a: Payload, own: seq<(Key, Store)>) returns (t: Run)
    requires Resting(r, writeThrough, a, own) && p < |a.data| && CutAt(a, 0, p)
    ensures Resting(t, writeThrough, a, own + [(KeyAt(a, p), StoreAt(a, p))])
  {
    hide Built, Enabled, KeyOf, ChunkStore, CutAt;
    var k, req := KeyAt(a, p), RequestAt(a, writeThrough, p);
    t := EmptySlot(r, Index(k), writeThrough, a, own);
    BuiltIs(t, writeThrough, a, own);
    MayAsk(Last(t), k, req);
    assert StepFor(a, writeThrough, StartRequest(0, k, req));
    t := Ask(t, k, req, writeThrough, a, own);
    if !IsStore(req) {
      assert own + [] == own;
      t := Hit(t, k, StoreAt(a, p), writeThrough, a, own);
    }
  }

  lemma MayAsk(s: System, k: Key, req: Request)
    requires WellSized(s) && |s.caches| > 0 && s.caches[0].pend.Idle? && !Slot(s.caches[0], k).valid
    requires RequestAllowed(s.caches[0], req) && !req.CleanUnique?
    ensures Enabled(s, StartRequest(0, k, req))
  {
  }

  lemma Hit(r: Run, k: Key, w: Store, writeThrough: bool, a: Payload, own: seq<(Key, Store)>) returns (t: Run)
    requires Resting(r, writeThrough, a, own) && !writeThrough && w.Fits() && |Last(r).caches[0].lines| == NUM_LINES
    requires InCache(Last(r).caches[0].lines, k) && !Slot(Last(r).caches[0], k).shared
    ensures Resting(t, writeThrough, a, own + [(k, w)])
  {
    BuiltIs(r, writeThrough, a, own);
    hide Built;
    ThenBuilt(r, StoreHit(0, k, w), writeThrough, a, own);
    t := Then(r, StoreHit(0, k, w));
  }

  lemma {:induction false} CutNextAt(a: Payload, pos: nat, p: nat)
    requires pos <= |a.data| && p < |a.data| && CutAt(a, pos, p)
    ensures CutAt(a, pos, Next(a, p))
    decreases |a.data| - pos
  {
    if p != pos {
      CutNextAt(a, pos + ChunkLen(a.addr, |a.data|, pos), p);
    } else {
      assert CutAt(a, p + ChunkLen(a.addr, |a.data|, p), p + ChunkLen(a.addr, |a.data|, p));
    }
  }

  /** All chunks from pos up to p are stored. */
  lemma {:induction false} StoreUpTo(r: Run, pos: nat, p: nat, writeThrough: bool, a: Payload, own: seq<(Key, Store)>)
    returns (t: Run, own': seq<(Key, Store)>)
    requires Resting(r, writeThrough, a, own) && pos <= |a.data| && CutAt(a, 0, pos) && CutAt(a, pos, p)
    requires own + ChunksAt(a, pos) == ChunksAt(a, 0)
    ensures p <= |a.data| && Resting(t, writeThrough, a, own') && own' + ChunksAt(a, p) == ChunksAt(a, 0)
    decreases |a.data| - pos
  {
    hide Resting, CutAt, ChunksAt, KeyAt, StoreAt;
    if p == pos {
      t, own' := r, own;
    } else {
      CutStep(a, pos, p);
      t := StoreOne(r, pos, writeThrough, a, own);
      CutNextAt(a, 0, pos);
      ChunksNext(a, pos, own);
      t, own' := StoreUpTo(t, Next(a, pos), p, writeThrough, a, own + [(KeyAt(a, pos), StoreAt(a, pos))]);
    }
  }

  /** Where the store loop goes on after the chunk at p. */
  function Next(a: Payload, p: nat): (q: nat)
    requires p < |a.data|
    ensures p < q <= |a.data|
  {
    p + ChunkLen(a.addr, |a.data|, p)
  }

  lemma CutStep(a: Payload, pos: nat, p: nat)
    requires pos <= |a.data| && CutAt(a, pos, p) && p != pos
    ensures pos < |a.data| && CutAt(a, Next(a, pos), p)
  {
  }

  lemma ChunksNext(a: Payload, p: nat, own: seq<(Key, Store)>)
    requires p < |a.data| && own + ChunksAt(a, p) == ChunksAt(a, 0)
    ensures own + [(KeyAt(a, p), StoreAt(a, p))] + ChunksAt(a, Next(a, p)) == ChunksAt(a, 0)
  {
  }

  /** Nothing has happened yet. */
  ghost function Fresh(writeThrough: bool): Run {
    Run([System([Cache(seq(NUM_LINES, _ => Line(false, Key(0, false), false, false, ZeroBlock())), Idle, writeThrough)],
                ZeroMemory())], [])
  }

  lemma FreshResting(writeThrough: bool, a: Payload)
    ensures Resting(Fresh(writeThrough), writeThrough, a, [])
  {
  }

  /** One byte. */
  function Poke(off: nat, v: Byte): Store {
    Store(off, [v], [true])
  }

  /** A master without a cache stores one byte of a line cache 0 does not hold. */
  lemma PokeAt(r: Run, k: Key, off: nat, v: Byte, writeThrough: bool, a: Payload, own: seq<(Key, Store)>)
    returns (t: Run)
    requires Resting(r, writeThrough, a, own) && off < LINE_SIZE && |Last(r).caches[0].lines| == NUM_LINES
    requires !Slot(Last(r).caches[0], k).valid
    ensures Resting(t, writeThrough, a, own) && Last(t).caches == Last(r).caches && t.ss[0] == r.ss[0]
    ensures Last(t).mem[k][off] == v
    ensures FullLog(t) == FullLog(r) + [Stored(1, k, Poke(off, v))]
  {
    var st := IoWrite(k, Poke(off, v), false, None);
    hide Built, Apply, Enabled, IsPath, FullLog, OwnStores, Slot, Index, SnoopsOpen;
    BuiltIs(r, writeThrough, a, own);
    Unsnooped(Last(r), k, st);
    Poked(Last(r).mem[k], off, v);
    assert own + [] == own;
    ThenBuilt(r, st, writeThrough, a, own);
    t := Then(r, st);
    BuiltIs(t, writeThrough, a, own);
  }

  lemma Poked(b: Block, off: nat, v: Byte)
    requires off < LINE_SIZE
    ensures Poke(off, v).Fits() && Merge(b, Poke(off, v))[off] == v
  {
  }

  lemma Unsnooped(s: System, k: Key, st: Step)
    requires WellSized(s) && |s.caches| == 1 && s.caches[0].pend.Idle? && !Slot(s.caches[0], k).valid
    requires st.IoWrite? && st.key == k && st.st.Fits() && !st.whole && st.dirtySrc == None
    ensures Enabled(s, st)
    ensures Apply(s, st) == System(s.caches, s.mem[k := Merge(s.mem[k], st.st)])
  {
    assert Enabled(s, st);
    assert Apply(s, st).caches == s.caches;
  }

  /** A load that returns another byte than the last stored one. */
  lemma LoadWrong(r: Run, k: Key, off: nat, v: Byte, writeThrough: bool, a: Payload, own: seq<(Key, Store)>)
    returns (t: Run)
    requires Resting(r, writeThrough, a, own) && off < LINE_SIZE && |Last(r).caches[0].lines| == NUM_LINES
    requires InCache(Last(r).caches[0].lines, k) && Slot(Last(r).caches[0], k).data[off] == v
    requires LastStored(r.ss[0].mem, FullLog(r), k, off) != v
    ensures Built(t, writeThrough, a, own) && !LoadsRight(t.ss, t.steps)
  {
    var st := Load(0, k, off, [v]);
    hide Built, Apply, Enabled, IsPath, OwnStores, Slot, Index, LastStored, Log, LoadsRight, EntryOf;
    BuiltIs(r, writeThrough, a, own);
    MayLoad(Last(r), k, off, v);
    assert own + [] == own;
    ThenBuilt(r, st, writeThrough, a, own);
    t := Then(r, st);
    BuiltIs(t, writeThrough, a, own);
    LogBefore(r, st);
    NotRight(t, k, off, v);
  }

  lemma NotRight(t: Run, k: Key, off: nat, v: Byte)
    requires IsPath(t.ss, t.steps) && off < LINE_SIZE && t.steps != []
    requires t.steps[|t.steps| - 1] == Load(0, k, off, [v])
    requires LastStored(t.ss[0].mem, Log(t.ss, t.steps, |t.steps| - 1), k, off) != v
    ensures !LoadsRight(t.ss, t.steps)
  {
    hide LastStored;
    var n := |t.steps| - 1;
    assert t.steps[n].data[0] == v;
    assert LastStored(t.ss[0].mem, Log(t.ss, t.steps, n), k, off + 0) != v;
    assert !LoadRight(t.ss, t.steps, n);
  }

  lemma MayLoad(s: System, k: Key, off: nat, v: Byte)
    requires WellSized(s) && |s.caches| == 1 && s.caches[0].pend.Idle? && off < LINE_SIZE
    requires InCache(s.caches[0].lines, k) && Slot(s.caches[0], k).data[off] == v
    ensures Enabled(s, Load(0, k, off, [v])) && Apply(s, Load(0, k, off, [v])) == s
    ensures EntryOf(s, Load(0, k, off, [v])) == Nothing
  {
    assert Slot(s.caches[0], k).data[off..off + 1] == [v];
  }

  lemma LogBefore(r: Run, st: Step)
    requires |r.ss| == |r.steps| + 1 && IsPath(r.ss, r.steps) && Enabled(Last(r), st)
    requires IsPath(Then(r, st).ss, Then(r, st).steps)
    ensures Log(Then(r, st).ss, Then(r, st).steps, |r.steps|) == FullLog(r)
    ensures |Then(r, st).steps| == |r.steps| + 1 && Then(r, st).steps[|r.steps|] == st
  {
  }

  lemma PrefixThen(a: Payload, p: nat, own: seq<(Key, Store)>)
    requires p < |a.data| && own + ChunksAt(a, p) == ChunksAt(a, 0)
    ensures own + [(KeyAt(a, p), StoreAt(a, p))] <= ChunksAt(a, 0)
  {
    ChunksNext(a, p, own);
  }

  /** A sparse whole line: the byte another master stored is lost to the one the slot held before. */
  lemma SparseRun(a: Payload, p: nat) returns (t: Run)
    requires p < |a.data| && CutAt(a, 0, p) && StoreAt(a, p).WholeLine() && !StoreAt(a, p).NoSparse()
    ensures StoresPayload(t.ss, t.steps, false, a) && IsPath(t.ss, t.steps) && !LoadsRight(t.ss, t.steps)
  {
    hide CutAt, KeyAt, ChunksAt, LoadsRight, IsPath, Resting, Built, StoresPayload;
    var n :| 0 <= n < |StoreAt(a, p).en| && !StoreAt(a, p).en[n];
    var own;
    t, own := BeforeChunk(p, false, a);
    t := SparseStored(t, p, n, a, own);
    PrefixThen(a, p, own);
    BuiltStores(t, false, a, own + [(KeyAt(a, p), StoreAt(a, p))]);
  }

  lemma BuiltStores(t: Run, writeThrough: bool, a: Payload, own: seq<(Key, Store)>)
    requires Built(t, writeThrough, a, own) && own <= ChunksAt(a, 0)
    ensures StoresPayload(t.ss, t.steps, writeThrough, a) && IsPath(t.ss, t.steps)
  {
  }

  /** What a slot keeps is not what another master stores there. */
  function OtherByte(v: Byte): (o: Byte)
    ensures o != v
  {
    if v == 0 then 1 else 0
  }

  lemma SparseStored(r: Run, p: nat, n: nat, a: Payload, own: seq<(Key, Store)>) returns (t: Run)
    requires p < |a.data| && CutAt(a, 0, p) && StoreAt(a, p).WholeLine() && n < LINE_SIZE && !StoreAt(a, p).en[n]
    requires Resting(r, false, a, own)
    requires |Last(r).caches[0].lines| == NUM_LINES && !Slot(Last(r).caches[0], KeyAt(a, p)).valid
    ensures Built(t, false, a, own + [(KeyAt(a, p), StoreAt(a, p))])
    ensures IsPath(t.ss, t.steps) && !LoadsRight(t.ss, t.steps)
  {
    hide CutAt, KeyAt, StoreAt, LoadsRight, IsPath, Built, FullLog, Enabled, Index;
    var k, w := KeyAt(a, p), StoreAt(a, p);
    BuiltIs(r, false, a, own);
    var v := Slot(Last(r).caches[0], k).data[n];
    t := PokeAt(r, k, n, OtherByte(v), false, a, own);
    BuiltIs(t, false, a, own);
    var poked := FullLog(t);
    LastStoredSnoc(t.ss[0].mem, FullLog(r), Stored(1, k, Poke(n, OtherByte(v))), k, n);
    MayAsk(Last(t), k, MakeUnique(w));
    ForChunkAt(a, false, p);
    t := Ask(t, k, MakeUnique(w), false, a, own);
    BuiltIs(t, false, a, own + [(k, w)]);
    LastStoredSnoc(t.ss[0].mem, poked, Nothing, k, n);
    LastStoredSnoc(t.ss[0].mem, poked + [Nothing], Stored(0, k, w), k, n);
    t := LoadWrong(t, k, n, v, false, a, own + [(k, w)]);
    BuiltIs(t, false, a, own + [(k, w)]);
  }

  lemma ForChunkAt(a: Payload, writeThrough: bool, p: nat)
    requires p < |a.data| && CutAt(a, 0, p) && IsStore(RequestAt(a, writeThrough, p))
    ensures StepFor(a, writeThrough, StartRequest(0, KeyAt(a, p), RequestAt(a, writeThrough, p)))
  {
  }

  /** Up to the chunk at p, whose slot is made empty. */
  lemma BeforeChunk(p: nat, writeThrough: bool, a: Payload) returns (t: Run, own: seq<(Key, Store)>)
    requires p < |a.data| && CutAt(a, 0, p)
    ensures Resting(t, writeThrough, a, own) && own + ChunksAt(a, p) == ChunksAt(a, 0)
    ensures |Last(t).caches[0].lines| == NUM_LINES && !Slot(Last(t).caches[0], KeyAt(a, p)).valid
  {
    FreshResting(writeThrough, a);
    assert CutAt(a, 0, 0);
    hide CutAt, KeyAt, ChunksAt, Fresh;
    assert [] + ChunksAt(a, 0) == ChunksAt(a, 0);
    t, own := StoreUpTo(Fresh(writeThrough), 0, p, writeThrough, a, []);
    t := EmptySlot(t, Index(KeyAt(a, p)), writeThrough, a, own);
  }

  /** A write-through chunk that starts too late: memory takes it, the cached copy does not. */
  lemma LateRun(a: Payload, p: nat) returns (t: Run)
    requires p < |a.data| && CutAt(a, 0, p) && !Harmless(StoreAt(a, p), p)
    ensures StoresPayload(t.ss, t.steps, true, a) && IsPath(t.ss, t.steps) && !LoadsRight(t.ss, t.steps)
  {
    hide CutAt, KeyAt, ChunksAt, LoadsRight, IsPath, Resting, Built, StoresPayload;
    var n :| 0 <= n < |StoreAt(a, p).en| && StoreAt(a, p).en[n];
    var own;
    t, own := BeforeChunk(p, true, a);
    t := LateStored(t, p, n, a, own);
    PrefixThen(a, p, own);
    BuiltStores(t, true, a, own + [(KeyAt(a, p), StoreAt(a, p))]);
  }

  lemma LateStored(r: Run, p: nat, n: nat, a: Payload, own: seq<(Key, Store)>) returns (t: Run)
    requires p < |a.data| && CutAt(a, 0, p) && !Harmless(StoreAt(a, p), p)
    requires n < |StoreAt(a, p).en| && StoreAt(a, p).en[n]
    requires Resting(r, true, a, own)
    requires |Last(r).caches[0].lines| == NUM_LINES && !Slot(Last(r).caches[0], KeyAt(a, p)).valid
    ensures Built(t, true, a, own + [(KeyAt(a, p), StoreAt(a, p))])
    ensures IsPath(t.ss, t.steps) && !LoadsRight(t.ss, t.steps)
  {
    hide CutAt, KeyAt, StoreAt, LoadsRight, IsPath, Built, FullLog, Enabled, Index;
    var k, w := KeyAt(a, p), StoreAt(a, p);
    var off, v := w.off + n, OtherByte(w.data[n]);
    BuiltIs(r, true, a, own);
    t := PokeAt(r, k, off, v, true, a, own);
    BuiltIs(t, true, a, own);
    MayAsk(Last(t), k, Request.ReadClean);
    assert own + [] == own;
    t := Ask(t, k, Request.ReadClean, true, a, own);
    BuiltIs(t, true, a, own);
    var filled := FullLog(t);
    MayWrite(Last(t), k, WriteUnique(w, p));
    ForChunkAt(a, true, p);
    t := Ask(t, k, WriteUnique(w, p), true, a, own);
    BuiltIs(t, true, a, own + [(k, w)]);
    LastStoredSnoc(t.ss[0].mem, filled + [Nothing], Stored(0, k, w), k, off);
    t := LoadWrong(t, k, off, v, true, a, own + [(k, w)]);
    BuiltIs(t, true, a, own + [(k, w)]);
  }

  lemma MayWrite(s: System, k: Key, req: Request)
    requires WellSized(s) && |s.caches| > 0 && s.caches[0].pend.Idle?
    requires RequestAllowed(s.caches[0], req) && req.WriteUnique?
    ensures Enabled(s, StartRequest(0, k, req))
  {
  }

  // ----- exactly which payloads

  /** A write-back cache stores a payload rightly, in all runs, if and only if every chunk that fills a line
      enables all its bytes. */
  lemma WriteBackExactly(a: Payload)
    ensures (forall ss, steps :: StoresPayload(ss, steps, false, a) ==> LoadsRight(ss, steps))
            <==> NoSparseLine(a.addr, a.data, a.be, 0)
  {
    hide NoSparseLine, LoadsRight, CutAt, StoreAt, StoresPayload;
    if NoSparseLine(a.addr, a.data, a.be, 0) {
      forall p | 0 <= p < |a.data| && CutAt(a, 0, p) ensures Faithful(RequestAt(a, false, p)) {
        NoSparseAt(a, 0, p);
      }
      forall ss, steps | StoresPayload(ss, steps, false, a)
        ensures IsPath(ss, steps) && LoadsRight(ss, steps)
      {
        StoresIs(ss, steps, false, a);
        FaithfulRight(ss, steps, false, a);
      }
    } else {
      var p := SparseAt(a, 0);
      var t := SparseRun(a, p);
      assert StoresPayload(t.ss, t.steps, false, a) && !LoadsRight(t.ss, t.steps);
    }
  }

  lemma StoresIs(ss: seq<System>, steps: seq<Step>, writeThrough: bool, a: Payload)
    requires StoresPayload(ss, steps, writeThrough, a)
    ensures IsPath(ss, steps)
  {
  }

  /** A write-through cache stores a payload rightly, in all runs, if and only if every chunk goes out whole,
      starts before its own length or enables no byte. */
  lemma WriteThroughExactly(a: Payload)
    ensures (forall ss, steps :: StoresPayload(ss, steps, true, a) ==> LoadsRight(ss, steps))
            <==> AllHarmless(a.addr, a.data, a.be, 0)
  {
    hide AllHarmless, LoadsRight, CutAt, StoreAt, StoresPayload;
    if AllHarmless(a.addr, a.data, a.be, 0) {
      forall p | 0 <= p < |a.data| && CutAt(a, 0, p) ensures Faithful(RequestAt(a, true, p)) {
        HarmlessAt(a, 0, p);
      }
      forall ss, steps | StoresPayload(ss, steps, true, a)
        ensures IsPath(ss, steps) && LoadsRight(ss, steps)
      {
        StoresIs(ss, steps, true, a);
        FaithfulRight(ss, steps, true, a);
      }
    } else {
      var p := HarmfulAt(a, 0);
      var t := LateRun(a, p);
      assert StoresPayload(t.ss, t.steps, true, a) && !LoadsRight(t.ss, t.steps);
    }
  }
}
