/** What the other masters may do while one cache waits for the bus. */
module AceInterference {
  import opened AceCoherence
  import opened AcePayload
  import opened AceRefinement
  import opened AceRuns
  import opened AceSnoop
  import opened AceSystem
  import opened AceTypes
  import opened MachineTypes

  /** A step of a master other than `port`. */
  predicate OthersStep(st: Step, port: nat) {
    st.IoRead? || st.IoWrite? || st.i != port
  }

  predicate MayRun(s: System, st: Step, port: nat)
    requires WellSized(s)
  {
    OthersStep(st, port) && FaithfulStep(st) && Enabled(s, st)
  }

  /** The stores of one master in a log, in order. */
  ghost function OwnStores(log: seq<Entry>, port: nat): seq<(Key, Store)> {
    if log == [] then []
    else
      var e := log[|log| - 1];
      OwnStores(log[..|log| - 1], port) + if e.Stored? && e.port == port then [(e.key, e.st)] else []
  }

  /** log' continues log without a store of `port`. */
  ghost predicate OthersWrote(log: seq<Entry>, log': seq<Entry>, port: nat) {
    log <= log' && OwnStores(log', port) == OwnStores(log, port)
  }

  lemma OthersWroteTransitive(port: nat)
    ensures forall a, b, c :: OthersWrote(a, b, port) && OthersWrote(b, c, port) ==> OthersWrote(a, c, port)
    ensures forall a :: OthersWrote(a, a, port)
  {
  }

  /** Each of `at` is a log between first and last. */
  ghost predicate Moments(at: seq<seq<Entry>>, first: seq<Entry>, last: seq<Entry>, port: nat) {
    forall b :: 0 <= b < |at| ==> OthersWrote(first, at[b], port) && OthersWrote(at[b], last, port)
  }

  lemma MomentsStart(log: seq<Entry>, port: nat)
    ensures Moments([], log, log, port) && OthersWrote(log, log, port)
  {
  }

  lemma MomentsLater(at: seq<seq<Entry>>, first: seq<Entry>, last: seq<Entry>, later: seq<Entry>, port: nat)
    requires Moments(at, first, last, port) && OthersWrote(first, last, port) && OthersWrote(last, later, port)
    ensures Moments(at, first, later, port) && OthersWrote(first, later, port)
  {
    hide OwnStores;
  }

  lemma MomentsNow(at: seq<seq<Entry>>, first: seq<Entry>, last: seq<Entry>, n: nat, port: nat)
    requires Moments(at, first, last, port) && OthersWrote(first, last, port)
    ensures Moments(at + seq(n, _ => last), first, last, port)
  {
    hide OwnStores;
  }

  /** now continues first; in between `port` stored exactly `own`. */
  ghost predicate Progress(first: seq<Entry>, now: seq<Entry>, port: nat, own: seq<(Key, Store)>) {
    first <= now && OwnStores(now, port) == OwnStores(first, port) + own
  }

  lemma ProgressStart(log: seq<Entry>, port: nat)
    ensures Progress(log, log, port, [])
  {
  }

  lemma ProgressOthers(first: seq<Entry>, now: seq<Entry>, later: seq<Entry>, port: nat, own: seq<(Key, Store)>)
    requires Progress(first, now, port, own) && OthersWrote(now, later, port)
    ensures Progress(first, later, port, own)
  {
    hide OwnStores;
  }

  lemma ProgressThen(first: seq<Entry>, now: seq<Entry>, later: seq<Entry>, port: nat,
                     own: seq<(Key, Store)>, next: seq<(Key, Store)>)
    requires Progress(first, now, port, own) && Progress(now, later, port, next)
    ensures Progress(first, later, port, own + next)
  {
    hide OwnStores;
  }

  lemma ProgressOwn(first: seq<Entry>, now: seq<Entry>, port: nat, own: seq<(Key, Store)>, k: Key, w: Store)
    requires Progress(first, now, port, own)
    ensures Progress(first, now + [Stored(port, k, w)], port, own + [(k, w)])
  {
    OwnStoresSnoc(now, Stored(port, k, w), port);
  }

  lemma ProgressOne(was: seq<Entry>, now: seq<Entry>, port: nat, k: Key, w: Store)
    requires OthersWrote(was, now, port)
    ensures Progress(was, now + [Stored(port, k, w)], port, [(k, w)])
  {
    OwnStoresSnoc(now, Stored(port, k, w), port);
  }

  lemma OwnStoresSnoc(log: seq<Entry>, e: Entry, port: nat)
    ensures OwnStores(log + [e], port) ==
            OwnStores(log, port) + if e.Stored? && e.port == port then [(e.key, e.st)] else []
  {
    assert (log + [e])[..|log + [e]| - 1] == log;
  }

  lemma ReplaySnoc(mem: Memory, log: seq<Entry>, e: Entry)
    ensures Replay(mem, log + [e]) == FlatApply(Replay(mem, log), e)
  {
    assert (log + [e])[..|log + [e]| - 1] == log;
  }

  /** What a step of another master leaves untouched in cache `port`. */
  ghost predicate Untouched(c: Cache, c': Cache) {
    && c'.pend == c.pend
    && c'.writeThrough == c.writeThrough
    && (c.pend.Writing? ==> c' == c)
    && |c'.lines| == |c.lines|
    && forall n :: 0 <= n < |c.lines| && !c.lines[n].valid ==> c'.lines[n] == c.lines[n]
  }

  lemma StepLeavesPort(s: System, st: Step, port: nat)
    requires WellSized(s) && MayRun(s, st, port) && port < |s.caches|
    ensures |Apply(s, st).caches| == |s.caches|
    ensures Untouched(s.caches[port], Apply(s, st).caches[port])
    ensures !(EntryOf(s, st).Stored? && EntryOf(s, st).port == port)
  {
  }

  lemma StepLogged(s: System, st: Step, mem: Memory, log: seq<Entry>)
    requires Invariant(s, Replay(mem, log)) && Enabled(s, st) && FaithfulStep(st)
    ensures Invariant(Apply(s, st), Replay(mem, log + [EntryOf(s, st)]))
  {
    StepSound(s, st, Replay(mem, log));
    ReplaySnoc(mem, log, EntryOf(s, st));
  }

  /** s' with log' is what others may have made of s with log. */
  ghost predicate Interfered(s: System, log: seq<Entry>, s': System, log': seq<Entry>, port: nat, mem: Memory) {
    && port < |s.caches| == |s'.caches|
    && WellSized(s')
    && Invariant(s', Replay(mem, log'))
    && Untouched(s.caches[port], s'.caches[port])
    && OthersWrote(log, log', port)
  }

  lemma InvariantSized(s: System, flat: Memory)
    requires Invariant(s, flat)
    ensures WellSized(s)
  {
  }

  lemma MayFinish(s: System, j: nat, flat: Memory)
    requires Invariant(s, flat) && j < |s.caches| && s.caches[j].pend.Writing?
    ensures WellSized(s) && Enabled(s, CompleteWrite(j))
  {
    assert PendingFits(s.caches[j]);
  }

  /** One step another master tries; nothing happens when it is not possible. */
  method TryStep(s: System, st: Step, port: nat, ghost mem: Memory, ghost log: seq<Entry>)
    returns (s': System, ghost log': seq<Entry>)
    requires port < |s.caches| && Invariant(s, Replay(mem, log))
    ensures Interfered(s, log, s', log', port, mem)
  {
    s', log' := s, log;
    if MayRun(s, st, port) {
      StepLogged(s, st, mem, log);
      StepLeavesPort(s, st, port);
      OwnStoresSnoc(log, EntryOf(s, st), port);
      s', log' := Apply(s, st), log + [EntryOf(s, st)];
    }
  }

  /** The steps other masters try, in order. */
  method TrySteps(s: System, steps: seq<Step>, port: nat, ghost mem: Memory, ghost log: seq<Entry>)
    returns (s': System, ghost log': seq<Entry>)
    requires port < |s.caches| && Invariant(s, Replay(mem, log))
    ensures Interfered(s, log, s', log', port, mem)
  {
    hide Invariant;
    InvariantSized(s, Replay(mem, log));
    s', log' := s, log;
    for n := 0 to |steps|
      invariant Interfered(s, log, s', log', port, mem)
    {
      s', log' := TryStep(s', steps[n], port, mem, log');
    }
  }

  /** Another cache's WriteBack, WriteClean or Evict ends. */
  method FinishOne(s: System, j: nat, port: nat, ghost mem: Memory, ghost log: seq<Entry>)
    returns (s': System, ghost log': seq<Entry>)
    requires port < |s.caches| && Invariant(s, Replay(mem, log))
    requires j < |s.caches| && j != port && s.caches[j].pend.Writing?
    ensures Interfered(s, log, s', log', port, mem)
    ensures s'.caches[j].pend.Idle?
    ensures forall i :: 0 <= i < |s.caches| && i != j ==> s'.caches[i] == s.caches[i]
  {
    hide Invariant;
    var st := CompleteWrite(j);
    MayFinish(s, j, Replay(mem, log));
    StepLogged(s, st, mem, log);
    OwnStoresSnoc(log, EntryOf(s, st), port);
    s', log' := Apply(s, st), log + [EntryOf(s, st)];
  }

  /** Snoops wait for every write that holds them back. */
  method FinishWrites(s: System, port: nat, ghost mem: Memory, ghost log: seq<Entry>)
    returns (s': System, ghost log': seq<Entry>)
    requires port < |s.caches| && Invariant(s, Replay(mem, log))
    ensures Interfered(s, log, s', log', port, mem)
    ensures SnoopsOpen(s', port)
  {
    hide Invariant;
    InvariantSized(s, Replay(mem, log));
    s', log' := s, log;
    for j := 0 to |s.caches|
      invariant Interfered(s, log, s', log', port, mem)
      invariant forall i :: 0 <= i < j && i != port ==> !s'.caches[i].pend.Writing?
    {
      if j != port && s'.caches[j].pend.Writing? {
        s', log' := FinishOne(s', j, port, mem, log');
      }
    }
  }

  /** One wait for the bus: the others move, and a request that snoops also waits until nobody holds
      snoops back. */
  method BusWait(s: System, steps: seq<Step>, snoops: bool, port: nat, ghost mem: Memory, ghost log: seq<Entry>)
    returns (s': System, ghost log': seq<Entry>)
    requires port < |s.caches| && Invariant(s, Replay(mem, log))
    ensures Interfered(s, log, s', log', port, mem)
    ensures snoops ==> SnoopsOpen(s', port)
  {
    hide Invariant;
    s', log' := TrySteps(s, steps, port, mem, log);
    if snoops {
      s', log' := FinishWrites(s', port, mem, log');
    }
  }

  /** The merge of the snoop answers: which port's data and which port's dirty data count, and IsShared. */
  method MergeAnswers(s: System, port: nat, op: SnoopOp, k: Key)
    returns (src: Option<nat>, dirtySrc: Option<nat>, shared: bool)
    requires WellSized(s)
    ensures IsSource(s, port, op, k, src) && IsDirtySource(s, port, op, k, dirtySrc)
    ensures shared <==> exists j :: 0 <= j < |s.caches| && j != port && AnswersShared(s.caches[j], op, k)
  {
    src, dirtySrc, shared := None, None, false;
    for j := 0 to |s.caches|
      invariant src.Some? ==> src.value < j && IsSource(s, port, op, k, src)
      invariant src.None? ==> forall i :: 0 <= i < j && i != port ==> !Transfers(s.caches[i], op, k)
      invariant dirtySrc.Some? ==> dirtySrc.value < j && IsDirtySource(s, port, op, k, dirtySrc)
      invariant dirtySrc.None? ==> forall i :: 0 <= i < j && i != port ==> !PassesDirty(s.caches[i], op, k)
      invariant shared <==> exists i :: 0 <= i < j && i != port && AnswersShared(s.caches[i], op, k)
    {
      if j != port {
        if AnswersShared(s.caches[j], op, k) {
          shared := true;
        }
        if Transfers(s.caches[j], op, k) {
          src := Some(j);
        }
        if PassesDirty(s.caches[j], op, k) {
          dirtySrc := Some(j);
        }
      }
    }
  }

  // ----- the steps of the cache itself

  lemma OwnStartWrite(s: System, port: nat, n: nat, kind: WriteKind, flat: Memory)
    requires Invariant(s, flat) && WellSized(s)
    requires port < |s.caches| && n < NUM_LINES && s.caches[port].pend.Idle?
    requires s.caches[port].lines[n].valid && s.caches[port].lines[n].dirty == !kind.Evict?
    ensures Invariant(SetCache(s, port, s.caches[port].(pend := Writing(kind, n, false))), flat)
  {
    hide Invariant;
    StepSound(s, StartWrite(port, n, kind), flat);
  }

  lemma OwnFinishWrite(s: System, port: nat, flat: Memory)
    requires Invariant(s, flat) && WellSized(s)
    requires port < |s.caches| && s.caches[port].pend.Writing?
    ensures Enabled(s, CompleteWrite(port))
    ensures Invariant(FinishWrite(s, port), flat)
  {
    hide Invariant;
    MayFinish(s, port, flat);
    StepSound(s, CompleteWrite(port), flat);
  }

  /** When a cache may issue a request. */
  predicate MayRequest(c: Cache, r: Request, k: Key)
    requires |c.lines| == NUM_LINES
  {
    && c.pend.Idle? && RequestAllowed(c, r) && Faithful(r)
    && (IsFill(r) ==> !Slot(c, k).valid)
    && (r.CleanUnique? ==> InCache(c.lines, k))
    && (r.CleanShared? ==> !(InCache(c.lines, k) && Slot(c, k).dirty))
  }

  lemma OwnStartRequest(s: System, port: nat, k: Key, r: Request, flat: Memory)
    requires Invariant(s, flat) && WellSized(s) && port < |s.caches|
    requires MayRequest(s.caches[port], r, k)
    ensures Invariant(SetCache(s, port, s.caches[port].(pend := Waiting(r, k))), flat)
  {
    hide Invariant;
    StepSound(s, StartRequest(port, k, r), flat);
  }

  lemma PendingAllowed(s: System, port: nat, flat: Memory)
    requires Invariant(s, flat) && port < |s.caches| && s.caches[port].pend.Waiting?
    ensures WellSized(s) && RequestAllowed(s.caches[port], s.caches[port].pend.req)
    ensures PendingFits(s.caches[port]) && Faithful(s.caches[port].pend.req)
  {
    assert CacheFits(s.caches[port]);
  }

  lemma OwnPerform(s: System, port: nat, src: Option<nat>, dirtySrc: Option<nat>, flat: Memory)
    requires Invariant(s, flat) && WellSized(s)
    requires Enabled(s, CompleteRequest(port, src, dirtySrc))
    ensures Invariant(Perform(s, port, src, dirtySrc),
                      FlatApply(flat, EntryOf(s, CompleteRequest(port, src, dirtySrc))))
  {
    hide Invariant;
    StepSound(s, CompleteRequest(port, src, dirtySrc), flat);
  }

  lemma OwnStoreHit(s: System, port: nat, k: Key, w: Store, flat: Memory)
    requires Invariant(s, flat) && WellSized(s) && w.Fits()
    requires port < |s.caches| && s.caches[port].pend.Idle? && !s.caches[port].writeThrough
    requires InCache(s.caches[port].lines, k) && !Slot(s.caches[port], k).shared
    ensures var c := s.caches[port];
            var l := Slot(c, k);
            Invariant(SetCache(s, port, c.(lines := c.lines[Index(k) := l.(data := Merge(l.data, w), dirty := true)])),
                      FlatApply(flat, Stored(port, k, w)))
  {
    hide Invariant;
    StepSound(s, StoreHit(port, k, w), flat);
  }

  /** A valid line of an idle cache holds what the flat memory holds. */
  lemma HitReadsFlat(s: System, port: nat, k: Key, flat: Memory)
    requires Invariant(s, flat) && WellSized(s)
    requires port < |s.caches| && s.caches[port].pend.Idle? && InCache(s.caches[port].lines, k)
    ensures Slot(s.caches[port], k).data == flat[k]
  {
    assert Coherent(s, k, flat[k]);
    assert Copies(s, k)[port] == CopyOf(s.caches[port], k) == Some(Slot(s.caches[port], k));
  }

  /** st is about to complete a request of cache `port`: the rest of the system already is as st
      leaves it, and the requester still has to update its own line. */
  ghost predicate AtAnswer(s: System, st: Step, port: nat, shared: bool, dirty: bool, data: Block,
                           others: seq<Cache>, mem: Memory, flat: Memory)
  {
    && WellSized(s)
    && port < |s.caches| == |others|
    && s.caches[port].pend.Waiting?
    && PendingFits(s.caches[port])
    && st.CompleteRequest? && st.i == port && Enabled(s, st)
    && (var c := s.caches[port];
        Apply(s, st) == System(others[port := Answered(c, c.pend.req, c.pend.key, data, shared, dirty)], mem))
    && Invariant(Apply(s, st), FlatApply(flat, EntryOf(s, st)))
  }

  /** The interconnect's side of a request of cache `port`: what it answers, and the caches and the
      memory it leaves behind.  Entry `port` of `others` is for the requester to fill in. */
  method Respond(s: System, port: nat, ghost flat: Memory)
    returns (shared: bool, dirty: bool, data: Block, others: seq<Cache>, mem: Memory, ghost st: Step)
    requires Invariant(s, flat) && port < |s.caches| && s.caches[port].pend.Waiting? && SnoopsOpen(s, port)
    ensures AtAnswer(s, st, port, shared, dirty, data, others, mem, flat) && |others| == |s.caches|
    ensures s.caches[port].pend.req.ReadUnique? ==> !shared
  {
    hide Invariant;
    PendingAllowed(s, port, flat);
    var r, k := s.caches[port].pend.req, s.caches[port].pend.key;
    var op := SnoopFor(r);
    var src, dirtySrc;
    src, dirtySrc, shared := MergeAnswers(s, port, op, k);
    st := CompleteRequest(port, src, dirtySrc);
    OwnPerform(s, port, src, dirtySrc, flat);
    data := FetchedData(s, k, src);
    dirty := AllowPassDirty(r) && dirtySrc.Some?;
    mem := WrittenMemory(if AllowPassDirty(r) then s.mem else CleanedMemory(s, k, dirtySrc), r, k);
    others := SnoopOthers(s, port, op, k);
  }

  lemma FillDone(s: System, st: Step, port: nat, shared: bool, dirty: bool, data: Block,
                 others: seq<Cache>, mem: Memory, flat: Memory)
    requires AtAnswer(s, st, port, shared, dirty, data, others, mem, flat)
    requires var r := s.caches[port].pend.req; IsFill(r) && !r.MakeUnique?
    ensures var c := s.caches[port];
            var l := Line(true, c.pend.key, shared, dirty && !c.pend.req.ReadClean?, data);
            Invariant(System(others[port := Cache(c.lines[Index(c.pend.key) := l], Idle, c.writeThrough)], mem), flat)
  {
    hide Invariant;
  }

  lemma CleanUniqueDone(s: System, st: Step, port: nat, shared: bool, dirty: bool, data: Block,
                        others: seq<Cache>, mem: Memory, flat: Memory)
    requires AtAnswer(s, st, port, shared, dirty, data, others, mem, flat)
    requires s.caches[port].pend.req.CleanUnique?
    ensures var c := s.caches[port]; c.lines[Index(c.pend.key)].key == c.pend.key
    ensures var c := s.caches[port];
            var n := Index(c.pend.key);
            Invariant(System(others[port :=
              if c.lines[n].valid then Cache(c.lines[n := c.lines[n].(shared := false)], Idle, c.writeThrough)
              else Cache(c.lines[n := c.lines[n].(valid := true)], Writing(Evict, n, true),
                         c.writeThrough)], mem), flat)
  {
    hide Invariant;
  }

  lemma MakeUniqueDone(s: System, st: Step, port: nat, shared: bool, dirty: bool, data: Block,
                       others: seq<Cache>, mem: Memory, flat: Memory)
    requires AtAnswer(s, st, port, shared, dirty, data, others, mem, flat)
    requires s.caches[port].pend.req.MakeUnique?
    ensures var c := s.caches[port];
            var n, k, w := Index(c.pend.key), c.pend.key, c.pend.req.st;
            Invariant(System(others[port :=
              Cache(c.lines[n := Line(true, k, false, true, Merge(c.lines[n].data, w))], Idle, c.writeThrough)], mem),
              FlatApply(flat, Stored(port, k, w)))
  {
    hide Invariant;
  }

  /** A CleanShared answered: no cache has the line dirty and memory holds it. */
  lemma CleanSharedDone(s: System, st: Step, port: nat, shared: bool, dirty: bool, data: Block,
                        others: seq<Cache>, mem: Memory, flat: Memory)
    requires AtAnswer(s, st, port, shared, dirty, data, others, mem, flat)
    requires s.caches[port].pend.req.CleanShared?
    ensures var c := s.caches[port];
            var s' := System(others[port := Cache(c.lines, Idle, c.writeThrough)], mem);
            WellSized(s') && Invariant(s', flat) && NoDirtyCopy(s', c.pend.key) && mem[c.pend.key] == flat[c.pend.key]
  {
    var k := s.caches[port].pend.key;
    CleanSharedCleans(s, port, st.src, st.dirtySrc);
    assert Coherent(Apply(s, st), k, flat[k]);
  }

  /** The bytes of a line that agrees with the flat memory, by address. */
  lemma ChunkBytes(line: Block, addr: nat, secure: bool, pos: nat, n: nat, mem: Memory, log: seq<Entry>)
    requires line == Replay(mem, log)[KeyOf(addr + pos, secure)]
    requires (addr + pos) % LINE_SIZE + n <= LINE_SIZE
    ensures forall b :: pos <= b < pos + n ==>
              line[(addr + pos) % LINE_SIZE + (b - pos)] == ByteAt(mem, log, addr, secure, b)
  {
    forall b | pos <= b < pos + n
      ensures line[(addr + pos) % LINE_SIZE + (b - pos)] == ByteAt(mem, log, addr, secure, b)
    {
      hide Replay, LastStored;
      SameLine(addr + pos, b - pos, secure);
      assert addr + pos + (b - pos) == addr + b;
      ReplayIsLastStored(mem, log, KeyOf(addr + pos, secure), (addr + pos) % LINE_SIZE + (b - pos));
    }
  }

  lemma WriteUniqueDone(s: System, st: Step, port: nat, shared: bool, dirty: bool, data: Block,
                        others: seq<Cache>, mem: Memory, flat: Memory)
    requires AtAnswer(s, st, port, shared, dirty, data, others, mem, flat)
    requires var r := s.caches[port].pend.req; r.WriteUnique? || r.WriteLineUnique?
    ensures s.caches[port].pend.req.st.Fits()
    ensures var c := s.caches[port];
            var k, r := c.pend.key, c.pend.req;
            var lines := if Updates(r) then UpdateOwnCopy(c.lines, k, r.st) else c.lines;
            Invariant(System(others[port := Cache(lines, Idle, c.writeThrough)], mem),
                      FlatApply(flat, Stored(port, k, r.st)))
  {
    hide Invariant;
  }
}
