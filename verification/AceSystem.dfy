/** N caches, an interconnect and a memory as a transition system.

    A request takes effect in one step: the other caches are snooped, their answers merged, and the
    requesting cache updates its line.  Between the moment a cache issues a request and that step
    any other master may take any number of steps.  */
module AceSystem {
  import opened AceSnoop
  import opened AceTypes
  import opened MachineTypes

  datatype Request =
    | ReadShared | ReadNotSharedDirty | ReadClean | ReadUnique
    | CleanUnique
    | MakeUnique(st: Store)       // with the whole-line store that follows it without a pause
    | WriteUnique(st: Store, pos: nat)   // `pos`: where the chunk starts in its payload
    | WriteLineUnique(st: Store)
    | CleanShared

  datatype WriteKind = WriteBack | WriteClean | Evict

  /** What a cache waits for: one of its own writes, or the answer to a request.  `phantom` marks the
      Evict of a line that was re-validated only to be evicted. */
  datatype Pending =
    | Idle
    | Writing(kind: WriteKind, idx: nat, phantom: bool)
    | Waiting(req: Request, key: Key)

  datatype Cache = Cache(lines: seq<Line>, pend: Pending, writeThrough: bool)

  datatype System = System(caches: seq<Cache>, mem: Memory)

  // ----- steps

  datatype Step =
    | Load(i: nat, key: Key, off: nat, data: seq<Byte>)      // `data`: what the load returns
    | StoreHit(i: nat, key: Key, st: Store)
    | StartWrite(i: nat, idx: nat, kind: WriteKind)
    | StartRequest(i: nat, key: Key, req: Request)
    | CompleteWrite(i: nat)
    | CompleteRequest(i: nat, src: Option<nat>, dirtySrc: Option<nat>)
    | IoRead(key: Key, off: nat, data: seq<Byte>, src: Option<nat>)
    | IoWrite(key: Key, st: Store, whole: bool, dirtySrc: Option<nat>)

  predicate IsFill(r: Request) {
    r.ReadShared? || r.ReadNotSharedDirty? || r.ReadClean? || r.ReadUnique? || r.MakeUnique?
  }

  predicate RequestAllowed(c: Cache, r: Request) {
    match r
    case ReadShared => !c.writeThrough
    case ReadNotSharedDirty => !c.writeThrough
    case ReadUnique => !c.writeThrough
    case CleanUnique => !c.writeThrough
    case MakeUnique(st) => !c.writeThrough && st.WholeLine()
    case ReadClean => c.writeThrough
    case WriteUnique(st, _) => c.writeThrough && st.Fits()
    case WriteLineUnique(st) => c.writeThrough && st.WholeLine() && st.NoSparse()
    case CleanShared => true
  }

  function SnoopFor(r: Request): SnoopOp {
    match r
    case ReadShared => SnoopOp.ReadShared
    case ReadNotSharedDirty => SnoopOp.ReadNotSharedDirty
    case ReadClean => SnoopOp.ReadClean
    case ReadUnique => SnoopOp.ReadUnique
    case CleanUnique => CleanInvalid
    case MakeUnique(_) => MakeInvalid
    case WriteUnique(_, _) => CleanInvalid
    case WriteLineUnique(_) => MakeInvalid
    case CleanShared => SnoopOp.CleanShared
  }

  /** The interconnect forwards dirty responsibility only to these requests. */
  predicate AllowPassDirty(r: Request) {
    r.ReadShared? || r.ReadNotSharedDirty? || r.ReadUnique?
  }

  predicate WellSized(s: System) {
    forall i :: 0 <= i < |s.caches| ==> |s.caches[i].lines| == NUM_LINES
  }

  function Slot(c: Cache, k: Key): Line
    requires |c.lines| == NUM_LINES
  {
    c.lines[Index(k)]
  }

  /** Cache j answers a snoop for k with data. */
  predicate Transfers(c: Cache, op: SnoopOp, k: Key)
    requires |c.lines| == NUM_LINES
  {
    InCache(c.lines, k) && Response(op, Slot(c, k)).transfer
  }

  predicate PassesDirty(c: Cache, op: SnoopOp, k: Key)
    requires |c.lines| == NUM_LINES
  {
    InCache(c.lines, k) && Response(op, Slot(c, k)).dirty
  }

  predicate AnswersShared(c: Cache, op: SnoopOp, k: Key)
    requires |c.lines| == NUM_LINES
  {
    InCache(c.lines, k) && Response(op, Slot(c, k)).shared
  }

  /** No cache but `i` holds snoops back because of its own WriteBack, WriteClean or Evict. */
  predicate SnoopsOpen(s: System, i: nat) {
    forall j :: 0 <= j < |s.caches| && j != i ==> !s.caches[j].pend.Writing?
  }

  /** `src` is the port whose line ends up in the answer: some port that transferred, if any did. */
  predicate IsSource(s: System, i: nat, op: SnoopOp, k: Key, src: Option<nat>)
    requires WellSized(s)
  {
    match src
    case Some(j) => j < |s.caches| && j != i && Transfers(s.caches[j], op, k)
    case None => forall j :: 0 <= j < |s.caches| && j != i ==> !Transfers(s.caches[j], op, k)
  }

  predicate IsDirtySource(s: System, i: nat, op: SnoopOp, k: Key, src: Option<nat>)
    requires WellSized(s)
  {
    match src
    case Some(j) => j < |s.caches| && j != i && PassesDirty(s.caches[j], op, k)
    case None => forall j :: 0 <= j < |s.caches| && j != i ==> !PassesDirty(s.caches[j], op, k)
  }

  predicate IsWindow(data: seq<Byte>, b: Block, off: nat) {
    off + |data| <= LINE_SIZE && data == b[off..off + |data|]
  }

  /** The snoop's data, or what memory holds when nobody transferred. */
  function FetchedData(s: System, k: Key, src: Option<nat>): Block
    requires WellSized(s)
    requires src.Some? ==> src.value < |s.caches|
  {
    if src.Some? then Slot(s.caches[src.value], k).data else s.mem[k]
  }

  predicate Enabled(s: System, st: Step)
    requires WellSized(s)
  {
    match st
    case Load(i, k, off, data) =>
      && i < |s.caches| && s.caches[i].pend.Idle?
      && InCache(s.caches[i].lines, k) && IsWindow(data, Slot(s.caches[i], k).data, off)
    case StoreHit(i, k, w) =>
      && i < |s.caches| && s.caches[i].pend.Idle? && !s.caches[i].writeThrough
      && InCache(s.caches[i].lines, k) && !Slot(s.caches[i], k).shared && w.Fits()
    case StartWrite(i, idx, kind) =>
      && i < |s.caches| && s.caches[i].pend.Idle? && idx < NUM_LINES
      && s.caches[i].lines[idx].valid && s.caches[i].lines[idx].dirty == !kind.Evict?
    case StartRequest(i, k, r) =>
      && i < |s.caches| && s.caches[i].pend.Idle? && RequestAllowed(s.caches[i], r)
      && (IsFill(r) ==> !Slot(s.caches[i], k).valid)
      && (r.CleanUnique? ==> InCache(s.caches[i].lines, k))
      && (r.CleanShared? ==> !(InCache(s.caches[i].lines, k) && Slot(s.caches[i], k).dirty))
    case CompleteWrite(i) =>
      && i < |s.caches| && s.caches[i].pend.Writing? && s.caches[i].pend.idx < NUM_LINES
    case CompleteRequest(i, src, dirtySrc) =>
      && i < |s.caches| && s.caches[i].pend.Waiting? && SnoopsOpen(s, i)
      && RequestAllowed(s.caches[i], s.caches[i].pend.req)
      && IsSource(s, i, SnoopFor(s.caches[i].pend.req), s.caches[i].pend.key, src)
      && IsDirtySource(s, i, SnoopFor(s.caches[i].pend.req), s.caches[i].pend.key, dirtySrc)
    case IoRead(k, off, data, src) =>
      && SnoopsOpen(s, |s.caches|) && IsSource(s, |s.caches|, ReadOnce, k, src)
      && IsWindow(data, FetchedData(s, k, src), off)
    case IoWrite(k, w, whole, dirtySrc) =>
      && SnoopsOpen(s, |s.caches|) && w.Fits() && (whole ==> w.WholeLine() && w.NoSparse())
      && IsDirtySource(s, |s.caches|, IoSnoop(whole), k, dirtySrc)
  }

  function IoSnoop(whole: bool): SnoopOp {
    if whole then MakeInvalid else CleanInvalid
  }

  function SetCache(s: System, i: nat, c: Cache): (r: System)
    requires i < |s.caches|
  {
    s.(caches := s.caches[i := c])
  }

  function SnoopCache(c: Cache, op: SnoopOp, k: Key): (r: Cache)
    requires |c.lines| == NUM_LINES
    ensures |r.lines| == NUM_LINES
  {
    c.(lines := SnoopLines(op, c.lines, k))
  }

  /** Every port but `i` is snooped. */
  function SnoopOthers(s: System, i: nat, op: SnoopOp, k: Key): (r: seq<Cache>)
    requires WellSized(s)
    ensures |r| == |s.caches|
    ensures forall j :: 0 <= j < |r| ==> r[j] == if j == i then s.caches[j] else SnoopCache(s.caches[j], op, k)
  {
    seq(|s.caches|, j requires 0 <= j < |s.caches| => if j == i then s.caches[j] else SnoopCache(s.caches[j], op, k))
  }

  /** Memory after dirty data the requester may not take has been written downstream. */
  function CleanedMemory(s: System, k: Key, dirtySrc: Option<nat>): Memory
    requires WellSized(s)
    requires dirtySrc.Some? ==> dirtySrc.value < |s.caches|
  {
    if dirtySrc.Some? then s.mem[k := Slot(s.caches[dirtySrc.value], k).data] else s.mem
  }

  /** What the requesting cache does when its request has been answered. */
  function Answered(c: Cache, r: Request, k: Key, data: Block, shared: bool, dirty: bool): (c': Cache)
    requires |c.lines| == NUM_LINES
    requires RequestAllowed(c, r)
    ensures |c'.lines| == NUM_LINES
  {
    var n := Index(k);
    var l := c.lines[n];
    match r
    case ReadShared => Cache(c.lines[n := Line(true, k, shared, dirty, data)], Idle, c.writeThrough)
    case ReadNotSharedDirty => Cache(c.lines[n := Line(true, k, shared, dirty, data)], Idle, c.writeThrough)
    case ReadUnique => Cache(c.lines[n := Line(true, k, shared, dirty, data)], Idle, c.writeThrough)
    case ReadClean => Cache(c.lines[n := Line(true, k, shared, false, data)], Idle, c.writeThrough)
    case CleanUnique =>
      if l.valid then c.(lines := c.lines[n := l.(shared := false)], pend := Idle)
      else c.(lines := c.lines[n := l.(valid := true)], pend := Writing(Evict, n, true))
    case MakeUnique(st) => Cache(c.lines[n := Line(true, k, false, true, Merge(l.data, st))], Idle, c.writeThrough)
    case WriteUnique(st, pos) =>
      c.(lines := if pos < |st.data| then UpdateOwnCopy(c.lines, k, st) else c.lines, pend := Idle)
    case WriteLineUnique(st) => c.(lines := UpdateOwnCopy(c.lines, k, st), pend := Idle)
    case CleanShared => c.(pend := Idle)
  }

  /** Whether the loop behind a write-through store reaches the own copy. */
  predicate Updates(r: Request) {
    r.WriteLineUnique? || (r.WriteUnique? && r.pos < |r.st.data|)
  }

  function UpdateOwnCopy(lines: seq<Line>, k: Key, st: Store): (r: seq<Line>)
    requires |lines| == NUM_LINES && st.Fits()
    ensures |r| == NUM_LINES
  {
    var l := lines[Index(k)];
    if InCache(lines, k)
    then lines[Index(k) := l.(data := Merge(l.data, st), dirty := false, shared := true)]
    else lines
  }

  function WrittenMemory(m: Memory, r: Request, k: Key): Memory
    requires (r.WriteUnique? || r.WriteLineUnique?) ==> r.st.Fits()
  {
    if r.WriteUnique? || r.WriteLineUnique? then m[k := Merge(m[k], r.st)] else m
  }

  function Perform(s: System, i: nat, src: Option<nat>, dirtySrc: Option<nat>): (s': System)
    requires WellSized(s) && Enabled(s, CompleteRequest(i, src, dirtySrc))
    ensures WellSized(s')
  {
    var c := s.caches[i];
    var r, k := c.pend.req, c.pend.key;
    var op := SnoopFor(r);
    var others := SnoopOthers(s, i, op, k);
    var shared := exists j :: 0 <= j < |s.caches| && j != i && AnswersShared(s.caches[j], op, k);
    var accepted := AllowPassDirty(r) && dirtySrc.Some?;
    var mem := if AllowPassDirty(r) then s.mem else CleanedMemory(s, k, dirtySrc);
    System(others[i := Answered(c, r, k, FetchedData(s, k, src), shared, accepted)], WrittenMemory(mem, r, k))
  }

  /** The writing cache once its WriteBack, WriteClean or Evict is done. */
  function Written(c: Cache): (c': Cache)
    requires |c.lines| == NUM_LINES && c.pend.Writing? && c.pend.idx < NUM_LINES
    ensures |c'.lines| == NUM_LINES
  {
    var n := c.pend.idx;
    var l := c.lines[n];
    c.(lines := c.lines[n := if c.pend.kind.WriteClean? then l.(dirty := false) else l.(valid := false)], pend := Idle)
  }

  function FinishWrite(s: System, i: nat): (s': System)
    requires WellSized(s) && Enabled(s, CompleteWrite(i))
    ensures WellSized(s')
  {
    var c := s.caches[i];
    var l := c.lines[c.pend.idx];
    System(s.caches[i := Written(c)], if c.pend.kind.Evict? then s.mem else s.mem[l.key := l.data])
  }

  function Apply(s: System, st: Step): (s': System)
    requires WellSized(s) && Enabled(s, st)
    ensures WellSized(s')
  {
    match st
    case Load(_, _, _, _) => s
    case StoreHit(i, k, w) =>
      var c := s.caches[i];
      var l := Slot(c, k);
      SetCache(s, i, c.(lines := c.lines[Index(k) := l.(data := Merge(l.data, w), dirty := true)]))
    case StartWrite(i, idx, kind) => SetCache(s, i, s.caches[i].(pend := Writing(kind, idx, false)))
    case StartRequest(i, k, r) => SetCache(s, i, s.caches[i].(pend := Waiting(r, k)))
    case CompleteWrite(i) => FinishWrite(s, i)
    case CompleteRequest(i, src, dirtySrc) => Perform(s, i, src, dirtySrc)
    case IoRead(k, _, _, _) => s.(caches := SnoopOthers(s, |s.caches|, ReadOnce, k))
    case IoWrite(k, w, whole, dirtySrc) =>
      var mem := CleanedMemory(s, k, dirtySrc);
      System(SnoopOthers(s, |s.caches|, IoSnoop(whole), k), mem[k := Merge(mem[k], w)])
  }
}
