/** The coherence invariant and its preservation by every step of the system. */
module AceCoherence {
  import opened AceSnoop
  import opened AceSystem
  import opened AceTypes
  import opened MachineTypes

  /** A line that was re-validated only to be evicted. */
  ghost predicate Phantom(c: Cache, n: nat) {
    c.pend.Writing? && c.pend.phantom && c.pend.idx == n
  }

  /** The copy of k the protocol counts: any valid line but a phantom. */
  ghost function CopyOf(c: Cache, k: Key): Option<Line>
    requires |c.lines| == NUM_LINES
  {
    if InCache(c.lines, k) && !Phantom(c, Index(k)) then Some(Slot(c, k)) else None
  }

  /** Requests that do to the cached copy what they do to the flat memory: a MakeUnique for a store
      that enables every byte, and a WriteUnique for a chunk that starts before its own length or
      enables no byte. */
  predicate Faithful(r: Request) {
    && (r.MakeUnique? ==> r.st.NoSparse())
    && (r.WriteUnique? ==> Updates(r) || r.st.EnablesNone())
  }

  ghost predicate FaithfulPending(p: Pending) {
    p.Waiting? ==> Faithful(p.req)
  }

  ghost predicate PendingFits(c: Cache)
    requires |c.lines| == NUM_LINES
  {
    match c.pend
    case Idle => true
    case Writing(kind, idx, phantom) =>
      && idx < NUM_LINES
      && c.lines[idx].valid
      && (phantom ==> kind.Evict?)
      && (!phantom ==> c.lines[idx].dirty == !kind.Evict?)
    case Waiting(r, k) =>
      && RequestAllowed(c, r)
      && (IsFill(r) ==> !Slot(c, k).valid)
      && (r.CleanUnique? ==> Slot(c, k).key == k)
      && (r.CleanShared? ==> !(InCache(c.lines, k) && Slot(c, k).dirty))
  }

  ghost predicate LineFits(c: Cache, n: nat)
    requires n < |c.lines|
  {
    c.lines[n].valid ==> Index(c.lines[n].key) == n && (c.writeThrough ==> !c.lines[n].dirty)
  }

  ghost predicate CacheFits(c: Cache) {
    && |c.lines| == NUM_LINES
    && (forall n :: 0 <= n < NUM_LINES ==> LineFits(c, n))
    && PendingFits(c)
    && FaithfulPending(c.pend)
  }

  ghost predicate Structural(s: System) {
    forall i :: 0 <= i < |s.caches| ==> CacheFits(s.caches[i])
  }

  ghost function Copies(s: System, k: Key): (r: seq<Option<Line>>)
    requires WellSized(s)
    ensures |r| == |s.caches|
  {
    seq(|s.caches|, i requires 0 <= i < |s.caches| => CopyOf(s.caches[i], k))
  }

  /** All copies of a line agree with the flat memory, an unshared copy is the only one, at most one
      copy is dirty, and without a dirty copy memory is up to date. */
  ghost predicate CoherentCopies(copies: seq<Option<Line>>, mem: Block, flat: Block) {
    && (forall i :: 0 <= i < |copies| && copies[i].Some? ==> copies[i].value.data == flat)
    && (forall i, j :: 0 <= i < |copies| && 0 <= j < |copies| && i != j && copies[i].Some? && copies[j].Some?
          ==> copies[i].value.shared && !(copies[i].value.dirty && copies[j].value.dirty))
    && ((forall i :: 0 <= i < |copies| && copies[i].Some? ==> !copies[i].value.dirty) ==> mem == flat)
  }

  ghost predicate Coherent(s: System, k: Key, flat: Block)
    requires WellSized(s)
  {
    CoherentCopies(Copies(s, k), s.mem[k], flat)
  }

  ghost predicate Invariant(s: System, flat: Memory) {
    && Structural(s)
    && WellSized(s)
    && forall k: Key :: Coherent(s, k, flat[k])
  }

  // ----- what may happen to the copies of one line

  lemma StoredCopies(copies: seq<Option<Line>>, mem: Block, flat: Block, i: nat, l: Line)
    requires CoherentCopies(copies, mem, flat)
    requires i < |copies| && copies[i].Some? && !copies[i].value.shared && l.dirty
    ensures CoherentCopies(copies[i := Some(l)], mem, l.data)
  {
    var copies' := copies[i := Some(l)];
    assert copies'[i].Some? && copies'[i].value.dirty;
  }

  lemma DroppedCopy(copies: seq<Option<Line>>, mem: Block, flat: Block, i: nat)
    requires CoherentCopies(copies, mem, flat)
    requires i < |copies| && copies[i].Some? && !copies[i].value.dirty
    ensures CoherentCopies(copies[i := None], mem, flat)
  {
    var copies' := copies[i := None];
    if forall j :: 0 <= j < |copies'| && copies'[j].Some? ==> !copies'[j].value.dirty {
      assert forall j :: 0 <= j < |copies| && copies[j].Some? ==> copies[j] == copies'[j] || j == i;
    }
  }

  lemma CleanedCopy(copies: seq<Option<Line>>, mem: Block, flat: Block, i: nat)
    requires CoherentCopies(copies, mem, flat)
    requires i < |copies| && copies[i].Some? && copies[i].value.dirty
    ensures copies[i].value.data == flat
    ensures CoherentCopies(copies[i := None], flat, flat)
    ensures CoherentCopies(copies[i := Some(copies[i].value.(dirty := false))], flat, flat)
  {
  }

  // ----- steps of one cache that leave the others alone

  /** c' differs from c in slot n only. */
  ghost predicate SameBut(c: Cache, c': Cache, n: nat) {
    && |c.lines| == |c'.lines| == NUM_LINES
    && n < NUM_LINES
    && c.writeThrough == c'.writeThrough
    && (forall m :: 0 <= m < NUM_LINES && m != n ==> c'.lines[m] == c.lines[m])
    && (forall m :: 0 <= m < NUM_LINES && m != n ==> !Phantom(c, m) && !Phantom(c', m))
  }

  lemma SameButFits(c: Cache, c': Cache, n: nat)
    requires CacheFits(c) && SameBut(c, c', n) && LineFits(c', n) && PendingFits(c') && FaithfulPending(c'.pend)
    ensures CacheFits(c')
  {
    forall m | 0 <= m < NUM_LINES
      ensures LineFits(c', m)
    {
      assert LineFits(c, m);
    }
  }

  lemma SameButCopies(s: System, s': System, i: nat, n: nat, q: Key)
    requires WellSized(s) && WellSized(s') && i < |s.caches| == |s'.caches|
    requires s'.caches == s.caches[i := s'.caches[i]]
    requires SameBut(s.caches[i], s'.caches[i], n)
    ensures Copies(s', q) == Copies(s, q)[i := CopyOf(s'.caches[i], q)]
    ensures Index(q) != n ==> Copies(s', q) == Copies(s, q)
  {
    if Index(q) != n {
      assert CopyOf(s'.caches[i], q) == CopyOf(s.caches[i], q);
    }
  }

  lemma StoreHitCoherent(s: System, i: nat, k: Key, w: Store, q: Key, flat: Block)
    requires WellSized(s) && Enabled(s, StoreHit(i, k, w)) && Coherent(s, q, flat)
    ensures Coherent(Apply(s, StoreHit(i, k, w)), q, if q == k then Merge(flat, w) else flat)
  {
    var s' := Apply(s, StoreHit(i, k, w));
    SameButCopies(s, s', i, Index(k), q);
    assert Copies(s, q)[i] == CopyOf(s.caches[i], q);
    if q == k {
      StoredCopies(Copies(s, q), s.mem[q], flat, i, Slot(s'.caches[i], k));
    } else {
      assert CopyOf(s'.caches[i], q) == CopyOf(s.caches[i], q);
      assert Copies(s', q) == Copies(s, q);
    }
  }

  lemma StartCoherent(s: System, st: Step, q: Key, flat: Block)
    requires WellSized(s) && Enabled(s, st) && Coherent(s, q, flat)
    requires st.StartWrite? || st.StartRequest?
    ensures Coherent(Apply(s, st), q, flat)
  {
    assert CopyOf(Apply(s, st).caches[st.i], q) == CopyOf(s.caches[st.i], q);
    assert Copies(Apply(s, st), q) == Copies(s, q);
  }

  lemma CompleteWriteCoherent(s: System, i: nat, q: Key, flat: Block)
    requires WellSized(s) && Enabled(s, CompleteWrite(i)) && Coherent(s, q, flat)
    requires CacheFits(s.caches[i])
    ensures Coherent(Apply(s, CompleteWrite(i)), q, flat)
  {
    var s' := Apply(s, CompleteWrite(i));
    var c, c', n := s.caches[i], s'.caches[i], s.caches[i].pend.idx;
    SameButCopies(s, s', i, n, q);
    assert LineFits(c, n);
    assert Copies(s, q)[i] == CopyOf(c, q);
    if q != c.lines[n].key {
      assert CopyOf(c', q) == CopyOf(c, q);
      assert Copies(s', q) == Copies(s, q);
    } else if c.pend.phantom {
      assert CopyOf(c', q) == CopyOf(c, q) == None;
      assert Copies(s', q) == Copies(s, q);
    } else if c.pend.kind.Evict? {
      DroppedCopy(Copies(s, q), s.mem[q], flat, i);
    } else {
      CleanedCopy(Copies(s, q), s.mem[q], flat, i);
    }
  }

  // ----- snoops

  /** A snoop that saw a copy as `before` leaves it as `after`. */
  ghost predicate SnoopedCopy(op: SnoopOp, before: Option<Line>, after: Option<Line>) {
    match before
    case None => after == None
    case Some(l) => after == if IsInvalidating(op) then None else Some(Snooped(op, l))
  }

  lemma WrittenFits(c: Cache)
    requires CacheFits(c) && c.pend.Writing?
    ensures CacheFits(Written(c))
  {
    assert LineFits(c, c.pend.idx);
    SameButFits(c, Written(c), c.pend.idx);
  }

  lemma SnoopCacheFits(c: Cache, op: SnoopOp, k: Key)
    requires CacheFits(c) && !c.pend.Writing?
    ensures CacheFits(SnoopCache(c, op, k))
  {
    var c' := SnoopCache(c, op, k);
    forall m | 0 <= m < NUM_LINES
      ensures LineFits(c', m)
    {
      assert LineFits(c, m);
    }
  }

  lemma SnoopCopy(c: Cache, op: SnoopOp, k: Key, q: Key)
    requires |c.lines| == NUM_LINES && !c.pend.Writing?
    ensures q == k ==> SnoopedCopy(op, CopyOf(c, q), CopyOf(SnoopCache(c, op, k), q))
    ensures q != k ==> CopyOf(SnoopCache(c, op, k), q) == CopyOf(c, q)
  {
  }

  /** Snooping every port but i, seen from one key. */
  lemma SnoopOthersCopies(s: System, i: nat, op: SnoopOp, k: Key, q: Key)
    requires WellSized(s) && SnoopsOpen(s, i)
    ensures var cs, cs' := Copies(s, q), Copies(s.(caches := SnoopOthers(s, i, op, k)), q);
            && |cs'| == |cs|
            && (i < |cs| ==> cs'[i] == cs[i])
            && (q != k ==> cs' == cs)
            && (q == k ==> forall j :: 0 <= j < |cs| && j != i ==> SnoopedCopy(op, cs[j], cs'[j]))
  {
    var t := s.(caches := SnoopOthers(s, i, op, k));
    var cs, cs' := Copies(s, q), Copies(t, q);
    forall j | 0 <= j < |cs| && j != i
      ensures q == k ==> SnoopedCopy(op, cs[j], cs'[j])
      ensures q != k ==> cs'[j] == cs[j]
    {
      SnoopCopy(s.caches[j], op, k, q);
    }
  }

  /** A line fetched by a read: what the merged answer says is enough for the new copy to join. */
  lemma FetchedCopy(cs: seq<Option<Line>>, cs': seq<Option<Line>>, mem: Block, flat: Block, i: nat, op: SnoopOp,
                    l: Line)
    requires CoherentCopies(cs, mem, flat) && |cs'| == |cs| && i < |cs| && cs[i] == None && IsReadSnoop(op)
    requires forall j :: 0 <= j < |cs| && j != i ==> SnoopedCopy(op, cs[j], cs'[j])
    requires cs'[i] == Some(l) && l.data == flat
    requires (exists j :: 0 <= j < |cs| && j != i && cs[j].Some? && !IsInvalidating(op)) ==> l.shared
    requires l.dirty <==> exists j :: 0 <= j < |cs| && j != i && cs[j].Some? && cs[j].value.dirty && HandsOverDirty(op)
    ensures CoherentCopies(cs', mem, flat)
  {
  }

  /** Every other copy is gone and the requester keeps at most one clean copy of what memory holds,
      or one dirty copy. */
  lemma OnlyCopy(cs': seq<Option<Line>>, mem: Block, flat: Block, i: nat)
    requires forall j :: 0 <= j < |cs'| && j != i ==> cs'[j] == None
    requires i < |cs'| && cs'[i].Some? ==> cs'[i].value.data == flat
    requires mem == flat || (i < |cs'| && cs'[i].Some? && cs'[i].value.dirty)
    ensures CoherentCopies(cs', mem, flat)
  {
  }

  /** Snoops that invalidate nothing and clean what they see dirty. */
  lemma CleanedCopies(cs: seq<Option<Line>>, cs': seq<Option<Line>>, mem: Block, mem': Block, flat: Block, i: nat,
                      op: SnoopOp)
    requires CoherentCopies(cs, mem, flat) && |cs'| == |cs|
    requires op.CleanShared? || op.ReadOnce?
    requires forall j :: 0 <= j < |cs| && j != i ==> SnoopedCopy(op, cs[j], cs'[j])
    requires i < |cs| ==> cs'[i] == cs[i]
    requires mem' == if op.CleanShared? && (exists j :: 0 <= j < |cs| && j != i && cs[j].Some? && cs[j].value.dirty)
                     then flat else mem
    ensures CoherentCopies(cs', mem', flat)
  {
    if forall j :: 0 <= j < |cs'| && cs'[j].Some? ==> !cs'[j].value.dirty {
      if forall j :: 0 <= j < |cs| && cs[j].Some? ==> !cs[j].value.dirty {
      } else {
        var d :| 0 <= d < |cs| && cs[d].Some? && cs[d].value.dirty;
        assert cs'[d].Some?;
      }
    }
  }

  /** Once every snoop has been answered, memory holds the line unless a dirty copy was passed on or kept. */
  lemma CleanedMemoryUpToDate(s: System, i: nat, op: SnoopOp, k: Key, dirtySrc: Option<nat>, flat: Block)
    requires WellSized(s) && Coherent(s, k, flat) && SnoopsOpen(s, i) && HandsOverDirty(op)
    requires IsDirtySource(s, i, op, k, dirtySrc)
    requires i < |s.caches| && Copies(s, k)[i].Some? ==> !Copies(s, k)[i].value.dirty
    ensures CleanedMemory(s, k, dirtySrc)[k] == flat
  {
    var cs := Copies(s, k);
    match dirtySrc
    case Some(j) => assert cs[j] == CopyOf(s.caches[j], k) == Some(Slot(s.caches[j], k));
    case None =>
      forall j | 0 <= j < |cs| && cs[j].Some?
        ensures !cs[j].value.dirty
      {
        assert cs[j] == CopyOf(s.caches[j], k);
        if j != i {
          assert !PassesDirty(s.caches[j], op, k);
        }
      }
  }

  /** What a read brings in is what the flat memory holds. */
  lemma FetchedIsFlat(s: System, i: nat, op: SnoopOp, k: Key, src: Option<nat>, flat: Block)
    requires WellSized(s) && Coherent(s, k, flat) && SnoopsOpen(s, i) && IsReadSnoop(op)
    requires IsSource(s, i, op, k, src)
    requires i < |s.caches| ==> Copies(s, k)[i] == None
    ensures FetchedData(s, k, src) == flat
  {
    var cs := Copies(s, k);
    match src
    case Some(j) => assert cs[j] == CopyOf(s.caches[j], k) == Some(Slot(s.caches[j], k));
    case None =>
      forall j | 0 <= j < |cs|
        ensures cs[j] == None
      {
        assert cs[j] == CopyOf(s.caches[j], k);
        if j != i {
          assert !Transfers(s.caches[j], op, k);
        }
      }
  }

  lemma AnsweredCopy(c: Cache, r: Request, k: Key, data: Block, shared: bool, dirty: bool, q: Key)
    requires |c.lines| == NUM_LINES && c.pend == Waiting(r, k) && PendingFits(c)
    ensures q != k ==> CopyOf(Answered(c, r, k, data, shared, dirty), q) == CopyOf(c, q)
  {
  }

  lemma AnsweredFits(c: Cache, r: Request, k: Key, data: Block, shared: bool, dirty: bool)
    requires CacheFits(c) && c.pend == Waiting(r, k)
    ensures CacheFits(Answered(c, r, k, data, shared, dirty))
  {
    var c' := Answered(c, r, k, data, shared, dirty);
    assert LineFits(c, Index(k));
    SameButFits(c, c', Index(k));
  }

  /** The answers of the snooped ports, read off the copies. */
  lemma AnswersFromCopies(s: System, i: nat, op: SnoopOp, k: Key)
    requires WellSized(s) && SnoopsOpen(s, i)
    ensures forall j :: 0 <= j < |s.caches| && j != i ==>
              AnswersShared(s.caches[j], op, k) ==
              (Copies(s, k)[j].Some? && !IsInvalidating(op))
    ensures forall j :: 0 <= j < |s.caches| && j != i ==>
              PassesDirty(s.caches[j], op, k) ==
              (Copies(s, k)[j].Some? && Copies(s, k)[j].value.dirty && HandsOverDirty(op))
  {
    forall j | 0 <= j < |s.caches| && j != i
      ensures Copies(s, k)[j] == CopyOf(s.caches[j], k)
      ensures !Phantom(s.caches[j], Index(k))
    {
    }
  }

  /** A request that takes effect, seen from one key. */
  lemma PerformCopies(s: System, i: nat, src: Option<nat>, dirtySrc: Option<nat>, q: Key)
    requires WellSized(s) && Enabled(s, CompleteRequest(i, src, dirtySrc)) && PendingFits(s.caches[i])
    ensures var cs, s' := Copies(s, q), Perform(s, i, src, dirtySrc);
            var cs' := Copies(s', q);
            && |cs'| == |cs| && |s'.caches| == |s.caches|
            && (q == s.caches[i].pend.key ==>
                  forall j :: 0 <= j < |cs| && j != i ==> SnoopedCopy(SnoopFor(s.caches[i].pend.req), cs[j], cs'[j]))
            && (q != s.caches[i].pend.key ==> cs' == cs)
            && cs'[i] == CopyOf(s'.caches[i], q)
  {
    var c, r, k := s.caches[i], s.caches[i].pend.req, s.caches[i].pend.key;
    var s' := Perform(s, i, src, dirtySrc);
    SnoopOthersCopies(s, i, SnoopFor(r), k, q);
    var t := Copies(s.(caches := SnoopOthers(s, i, SnoopFor(r), k)), q);
    assert Copies(s', q) == t[i := CopyOf(s'.caches[i], q)];
    if q != k {
      var shared := exists j :: 0 <= j < |s.caches| && j != i && AnswersShared(s.caches[j], SnoopFor(r), k);
      AnsweredCopy(c, r, k, FetchedData(s, k, src), shared, AllowPassDirty(r) && dirtySrc.Some?, q);
      assert t[i] == CopyOf(c, q);
    }
  }

  lemma FillCoherent(s: System, i: nat, src: Option<nat>, dirtySrc: Option<nat>, flat: Block)
    requires WellSized(s) && Enabled(s, CompleteRequest(i, src, dirtySrc)) && PendingFits(s.caches[i])
    requires var r := s.caches[i].pend.req; IsFill(r) && !r.MakeUnique?
    requires Coherent(s, s.caches[i].pend.key, flat)
    ensures Coherent(Perform(s, i, src, dirtySrc), s.caches[i].pend.key, flat)
  {
    var c, r, k := s.caches[i], s.caches[i].pend.req, s.caches[i].pend.key;
    var op := SnoopFor(r);
    var s' := Perform(s, i, src, dirtySrc);
    assert Copies(s, k)[i] == CopyOf(c, k) == None;
    FetchedIsFlat(s, i, op, k, src, flat);
    PerformCopies(s, i, src, dirtySrc, k);
    AnswersFromCopies(s, i, op, k);
    FetchedCopy(Copies(s, k), Copies(s', k), s.mem[k], flat, i, op, s'.caches[i].lines[Index(k)]);
  }

  lemma CleanUniqueCoherent(s: System, i: nat, src: Option<nat>, dirtySrc: Option<nat>, flat: Block)
    requires WellSized(s) && Enabled(s, CompleteRequest(i, src, dirtySrc)) && PendingFits(s.caches[i])
    requires s.caches[i].pend.req.CleanUnique?
    requires Coherent(s, s.caches[i].pend.key, flat)
    ensures Coherent(Perform(s, i, src, dirtySrc), s.caches[i].pend.key, flat)
  {
    var c, k := s.caches[i], s.caches[i].pend.key;
    var s' := Perform(s, i, src, dirtySrc);
    var cs := Copies(s, k);
    assert cs[i] == CopyOf(c, k);
    PerformCopies(s, i, src, dirtySrc, k);
    if !(cs[i].Some? && cs[i].value.dirty) {
      CleanedMemoryUpToDate(s, i, CleanInvalid, k, dirtySrc, flat);
    }
    OnlyCopy(Copies(s', k), s'.mem[k], flat, i);
  }

  lemma MakeUniqueCoherent(s: System, i: nat, src: Option<nat>, dirtySrc: Option<nat>, flat: Block)
    requires WellSized(s) && Enabled(s, CompleteRequest(i, src, dirtySrc)) && PendingFits(s.caches[i])
    requires s.caches[i].pend.req.MakeUnique? && s.caches[i].pend.req.st.NoSparse()
    ensures Coherent(Perform(s, i, src, dirtySrc), s.caches[i].pend.key, Merge(flat, s.caches[i].pend.req.st))
  {
    var k, st := s.caches[i].pend.key, s.caches[i].pend.req.st;
    var s' := Perform(s, i, src, dirtySrc);
    PerformCopies(s, i, src, dirtySrc, k);
    WholeLineMerge(flat, Slot(s.caches[i], k).data, st);
    OnlyCopy(Copies(s', k), s'.mem[k], Merge(flat, st), i);
  }

  /** A whole line with all bytes enabled does not depend on what was there. */
  lemma WholeLineMerge(a: Block, b: Block, st: Store)
    requires st.WholeLine() && st.NoSparse()
    ensures Merge(a, st) == Merge(b, st)
  {
    forall n | 0 <= n < LINE_SIZE
      ensures Merge(a, st)[n] == Merge(b, st)[n]
    {
      assert st.Covers(n);
    }
  }

  lemma WriteUniqueCoherent(s: System, i: nat, src: Option<nat>, dirtySrc: Option<nat>, flat: Block)
    requires WellSized(s) && Enabled(s, CompleteRequest(i, src, dirtySrc)) && PendingFits(s.caches[i])
    requires LineFits(s.caches[i], Index(s.caches[i].pend.key))
    requires var r := s.caches[i].pend.req; r.WriteUnique? || r.WriteLineUnique?
    requires Faithful(s.caches[i].pend.req)
    requires Coherent(s, s.caches[i].pend.key, flat)
    ensures Coherent(Perform(s, i, src, dirtySrc), s.caches[i].pend.key, Merge(flat, s.caches[i].pend.req.st))
  {
    var c, k, r := s.caches[i], s.caches[i].pend.key, s.caches[i].pend.req;
    var s' := Perform(s, i, src, dirtySrc);
    assert Copies(s, k)[i] == CopyOf(c, k);
    PerformCopies(s, i, src, dirtySrc, k);
    if !Updates(r) {
      assert Merge(flat, r.st) == flat;
    }
    if r.WriteUnique? {
      CleanedMemoryUpToDate(s, i, CleanInvalid, k, dirtySrc, flat);
    } else {
      WholeLineMerge(flat, CleanedMemory(s, k, dirtySrc)[k], r.st);
    }
    OnlyCopy(Copies(s', k), s'.mem[k], Merge(flat, r.st), i);
  }

  lemma CleanSharedCoherent(s: System, i: nat, src: Option<nat>, dirtySrc: Option<nat>, flat: Block)
    requires WellSized(s) && Enabled(s, CompleteRequest(i, src, dirtySrc)) && PendingFits(s.caches[i])
    requires s.caches[i].pend.req.CleanShared?
    requires Coherent(s, s.caches[i].pend.key, flat)
    ensures Coherent(Perform(s, i, src, dirtySrc), s.caches[i].pend.key, flat)
  {
    var c, k := s.caches[i], s.caches[i].pend.key;
    var s' := Perform(s, i, src, dirtySrc);
    assert Copies(s, k)[i] == CopyOf(c, k) == CopyOf(s'.caches[i], k);
    PerformCopies(s, i, src, dirtySrc, k);
    AnswersFromCopies(s, i, SnoopOp.CleanShared, k);
    CleanedCopies(Copies(s, k), Copies(s', k), s.mem[k], s'.mem[k], flat, i, SnoopOp.CleanShared);
  }
}
