/** Whole runs: the caches, the interconnect and the memory together behave as one flat memory. */
module AceRefinement {
  import opened AceCoherence
  import opened AceSnoop
  import opened AceSystem
  import opened AceTypes
  import opened MachineTypes

  predicate FaithfulStep(st: Step) {
    st.StartRequest? ==> Faithful(st.req)
  }

  /** A store by master `port`, or a step that stores nothing. */
  datatype Entry = Nothing | Stored(port: nat, key: Key, st: Store)

  /** The store a step makes visible; masters without a cache count as the port after the last. */
  ghost function EntryOf(s: System, st: Step): Entry
    requires WellSized(s) && Enabled(s, st)
  {
    match st
    case StoreHit(i, k, w) => Stored(i, k, w)
    case CompleteRequest(i, _, _) =>
      var r := s.caches[i].pend.req;
      if r.MakeUnique? || r.WriteUnique? || r.WriteLineUnique? then Stored(i, s.caches[i].pend.key, r.st) else Nothing
    case IoWrite(k, w, _, _) => Stored(|s.caches|, k, w)
    case _ => Nothing
  }

  /** One entry applied to the flat memory. */
  ghost function FlatApply(flat: Memory, e: Entry): Memory {
    match e
    case Stored(_, k, w) => flat[k := Merge(flat[k], w)]
    case Nothing => flat
  }

  lemma RequestCoherent(s: System, i: nat, src: Option<nat>, dirtySrc: Option<nat>, q: Key, flat: Block)
    requires WellSized(s) && Enabled(s, CompleteRequest(i, src, dirtySrc)) && CacheFits(s.caches[i])
    requires Faithful(s.caches[i].pend.req) && Coherent(s, q, flat)
    ensures var r := s.caches[i].pend.req;
            Coherent(Perform(s, i, src, dirtySrc), q,
              if q == s.caches[i].pend.key && (r.MakeUnique? || r.WriteUnique? || r.WriteLineUnique?)
              then Merge(flat, r.st) else flat)
  {
    var r, k := s.caches[i].pend.req, s.caches[i].pend.key;
    if q != k {
      PerformCopies(s, i, src, dirtySrc, q);
    } else {
      match r {
        case CleanUnique => CleanUniqueCoherent(s, i, src, dirtySrc, flat);
        case MakeUnique(_) => MakeUniqueCoherent(s, i, src, dirtySrc, flat);
        case WriteUnique(_, _) => WriteUniqueCoherent(s, i, src, dirtySrc, flat);
        case WriteLineUnique(_) => WriteUniqueCoherent(s, i, src, dirtySrc, flat);
        case CleanShared => CleanSharedCoherent(s, i, src, dirtySrc, flat);
        case _ => FillCoherent(s, i, src, dirtySrc, flat);
      }
    }
  }

  lemma IoReadCoherent(s: System, k: Key, q: Key, flat: Block)
    requires WellSized(s) && SnoopsOpen(s, |s.caches|) && Coherent(s, q, flat)
    ensures Coherent(s.(caches := SnoopOthers(s, |s.caches|, ReadOnce, k)), q, flat)
  {
    var s' := s.(caches := SnoopOthers(s, |s.caches|, ReadOnce, k));
    SnoopOthersCopies(s, |s.caches|, ReadOnce, k, q);
    if q == k {
      CleanedCopies(Copies(s, q), Copies(s', q), s.mem[q], s'.mem[q], flat, |s.caches|, ReadOnce);
    }
  }

  lemma IoWriteCoherent(s: System, k: Key, w: Store, whole: bool, dirtySrc: Option<nat>, q: Key, flat: Block)
    requires WellSized(s) && Enabled(s, IoWrite(k, w, whole, dirtySrc)) && Coherent(s, q, flat)
    ensures Coherent(Apply(s, IoWrite(k, w, whole, dirtySrc)), q, if q == k then Merge(flat, w) else flat)
  {
    var n := |s.caches|;
    var s' := Apply(s, IoWrite(k, w, whole, dirtySrc));
    SnoopOthersCopies(s, n, IoSnoop(whole), k, q);
    assert Copies(s', q) == Copies(s.(caches := SnoopOthers(s, n, IoSnoop(whole), k)), q);
    if q == k {
      if whole {
        WholeLineMerge(flat, CleanedMemory(s, k, dirtySrc)[k], w);
      } else {
        CleanedMemoryUpToDate(s, n, CleanInvalid, k, dirtySrc, flat);
      }
      OnlyCopy(Copies(s', q), s'.mem[q], Merge(flat, w), n);
    }
  }

  /** What a step leaves of one line of the flat memory. */
  ghost function FlatBlock(flat: Block, s: System, st: Step, q: Key): Block
    requires WellSized(s) && Enabled(s, st)
  {
    match EntryOf(s, st)
    case Stored(_, k, w) => if k == q then Merge(flat, w) else flat
    case Nothing => flat
  }

  ghost predicate ReadyToComplete(s: System, st: Step) {
    && (st.CompleteWrite? ==> st.i < |s.caches| && CacheFits(s.caches[st.i]))
    && (st.CompleteRequest? ==> st.i < |s.caches| && CacheFits(s.caches[st.i]))
  }

  /** Every step keeps every line coherent with the flat memory. */
  lemma StepCoherent(s: System, st: Step, q: Key, flat: Block)
    requires WellSized(s) && Enabled(s, st) && ReadyToComplete(s, st) && Coherent(s, q, flat)
    ensures Coherent(Apply(s, st), q, FlatBlock(flat, s, st, q))
  {
    match st {
      case Load(_, _, _, _) =>
      case StoreHit(i, k, w) => StoreHitCoherent(s, i, k, w, q, flat);
      case CompleteWrite(i) => CompleteWriteCoherent(s, i, q, flat);
      case CompleteRequest(i, src, dirtySrc) => RequestCoherent(s, i, src, dirtySrc, q, flat);
      case IoRead(k, _, _, _) => IoReadCoherent(s, k, q, flat);
      case IoWrite(k, w, whole, dirtySrc) => IoWriteCoherent(s, k, w, whole, dirtySrc, q, flat);
      case _ => StartCoherent(s, st, q, flat);
    }
  }

  // ----- the structural part

  lemma OwnStepFits(s: System, st: Step)
    requires Structural(s) && WellSized(s) && Enabled(s, st) && FaithfulStep(st)
    requires st.StoreHit? || st.StartWrite? || st.StartRequest?
    ensures CacheFits(Apply(s, st).caches[st.i])
  {
    var c := s.caches[st.i];
    var n := if st.StartWrite? then st.idx else Index(st.key);
    assert CacheFits(c) && LineFits(c, n);
    SameButFits(c, Apply(s, st).caches[st.i], n);
  }

  lemma SnoopedFit(s: System, i: nat, op: SnoopOp, k: Key)
    requires Structural(s) && WellSized(s) && SnoopsOpen(s, i)
    ensures forall j :: 0 <= j < |s.caches| ==> CacheFits(SnoopOthers(s, i, op, k)[j])
  {
    forall j | 0 <= j < |s.caches|
      ensures CacheFits(SnoopOthers(s, i, op, k)[j])
    {
      if j != i {
        SnoopCacheFits(s.caches[j], op, k);
      }
    }
  }

  lemma PerformFits(s: System, i: nat, src: Option<nat>, dirtySrc: Option<nat>)
    requires Structural(s) && WellSized(s) && Enabled(s, CompleteRequest(i, src, dirtySrc))
    ensures Structural(Perform(s, i, src, dirtySrc))
  {
    var c, r, k := s.caches[i], s.caches[i].pend.req, s.caches[i].pend.key;
    SnoopedFit(s, i, SnoopFor(r), k);
    var shared := exists j :: 0 <= j < |s.caches| && j != i && AnswersShared(s.caches[j], SnoopFor(r), k);
    AnsweredFits(c, r, k, FetchedData(s, k, src), shared, AllowPassDirty(r) && dirtySrc.Some?);
  }

  lemma StepStructural(s: System, st: Step)
    requires Structural(s) && WellSized(s) && Enabled(s, st) && FaithfulStep(st)
    ensures Structural(Apply(s, st))
  {
    match st {
      case Load(_, _, _, _) =>
      case CompleteWrite(i) => WrittenFits(s.caches[i]);
      case CompleteRequest(i, src, dirtySrc) => PerformFits(s, i, src, dirtySrc);
      case IoRead(k, _, _, _) => SnoopedFit(s, |s.caches|, ReadOnce, k);
      case IoWrite(k, _, whole, _) => SnoopedFit(s, |s.caches|, IoSnoop(whole), k);
      case _ => OwnStepFits(s, st);
    }
  }

  lemma FlatApplyAt(flat: Memory, s: System, st: Step, q: Key)
    requires WellSized(s) && Enabled(s, st)
    ensures FlatApply(flat, EntryOf(s, st))[q] == FlatBlock(flat[q], s, st, q)
  {
  }

  lemma StepCoherentAt(s: System, st: Step, flat: Memory, q: Key)
    requires Invariant(s, flat) && Enabled(s, st)
    ensures Coherent(Apply(s, st), q, FlatApply(flat, EntryOf(s, st))[q])
  {
    assert Coherent(s, q, flat[q]);
    assert ReadyToComplete(s, st);
    StepCoherent(s, st, q, flat[q]);
    FlatApplyAt(flat, s, st, q);
  }

  /** The central step: whatever any master does next, the system stays coherent with the flat memory. */
  lemma StepSound(s: System, st: Step, flat: Memory)
    requires Invariant(s, flat) && Enabled(s, st) && FaithfulStep(st)
    ensures Invariant(Apply(s, st), FlatApply(flat, EntryOf(s, st)))
  {
    StepStructural(s, st);
    forall q: Key
      ensures Coherent(Apply(s, st), q, FlatApply(flat, EntryOf(s, st))[q])
    {
      StepCoherentAt(s, st, flat, q);
    }
  }
}
