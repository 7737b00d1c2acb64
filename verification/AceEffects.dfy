/** What a request that takes effect does to the other caches, to memory and to the requester's line. */
module AceEffects {
  import opened AceCoherence
  import opened AceSnoop
  import opened AceSystem
  import opened AceTypes
  import opened MachineTypes

  /** A request of cache i is about to take effect. */
  ghost predicate Ready(s: System, i: nat, src: Option<nat>, dirtySrc: Option<nat>) {
    WellSized(s) && Enabled(s, CompleteRequest(i, src, dirtySrc))
  }

  /** Another cache than i holds the line of k. */
  predicate HeldElsewhere(s: System, i: nat, k: Key)
    requires WellSized(s)
  {
    exists j :: 0 <= j < |s.caches| && j != i && InCache(s.caches[j].lines, k)
  }

  /** Cache j holds the line of k dirty. */
  predicate HasDirty(s: System, j: nat, k: Key)
    requires WellSized(s)
  {
    j < |s.caches| && InCache(s.caches[j].lines, k) && Slot(s.caches[j], k).dirty
  }

  predicate DirtyElsewhere(s: System, i: nat, k: Key)
    requires WellSized(s)
  {
    exists j :: 0 <= j < |s.caches| && j != i && HasDirty(s, j, k)
  }

  /** Another cache loses its copy to requests for the only copy and to writes; otherwise it keeps it shared,
      and clean only after ReadShared and CleanShared. */
  lemma OtherAfter(s: System, i: nat, src: Option<nat>, dirtySrc: Option<nat>, j: nat)
    requires Ready(s, i, src, dirtySrc) && j < |s.caches| && j != i
    ensures var (r, k, c) := (s.caches[i].pend.req, s.caches[i].pend.key, s.caches[j]);
            var l := Slot(c, k);
            Perform(s, i, src, dirtySrc).caches[j] ==
            if !InCache(c.lines, k) then c
            else if r.ReadShared? || r.CleanShared? then
              c.(lines := c.lines[Index(k) := l.(shared := true, dirty := false)])
            else if r.ReadClean? || r.ReadNotSharedDirty? then c.(lines := c.lines[Index(k) := l.(shared := true)])
            else c.(lines := c.lines[Index(k) := l.(valid := false)])
  {
    hide Index;
  }

  lemma DirtyFound(s: System, i: nat, src: Option<nat>, dirtySrc: Option<nat>)
    requires Ready(s, i, src, dirtySrc)
    requires var r := s.caches[i].pend.req;
             r.CleanUnique? || r.CleanShared? || r.WriteUnique? || r.ReadShared? || r.ReadUnique?
    ensures dirtySrc.Some? <==> DirtyElsewhere(s, i, s.caches[i].pend.key)
    ensures dirtySrc.Some? ==> dirtySrc.value != i && HasDirty(s, dirtySrc.value, s.caches[i].pend.key)
  {
    hide Index;
    var op, k := SnoopFor(s.caches[i].pend.req), s.caches[i].pend.key;
    assert forall j :: 0 <= j < |s.caches| ==> (PassesDirty(s.caches[j], op, k) <==> HasDirty(s, j, k));
  }

  /** No other request makes a dirty line go down. */
  lemma NothingDown(s: System, i: nat, src: Option<nat>, dirtySrc: Option<nat>)
    requires Ready(s, i, src, dirtySrc)
    requires var r := s.caches[i].pend.req; r.ReadClean? || r.ReadNotSharedDirty? || r.MakeUnique? || r.WriteLineUnique?
    ensures dirtySrc == None
  {
    hide Index;
  }

  /** Memory takes another cache's dirty line before CleanUnique, CleanShared and WriteUnique, takes the bytes
      written through, and is left alone by everything else. */
  lemma MemoryAfter(s: System, i: nat, src: Option<nat>, dirtySrc: Option<nat>) returns (below: Block)
    requires Ready(s, i, src, dirtySrc)
    ensures var (r, k) := (s.caches[i].pend.req, s.caches[i].pend.key);
            && (if DirtyElsewhere(s, i, k) && (r.CleanUnique? || r.CleanShared? || r.WriteUnique?)
                then exists j :: 0 <= j < |s.caches| && j != i && HasDirty(s, j, k) &&
                                 below == Slot(s.caches[j], k).data
                else below == s.mem[k])
            && Perform(s, i, src, dirtySrc).mem ==
               if r.WriteUnique? || r.WriteLineUnique? then s.mem[k := Merge(below, r.st)] else s.mem[k := below]
  {
    hide Index, HasDirty, DirtyElsewhere;
    var r, k := s.caches[i].pend.req, s.caches[i].pend.key;
    below := s.mem[k];
    assert s.mem[k := s.mem[k]] == s.mem;
    if r.CleanUnique? || r.CleanShared? || r.WriteUnique? {
      DirtyFound(s, i, src, dirtySrc);
      if dirtySrc.Some? {
        below := Slot(s.caches[dirtySrc.value], k).data;
      }
    } else if !AllowPassDirty(r) {
      NothingDown(s, i, src, dirtySrc);
    }
  }

  /** A read brings the line in: the copy of a cache that has it or else memory's, shared when another cache
      keeps it, dirty when a dirty one was handed over. */
  lemma OwnAfterRead(s: System, i: nat, src: Option<nat>, dirtySrc: Option<nat>)
    requires Ready(s, i, src, dirtySrc)
    requires var r := s.caches[i].pend.req; IsFill(r) && !r.MakeUnique?
    ensures var (c, r, k) := (s.caches[i], s.caches[i].pend.req, s.caches[i].pend.key);
            var c' := Perform(s, i, src, dirtySrc).caches[i];
            var l := c'.lines[Index(k)];
            && c' == Cache(c.lines[Index(k) := l], Idle, c.writeThrough) && l.valid && l.key == k
            && (l.shared <==> HeldElsewhere(s, i, k) && !r.ReadUnique?)
            && (l.dirty <==> DirtyElsewhere(s, i, k) && (r.ReadShared? || r.ReadUnique?))
            && if HeldElsewhere(s, i, k)
               then exists j :: 0 <= j < |s.caches| && j != i && InCache(s.caches[j].lines, k) &&
                                l.data == Slot(s.caches[j], k).data
               else l.data == s.mem[k]
  {
    hide Index, DirtyElsewhere;
    var r, k := s.caches[i].pend.req, s.caches[i].pend.key;
    var op := SnoopFor(r);
    assert forall j :: 0 <= j < |s.caches| ==> (Transfers(s.caches[j], op, k) <==> InCache(s.caches[j].lines, k));
    if r.ReadShared? || r.ReadUnique? {
      DirtyFound(s, i, src, dirtySrc);
    } else {
      NothingDown(s, i, src, dirtySrc);
    }
    assert forall j :: 0 <= j < |s.caches| ==>
        (AnswersShared(s.caches[j], op, k) <==> InCache(s.caches[j].lines, k) && !r.ReadUnique?);
  }
}
