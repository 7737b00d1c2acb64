/** One ACE cache as the program runs it: snoop handlers, evictions, fills, and the load and store
    loops, with the other masters interfering whenever it waits for the bus. */
module AceMaster {
  import opened AceBytes
  import opened AceCoherence
  import opened AceInterference
  import opened AcePayload
  import opened AceRefinement
  import opened AceRuns
  import opened AceSnoop
  import opened AceSystem
  import opened AceTypes
  import opened MachineTypes

  class Master {
    const port: nat
    const writeThrough: bool
    const lines: array<Line>
    var toggle: bool
    var pend: Pending

    // the rest of the system; entry `port` of `others` is not used
    var others: seq<Cache>
    var mem: Memory

    // what the others try to do during the n-th wait
    const schedule: nat -> seq<Step>
    var waits: nat

    ghost const start: Memory
    ghost var log: seq<Entry>
    ghost var bus: seq<Pending>   // what this cache has put on the bus

    /** All lines start invalid; the rest of the system starts in any coherent quiet state. */
    constructor (port: nat, writeThrough: bool, others: seq<Cache>, mem: Memory, schedule: nat -> seq<Step>)
      requires port < |others| && Initial(System(others, mem))
      ensures Sound() && log == [] && bus == [] && pend.Idle? && fresh(lines)
      ensures this.port == port && this.writeThrough == writeThrough && this.start == mem && !toggle
      ensures this.others == others && this.mem == mem && this.schedule == schedule
    {
      this.port, this.writeThrough := port, writeThrough;
      lines := new Line[NUM_LINES](_ => Line(false, Key(0, false), false, false, ZeroBlock()));
      toggle, pend := false, Idle;
      this.others, this.mem, this.schedule, waits := others, mem, schedule, 0;
      start, log, bus := mem, [], [];
      new;
      InitialSound(View());
    }

    function View(): System
      reads this, lines
      requires port < |others|
    {
      System(others[port := Me()], mem)
    }

    function Me(): Cache
      reads this, lines
    {
      Cache(lines[..], pend, writeThrough)
    }

    ghost predicate Sound()
      reads this, lines
    {
      && lines.Length == NUM_LINES
      && port < |others|
      && Invariant(View(), Replay(start, log))
    }

    // ----- snoop handlers

    method HandleReadOnce(k: Key) returns (rsp: SnoopResponse, data: Option<Block>)
      requires lines.Length == NUM_LINES
      modifies lines
      ensures lines[..] == SnoopLines(ReadOnce, old(lines[..]), k)
      ensures Answers(ReadOnce, old(lines[..]), k, rsp, data)
      ensures old(InCache(lines[..], k)) ==>
                var l := old(lines[Index(k)]);
                lines[Index(k)] == l.(shared := true) && rsp == SnoopResponse(true, false, false, true) &&
                data == Some(l.data)
    {
      rsp, data := NoAnswer(), None;
      if InCache(lines[..], k) {
        var n := Index(k);
        lines[n] := lines[n].(shared := true);
        rsp := rsp.(shared := true, transfer := true);
        data := Some(lines[n].data);
      }
    }

    method HandleReadShared(k: Key) returns (rsp: SnoopResponse, data: Option<Block>)
      requires lines.Length == NUM_LINES
      modifies lines
      ensures lines[..] == SnoopLines(SnoopOp.ReadShared, old(lines[..]), k)
      ensures Answers(SnoopOp.ReadShared, old(lines[..]), k, rsp, data)
      ensures old(InCache(lines[..], k)) ==>
                var l := old(lines[Index(k)]);
                lines[Index(k)] == l.(shared := true, dirty := false) &&
                rsp == SnoopResponse(true, l.dirty, !l.shared, true) &&
                data == Some(l.data)
    {
      rsp, data := NoAnswer(), None;
      if InCache(lines[..], k) {
        var n := Index(k);
        if !lines[n].shared {
          rsp := rsp.(wasUnique := true);
        }
        lines[n] := lines[n].(shared := true);
        rsp := rsp.(shared := true);
        if lines[n].dirty {
          rsp := rsp.(dirty := true);
          lines[n] := lines[n].(dirty := false);
        }
        rsp := rsp.(transfer := true);
        data := Some(lines[n].data);
      }
    }

    method HandleReadClean(k: Key) returns (rsp: SnoopResponse, data: Option<Block>)
      requires lines.Length == NUM_LINES
      modifies lines
      ensures lines[..] == SnoopLines(SnoopOp.ReadClean, old(lines[..]), k)
      ensures Answers(SnoopOp.ReadClean, old(lines[..]), k, rsp, data)
      ensures old(InCache(lines[..], k)) ==>
                var l := old(lines[Index(k)]);
                lines[Index(k)] == l.(shared := true) && rsp == SnoopResponse(true, false, !l.shared, true) &&
                data == Some(l.data)
    {
      rsp, data := NoAnswer(), None;
      if InCache(lines[..], k) {
        var n := Index(k);
        if !lines[n].shared {
          rsp := rsp.(wasUnique := true);
        }
        lines[n] := lines[n].(shared := true);
        rsp := rsp.(shared := true, transfer := true);
        data := Some(lines[n].data);
      }
    }

    method HandleReadNotSharedDirty(k: Key) returns (rsp: SnoopResponse, data: Option<Block>)
      requires lines.Length == NUM_LINES
      modifies lines
      ensures lines[..] == SnoopLines(SnoopOp.ReadNotSharedDirty, old(lines[..]), k)
      ensures Answers(SnoopOp.ReadNotSharedDirty, old(lines[..]), k, rsp, data)
      ensures old(InCache(lines[..], k)) ==>
                var l := old(lines[Index(k)]);
                lines[Index(k)] == l.(shared := true) && rsp == SnoopResponse(true, false, !l.shared, true) &&
                data == Some(l.data)
    {
      rsp, data := HandleReadClean(k);
    }

    method HandleReadUnique(k: Key) returns (rsp: SnoopResponse, data: Option<Block>)
      requires lines.Length == NUM_LINES
      modifies lines
      ensures lines[..] == SnoopLines(SnoopOp.ReadUnique, old(lines[..]), k)
      ensures Answers(SnoopOp.ReadUnique, old(lines[..]), k, rsp, data)
      ensures old(InCache(lines[..], k)) ==>
                var l := old(lines[Index(k)]);
                lines[Index(k)] == l.(valid := false) && rsp == SnoopResponse(false, l.dirty, !l.shared, true) &&
                data == Some(l.data)
    {
      rsp, data := NoAnswer(), None;
      if InCache(lines[..], k) {
        var n := Index(k);
        if !lines[n].shared {
          rsp := rsp.(wasUnique := true);
        }
        if lines[n].dirty {
          rsp := rsp.(dirty := true);
        }
        rsp := rsp.(shared := false, transfer := true);
        data := Some(lines[n].data);
        lines[n] := lines[n].(valid := false);
      }
    }

    method HandleCleanInvalid(k: Key) returns (rsp: SnoopResponse, data: Option<Block>)
      requires lines.Length == NUM_LINES
      modifies lines
      ensures lines[..] == SnoopLines(CleanInvalid, old(lines[..]), k)
      ensures Answers(CleanInvalid, old(lines[..]), k, rsp, data)
      ensures old(InCache(lines[..], k)) ==>
                var l := old(lines[Index(k)]);
                lines[Index(k)] == l.(valid := false) && rsp == SnoopResponse(false, l.dirty, !l.shared, l.dirty) &&
                data == (if l.dirty then Some(l.data) else None)
    {
      rsp, data := NoAnswer(), None;
      if InCache(lines[..], k) {
        var n := Index(k);
        if !lines[n].shared {
          rsp := rsp.(wasUnique := true);
        }
        if lines[n].dirty {
          data := Some(lines[n].data);
          rsp := rsp.(transfer := true, dirty := true);
        }
        lines[n] := lines[n].(valid := false);
        rsp := rsp.(shared := false);
      }
    }

    method HandleCleanShared(k: Key) returns (rsp: SnoopResponse, data: Option<Block>)
      requires lines.Length == NUM_LINES
      modifies lines
      ensures lines[..] == SnoopLines(SnoopOp.CleanShared, old(lines[..]), k)
      ensures Answers(SnoopOp.CleanShared, old(lines[..]), k, rsp, data)
      ensures old(InCache(lines[..], k)) ==>
                var l := old(lines[Index(k)]);
                lines[Index(k)] == l.(shared := true, dirty := false) &&
                rsp == SnoopResponse(true, l.dirty, !l.shared, l.dirty) &&
                data == (if l.dirty then Some(l.data) else None)
    {
      rsp, data := NoAnswer(), None;
      if InCache(lines[..], k) {
        var n := Index(k);
        if !lines[n].shared {
          rsp := rsp.(wasUnique := true);
        }
        if lines[n].dirty {
          data := Some(lines[n].data);
          rsp := rsp.(transfer := true, dirty := true);
          lines[n] := lines[n].(dirty := false);
        }
        lines[n] := lines[n].(shared := true);
        rsp := rsp.(shared := true);
      }
    }

    method HandleMakeInvalid(k: Key) returns (rsp: SnoopResponse, data: Option<Block>)
      requires lines.Length == NUM_LINES
      modifies lines
      ensures lines[..] == SnoopLines(MakeInvalid, old(lines[..]), k)
      ensures Answers(MakeInvalid, old(lines[..]), k, rsp, data)
      ensures old(InCache(lines[..], k)) ==>
                var l := old(lines[Index(k)]);
                lines[Index(k)] == l.(valid := false) && rsp == SnoopResponse(false, false, false, false) &&
                data == None
    {
      rsp, data := NoAnswer(), None;
      if InCache(lines[..], k) {
        var n := Index(k);
        lines[n] := lines[n].(valid := false);
      }
    }

    // ----- waiting for the bus

    /** The line of the source that hands over to the bus: the others move until the bus answers.
        A request that snoops also waits until no other cache holds snoops back. */
    method Wait(snoops: bool)
      requires Sound()
      modifies this`others, this`mem, this`log, this`waits, lines
      ensures Sound() && |others| == |old(others)|
      ensures OthersWrote(old(log), log, port)
      ensures pend.Writing? ==> lines[..] == old(lines[..])
      ensures forall n :: 0 <= n < lines.Length && !old(lines[n]).valid ==> lines[n] == old(lines[n])
      ensures snoops ==> SnoopsOpen(View(), port)
    {
      hide Invariant, OthersWrote, Replay, View, Me, Untouched;
      OthersWroteTransitive(port);
      ghost var c := Me();
      LinesOfMe();
      var s;
      s, log := BusWait(View(), schedule(waits), snoops, port, start, log);
      UntouchedIs(c, s.caches[port]);
      Adopt(s);
    }

    /** The system is as the others have left it. */
    method Adopt(s: System)
      requires port < |s.caches| && |s.caches[port].lines| == lines.Length
      requires s.caches[port] == Cache(s.caches[port].lines, pend, writeThrough)
      modifies this`others, this`mem, this`waits, lines
      ensures others == s.caches && mem == s.mem && lines[..] == s.caches[port].lines && View() == s
    {
      others, mem, waits := s.caches, s.mem, waits + 1;
      forall n | 0 <= n < lines.Length {
        lines[n] := s.caches[port].lines[n];
      }
      assert lines[..] == s.caches[port].lines;
      ViewIs(s);
    }

    lemma SoundHas()
      requires Sound()
      ensures lines.Length == NUM_LINES && port < |others| && Invariant(View(), Replay(start, log))
    {
    }

    /** Sound again once the own part is in its place. */
    lemma SoundNow()
      requires lines.Length == NUM_LINES && Resumed(others, port, Me(), mem, Replay(start, log))
      ensures Sound()
    {
    }

    lemma LinesOfMe()
      requires port < |others|
      ensures Me() == Cache(lines[..], pend, writeThrough) && View().caches[port] == Me() && |View().caches| == |others|
    {
    }

    lemma ViewIs(s: System)
      requires port < |s.caches| && others == s.caches && mem == s.mem
      requires s.caches[port] == Cache(lines[..], pend, writeThrough)
      ensures View() == s
    {
      assert s.caches[port := s.caches[port]] == s.caches;
    }

    /** The payload is handed to the bus: it becomes the ongoing one. */
    method Announce(p: Pending)
      requires Sound() && WellSized(View())
      requires Invariant(SetCache(View(), port, View().caches[port].(pend := p)), Replay(start, log))
      modifies this`pend, this`bus
      ensures Sound() && WellSized(View()) && pend == p && bus == old(bus) + [p]
    {
      hide Invariant, OthersWrote, Replay;
      OthersWroteTransitive(port);
      ghost var s := View();
      pend, bus := p, bus + [p];
      ReplacedTwice(others, port, s.caches[port], Me());
    }

    // ----- evictions

    /** writeback, writeclean and evict. */
    method WriteOut(n: nat, kind: WriteKind)
      requires Sound() && pend.Idle? && n < lines.Length
      requires lines[n].valid && lines[n].dirty == !kind.Evict?
      modifies this, lines
      ensures Sound() && pend.Idle? && |others| == |old(others)|
      ensures OthersWrote(old(log), log, port)
      ensures lines[n] == if kind.WriteClean? then old(lines[n]).(dirty := false) else old(lines[n]).(valid := false)
      ensures bus == old(bus) + [Writing(kind, n, false)] && toggle == old(toggle)
    {
      hide Invariant, OthersWrote, Replay;
      OthersWroteTransitive(port);
      InvariantSized(View(), Replay(start, log));
      OwnStartWrite(View(), port, n, kind, Replay(start, log));
      Announce(Writing(kind, n, false));
      EndWrite();
    }

    /** The bus takes the ongoing write. */
    method EndWrite()
      requires Sound() && pend.Writing? && pend.idx < lines.Length
      modifies this, lines
      ensures Sound() && pend.Idle? && |others| == |old(others)|
      ensures OthersWrote(old(log), log, port)
      ensures lines[old(pend.idx)] == old(if pend.kind.WriteClean? then lines[pend.idx].(dirty := false)
                                          else lines[pend.idx].(valid := false))
      ensures bus == old(bus) && toggle == old(toggle)
    {
      hide Sound, OthersWrote, Replay;
      Wait(false);
      FinishOwn();
    }

    method FinishOwn()
      requires Sound() && pend.Writing? && pend.idx < lines.Length
      modifies this`mem, this`pend, lines
      ensures Sound() && pend.Idle?
      ensures lines[old(pend.idx)] == old(if pend.kind.WriteClean? then lines[pend.idx].(dirty := false)
                                          else lines[pend.idx].(valid := false))
    {
      hide Invariant, Replay;
      var n := pend.idx;
      ghost var s, c := View(), Me();
      InvariantSized(s, Replay(start, log));
      OwnFinishWrite(s, port, Replay(start, log));
      if !pend.kind.Evict? {
        mem := mem[lines[n].key := lines[n].data];
      }
      ghost var before := lines[..];
      lines[n] := if pend.kind.WriteClean? then lines[n].(dirty := false) else lines[n].(valid := false);
      pend := Idle;
      assert lines[..] == before[n := lines[n]];
      assert Me() == Written(c);
      ReplacedTwice(others, port, c, Me());
    }

    method EvictLine(n: nat)
      requires Sound() && pend.Idle? && n < lines.Length && lines[n].valid
      modifies this, lines
      ensures Sound() && pend.Idle? && |others| == |old(others)|
      ensures OthersWrote(old(log), log, port)
      ensures !lines[n].valid
      ensures bus == old(bus) + Evictions(old(lines[n]), old(toggle), n)
      ensures toggle == if old(lines[n].dirty) then !old(toggle) else old(toggle)
    {
      hide Invariant, OthersWrote, Replay;
      OthersWroteTransitive(port);
      if lines[n].dirty {
        toggle := !toggle;
        if toggle {
          WriteOut(n, WriteClean);
        }
      }
      if lines[n].dirty {
        WriteOut(n, WriteBack);
      } else {
        WriteOut(n, Evict);
      }
    }

    // ----- requests

    /** Issues a request and waits for its answer.  On return the others have been snooped and memory
        is written; what remains is to update the own line.  `s` is the system when it happened. */
    method DoTlm(r: Request, k: Key)
      returns (shared: bool, dirty: bool, data: Block, ghost s: System, ghost st: Step)
      requires Sound() && MayRequest(Me(), r, k)
      modifies this, lines
      ensures |others| == |old(others)| == |s.caches|
      ensures OthersWrote(old(log), log, port)
      ensures AtAnswer(s, st, port, shared, dirty, data, others, mem, Replay(start, log))
      ensures Me() == s.caches[port] && pend == Waiting(r, k)
      ensures forall n :: 0 <= n < lines.Length && !old(lines[n]).valid ==> lines[n] == old(lines[n])
      ensures r.ReadUnique? ==> !shared
      ensures bus == old(bus) + [Waiting(r, k)]
      ensures toggle == old(toggle)
    {
      hide Sound, View, Invariant, AtAnswer, MayRequest, OthersWrote, Replay, SnoopsOpen;
      Send(r, k);
      SoundHas();
      LinesOfMe();
      s := View();
      shared, dirty, data, others, mem, st := Respond(View(), port, Replay(start, log));
    }

    /** The request is on the bus until every snoop can be answered. */
    method Send(r: Request, k: Key)
      requires Sound() && MayRequest(Me(), r, k)
      modifies this, lines
      ensures Sound() && |others| == |old(others)| && pend == Waiting(r, k)
      ensures OthersWrote(old(log), log, port) && SnoopsOpen(View(), port)
      ensures forall n :: 0 <= n < lines.Length && !old(lines[n]).valid ==> lines[n] == old(lines[n])
      ensures bus == old(bus) + [Waiting(r, k)] && toggle == old(toggle)
    {
      hide Invariant, MayRequest, OthersWrote, Replay, SnoopsOpen;
      InvariantSized(View(), Replay(start, log));
      OwnStartRequest(View(), port, k, r, Replay(start, log));
      Announce(Waiting(r, k));
      Wait(true);
    }

    /** read_shared, read_not_shared_dirty, read_clean and read_unique: evict what is in the slot,
        then fetch the line. */
    method Fill(r: Request, k: Key)
      requires Sound() && pend.Idle? && RequestAllowed(Me(), r) && IsFill(r) && !r.MakeUnique?
      modifies this, lines
      ensures Sound() && pend.Idle? && |others| == |old(others)|
      ensures OthersWrote(old(log), log, port)
      ensures InCache(lines[..], k)
      ensures r.ReadUnique? ==> !lines[Index(k)].shared
      ensures bus == old(bus) + Evictions(old(lines[Index(k)]), old(toggle), Index(k)) + [Waiting(r, k)]
      ensures toggle == Toggled(old(lines[Index(k)]), old(toggle))
    {
      hide Invariant, AtAnswer, OthersWrote, Replay;
      OthersWroteTransitive(port);
      if lines[Index(k)].valid {
        EvictLine(Index(k));
      }
      Fetch(r, k);
    }

    method Fetch(r: Request, k: Key)
      requires Sound() && MayRequest(Me(), r, k) && IsFill(r) && !r.MakeUnique?
      modifies this, lines
      ensures Sound() && pend.Idle? && |others| == |old(others)|
      ensures OthersWrote(old(log), log, port)
      ensures InCache(lines[..], k)
      ensures r.ReadUnique? ==> !lines[Index(k)].shared
      ensures bus == old(bus) + [Waiting(r, k)]
      ensures toggle == old(toggle)
    {
      hide Sound, Invariant, AtAnswer, OthersWrote, Replay, MayRequest, Resumed;
      var n := Index(k);
      var shared, dirty, data;
      ghost var s, st;
      SoundSized();
      shared, dirty, data, s, st := DoTlm(r, k);
      ResumeFill(s, st, port, shared, dirty, data, others, mem, Replay(start, log));
      ghost var before := lines[..];
      lines[n] := Line(true, k, shared, dirty && !r.ReadClean?, data);
      pend := Idle;
      assert lines[..] == before[n := lines[n]];
      SoundNow();
    }

    /** Asks for the only copy of a line the cache holds shared.  The line may have been invalidated
        meanwhile; then it is re-validated just to announce its eviction. */
    method CleanUnique(k: Key) returns (kept: bool)
      requires Sound() && pend.Idle? && InCache(lines[..], k) && !writeThrough
      modifies this, lines
      ensures Sound() && pend.Idle? && |others| == |old(others)|
      ensures OthersWrote(old(log), log, port)
      ensures if kept then InCache(lines[..], k) && !lines[Index(k)].shared else !InCache(lines[..], k)
      ensures bus == old(bus) + [Waiting(Request.CleanUnique, k)] +
                     if kept then [] else [Writing(Evict, Index(k), true)]
      ensures toggle == old(toggle)
    {
      hide Invariant, OthersWrote, Replay;
      OthersWroteTransitive(port);
      InvariantSized(View(), Replay(start, log));
      kept := AskOnly(k);
      if !kept {
        EndWrite();
      }
    }

    method AskOnly(k: Key) returns (kept: bool)
      requires Sound() && MayRequest(Me(), Request.CleanUnique, k)
      modifies this, lines
      ensures Sound() && |others| == |old(others)|
      ensures OthersWrote(old(log), log, port)
      ensures lines[Index(k)].valid && lines[Index(k)].key == k
      ensures if kept then pend.Idle? && !lines[Index(k)].shared else pend == Writing(Evict, Index(k), true)
      ensures bus == old(bus) + [Waiting(Request.CleanUnique, k)] +
                     if kept then [] else [Writing(Evict, Index(k), true)]
      ensures toggle == old(toggle)
    {
      hide Sound, Invariant, AtAnswer, OthersWrote, Replay, MayRequest, Resumed;
      var shared, dirty, data;
      ghost var s, st;
      SoundHas();
      shared, dirty, data, s, st := DoTlm(Request.CleanUnique, k);
      assert port < |s.caches|;
      ResumeUnique(s, st, port, shared, dirty, data, others, mem, Replay(start, log));
      kept := Regain(Index(k));
    }

    /** Keeps slot n unshared, or re-validates it for its Evict. */
    method Regain(n: nat) returns (kept: bool)
      requires lines.Length == NUM_LINES && n < NUM_LINES
      requires if lines[n].valid
               then Resumed(others, port, Cache(lines[..][n := lines[n].(shared := false)], Idle, writeThrough), mem,
                            Replay(start, log))
               else Resumed(others, port, Cache(lines[..][n := lines[n].(valid := true)], Writing(Evict, n, true),
                                                writeThrough), mem, Replay(start, log))
      modifies lines, this`pend, this`bus
      ensures Sound() && lines[n].valid && lines[n].key == old(lines[n]).key
      ensures if kept then pend.Idle? && !lines[n].shared else pend == Writing(Evict, n, true)
      ensures bus == old(bus) + if kept then [] else [Writing(Evict, n, true)]
    {
      hide Sound, Invariant, Replay, Resumed;
      ghost var before := lines[..];
      kept := lines[n].valid;
      if kept {
        lines[n] := lines[n].(shared := false);
        pend := Idle;
      } else {
        lines[n] := lines[n].(valid := true);
        pend := Writing(Evict, n, true);
        bus := bus + [pend];
      }
      assert lines[..] == before[n := lines[n]];
      SoundNow();
    }

    /** do_cache_maintenance for CleanShared: the own dirty line is written out first, then the others are
        asked.  When the answer comes nobody holds the line dirty and memory has the last stored bytes. */
    method CleanSharedLine(k: Key)
      requires Sound() && pend.Idle?
      modifies this, lines
      ensures Sound() && WellSized(View()) && pend.Idle? && |others| == |old(others)|
      ensures OthersWrote(old(log), log, port)
      ensures NoDirtyCopy(View(), k) && mem[k] == Replay(start, log)[k]
      ensures var n := Index(k);
              bus == old(bus) + (if old(InCache(lines[..], k) && lines[n].dirty) then [Writing(WriteClean, n, false)]
                                 else []) + [Waiting(Request.CleanShared, k)]
      ensures toggle == old(toggle)
    {
      hide Invariant, AtAnswer, OthersWrote, Replay, NoDirtyCopy;
      OthersWroteTransitive(port);
      var n := Index(k);
      if InCache(lines[..], k) && lines[n].dirty {
        WriteOut(n, WriteClean);
      }
      AskClean(k);
    }

    method AskClean(k: Key)
      requires Sound() && MayRequest(Me(), Request.CleanShared, k)
      modifies this, lines
      ensures Sound() && WellSized(View()) && pend.Idle? && |others| == |old(others)|
      ensures OthersWrote(old(log), log, port)
      ensures NoDirtyCopy(View(), k) && mem[k] == Replay(start, log)[k]
      ensures bus == old(bus) + [Waiting(Request.CleanShared, k)]
      ensures toggle == old(toggle)
    {
      hide Invariant, AtAnswer, OthersWrote, Replay, NoDirtyCopy, MayRequest;
      var shared, dirty, data;
      ghost var s, st;
      shared, dirty, data, s, st := DoTlm(Request.CleanShared, k);
      CleanSharedDone(s, st, port, shared, dirty, data, others, mem, Replay(start, log));
      pend := Idle;
    }

    /** This cache as it will be once the store w has been merged into the line of k. */
    ghost function WithStore(k: Key, w: Store): Cache
      reads this, lines
      requires lines.Length == NUM_LINES
    {
      var l := lines[Index(k)];
      Cache(lines[..][Index(k) := l.(data := Merge(l.data, w), dirty := true)], pend, writeThrough)
    }

    /** The line has been granted for the store w but does not hold it yet; what it will hold counts as
        the store `full`. */
    ghost predicate Granted(k: Key, w: Store, full: Store)
      reads this, lines
    {
      && lines.Length == NUM_LINES
      && port < |others|
      && InCache(lines[..], k) && !lines[Index(k)].shared
      && Fills(full, w)
      && Resumed(others, port, WithStore(k, w), mem, FlatApply(Replay(start, log), Stored(port, k, full)))
    }

    /** Asks for a line without its data: the whole-line store w follows at once.  Where w enables no byte
        the line keeps what the slot held, as if that had been stored too. */
    method MakeUnique(k: Key, w: Store) returns (ghost full: Store)
      requires Sound() && pend.Idle? && !writeThrough && w.WholeLine()
      modifies this, lines
      ensures pend.Idle? && |others| == |old(others)|
      ensures OthersWrote(old(log), log, port)
      ensures Granted(k, w, full)
      ensures bus == old(bus) + Evictions(old(lines[Index(k)]), old(toggle), Index(k)) +
                     [Waiting(Request.MakeUnique(full), k)]
      ensures toggle == Toggled(old(lines[Index(k)]), old(toggle))
    {
      hide Invariant, AtAnswer, OthersWrote, Replay;
      OthersWroteTransitive(port);
      if lines[Index(k)].valid {
        EvictLine(Index(k));
      }
      full := Grant(k, w);
    }

    method Grant(k: Key, w: Store) returns (ghost full: Store)
      requires Sound() && pend.Idle? && !writeThrough && w.WholeLine() && !lines[Index(k)].valid
      modifies this, lines
      ensures pend.Idle? && |others| == |old(others)|
      ensures OthersWrote(old(log), log, port)
      ensures Granted(k, w, full)
      ensures bus == old(bus) + [Waiting(Request.MakeUnique(full), k)]
      ensures toggle == old(toggle)
    {
      hide Sound, Resumed, AtAnswer, OthersWrote, Replay, MayRequest, Fills, Filled, Merge, FlatApply, Granted;
      SoundHas();
      var n := Index(k);
      var f := Filled(w, lines[n].data);
      full := f;
      MakeUniqueMayGo(Me(), f, k);
      var shared, dirty, data;
      ghost var s, st;
      shared, dirty, data, s, st := DoTlm(Request.MakeUnique(f), k);
      assert port < |s.caches|;
      ResumeMade(s, st, port, shared, dirty, data, others, mem, Replay(start, log));
      Occupy(k, w, f);
    }

    /** The slot is given to k, dirty and unshared, with the data left in it. */
    method Occupy(k: Key, w: Store, ghost full: Store)
      requires lines.Length == NUM_LINES && port < |others| && Fills(full, w)
      requires var n := Index(k);
               && Merge(lines[n].data, full) == Merge(lines[n].data, w)
               && Resumed(others, port,
                          Cache(lines[..][n := Line(true, k, false, true, Merge(lines[n].data, full))], Idle, writeThrough),
                          mem, FlatApply(Replay(start, log), Stored(port, k, full)))
      modifies lines, this`pend
      ensures pend.Idle? && Granted(k, w, full)
    {
      hide Resumed, Replay, Fills, Merge, FlatApply, Index;
      var n := Index(k);
      ghost var before := lines[..];
      lines[n] := Line(true, k, false, true, lines[n].data);
      pend := Idle;
      assert lines[..][n := lines[n].(data := Merge(lines[n].data, w))] ==
             before[n := Line(true, k, false, true, Merge(before[n].data, w))];
    }

    // ----- the data of a line

    /** write_line: the chunk of the payload at pos goes into its line. */
    method WriteLine(addr: nat, secure: bool, data: seq<Byte>, be: seq<bool>, pos: nat, dirty: bool) returns (n: nat)
      requires lines.Length == NUM_LINES && pos < |data|
      modifies lines
      ensures n == ChunkLen(addr, |data|, pos)
      ensures var i, w := Index(KeyOf(addr + pos, secure)), ChunkStore(addr, data, be, pos);
              lines[..] == old(lines[..])[i := old(lines[i]).(data := Merge(old(lines[i]).data, w), dirty := dirty)]
      ensures var i, o := Index(KeyOf(addr + pos, secure)), (addr + pos) % LINE_SIZE;
              forall x :: 0 <= x < LINE_SIZE ==>
                lines[i].data[x] == if o <= x < o + n && Enables(be, pos + x - o) then data[pos + x - o]
                                    else old(lines[i]).data[x]
    {
      hide ChunkStore, KeyOf, Index, Merge;
      var slot := Index(KeyOf(addr + pos, secure));
      n := ChunkLen(addr, |data|, pos);
      var d := Overwritten(lines[slot].data, addr, data, be, pos);
      lines[slot] := lines[slot].(data := d, dirty := dirty);
    }

    /** read_line: the line's bytes go into the payload's buffer where they are enabled. */
    method ReadLine(addr: nat, secure: bool, buf: array<Byte>, be: seq<bool>, pos: nat) returns (n: nat)
      requires lines.Length == NUM_LINES && pos < buf.Length
      modifies buf
      ensures n == ChunkLen(addr, buf.Length, pos)
      ensures forall b :: 0 <= b < buf.Length ==>
                buf[b] == if pos <= b < pos + n && EnabledAt(be, b)
                          then lines[Index(KeyOf(addr + pos, secure))].data[(addr + pos) % LINE_SIZE + (b - pos)]
                          else old(buf[b])
    {
      n := ChunkLen(addr, buf.Length, pos);
      var slot, offset := Index(KeyOf(addr + pos, secure)), (addr + pos) % LINE_SIZE;
      for i := 0 to n
        invariant forall b :: 0 <= b < buf.Length ==>
                    buf[b] == if pos <= b < pos + i && EnabledAt(be, b)
                              then lines[slot].data[offset + (b - pos)] else old(buf[b])
      {
        if EnabledAt(be, pos + i) {
          buf[pos + i] := lines[slot].data[offset + i];
        }
      }
    }

    /** The own line takes the store w, granted by MakeUnique or already unique. */
    method StoreChunk(addr: nat, secure: bool, data: seq<Byte>, be: seq<bool>, pos: nat, ghost granted: bool,
                      ghost full: Store)
      returns (n: nat)
      requires pos < |data| && pend.Idle? && !writeThrough
      requires if granted then Granted(KeyOf(addr + pos, secure), ChunkStore(addr, data, be, pos), full) else
               Sound() && InCache(lines[..], KeyOf(addr + pos, secure)) &&
                   !lines[Index(KeyOf(addr + pos, secure))].shared && full == ChunkStore(addr, data, be, pos)
      modifies this, lines
      ensures Sound() && pend.Idle? && |others| == |old(others)|
      ensures log == old(log) + [Stored(port, KeyOf(addr + pos, secure), full)]
      ensures n == ChunkLen(addr, |data|, pos)
      ensures bus == old(bus)
      ensures toggle == old(toggle)
    {
      hide Sound, Resumed, Replay, Merge, ChunkStore;
      ghost var k, w := KeyOf(addr + pos, secure), ChunkStore(addr, data, be, pos);
      ReplaySnoc(start, log, Stored(port, k, full));
      if !granted {
        HitResumes(k, w);
      }
      ghost var c := WithStore(k, w);
      n := WriteLine(addr, secure, data, be, pos, true);
      log := log + [Stored(port, k, full)];
      assert Me() == c;
      SoundNow();
    }

    lemma HitResumes(k: Key, w: Store)
      requires Sound() && pend.Idle? && !writeThrough && w.Fits()
      requires InCache(lines[..], k) && !lines[Index(k)].shared
      ensures lines.Length == NUM_LINES
      ensures Resumed(others, port, WithStore(k, w), mem, FlatApply(Replay(start, log), Stored(port, k, w)))
    {
      hide Invariant, Replay, Merge;
      InvariantSized(View(), Replay(start, log));
      OwnStoreHit(View(), port, k, w, Replay(start, log));
      ReplacedTwice(others, port, Me(), WithStore(k, w));
    }

    // ----- loads and stores

    /** A chunk read from a line in the cache: the bytes are the last stored ones right now. */
    method LoadChunk(addr: nat, secure: bool, buf: array<Byte>, be: seq<bool>, pos: nat) returns (n: nat)
      requires Sound() && pend.Idle? && pos < buf.Length && InCache(lines[..], KeyOf(addr + pos, secure))
      modifies buf
      ensures n == ChunkLen(addr, buf.Length, pos)
      ensures forall b :: 0 <= b < buf.Length ==>
                buf[b] == if pos <= b < pos + n && EnabledAt(be, b) then ByteAt(start, log, addr, secure, b)
                    else old(buf[b])
    {
      hide Invariant, Replay, LastStored, ByteAt, EnabledAt, KeyOf, Index;
      ghost var k, offset := KeyOf(addr + pos, secure), (addr + pos) % LINE_SIZE;
      InvariantSized(View(), Replay(start, log));
      HitReadsFlat(View(), port, k, Replay(start, log));
      n := ReadLine(addr, secure, buf, be, pos);
      ChunkBytes(lines[Index(k)].data, addr, secure, pos, n, start, log);
    }

    /** A load miss: toggle between ReadShared and ReadNotSharedDirty, or ReadClean when writing through. */
    method LoadMiss(k: Key)
      requires Sound() && pend.Idle?
      modifies this, lines
      ensures Sound() && pend.Idle? && |others| == |old(others)|
      ensures OthersWrote(old(log), log, port) && InCache(lines[..], k)
      ensures var toggled := if writeThrough then old(toggle) else !old(toggle);
              var r := if writeThrough then Request.ReadClean
                       else if toggled then Request.ReadShared else Request.ReadNotSharedDirty;
              bus == old(bus) + Evictions(old(lines[Index(k)]), toggled, Index(k)) + [Waiting(r, k)]
      ensures toggle == Toggled(old(lines[Index(k)]), if writeThrough then old(toggle) else !old(toggle))
    {
      hide Invariant, Replay, OthersWrote;
      if writeThrough {
        Fill(Request.ReadClean, k);
      } else {
        toggle := !toggle;
        if toggle {
          Fill(Request.ReadShared, k);
        } else {
          Fill(Request.ReadNotSharedDirty, k);
        }
      }
    }

    lemma SoundSized()
      requires Sound()
      ensures lines.Length == NUM_LINES
    {
    }

    /** One round of the load loop: a chunk is read, or its line is fetched. */
    method LoadRound(addr: nat, secure: bool, buf: array<Byte>, be: seq<bool>, pos: nat) returns (n: nat)
      requires Sound() && pend.Idle? && pos < buf.Length
      modifies this, lines, buf
      ensures Sound() && pend.Idle? && |others| == |old(others)|
      ensures n > 0 <==> old(InCache(lines[..], KeyOf(addr + pos, secure)))
      ensures n > 0 ==> n == ChunkLen(addr, buf.Length, pos) && log == old(log)
      ensures n == 0 ==> OthersWrote(old(log), log, port) && InCache(lines[..], KeyOf(addr + pos, secure))
      ensures forall b :: 0 <= b < buf.Length ==>
                buf[b] == if pos <= b < pos + n && EnabledAt(be, b) then ByteAt(start, log, addr, secure, b)
                    else old(buf[b])
      ensures n > 0 ==> bus == old(bus)
      ensures n == 0 ==>
                var k := KeyOf(addr + pos, secure);
                var toggled := if writeThrough then old(toggle) else !old(toggle);
                var r := if writeThrough then Request.ReadClean
                         else if toggled then Request.ReadShared else Request.ReadNotSharedDirty;
                bus == old(bus) + Evictions(old(lines[Index(k)]), toggled, Index(k)) + [Waiting(r, k)]
    {
      hide Invariant, OthersWrote, Replay, ByteAt, EnabledAt, KeyOf, Index, ChunkLen;
      n := 0;
      if InCache(lines[..], KeyOf(addr + pos, secure)) {
        n := LoadChunk(addr, secure, buf, be, pos);
      } else {
        LoadMiss(KeyOf(addr + pos, secure));
      }
    }

    /** handle_load: every enabled byte of the buffer becomes the byte last stored there by any master
        at some moment of the call: after the stores `at` logged by then.  A chunk takes at most two
        rounds of the loop, whatever the other masters do. */
    method HandleLoad(addr: nat, secure: bool, buf: array<Byte>, be: seq<bool>)
      returns (ghost at: seq<seq<Entry>>, ghost rounds: nat)
      requires Sound() && pend.Idle?
      modifies this, lines, buf
      ensures Sound() && pend.Idle? && |others| == |old(others)|
      ensures OthersWrote(old(log), log, port)
      ensures |at| == buf.Length && Moments(at, old(log), log, port)
      ensures forall b :: 0 <= b < buf.Length ==>
                buf[b] == if EnabledAt(be, b) then ByteAt(start, at[b], addr, secure, b) else old(buf[b])
      ensures rounds <= 2 * NumChunks(addr, buf.Length, 0)
    {
      hide Sound, OthersWrote, Replay, Moments, ByteAt, EnabledAt, KeyOf, Index, ChunkLen, InCache, NumChunks;
      MomentsStart(log, port);
      SoundSized();
      NumChunksNext(addr, buf.Length, 0);
      at, rounds := [], 0;
      var pos := 0;
      ghost var done := 0;
      while pos < buf.Length
        invariant Sound() && pend.Idle? && |others| == |old(others)|
        invariant OthersWrote(old(log), log, port)
        invariant 0 <= pos == |at| <= buf.Length && lines.Length == NUM_LINES
        invariant Moments(at, old(log), log, port)
        invariant forall b :: 0 <= b < buf.Length ==>
                    buf[b] == if b < pos && EnabledAt(be, b) then ByteAt(start, at[b], addr, secure, b) else old(buf[b])
        invariant done + NumChunks(addr, buf.Length, pos) == NumChunks(addr, buf.Length, 0)
        invariant rounds <= 2 * done + if pos < buf.Length && InCache(lines[..], KeyOf(addr + pos, secure)) then 1
                  else 0
        decreases buf.Length - pos, if InCache(lines[..], KeyOf(addr + pos, secure)) then 0 else 1
      {
        ghost var now := log;
        NumChunksNext(addr, buf.Length, pos);
        var n := LoadRound(addr, secure, buf, be, pos);
        rounds := rounds + 1;
        if n > 0 {
          MomentsNow(at, old(log), now, n, port);
          at := at + seq(n, _ => now);
          pos := pos + n;
          done := done + 1;
        } else {
          MomentsLater(at, old(log), now, log, port);
        }
      }
    }

    /** A store miss: MakeUnique when the chunk fills the line, else ReadUnique. */
    method StoreMiss(addr: nat, secure: bool, data: seq<Byte>, be: seq<bool>, pos: nat)
      returns (granted: bool, ghost full: Store)
      requires Sound() && pend.Idle? && !writeThrough && pos < |data|
      modifies this, lines
      ensures pend.Idle? && |others| == |old(others)| && OthersWrote(old(log), log, port)
      ensures if granted then Granted(KeyOf(addr + pos, secure), ChunkStore(addr, data, be, pos), full)
              else Sound() && full == ChunkStore(addr, data, be, pos)
      ensures InCache(lines[..], KeyOf(addr + pos, secure)) && !lines[Index(KeyOf(addr + pos, secure))].shared
      ensures var k := KeyOf(addr + pos, secure);
              bus == old(bus) + Evictions(old(lines[Index(k)]), old(toggle), Index(k)) +
                     [Waiting(if ChunkLen(addr, |data|, pos) == LINE_SIZE then Request.MakeUnique(full)
                              else Request.ReadUnique, k)]
      ensures var k := KeyOf(addr + pos, secure); toggle == Toggled(old(lines[Index(k)]), old(toggle))
    {
      hide Invariant, OthersWrote, Replay, EnabledAt, KeyOf, Index;
      var k, n := KeyOf(addr + pos, secure), ChunkLen(addr, |data|, pos);
      granted, full := n == LINE_SIZE, ChunkStore(addr, data, be, pos);
      if granted {
        full := MakeUnique(k, ChunkStore(addr, data, be, pos));
      } else {
        Fill(Request.ReadUnique, k);
      }
    }

    /** The cache may write the chunk at pos: with a line granted for it, or with the only copy. */
    ghost predicate Ready(addr: nat, secure: bool, data: seq<Byte>, be: seq<bool>, pos: nat, granted: bool, full: Store)
      reads this, lines
    {
      lines.Length == NUM_LINES && pend.Idle? && !writeThrough && pos < |data| &&
      if granted then
        && Granted(KeyOf(addr + pos, secure), ChunkStore(addr, data, be, pos), full)
        && HasUnique(KeyOf(addr + pos, secure))
      else Sound() && full == ChunkStore(addr, data, be, pos)
    }

    /** One round of the store loop: the chunk is written when the cache has the only copy; otherwise it
        asks for it, and `lost` counts the one case where another master takes the line away meanwhile. */
    method StoreRound(addr: nat, secure: bool, data: seq<Byte>, be: seq<bool>, pos: nat, ghost granted0: bool,
                      ghost full0: Store)
      returns (n: nat, granted: bool, ghost full: Store, ghost lost: nat)
      requires Ready(addr, secure, data, be, pos, granted0, full0)
      modifies this, lines
      ensures pend.Idle? && |others| == |old(others)|
      ensures n > 0 <==> old(Stage(KeyOf(addr + pos, secure))) == 0
      ensures n > 0 ==> n == ChunkLen(addr, |data|, pos) && Sound() && !granted && lost == 0
      ensures n > 0 ==> log == old(log) + [Stored(port, KeyOf(addr + pos, secure), full0)]
      ensures n > 0 ==> Fills(full0, ChunkStore(addr, data, be, pos))
      ensures n == 0 ==> OthersWrote(old(log), log, port) && Ready(addr, secure, data, be, pos, granted, full)
      ensures n == 0 ==>
                if lost == 0 then Stage(KeyOf(addr + pos, secure)) == 0
                else
                  && lost == 1 && !granted
                  && old(Stage(KeyOf(addr + pos, secure))) == 2 && Stage(KeyOf(addr + pos, secure)) == 1
      ensures n > 0 ==> bus == old(bus)
      ensures var k := KeyOf(addr + pos, secure);
              if old(InCache(lines[..], k)) then
                n == 0 ==> bus == old(bus) + [Waiting(Request.CleanUnique, k)] +
                                  if lost == 0 then [] else [Writing(Evict, Index(k), true)]
              else
                bus == old(bus) + Evictions(old(lines[Index(k)]), old(toggle), Index(k)) +
                       [Waiting(if ChunkLen(addr, |data|, pos) == LINE_SIZE then Request.MakeUnique(full)
                                else Request.ReadUnique, k)]
    {
      hide Invariant, OthersWrote, Replay, Granted, EnabledAt, KeyOf, Index, ChunkStore;
      var k := KeyOf(addr + pos, secure);
      n, granted, full, lost := 0, false, ChunkStore(addr, data, be, pos), 0;
      GrantFills(addr, secure, data, be, pos, granted0, full0);
      if InCache(lines[..], k) {
        if !lines[Index(k)].shared {
          n := StoreChunk(addr, secure, data, be, pos, granted0, full0);
        } else {
          var kept := CleanUnique(k);
          if !kept {
            lost := 1;
          }
        }
      } else {
        granted, full := StoreMiss(addr, secure, data, be, pos);
      }
    }

    lemma GrantFills(addr: nat, secure: bool, data: seq<Byte>, be: seq<bool>, pos: nat, granted: bool, full: Store)
      requires Ready(addr, secure, data, be, pos, granted, full)
      ensures Fills(full, ChunkStore(addr, data, be, pos))
    {
      hide Invariant, ChunkStore;
    }

    /** handle_store: the cache's own stores in the log grow by exactly the payload's chunks, in order; a
        whole-line chunk with gaps may count as a store of the full line.  A chunk takes at most two rounds of
        the loop, and one more when another master took the line away while the cache asked for the only copy. */
    method HandleStore(addr: nat, secure: bool, data: seq<Byte>, be: seq<bool>)
      returns (ghost own: seq<(Key, Store)>, ghost rounds: nat, ghost lost: nat)
      requires Sound() && pend.Idle? && !writeThrough
      modifies this, lines
      ensures Sound() && pend.Idle? && |others| == |old(others)|
      ensures Progress(old(log), log, port, own) && AllFill(own, Chunks(addr, secure, data, be, 0))
      ensures NoSparseLine(addr, data, be, 0) ==> own == Chunks(addr, secure, data, be, 0)
      ensures PayloadStored(start, old(log), log, port, addr, secure, data, be, !NoSparseLine(addr, data, be, 0))
      ensures rounds <= 2 * NumChunks(addr, |data|, 0) + lost && lost <= NumChunks(addr, |data|, 0)
    {
      hide Invariant, OthersWrote, Replay, Progress, Cut, EnabledAt, KeyOf, Index, ChunkLen, ChunkStore, Stage,
           Ready, NoSparseLine, Fills, PayloadStored;
      ProgressStart(log, port);
      own, rounds, lost := [], 0, 0;
      var pos := 0;
      ghost var granted, done, chunks := false, 0, [];
      CutStart(addr, secure, data, be);
      ghost var full := ReadyToStart(addr, secure, data, be, pos);
      while pos < |data|
        invariant pend.Idle? && !writeThrough && |others| == |old(others)| && lines.Length == NUM_LINES &&
                  0 <= pos <= |data|
        invariant if pos < |data| then Ready(addr, secure, data, be, pos, granted, full) else Sound()
        invariant Progress(old(log), log, port, own) && AllFill(own, chunks)
        invariant Cut(addr, secure, data, be, pos, chunks, done)
        invariant rounds <= 2 * done + lost + if pos < |data| && Stage(KeyOf(addr + pos, secure)) == 0 then 1 else 0
        invariant lost <= done + if pos < |data| && Stage(KeyOf(addr + pos, secure)) != 2 then 1 else 0
        decreases |data| - pos, Stage(KeyOf(addr + pos, secure))
      {
        ghost var k, w, now := KeyOf(addr + pos, secure), ChunkStore(addr, data, be, pos), log;
        CutNext(addr, secure, data, be, pos, chunks, done);
        ghost var away, next;
        var n, grant;
        n, grant, next, away := StoreRound(addr, secure, data, be, pos, granted, full);
        rounds, lost, granted := rounds + 1, lost + away, grant;
        if n > 0 {
          ProgressOwn(old(log), now, port, own, k, full);
          done, own, chunks := done + 1, own + [(k, full)], chunks + [(k, w)];
          pos := pos + n;
          full := ReadyToStart(addr, secure, data, be, pos);
        } else {
          ProgressOthers(old(log), now, log, port, own);
          full := next;
        }
      }
      CutEnd(addr, secure, data, be, chunks, done);
      if NoSparseLine(addr, data, be, 0) {
        FillsExactly(addr, secure, data, be, own);
      }
      StoredOnLog(start, old(log), log, port, addr, secure, data, be, own, !NoSparseLine(addr, data, be, 0));
    }

    lemma ReadyToStart(addr: nat, secure: bool, data: seq<Byte>, be: seq<bool>, pos: nat) returns (full: Store)
      requires Sound() && pend.Idle? && !writeThrough
      ensures lines.Length == NUM_LINES
      ensures pos < |data| ==> Ready(addr, secure, data, be, pos, false, full)
    {
      full := if pos < |data| then ChunkStore(addr, data, be, pos) else Store(0, [], []);
      InvariantSized(View(), Replay(start, log));
    }

    /** Memory has taken the store w; the own copy of k, which is to be updated or not, has not. */
    ghost predicate Taken(k: Key, w: Store, updates: bool)
      reads this, lines
    {
      && lines.Length == NUM_LINES
      && w.Fits()
      && Resumed(others, port, Cache(if updates then UpdateOwnCopy(lines[..], k, w) else lines[..], Idle, writeThrough),
                 mem, FlatApply(Replay(start, log), Stored(port, k, w)))
    }

    method IssueWrite(r: Request, k: Key)
      requires Sound() && MayRequest(Me(), r, k) && (r.WriteUnique? || r.WriteLineUnique?)
      modifies this, lines
      ensures Taken(k, r.st, Updates(r)) && |others| == |old(others)| && OthersWrote(old(log), log, port)
      ensures bus == old(bus) + [Waiting(r, k)]
      ensures toggle == old(toggle)
    {
      hide Invariant, AtAnswer, OthersWrote, Replay;
      var shared, dirty, answer;
      ghost var s, st;
      shared, dirty, answer, s, st := DoTlm(r, k);
      WriteUniqueDone(s, st, port, shared, dirty, answer, others, mem, Replay(start, log));
    }

    /** write_unique and write_line_unique for one chunk: memory takes it, and so does the own copy. */
    method WriteThroughChunk(addr: nat, secure: bool, data: seq<Byte>, be: seq<bool>, pos: nat) returns (n: nat)
      requires Sound() && pend.Idle? && writeThrough && pos < |data|
      requires Harmless(ChunkStore(addr, data, be, pos), pos)
      modifies this, lines
      ensures Sound() && pend.Idle? && |others| == |old(others)|
      ensures Progress(old(log), log, port, [(KeyOf(addr + pos, secure), ChunkStore(addr, data, be, pos))])
      ensures n == ChunkLen(addr, |data|, pos)
      ensures var k, w := KeyOf(addr + pos, secure), ChunkStore(addr, data, be, pos);
              bus == old(bus) + [Waiting(ThroughRequest(w, pos), k)] &&
              ((GoesWhole(w) || pos < n) && InCache(lines[..], k) ==> lines[Index(k)].shared && !lines[Index(k)].dirty)
      ensures toggle == old(toggle)
    {
      hide Sound, Resumed, OthersWrote, Replay, Progress, KeyOf, UpdateOwnCopy, MayRequest, GoesWhole, ThroughRequest,
           ChunkStore, Index, FlatApply;
      SoundSized();
      var k := KeyOf(addr + pos, secure);
      var w := SentChunk(addr, data, be, pos);
      WriteMayGo(Me(), w, pos, k);
      ghost var was := log;
      IssueWrite(ThroughRequest(w, pos), k);
      ProgressOne(was, log, port, k, w);
      ReplaySnoc(start, log, Stored(port, k, w));
      log := log + [Stored(port, k, w)];
      n := ChunkLen(addr, |data|, pos);
      if GoesWhole(w) || pos < n {
        n := UpdateOwn(addr, secure, data, be, pos);
      }
      pend := Idle;
      SoundNow();
    }

    method UpdateOwn(addr: nat, secure: bool, data: seq<Byte>, be: seq<bool>, pos: nat) returns (n: nat)
      requires lines.Length == NUM_LINES && pos < |data|
      modifies lines
      ensures n == ChunkLen(addr, |data|, pos)
      ensures lines[..] == UpdateOwnCopy(old(lines[..]), KeyOf(addr + pos, secure), ChunkStore(addr, data, be, pos))
      ensures var k := KeyOf(addr + pos, secure);
              InCache(lines[..], k) ==> lines[Index(k)].shared && !lines[Index(k)].dirty
    {
      hide KeyOf, Index;
      var k := KeyOf(addr + pos, secure);
      n := ChunkLen(addr, |data|, pos);
      if InCache(lines[..], k) {
        n := WriteLine(addr, secure, data, be, pos, false);
        lines[Index(k)] := lines[Index(k)].(shared := true);
      }
    }

    /** handle_store of the write-through cache, for the payloads that keep the cache coherent. */
    method HandleStoreThrough(addr: nat, secure: bool, data: seq<Byte>, be: seq<bool>)
      requires Sound() && pend.Idle? && writeThrough && AllHarmless(addr, data, be, 0)
      modifies this, lines
      ensures Sound() && pend.Idle? && |others| == |old(others)|
      ensures Progress(old(log), log, port, Chunks(addr, secure, data, be, 0))
      ensures PayloadStored(start, old(log), log, port, addr, secure, data, be, false)
    {
      hide Invariant, Progress, Replay, Cut, EnabledAt, KeyOf, Index, ChunkLen, ChunkStore, PayloadStored;
      ProgressStart(log, port);
      CutStart(addr, secure, data, be);
      var pos := 0;
      ghost var done, own := 0, [];
      while pos < |data|
        invariant Sound() && pend.Idle? && |others| == |old(others)| && 0 <= pos <= |data|
        invariant Progress(old(log), log, port, own)
        invariant Cut(addr, secure, data, be, pos, own, done) && AllHarmless(addr, data, be, pos)
      {
        ghost var k, w, now := KeyOf(addr + pos, secure), ChunkStore(addr, data, be, pos), log;
        CutNext(addr, secure, data, be, pos, own, done);
        var n := WriteThroughChunk(addr, secure, data, be, pos);
        ProgressThen(old(log), now, log, port, own, [(k, w)]);
        done, own := done + 1, own + [(k, w)];
        pos := pos + n;
      }
      CutEnd(addr, secure, data, be, own, done);
      SameFill(own);
      StoredOnLog(start, old(log), log, port, addr, secure, data, be, own, false);
    }

    predicate HasUnique(k: Key)
      reads lines
      requires lines.Length == NUM_LINES
    {
      InCache(lines[..], k) && !lines[Index(k)].shared
    }

    /** How far the cache is from writing a line: 0 with the only copy, 1 without a copy, 2 with a shared one. */
    function Stage(k: Key): (n: nat)
      reads lines
      requires lines.Length == NUM_LINES
    {
      if HasUnique(k) then 0 else if InCache(lines[..], k) then 2 else 1
    }
  }

  /** The line `was` with the enabled bytes of the chunk at pos over it. */
  method Overwritten(was: Block, addr: nat, data: seq<Byte>, be: seq<bool>, pos: nat) returns (d: Block)
    requires pos < |data|
    ensures d == Merge(was, ChunkStore(addr, data, be, pos))
    ensures var o, n := (addr + pos) % LINE_SIZE, ChunkLen(addr, |data|, pos);
            forall x :: 0 <= x < LINE_SIZE ==>
              d[x] == if o <= x < o + n && Enables(be, pos + x - o) then data[pos + x - o] else was[x]
  {
    var n, offset := ChunkLen(addr, |data|, pos), (addr + pos) % LINE_SIZE;
    d := was;
    for i := 0 to n
      invariant |d| == LINE_SIZE
      invariant forall x :: 0 <= x < LINE_SIZE ==>
                  d[x] == if offset <= x < offset + i && Enables(be, pos + x - offset) then data[pos + x - offset]
                          else was[x]
    {
      if EnabledAt(be, pos + i) {
        d := d[offset + i := data[pos + i]];
      }
    }
    ChunkHolds(addr, data, be, pos);
    MergeOf(was, d, ChunkStore(addr, data, be, pos));
  }

  lemma MergeOf(was: Block, d: Block, w: Store)
    requires w.Fits()
    requires forall x :: 0 <= x < LINE_SIZE ==>
               d[x] == if w.off <= x < w.off + |w.data| && w.en[x - w.off] then w.data[x - w.off] else was[x]
    ensures d == Merge(was, w)
  {
  }

  lemma MakeUniqueMayGo(c: Cache, w: Store, k: Key)
    requires |c.lines| == NUM_LINES && c.pend.Idle? && !c.writeThrough && w.WholeLine() && w.NoSparse()
    requires !Slot(c, k).valid
    ensures MayRequest(c, Request.MakeUnique(w), k)
  {
  }

  /** The write-through request for a chunk: a whole line only when it fills one and has no gaps. */
  function ThroughRequest(w: Store, pos: nat): (r: Request)
    ensures r.WriteLineUnique? <==> |w.data| == LINE_SIZE && w.Fits() && forall i :: 0 <= i < LINE_SIZE ==> w.en[i]
  {
    if GoesWhole(w) then WriteLineUnique(w) else WriteUnique(w, pos)
  }

  lemma WriteMayGo(c: Cache, w: Store, pos: nat, k: Key)
    requires |c.lines| == NUM_LINES && c.pend.Idle? && c.writeThrough && w.Fits()
    requires Harmless(w, pos)
    ensures MayRequest(c, ThroughRequest(w, pos), k)
    ensures Updates(ThroughRequest(w, pos)) <==> GoesWhole(w) || pos < |w.data|
    ensures ThroughRequest(w, pos).WriteUnique? || ThroughRequest(w, pos).WriteLineUnique?
    ensures ThroughRequest(w, pos).st == w
  {
  }

  /** The system is coherent when entry `port` is this cache. */
  ghost predicate Resumed(others: seq<Cache>, port: nat, c: Cache, mem: Memory, flat: Memory) {
    port < |others| && Invariant(System(others[port := c], mem), flat)
  }

  lemma ResumeFill(s: System, st: Step, port: nat, shared: bool, dirty: bool, data: Block,
                   others: seq<Cache>, mem: Memory, flat: Memory)
    requires AtAnswer(s, st, port, shared, dirty, data, others, mem, flat)
    requires var r := s.caches[port].pend.req; IsFill(r) && !r.MakeUnique?
    ensures var c := s.caches[port];
            var l := Line(true, c.pend.key, shared, dirty && !c.pend.req.ReadClean?, data);
            |c.lines| == NUM_LINES &&
            Resumed(others, port, Cache(c.lines[Index(c.pend.key) := l], Idle, c.writeThrough), mem, flat)
  {
    FillDone(s, st, port, shared, dirty, data, others, mem, flat);
    hide Invariant;
  }

  lemma ResumeMade(s: System, st: Step, port: nat, shared: bool, dirty: bool, data: Block,
                   others: seq<Cache>, mem: Memory, flat: Memory)
    requires AtAnswer(s, st, port, shared, dirty, data, others, mem, flat)
    requires s.caches[port].pend.req.MakeUnique?
    ensures var c := s.caches[port];
            var n, k, w := Index(c.pend.key), c.pend.key, c.pend.req.st;
            |c.lines| == NUM_LINES &&
            Resumed(others, port, Cache(c.lines[n := Line(true, k, false, true, Merge(c.lines[n].data, w))], Idle,
                                        c.writeThrough), mem, FlatApply(flat, Stored(port, k, w)))
  {
    MakeUniqueDone(s, st, port, shared, dirty, data, others, mem, flat);
    hide Invariant;
  }

  lemma ResumeUnique(s: System, st: Step, port: nat, shared: bool, dirty: bool, data: Block,
                     others: seq<Cache>, mem: Memory, flat: Memory)
    requires AtAnswer(s, st, port, shared, dirty, data, others, mem, flat)
    requires s.caches[port].pend.req.CleanUnique?
    ensures var c := s.caches[port];
            var n, k := Index(c.pend.key), c.pend.key;
            && |c.lines| == NUM_LINES && c.lines[n].key == k
            && (c.lines[n].valid ==>
                  Resumed(others, port, Cache(c.lines[n := c.lines[n].(shared := false)], Idle, c.writeThrough), mem,
                          flat))
            && (!c.lines[n].valid ==>
                  Resumed(others, port, Cache(c.lines[n := c.lines[n].(valid := true)], Writing(Evict, n, true),
                                              c.writeThrough), mem, flat))
  {
    CleanUniqueDone(s, st, port, shared, dirty, data, others, mem, flat);
    hide Invariant;
  }

  lemma UntouchedIs(c: Cache, c': Cache)
    requires Untouched(c, c')
    ensures c' == Cache(c'.lines, c.pend, c.writeThrough) && |c'.lines| == |c.lines| && (c.pend.Writing? ==> c' == c)
    ensures forall n :: 0 <= n < |c.lines| && !c.lines[n].valid ==> c'.lines[n] == c.lines[n]
  {
  }

  lemma ReplacedTwice(s: seq<Cache>, i: nat, a: Cache, b: Cache)
    requires i < |s|
    ensures s[i := a][i := b] == s[i := b]
  {
  }

  /** What an eviction puts on the bus: every other dirty line is written out clean first. */
  function Evictions(l: Line, toggle: bool, n: nat): seq<Pending> {
    if !l.valid then []
    else if !l.dirty then [Writing(Evict, n, false)]
    else if toggle then [Writing(WriteBack, n, false)]
    else [Writing(WriteClean, n, false), Writing(Evict, n, false)]
  }

  /** The toggle after that. */
  function Toggled(l: Line, toggle: bool): bool {
    if l.valid && l.dirty then !toggle else toggle
  }

  function NoAnswer(): SnoopResponse {
    SnoopResponse(false, false, false, false)
  }

  /** A handler's answer is the one the interconnect's merge expects. */
  ghost predicate Answers(op: SnoopOp, lines: seq<Line>, k: Key, rsp: SnoopResponse, data: Option<Block>)
    requires |lines| == NUM_LINES
  {
    && rsp == (if InCache(lines, k) then Response(op, lines[Index(k)]) else NoAnswer())
    && data == (if rsp.transfer then Some(lines[Index(k)].data) else None)
  }
}
