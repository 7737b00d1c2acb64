/** The response slots of the devices behind a remote-port adaptor, whose waits may nest: what processing
    packets and waiting for an answer do to them, and when a wait returns. */
module ResponseSlots {
  import opened MachineTypes

  const MAX_OUTSTANDING := 256

  datatype Reply = Reply(id: nat, payload: seq<Byte>)

  datatype Slot = Slot(used: bool, valid: bool, id: nat, pkt: Reply)

  /** What the adaptor reads next: an answer for a device, the answer to a posted request, or a request of
      the peer, whose handling sends one request after another for the devices `waits` and waits for
      the answer of each. */
  datatype Event = Response(dev: nat, reply: Reply) | PostedResponse | Request(waits: seq<nat>)

  /** Back to the caller, waiting for a packet that does not come, or stopped by an assertion. */
  datatype Outcome = Returned(rest: seq<Event>) | Blocked | Asserted

  /** The slots of each device, and the ID of the next request. */
  datatype Table = Table(devs: seq<seq<Slot>>, nextId: nat)

  /** The outcome, the table then, and the slot of the wait. */
  datatype Result = Result(outcome: Outcome, table: Table, index: nat)

  /** The slots of a device; packets for numbers without a device go to one that never waits. */
  function SlotsOf(t: Table, dev: nat): seq<Slot> {
    if dev < |t.devs| then t.devs[dev] else []
  }

  /** The first slot in use for an ID, or the number of slots. */
  function Lookup(slots: seq<Slot>, id: nat): (i: nat)
    ensures i <= |slots|
    ensures i < |slots| ==> slots[i].used && slots[i].id == id
    ensures forall j :: 0 <= j < i ==> !(slots[j].used && slots[j].id == id)
  {
    if slots == [] then 0
    else if slots[0].used && slots[0].id == id then 0
    else 1 + Lookup(slots[1..], id)
  }

  /** The first free slot, or the number of slots. */
  function FirstFree(slots: seq<Slot>): (i: nat)
    ensures i <= |slots|
    ensures i < |slots| ==> !slots[i].used
    ensures forall j :: 0 <= j < i ==> slots[j].used
  {
    if slots == [] then 0 else if !slots[0].used then 0 else 1 + FirstFree(slots[1..])
  }

  function WithSlots(t: Table, dev: nat, slots: seq<Slot>): (t': Table)
    requires dev < |t.devs|
    ensures t'.devs == t.devs[dev := slots] && t'.nextId == t.nextId
  {
    t.(devs := t.devs[dev := slots])
  }

  function Answered(slots: seq<Slot>, i: nat, reply: Reply): seq<Slot>
    requires i < |slots|
  {
    slots[i := slots[i].(valid := true, pkt := reply)]
  }

  function Taken(slots: seq<Slot>, i: nat, id: nat): seq<Slot>
    requires i < |slots|
  {
    slots[i := slots[i].(id := id, used := true)]
  }

  function Freed(slots: seq<Slot>, i: nat): seq<Slot>
    requires i < |slots|
  {
    slots[i := slots[i].(valid := false, used := false)]
  }

  ghost predicate IsSuffix(rest: seq<Event>, events: seq<Event>) {
    |rest| <= |events| && rest == events[|events| - |rest|..]
  }

  ghost predicate SameShape(a: Table, b: Table) {
    |a.devs| == |b.devs| && forall d :: 0 <= d < |a.devs| ==> |a.devs[d]| == |b.devs[d]|
  }

  /** An answer is stored in the slot that waits for it. */
  function Stored(t: Table, dev: nat, reply: Reply): (r: Option<Table>)
    ensures r.Some? ==> SameShape(r.value, t)
  {
    var i := Lookup(SlotsOf(t, dev), reply.id);
    if i == |SlotsOf(t, dev)| then None else Some(WithSlots(t, dev, Answered(t.devs[dev], i, reply)))
  }

  /** rp_process: packets are handled until an answer has been read. */
  ghost function Process(t: Table, events: seq<Event>): (r: Result)
    ensures SameShape(r.table, t)
    ensures r.outcome.Returned? ==> IsSuffix(r.outcome.rest, events) && |r.outcome.rest| < |events|
    decreases |events|, 0, 0
  {
    if events == [] then Result(Blocked, t, 0)
    else
      match events[0]
      case PostedResponse => Result(Returned(events[1..]), t, 0)
      case Response(dev, reply) =>
        if Stored(t, dev, reply).None? then Result(Asserted, t, 0)
        else Result(Returned(events[1..]), Stored(t, dev, reply).value, 0)
      case Request(waits) =>
        var h := Handle(t, waits, events[1..]);
        if h.outcome.Returned? then Process(h.table, h.outcome.rest) else h
  }

  /** A request is handled: each request sent takes the next ID, and its slot is freed after the wait. */
  ghost function Handle(t: Table, waits: seq<nat>, events: seq<Event>): (r: Result)
    ensures SameShape(r.table, t)
    ensures r.outcome.Returned? ==> IsSuffix(r.outcome.rest, events)
    decreases |events|, 3, |waits|
  {
    if waits == [] then Result(Returned(events), t, 0)
    else
      var w := Wait(t.(nextId := t.nextId + 1), waits[0], t.nextId, events);
      if w.outcome.Returned? then
        Handle(WithSlots(w.table, waits[0], Freed(w.table.devs[waits[0]], w.index)), waits[1..], w.outcome.rest)
      else w
  }

  /** response_wait in the adaptor's own process: a slot is taken, then packets are processed. */
  ghost function Wait(t: Table, dev: nat, id: nat, events: seq<Event>): (r: Result)
    ensures SameShape(r.table, t)
    ensures r.outcome.Returned? ==>
              IsSuffix(r.outcome.rest, events) && |r.outcome.rest| < |events| &&
              dev < |r.table.devs| && r.index < |r.table.devs[dev]| && r.table.devs[dev][r.index].valid
    decreases |events|, 2, 0
  {
    var i := FirstFree(SlotsOf(t, dev));
    if i == |SlotsOf(t, dev)| then Result(Asserted, t, 0)
    else Until(WithSlots(t, dev, Taken(t.devs[dev], i, id)), dev, i, events)
  }

  /** Packets are processed until slot i of the device is valid, at least once. */
  ghost function Until(t: Table, dev: nat, i: nat, events: seq<Event>): (r: Result)
    requires i < |SlotsOf(t, dev)|
    ensures SameShape(r.table, t)
    ensures r.outcome.Returned? ==>
              IsSuffix(r.outcome.rest, events) && |r.outcome.rest| < |events| &&
              r.index == i && r.table.devs[dev][i].valid
    decreases |events|, 1, 0
  {
    var r := Process(t, events);
    if !r.outcome.Returned? then r
    else if r.table.devs[dev][i].valid then r.(index := i)
    else Until(r.table, dev, i, r.outcome.rest)
  }

  /** What processing does with each kind of packet. */
  lemma ProcessCases(t: Table, events: seq<Event>)
    ensures events == [] ==> Process(t, events) == Result(Blocked, t, 0)
    ensures events != [] && events[0].PostedResponse? ==> Process(t, events) == Result(Returned(events[1..]), t, 0)
    ensures events != [] && events[0].Response? ==>
              var s := Stored(t, events[0].dev, events[0].reply);
              Process(t, events) == if s.None? then Result(Asserted, t, 0)
                                    else Result(Returned(events[1..]), s.value, 0)
    ensures events != [] && events[0].Request? ==>
              var h := Handle(t, events[0].waits, events[1..]);
              Process(t, events) == if h.outcome.Returned? then Process(h.table, h.outcome.rest) else h
  {
  }

  // ----- what is kept

  /** Used slots wait for different, already issued IDs; a valid slot is used and holds its own answer. */
  ghost predicate SoundSlots(slots: seq<Slot>, nextId: nat) {
    && (forall i :: 0 <= i < |slots| && slots[i].valid ==> slots[i].used && slots[i].pkt.id == slots[i].id)
    && (forall i :: 0 <= i < |slots| && slots[i].used ==> slots[i].id < nextId)
    && (forall i, j :: 0 <= i < j < |slots| && slots[i].used && slots[j].used ==> slots[i].id != slots[j].id)
  }

  ghost predicate Consistent(t: Table) {
    forall d :: 0 <= d < |t.devs| ==> SoundSlots(t.devs[d], t.nextId)
  }

  /** What was read when `rest` is left. */
  ghost function Read(events: seq<Event>, rest: seq<Event>): seq<Event> {
    if |rest| <= |events| then events[..|events| - |rest|] else []
  }

  lemma ReadMore(events: seq<Event>, mid: seq<Event>, rest: seq<Event>)
    requires IsSuffix(mid, events) && IsSuffix(rest, mid)
    ensures IsSuffix(rest, events)
    ensures Read(events, rest) == Read(events, mid) + Read(mid, rest)
  {
    var n, k := |events| - |mid|, |mid| - |rest|;
    assert events == events[..n] + mid && mid == mid[..k] + rest;
    assert events[..n + k] == events[..n] + mid[..k];
  }

  /** Packet e is the answer to request `id` of the device. */
  predicate IsAnswer(e: Event, dev: nat, id: nat) {
    e.Response? && e.dev == dev && e.reply.id == id
  }

  ghost predicate Answers(read: seq<Event>, dev: nat, id: nat) {
    exists k :: 0 <= k < |read| && IsAnswer(read[k], dev, id)
  }

  lemma AnswersMore(a: seq<Event>, b: seq<Event>, dev: nat, id: nat)
    ensures Answers(a + b, dev, id) <==> Answers(a, dev, id) || Answers(b, dev, id)
  {
    if Answers(a, dev, id) {
      var k :| 0 <= k < |a| && IsAnswer(a[k], dev, id);
      assert IsAnswer((a + b)[k], dev, id);
    }
    if Answers(b, dev, id) {
      var k :| 0 <= k < |b| && IsAnswer(b[k], dev, id);
      assert IsAnswer((a + b)[|a| + k], dev, id);
    }
  }

  /** A slot in use stays in use for the same ID, it is valid exactly if it was or its answer has been read,
      and the answer in it was there before or has been read. */
  ghost predicate KeepsSlot(before: Slot, after: Slot, dev: nat, read: seq<Event>) {
    && after.used == before.used
    && (after.used ==> after.id == before.id)
    && (after.used ==> (after.valid <==> before.valid || Answers(read, dev, before.id)))
    && (after.valid ==> after.used && ((before.valid && after.pkt == before.pkt) || Response(dev, after.pkt) in read))
  }

  /** Every slot but one of device `own` is kept. */
  ghost predicate KeepsTables(before: Table, after: Table, own: nat, except: nat, read: seq<Event>) {
    SameShape(before, after) && after.nextId >= before.nextId &&
    forall d, i :: 0 <= d < |before.devs| && 0 <= i < |before.devs[d]| && !(d == own && i == except) ==>
      KeepsSlot(before.devs[d][i], after.devs[d][i], d, read)
  }

  /** Every slot is kept. */
  ghost predicate KeepsAll(before: Table, after: Table, read: seq<Event>) {
    KeepsTables(before, after, |before.devs|, 0, read)
  }

  lemma KeepsMore(a: Table, b: Table, c: Table, own: nat, except: nat, r1: seq<Event>, r2: seq<Event>)
    requires KeepsTables(a, b, own, except, r1) && KeepsTables(b, c, own, except, r2)
    ensures KeepsTables(a, c, own, except, r1 + r2)
  {
    forall d, i | 0 <= d < |a.devs| && 0 <= i < |a.devs[d]| && !(d == own && i == except)
      ensures KeepsSlot(a.devs[d][i], c.devs[d][i], d, r1 + r2)
    {
      AnswersMore(r1, r2, d, a.devs[d][i].id);
      assert KeepsSlot(a.devs[d][i], b.devs[d][i], d, r1) && KeepsSlot(b.devs[d][i], c.devs[d][i], d, r2);
    }
  }

  lemma KeepsNothing(t: Table, read: seq<Event>)
    requires Consistent(t) && forall d, id :: !Answers(read, d, id)
    ensures KeepsAll(t, t, read)
  {
    forall d, i | 0 <= d < |t.devs| && 0 <= i < |t.devs[d]| ensures KeepsSlot(t.devs[d][i], t.devs[d][i], d, read) {
      assert SoundSlots(t.devs[d], t.nextId);
    }
  }

  lemma StoredKeeps(t: Table, e: Event)
    requires Consistent(t) && e.Response? && Stored(t, e.dev, e.reply).Some?
    ensures Consistent(Stored(t, e.dev, e.reply).value) && KeepsAll(t, Stored(t, e.dev, e.reply).value, [e])
  {
    var s := Stored(t, e.dev, e.reply).value;
    var k := Lookup(t.devs[e.dev], e.reply.id);
    forall d | 0 <= d < |t.devs| ensures SoundSlots(s.devs[d], s.nextId) {
      assert SoundSlots(t.devs[d], t.nextId);
    }
    forall d, i | 0 <= d < |t.devs| && 0 <= i < |t.devs[d]| ensures KeepsSlot(t.devs[d][i], s.devs[d][i], d, [e]) {
      assert SoundSlots(t.devs[d], t.nextId);
      assert Answers([e], d, t.devs[d][i].id) <==> IsAnswer([e][0], d, t.devs[d][i].id);
    }
  }

  /** What a returned call promises besides its result. */
  ghost predicate Keeps(t: Table, events: seq<Event>, r: Result) {
    && Consistent(r.table) && r.table.nextId >= t.nextId
    && (r.outcome.Returned? ==> KeepsAll(t, r.table, Read(events, r.outcome.rest)))
  }

  lemma KeepsThen(t: Table, events: seq<Event>, mid: Table, rest: seq<Event>, r: Result)
    requires IsSuffix(rest, events) && mid.nextId >= t.nextId && KeepsAll(t, mid, Read(events, rest))
    requires r.outcome.Returned? ==> IsSuffix(r.outcome.rest, rest)
    requires Keeps(mid, rest, r)
    ensures Keeps(t, events, r)
  {
    if r.outcome.Returned? {
      ReadMore(events, rest, r.outcome.rest);
      KeepsMore(t, mid, r.table, |t.devs|, 0, Read(events, rest), Read(rest, r.outcome.rest));
    }
  }

  lemma FirstRead(events: seq<Event>)
    requires events != []
    ensures IsSuffix(events[1..], events) && Read(events, events[1..]) == [events[0]] && Read(events, events) == []
  {
  }

  /** Processing packets keeps the table sound, and leaves every wait in its slot. */
  lemma {:induction false} ProcessKeeps(t: Table, events: seq<Event>)
    requires Consistent(t)
    ensures Keeps(t, events, Process(t, events))
    decreases |events|, 0, 0
  {
    hide Consistent, KeepsAll, Read, IsSuffix, Process, Handle, Stored, SameShape;
    ProcessCases(t, events);
    if events != [] {
      var rest := events[1..];
      FirstRead(events);
      match events[0]
      case PostedResponse =>
        KeepsNothing(t, [events[0]]);
      case Response(dev, reply) =>
        if Stored(t, dev, reply).Some? {
          StoredKeeps(t, events[0]);
          StoredNext(t, dev, reply);
        }
      case Request(waits) =>
        HandleKeeps(t, waits, rest);
        KeepsNothing(t, [events[0]]);
        var h := Handle(t, waits, rest);
        KeepsThen(t, events, t, rest, h);
        if h.outcome.Returned? {
          HandleSuffix(t, waits, events);
          ProcessKeeps(h.table, h.outcome.rest);
          KeepsThen(t, events, h.table, h.outcome.rest, Process(h.table, h.outcome.rest));
        }
    }
  }

  lemma StoredNext(t: Table, dev: nat, reply: Reply)
    requires Stored(t, dev, reply).Some?
    ensures Stored(t, dev, reply).value.nextId == t.nextId
  {
  }

  lemma HandleSuffix(t: Table, waits: seq<nat>, events: seq<Event>)
    requires events != []
    ensures var h := Handle(t, waits, events[1..]);
            h.outcome.Returned? ==> IsSuffix(h.outcome.rest, events) && |h.outcome.rest| < |events|
  {
    hide Handle;
    var h := Handle(t, waits, events[1..]);
    if h.outcome.Returned? {
      FirstRead(events);
      ReadMore(events, events[1..], h.outcome.rest);
    }
  }

  /** Handling a request, whatever it waits for, does the same. */
  lemma {:induction false} HandleKeeps(t: Table, waits: seq<nat>, events: seq<Event>)
    requires Consistent(t)
    ensures Keeps(t, events, Handle(t, waits, events))
    decreases |events|, 3, |waits|
  {
    hide Consistent, KeepsAll, Read, IsSuffix, Wait, SameShape, KeepsTables;
    if waits == [] {
      NothingRead(t, events);
    } else {
      var dev, t' := waits[0], t.(nextId := t.nextId + 1);
      NextFits(t, dev);
      WaitReturnsOwnAnswer(t', dev, t.nextId, events);
      var w := Wait(t', dev, t.nextId, events);
      if w.outcome.Returned? {
        var freed := WithSlots(w.table, dev, Freed(w.table.devs[dev], w.index));
        FreedKeeps(t', w.table, dev, w.index, Read(events, w.outcome.rest));
        OlderKeeps(t, freed, Read(events, w.outcome.rest));
        HandleKeeps(freed, waits[1..], w.outcome.rest);
        KeepsThen(t, events, freed, w.outcome.rest, Handle(freed, waits[1..], w.outcome.rest));
      }
    }
  }

  lemma NothingRead(t: Table, events: seq<Event>)
    requires Consistent(t)
    ensures Keeps(t, events, Result(Returned(events), t, 0))
  {
    assert Read(events, events) == [];
    KeepsNothing(t, []);
  }

  lemma OlderKeeps(t: Table, after: Table, read: seq<Event>)
    requires KeepsAll(t.(nextId := t.nextId + 1), after, read)
    ensures KeepsAll(t, after, read) && after.nextId > t.nextId
  {
  }

  /** A slot taken and freed again leaves the table as it was, but for answers to others. */
  lemma FreedKeeps(before: Table, t: Table, dev: nat, i: nat, read: seq<Event>)
    requires Consistent(before) && Consistent(t) && KeepsTables(before, t, dev, i, read)
    requires dev < |t.devs| && i < |t.devs[dev]| && !before.devs[dev][i].used
    ensures Consistent(WithSlots(t, dev, Freed(t.devs[dev], i)))
    ensures KeepsAll(before, WithSlots(t, dev, Freed(t.devs[dev], i)), read)
  {
    var f := WithSlots(t, dev, Freed(t.devs[dev], i));
    forall d | 0 <= d < |t.devs| ensures SoundSlots(f.devs[d], f.nextId) {
      assert SoundSlots(t.devs[d], t.nextId);
    }
  }

  lemma NextFits(t: Table, dev: nat)
    requires Consistent(t)
    ensures Consistent(t.(nextId := t.nextId + 1))
    ensures Lookup(SlotsOf(t, dev), t.nextId) == |SlotsOf(t, dev)|
  {
    forall d | 0 <= d < |t.devs| ensures SoundSlots(t.devs[d], t.nextId + 1) {
      assert SoundSlots(t.devs[d], t.nextId);
    }
  }

  /** The table with slot i taken for a new request. */
  lemma TakenConsistent(t: Table, dev: nat, i: nat, id: nat)
    requires Consistent(t) && dev < |t.devs| && i < |t.devs[dev]| && !t.devs[dev][i].used
    requires id < t.nextId && Lookup(t.devs[dev], id) == |t.devs[dev]|
    ensures Consistent(WithSlots(t, dev, Taken(t.devs[dev], i, id)))
    ensures !Taken(t.devs[dev], i, id)[i].valid
  {
    var f := WithSlots(t, dev, Taken(t.devs[dev], i, id));
    assert SoundSlots(t.devs[dev], t.nextId);
    forall d | 0 <= d < |t.devs| ensures SoundSlots(f.devs[d], f.nextId) {
      assert SoundSlots(t.devs[d], t.nextId);
    }
  }

  /** A wait that has returned holds its own answer in a slot that was free. */
  ghost predicate OwnAnswer(t: Table, dev: nat, id: nat, events: seq<Event>, r: Result)
    requires SameShape(r.table, t)
  {
    r.outcome.Returned? ==>
      && dev < |t.devs| && r.index < |t.devs[dev]| && !t.devs[dev][r.index].used
      && KeepsTables(t, r.table, dev, r.index, Read(events, r.outcome.rest))
      && var s := r.table.devs[dev][r.index];
         s.used && s.valid && s.id == id == s.pkt.id && Response(dev, s.pkt) in Read(events, r.outcome.rest)
  }

  /** For any packets and any nesting, a wait returns only with the answer to its own ID, read during the
      wait, in a slot of its device that was free; every other wait keeps its slot. */
  lemma {:induction false} WaitReturnsOwnAnswer(t: Table, dev: nat, id: nat, events: seq<Event>)
    requires Consistent(t) && id < t.nextId && Lookup(SlotsOf(t, dev), id) == |SlotsOf(t, dev)|
    ensures var r := Wait(t, dev, id, events);
            Consistent(r.table) && r.table.nextId >= t.nextId && OwnAnswer(t, dev, id, events, r)
    decreases |events|, 2, 0
  {
    var i := FirstFree(SlotsOf(t, dev));
    if i < |SlotsOf(t, dev)| {
      hide Consistent, Until, Read, IsSuffix, Lookup, FirstFree;
      TakenConsistent(t, dev, i, id);
      var taken := WithSlots(t, dev, Taken(t.devs[dev], i, id));
      UntilKeeps(taken, dev, i, events);
      var r := Until(taken, dev, i, events);
      if r.outcome.Returned? {
        TakenOwn(t, dev, i, id, Read(events, r.outcome.rest), r.table);
      }
    }
  }

  lemma TakenOwn(t: Table, dev: nat, i: nat, id: nat, read: seq<Event>, after: Table)
    requires dev < |t.devs| && i < |t.devs[dev]| && !t.devs[dev][i].used && !t.devs[dev][i].valid
    requires Consistent(after) && KeepsAll(WithSlots(t, dev, Taken(t.devs[dev], i, id)), after, read)
    requires after.devs[dev][i].valid
    ensures SameShape(after, t) && KeepsTables(t, after, dev, i, read)
    ensures var s := after.devs[dev][i]; s.used && s.id == id == s.pkt.id && Response(dev, s.pkt) in read
  {
    var taken := WithSlots(t, dev, Taken(t.devs[dev], i, id));
    assert SoundSlots(after.devs[dev], after.nextId);
    assert KeepsSlot(taken.devs[dev][i], after.devs[dev][i], dev, read);
    forall d, k | 0 <= d < |t.devs| && 0 <= k < |t.devs[d]| && !(d == dev && k == i)
      ensures KeepsSlot(t.devs[d][k], after.devs[d][k], d, read)
    {
      assert KeepsSlot(taken.devs[d][k], after.devs[d][k], d, read);
    }
  }

  lemma {:induction false} UntilKeeps(t: Table, dev: nat, i: nat, events: seq<Event>)
    requires Consistent(t) && i < |SlotsOf(t, dev)|
    ensures Keeps(t, events, Until(t, dev, i, events))
    decreases |events|, 1, 0
  {
    hide Consistent, KeepsAll, Read, IsSuffix, Process, SameShape;
    ProcessKeeps(t, events);
    var r := Process(t, events);
    if r.outcome.Returned? {
      ProcessShape(t, events, dev);
      if !r.table.devs[dev][i].valid {
        UntilKeeps(r.table, dev, i, r.outcome.rest);
        KeepsThen(t, events, r.table, r.outcome.rest, Until(r.table, dev, i, r.outcome.rest));
      }
    }
  }

  lemma ProcessShape(t: Table, events: seq<Event>, dev: nat)
    ensures |SlotsOf(Process(t, events).table, dev)| == |SlotsOf(t, dev)|
    ensures |Process(t, events).table.devs| == |t.devs|
  {
    hide Process;
  }

  // ----- when a wait returns

  /** For each packet of a wait that goes on as long as it can: is it read at the wait's own level, or by a
      wait nested in the handling of a request? */
  ghost function Own(t: Table, events: seq<Event>): (own: seq<bool>)
    ensures |own| <= |events|
    decreases |events|
  {
    if events == [] then []
    else
      match events[0]
      case PostedResponse => [true] + Own(t, events[1..])
      case Response(dev, reply) =>
        var s := Stored(t, dev, reply);
        if s.None? then [] else [true] + Own(s.value, events[1..])
      case Request(waits) =>
        var h := Handle(t, waits, events[1..]);
        if h.outcome.Returned? then
          [true] + seq(|events| - 1 - |h.outcome.rest|, _ => false) + Own(h.table, h.outcome.rest)
        else [true]
  }

  /** Packet b ends the processing at the wait's own level, and the answer has been read by then. */
  ghost predicate Ends(t: Table, dev: nat, i: nat, events: seq<Event>, b: nat)
    requires i < |SlotsOf(t, dev)|
  {
    && b < |Own(t, events)| && Own(t, events)[b] && !events[b].Request?
    && (t.devs[dev][i].valid || Answers(events[..b + 1], dev, t.devs[dev][i].id))
  }

  /** How many packets have been read. */
  ghost function Count(events: seq<Event>, rest: seq<Event>): int {
    |events| - |rest|
  }

  /** The wait returns with packet b, the first that ends it. */
  ghost predicate ReturnsAt(t: Table, dev: nat, i: nat, events: seq<Event>, b: int)
    requires i < |SlotsOf(t, dev)|
  {
    b >= 0 && Ends(t, dev, i, events, b) && forall a :: 0 <= a < b ==> !Ends(t, dev, i, events, a)
  }

  ghost predicate UntilExact(t: Table, dev: nat, i: nat, events: seq<Event>)
    requires i < |SlotsOf(t, dev)|
  {
    var r := Until(t, dev, i, events);
    if r.outcome.Returned? then ReturnsAt(t, dev, i, events, Count(events, r.outcome.rest) - 1)
    else forall b: nat :: b < |Own(t, events)| ==> !Ends(t, dev, i, events, b)
  }

  /** Reading on after the first n packets: ends there are ends here. */
  lemma EndsLater(t: Table, dev: nat, i: nat, events: seq<Event>, u: Table, n: nat, b: nat)
    requires i < |SlotsOf(t, dev)| && i < |SlotsOf(u, dev)|
    requires 0 < n <= |events| && n <= |Own(t, events)| && Own(t, events)[n..] == Own(u, events[n..])
    requires u.devs[dev][i].id == t.devs[dev][i].id
    requires u.devs[dev][i].valid <==> t.devs[dev][i].valid || Answers(events[..n], dev, t.devs[dev][i].id)
    ensures Ends(t, dev, i, events, n + b) <==> Ends(u, dev, i, events[n..], b)
  {
    hide Own;
    if n + b < |Own(t, events)| {
      assert Own(t, events)[n + b] == Own(u, events[n..])[b];
      assert events[..n + b + 1] == events[..n] + events[n..][..b + 1];
      AnswersMore(events[..n], events[n..][..b + 1], dev, t.devs[dev][i].id);
    }
  }

  /** If none of the first n packets ends the wait, it is decided by the rest. */
  lemma DecidedLater(t: Table, dev: nat, i: nat, events: seq<Event>, u: Table, n: nat)
    requires i < |SlotsOf(t, dev)| && i < |SlotsOf(u, dev)|
    requires 0 < n <= |events| && n <= |Own(t, events)| && Own(t, events)[n..] == Own(u, events[n..])
    requires u.devs[dev][i].id == t.devs[dev][i].id
    requires u.devs[dev][i].valid <==> t.devs[dev][i].valid || Answers(events[..n], dev, t.devs[dev][i].id)
    requires forall b :: 0 <= b < n ==> !Ends(t, dev, i, events, b)
    requires Until(t, dev, i, events) == Until(u, dev, i, events[n..]) && UntilExact(u, dev, i, events[n..])
    ensures UntilExact(t, dev, i, events)
  {
    hide Own, Until, Ends, SlotsOf, Answers;
    forall b: nat | b >= n ensures Ends(t, dev, i, events, b) <==> Ends(u, dev, i, events[n..], b - n) {
      EndsLater(t, dev, i, events, u, n, b - n);
    }
    var r := Until(t, dev, i, events);
    if r.outcome.Returned? {
      var b := Count(events[n..], r.outcome.rest) - 1;
      EndsLater(t, dev, i, events, u, n, b);
    }
  }

  lemma UntilCases(t: Table, dev: nat, i: nat, events: seq<Event>)
    requires i < |SlotsOf(t, dev)|
    ensures var r := Process(t, events);
            i < |SlotsOf(r.table, dev)| &&
            Until(t, dev, i, events) == if !r.outcome.Returned? then r
                                        else if r.table.devs[dev][i].valid then r.(index := i)
                                        else Until(r.table, dev, i, r.outcome.rest)
  {
    hide Process;
  }

  lemma SlotKept(t: Table, u: Table, dev: nat, i: nat, read: seq<Event>)
    requires i < |SlotsOf(t, dev)| && t.devs[dev][i].used && KeepsAll(t, u, read)
    ensures i < |SlotsOf(u, dev)| && u.devs[dev][i].used && u.devs[dev][i].id == t.devs[dev][i].id
    ensures u.devs[dev][i].valid <==> t.devs[dev][i].valid || Answers(read, dev, t.devs[dev][i].id)
  {
    assert KeepsSlot(t.devs[dev][i], u.devs[dev][i], dev, read);
  }

  /** An answer at the own level: the wait ends here if its answer has been read, and goes on otherwise. */
  lemma OwnLevel(t: Table, dev: nat, i: nat, events: seq<Event>, u: Table)
    requires i < |SlotsOf(t, dev)| && t.devs[dev][i].used && events != [] && !events[0].Request?
    requires KeepsAll(t, u, [events[0]]) && Own(t, events) == [true] + Own(u, events[1..])
    requires Process(t, events) == Result(Returned(events[1..]), u, 0)
    requires i < |SlotsOf(u, dev)| && UntilExact(u, dev, i, events[1..])
    ensures UntilExact(t, dev, i, events)
  {
    hide Process, Until, Own, Answers, KeepsTables, UntilExact;
    SlotKept(t, u, dev, i, [events[0]]);
    UntilCases(t, dev, i, events);
    assert events[..1] == [events[0]];
    assert Own(t, events)[1..] == Own(u, events[1..]);
    assert Ends(t, dev, i, events, 0) <==> u.devs[dev][i].valid;
    if u.devs[dev][i].valid {
      ReturnedNow(t, dev, i, events);
    } else {
      DecidedLater(t, dev, i, events, u, 1);
    }
  }

  lemma ReturnedNow(t: Table, dev: nat, i: nat, events: seq<Event>)
    requires i < |SlotsOf(t, dev)| && events != [] && Ends(t, dev, i, events, 0)
    requires Until(t, dev, i, events).outcome == Returned(events[1..])
    ensures UntilExact(t, dev, i, events)
  {
    hide Until, Ends;
  }

  /** A request whose handling returns ends nothing itself, and neither do the packets its waits read. */
  lemma HandledRequest(t: Table, dev: nat, i: nat, events: seq<Event>, h: Result)
    requires Consistent(t) && i < |SlotsOf(t, dev)| && t.devs[dev][i].used
    requires events != [] && events[0].Request? && h == Handle(t, events[0].waits, events[1..]) && h.outcome.Returned?
    requires i < |SlotsOf(h.table, dev)| && UntilExact(h.table, dev, i, h.outcome.rest)
    ensures UntilExact(t, dev, i, events)
  {
    hide Process, Until, Own, Handle, UntilExact, KeepsTables, Answers, Consistent;
    var rest, left := events[1..], h.outcome.rest;
    var n, id := |events| - |left|, t.devs[dev][i].id;
    OwnOfRequest(t, events);
    HandleKeeps(t, events[0].waits, rest);
    SlotKept(t, h.table, dev, i, Read(rest, left));
    assert events[n..] == left;
    assert events[..n] == [events[0]] + Read(rest, left);
    AnswersMore([events[0]], Read(rest, left), dev, id);
    NoAnswer(events[0], dev, id);
    ProcessCases(t, events);
    UntilCases(t, dev, i, events);
    UntilCases(h.table, dev, i, left);
    DecidedLater(t, dev, i, events, h.table, n);
  }

  lemma NoAnswer(e: Event, dev: nat, id: nat)
    requires !e.Response?
    ensures !Answers([e], dev, id)
  {
  }

  lemma OwnOfRequest(t: Table, events: seq<Event>)
    requires events != [] && events[0].Request?
    ensures var h := Handle(t, events[0].waits, events[1..]);
            if h.outcome.Returned? then
              var n := |events| - |h.outcome.rest|;
              && 0 < n <= |Own(t, events)| && Own(t, events)[n..] == Own(h.table, h.outcome.rest)
              && forall b :: 1 <= b < n ==> !Own(t, events)[b]
            else Own(t, events) == [true]
  {
    hide Handle;
    var h := Handle(t, events[0].waits, events[1..]);
    if h.outcome.Returned? {
      var n := |events| - |h.outcome.rest|;
      assert |[true] + seq(n - 1, _ => false)| == n;
    }
  }

  /** For any packets and any nesting: a wait returns if and only if some answer, its own or another, is read
      at its own level when its answer has been read, and then at the first such packet. */
  lemma {:induction false} UntilReturnsExactly(t: Table, dev: nat, i: nat, events: seq<Event>)
    requires Consistent(t) && i < |SlotsOf(t, dev)| && t.devs[dev][i].used
    ensures UntilExact(t, dev, i, events)
    decreases |events|
  {
    ProcessCases(t, events);
    UntilCases(t, dev, i, events);
    OwnCases(t, events);
    if events != [] {
      var rest := events[1..];
      match events[0]
      case PostedResponse =>
        KeepsNothing(t, [events[0]]);
        UntilReturnsExactly(t, dev, i, rest);
        OwnLevel(t, dev, i, events, t);
      case Response(d, reply) =>
        if Stored(t, d, reply).Some? {
          var u := Stored(t, d, reply).value;
          StoredKeeps(t, events[0]);
          SlotKept(t, u, dev, i, [events[0]]);
          UntilReturnsExactly(u, dev, i, rest);
          OwnLevel(t, dev, i, events, u);
        }
      case Request(waits) =>
        var h := Handle(t, waits, rest);
        if h.outcome.Returned? {
          HandleKeeps(t, waits, rest);
          SlotKept(t, h.table, dev, i, Read(rest, h.outcome.rest));
          UntilReturnsExactly(h.table, dev, i, h.outcome.rest);
          HandledRequest(t, dev, i, events, h);
        } else {
          OwnOfRequest(t, events);
        }
    }
    hide Consistent, Until, Process, Handle, Stored, Own, KeepsAll, Answers;
  }

  lemma OwnCases(t: Table, events: seq<Event>)
    ensures events == [] ==> Own(t, events) == []
    ensures events != [] && events[0].PostedResponse? ==> Own(t, events) == [true] + Own(t, events[1..])
    ensures events != [] && events[0].Response? ==>
              var s := Stored(t, events[0].dev, events[0].reply);
              Own(t, events) == if s.None? then [] else [true] + Own(s.value, events[1..])
  {
  }

  /** The answer is read, at any level, and then or later an answer is read at the own level. */
  ghost predicate Noticed(own: seq<bool>, events: seq<Event>, dev: nat, id: nat)
    requires |own| <= |events|
  {
    exists a, b :: 0 <= a <= b < |own| && IsAnswer(events[a], dev, id) && own[b] && !events[b].Request?
  }

  lemma EndsIfNoticed(t: Table, dev: nat, i: nat, events: seq<Event>) returns (b: nat)
    requires i < |SlotsOf(t, dev)| && Noticed(Own(t, events), events, dev, t.devs[dev][i].id)
    ensures Ends(t, dev, i, events, b)
  {
    hide Own;
    var id := t.devs[dev][i].id;
    var own := Own(t, events);
    var a, c :| 0 <= a <= c < |own| && IsAnswer(events[a], dev, id) && own[c] && !events[c].Request?;
    assert events[..c + 1][a] == events[a];
    b := c;
  }

  lemma NoticedIfEnds(t: Table, dev: nat, i: nat, events: seq<Event>, b: nat)
    requires i < |SlotsOf(t, dev)| && !t.devs[dev][i].valid && Ends(t, dev, i, events, b)
    ensures Noticed(Own(t, events), events, dev, t.devs[dev][i].id)
  {
    hide Own;
    var a :| 0 <= a < b + 1 && IsAnswer(events[..b + 1][a], dev, t.devs[dev][i].id);
    assert events[..b + 1][a] == events[a];
  }

  /** response_wait: with a free slot and a fresh ID, the wait returns if and only if its answer is noticed. */
  lemma WaitReturnsExactly(t: Table, dev: nat, id: nat, events: seq<Event>)
    requires Consistent(t) && id < t.nextId && Lookup(SlotsOf(t, dev), id) == |SlotsOf(t, dev)|
    requires FirstFree(SlotsOf(t, dev)) < |SlotsOf(t, dev)|
    ensures var i := FirstFree(t.devs[dev]);
            var taken := WithSlots(t, dev, Taken(t.devs[dev], i, id));
            var r := Wait(t, dev, id, events);
            && (r.outcome.Returned? <==> Noticed(Own(taken, events), events, dev, id))
            && (r.outcome.Returned? ==> ReturnsAt(taken, dev, i, events, Count(events, r.outcome.rest) - 1))
  {
    hide Consistent, Until, Own, Lookup, FirstFree, Ends, Noticed;
    var i := FirstFree(t.devs[dev]);
    TakenConsistent(t, dev, i, id);
    var taken := WithSlots(t, dev, Taken(t.devs[dev], i, id));
    UntilReturnsExactly(taken, dev, i, events);
    if Until(taken, dev, i, events).outcome.Returned? {
      NoticedIfEnds(taken, dev, i, events, Count(events, Until(taken, dev, i, events).outcome.rest) - 1);
    } else if Noticed(Own(taken, events), events, dev, id) {
      var b := EndsIfNoticed(taken, dev, i, events);
      InsideOwn(taken, dev, i, events, b);
    }
  }

  lemma InsideOwn(t: Table, dev: nat, i: nat, events: seq<Event>, b: nat)
    requires i < |SlotsOf(t, dev)| && Ends(t, dev, i, events, b)
    ensures b < |Own(t, events)|
  {
  }

  /** No request waits, and every answer is for a slot in use. */
  ghost predicate Plain(t: Table, events: seq<Event>) {
    forall e :: e in events ==>
      (e.Request? ==> e.waits == []) &&
      (e.Response? ==> Lookup(SlotsOf(t, e.dev), e.reply.id) < |SlotsOf(t, e.dev)|)
  }

  lemma {:induction false} LookupUnchanged(a: seq<Slot>, b: seq<Slot>, id: nat)
    requires |a| == |b| && forall i :: 0 <= i < |a| ==> a[i].used == b[i].used && a[i].id == b[i].id
    ensures Lookup(a, id) == Lookup(b, id)
  {
    if a != [] {
      LookupUnchanged(a[1..], b[1..], id);
    }
  }

  lemma StoredPlain(t: Table, events: seq<Event>, e: Event)
    requires Plain(t, events) && e in events && e.Response?
    ensures Stored(t, e.dev, e.reply).Some? && Plain(Stored(t, e.dev, e.reply).value, events)
  {
    var u := Stored(t, e.dev, e.reply).value;
    forall f | f in events && f.Response?
      ensures Lookup(SlotsOf(u, f.dev), f.reply.id) < |SlotsOf(u, f.dev)|
    {
      LookupUnchanged(SlotsOf(t, f.dev), SlotsOf(u, f.dev), f.reply.id);
    }
  }

  lemma {:induction false} PlainOwn(t: Table, events: seq<Event>)
    requires Plain(t, events)
    ensures |Own(t, events)| == |events| && forall b :: 0 <= b < |events| ==> Own(t, events)[b]
    decreases |events|
  {
    hide Stored, Lookup;
    if events != [] {
      var rest := events[1..];
      assert events[0] in events && forall e :: e in rest ==> e in events;
      if events[0].Response? {
        StoredPlain(t, events, events[0]);
        PlainOwn(Stored(t, events[0].dev, events[0].reply).value, rest);
      } else {
        PlainOwn(t, rest);
      }
    }
  }

  /** Without nested waits a wait returns if and only if its answer is among the packets. */
  lemma PlainReturnsExactly(t: Table, dev: nat, i: nat, events: seq<Event>)
    requires Consistent(t) && i < |SlotsOf(t, dev)| && t.devs[dev][i].used && !t.devs[dev][i].valid && Plain(t, events)
    ensures Until(t, dev, i, events).outcome.Returned? <==> Answers(events, dev, t.devs[dev][i].id)
  {
    hide Until, Own, Plain, Consistent, Lookup;
    UntilReturnsExactly(t, dev, i, events);
    PlainOwn(t, events);
    if k :| 0 <= k < |events| && IsAnswer(events[k], dev, t.devs[dev][i].id) {
      assert IsAnswer(events[..k + 1][k], dev, t.devs[dev][i].id);
      assert Ends(t, dev, i, events, k);
    }
  }

  // ----- a wait that misses its answer

  lemma LookupHere(t: Table, dev: nat, i: nat)
    requires Consistent(t) && i < |SlotsOf(t, dev)| && t.devs[dev][i].used
    ensures Lookup(SlotsOf(t, dev), t.devs[dev][i].id) == i
  {
    assert SoundSlots(t.devs[dev], t.nextId);
  }

  /** One answer for a waiting slot. */
  lemma AnswerRead(t: Table, dev: nat, i: nat, bytes: seq<Byte>, rest: seq<Event>)
    requires Consistent(t) && i < |SlotsOf(t, dev)| && t.devs[dev][i].used
    ensures var reply := Reply(t.devs[dev][i].id, bytes);
            var u := WithSlots(t, dev, Answered(t.devs[dev], i, reply));
            Consistent(u) && Process(t, [Response(dev, reply)] + rest) == Result(Returned(rest), u, 0)
  {
    var reply := Reply(t.devs[dev][i].id, bytes);
    var events := [Response(dev, reply)] + rest;
    assert events[1..] == rest;
    LookupHere(t, dev, i);
    ProcessCases(t, events);
    hide Consistent, Process;
    StoredKeeps(t, events[0]);
  }

  /** A wait that first reads the answer of another slot and then its own. */
  lemma TwoAnswers(t: Table, dev: nat, i: nat, inner: nat, j: nat, bytes: seq<Byte>, more: seq<Byte>)
    requires Consistent(t) && i < |SlotsOf(t, dev)| && j < |SlotsOf(t, inner)| && (dev != inner || i != j)
    requires t.devs[dev][i].used && t.devs[inner][j].used && !t.devs[inner][j].valid
    ensures var (r0, r1) := (Reply(t.devs[dev][i].id, bytes), Reply(t.devs[inner][j].id, more));
            var w := Until(t, inner, j, [Response(dev, r0), Response(inner, r1)]);
            w.outcome == Returned([]) && w.index == j && w.table.nextId == t.nextId &&
            w.table.devs[dev][i] == t.devs[dev][i].(valid := true, pkt := r0)
  {
    hide Consistent, Process, Until, SameShape;
    var r0, r1 := Reply(t.devs[dev][i].id, bytes), Reply(t.devs[inner][j].id, more);
    var e1, e0 := [Response(inner, r1)], [Response(dev, r0), Response(inner, r1)];
    var u := WithSlots(t, dev, Answered(t.devs[dev], i, r0));
    AnswerRead(t, dev, i, bytes, e1);
    AnswerRead(u, inner, j, more, []);
    assert [Response(dev, r0)] + e1 == e0 && e1 + [] == e1;
    UntilCases(t, inner, j, e0);
    UntilCases(u, inner, j, e1);
  }

  /** On any table with room: an answer read by a wait nested in the handling of a request is in the slot of
      the outer wait, and yet that wait goes on waiting. */
  lemma NestedAnswerUnnoticed(t: Table, dev: nat, inner: nat, id: nat, bytes: seq<Byte>, more: seq<Byte>)
    requires Consistent(t) && id < t.nextId && Lookup(SlotsOf(t, dev), id) == |SlotsOf(t, dev)|
    requires FirstFree(SlotsOf(t, dev)) < |SlotsOf(t, dev)|
    requires var taken := WithSlots(t, dev, Taken(t.devs[dev], FirstFree(t.devs[dev]), id));
             FirstFree(SlotsOf(taken, inner)) < |SlotsOf(taken, inner)|
    ensures var r := Wait(t, dev, id, [Request([inner]), Response(dev, Reply(id, bytes)),
                                       Response(inner, Reply(t.nextId, more))]);
            && r.outcome == Blocked
            && var s := r.table.devs[dev][FirstFree(t.devs[dev])];
               s.used && s.valid && s.id == id && s.pkt == Reply(id, bytes)
  {
    var i := FirstFree(t.devs[dev]);
    var taken := WithSlots(t, dev, Taken(t.devs[dev], i, id));
    var e1 := [Response(dev, Reply(id, bytes)), Response(inner, Reply(t.nextId, more))];
    TakenConsistent(t, dev, i, id);
    InnerRead(taken, dev, i, inner, bytes, more);
    UntilCases(taken, dev, i, [Request([inner])] + e1);
    assert [Request([inner])] + e1 == [Request([inner]), e1[0], e1[1]];
    hide Consistent, Process, Until, Lookup, FirstFree;
  }

  /** The packets of the missed answer, from the request on. */
  lemma InnerRead(t: Table, dev: nat, i: nat, inner: nat, bytes: seq<Byte>, more: seq<Byte>)
    requires Consistent(t) && i < |SlotsOf(t, dev)| && t.devs[dev][i].used
    requires FirstFree(SlotsOf(t, inner)) < |SlotsOf(t, inner)|
    ensures var r0 := Reply(t.devs[dev][i].id, bytes);
            var p := Process(t, [Request([inner])] + [Response(dev, r0), Response(inner, Reply(t.nextId, more))]);
            p.outcome == Blocked && SameShape(p.table, t) &&
            p.table.devs[dev][i] == t.devs[dev][i].(valid := true, pkt := r0)
  {
    var r0 := Reply(t.devs[dev][i].id, bytes);
    var e1 := [Response(dev, r0), Response(inner, Reply(t.nextId, more))];
    var j, t' := FirstFree(t.devs[inner]), t.(nextId := t.nextId + 1);
    var both := WithSlots(t', inner, Taken(t'.devs[inner], j, t.nextId));
    NextFits(t, inner);
    TakenConsistent(t', inner, j, t.nextId);
    TwoAnswers(both, dev, i, inner, j, bytes, more);
    var w := Wait(t', inner, t.nextId, e1);
    assert w == Until(both, inner, j, e1);
    ProcessCases(t, [Request([inner])] + e1);
    assert ([Request([inner])] + e1)[1..] == e1;
    HandleOne(t, inner, e1);
    var freed := WithSlots(w.table, inner, Freed(w.table.devs[inner], j));
    ProcessCases(freed, []);
    hide Consistent, Process, Until, Lookup, FirstFree, Handle, Wait;
  }

  lemma HandleOne(t: Table, dev: nat, events: seq<Event>)
    ensures var w := Wait(t.(nextId := t.nextId + 1), dev, t.nextId, events);
            Handle(t, [dev], events) ==
            if w.outcome.Returned?
            then Result(Returned(w.outcome.rest), WithSlots(w.table, dev, Freed(w.table.devs[dev], w.index)), 0) else w
  {
    hide Wait;
    assert [dev][1..] == [];
  }
}
