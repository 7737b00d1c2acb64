/** The AXI4 handshake checker's accounting of write addresses, last data beats and write responses,
    which may arrive in any order. */
module Handshakes {
  import opened Arithmetic
  import opened MachineTypes

  datatype Address = Address(id: nat, beats: nat, hasData: bool)

  /** Everything seen on the three write channels since reset. */
  datatype History = History(
    addresses: seq<nat>,   // IDs of the addresses of writes with data, in order
    noData: seq<nat>,      // IDs of the addresses of writes without
    promised: nat,         // beats the addresses announce
    seen: nat,             // data handshakes
    lasts: nat,            // of them with wlast
    answered: seq<nat>)    // responses whose ID was awaited

  /** IDs of the writes that have both their address and all their data: wlast number k belongs to
      address number k. */
  function Complete(h: History): seq<nat> {
    h.addresses[..Min(|h.addresses|, h.lasts)]
  }

  /** Writes that call for a response: the completed ones and those without data. */
  function Owed(h: History): multiset<nat> {
    multiset(Complete(h)) + multiset(h.noData)
  }

  /** Responses due: those owed less those seen. */
  function Due(h: History): multiset<nat> {
    Owed(h) - multiset(h.answered)
  }

  function Addressed(h: History, a: Address): History {
    if a.hasData then h.(addresses := h.addresses + [a.id], promised := h.promised + a.beats)
    else h.(noData := h.noData + [a.id])
  }

  function Transferred(h: History, last: bool): History {
    h.(seen := h.seen + 1, lasts := if last then h.lasts + 1 else h.lasts)
  }

  /** A response nobody waits for is ignored. */
  function Responded(h: History, id: nat): History {
    if id in Due(h) then h.(answered := h.answered + [id]) else h
  }

  function After(h: History, aw: Option<Address>, w: Option<bool>, b: Option<nat>): History {
    var h1 := if aw.Some? then Addressed(h, aw.value) else h;
    var h2 := if w.Some? then Transferred(h1, w.value) else h1;
    if b.Some? then Responded(h2, b.value) else h2
  }

  /** No response is counted that was not due. */
  ghost predicate Sound(h: History) {
    multiset(h.answered) <= Owed(h)
  }

  /** A new address completes the oldest last beat that has none yet. */
  lemma CompleteAddressed(h: History, a: Address)
    requires a.hasData
    ensures Complete(Addressed(h, a)) == if h.lasts > |h.addresses| then Complete(h) + [a.id] else Complete(h)
  {
  }

  /** A last beat completes the oldest address that waits for one. */
  lemma CompleteTransferred(h: History)
    ensures Complete(Transferred(h, true)) ==
            if |h.addresses| > h.lasts then Complete(h) + [h.addresses[h.lasts]] else Complete(h)
  {
  }

  lemma MoreOwed(h: History, h': History, id: nat)
    requires Sound(h) && h'.answered == h.answered && Owed(h') == Owed(h) + multiset{id}
    ensures Sound(h') && Due(h') == Due(h) + multiset{id}
  {
    hide Owed;
  }

  lemma AddressedDue(h: History, a: Address)
    requires Sound(h)
    ensures var h' := Addressed(h, a);
            Sound(h') && Due(h') == if a.hasData && h.lasts <= |h.addresses| then Due(h) else Due(h) + multiset{a.id}
  {
    if a.hasData {
      CompleteAddressed(h, a);
    }
    if !a.hasData || h.lasts > |h.addresses| {
      hide Complete;
      MoreOwed(h, Addressed(h, a), a.id);
    }
  }

  lemma TransferredDue(h: History, last: bool)
    requires Sound(h)
    ensures var h' := Transferred(h, last);
            Sound(h') && Due(h') == if last && |h.addresses| > h.lasts then Due(h) + multiset{h.addresses[h.lasts]}
                else Due(h)
  {
    if last {
      CompleteTransferred(h);
      if |h.addresses| > h.lasts {
        hide Complete;
        MoreOwed(h, Transferred(h, last), h.addresses[h.lasts]);
      }
    }
  }

  lemma RespondedDue(h: History, id: nat)
    requires Sound(h)
    ensures var h' := Responded(h, id);
            Sound(h') && Due(h') == if id in Due(h) then Due(h) - multiset{id} else Due(h)
  {
    assert Owed(Responded(h, id)) == Owed(h);
    hide Owed;
    var d := Due(h);
    if id in d {
      assert multiset(h.answered + [id]) == multiset(h.answered) + multiset{id};
    }
  }

  lemma SameLists(h: History, id: nat)
    ensures var h' := Responded(h, id);
            h'.addresses == h.addresses && h'.lasts == h.lasts && h'.promised == h.promised && h'.seen == h.seen
  {
  }

  lemma RemovedOne(ids: seq<nat>, i: nat)
    requires i < |ids|
    ensures multiset(ids[..i] + ids[i + 1..]) == multiset(ids) - multiset{ids[i]}
  {
    assert ids == ids[..i] + [ids[i]] + ids[i + 1..];
  }

  // ----- the clock edges themselves

  /** The handshakes of one clock edge. */
  datatype Edge = Edge(aw: Option<Address>, w: Option<bool>, b: Option<nat>)

  function Last(edges: seq<Edge>): Edge
    requires edges != []
  {
    edges[|edges| - 1]
  }

  function Before(edges: seq<Edge>): seq<Edge>
    requires edges != []
  {
    edges[..|edges| - 1]
  }

  /** IDs of the addresses seen, of writes with data or of those without, in order. */
  function AddressIds(edges: seq<Edge>, hasData: bool): seq<nat> {
    if edges == [] then []
    else
      AddressIds(Before(edges), hasData) +
      if Last(edges).aw.Some? && Last(edges).aw.value.hasData == hasData then [Last(edges).aw.value.id] else []
  }

  /** Beats announced by the addresses of writes with data. */
  function Announced(edges: seq<Edge>): nat {
    if edges == [] then 0
    else
      Announced(Before(edges)) +
      if Last(edges).aw.Some? && Last(edges).aw.value.hasData then Last(edges).aw.value.beats else 0
  }

  /** Data handshakes, and those with wlast. */
  function DataCount(edges: seq<Edge>): nat {
    if edges == [] then 0 else DataCount(Before(edges)) + if Last(edges).w.Some? then 1 else 0
  }

  function LastCount(edges: seq<Edge>): nat {
    if edges == [] then 0 else LastCount(Before(edges)) + if Last(edges).w == Some(true) then 1 else 0
  }

  /** IDs of the writes that have all they need for a response. */
  function Finished(edges: seq<Edge>): multiset<nat> {
    multiset(AddressIds(edges, true)[..Min(|AddressIds(edges, true)|, LastCount(edges))]) +
    multiset(AddressIds(edges, false))
  }

  /** The responses that answered such a write. */
  function Accounted(edges: seq<Edge>): seq<nat> {
    if edges == [] then []
    else
      var before := Accounted(Before(edges));
      if Last(edges).b.Some? && multiset(before)[Last(edges).b.value] < Finished(edges)[Last(edges).b.value]
      then before + [Last(edges).b.value] else before
  }

  /** The history is that of these edges, but for the answers. */
  ghost predicate RecordsLists(h: History, edges: seq<Edge>) {
    && h.addresses == AddressIds(edges, true) && h.noData == AddressIds(edges, false)
    && h.promised == Announced(edges) && h.seen == DataCount(edges) && h.lasts == LastCount(edges)
  }

  ghost predicate Records(h: History, edges: seq<Edge>) {
    RecordsLists(h, edges) && h.answered == Accounted(edges)
  }

  /** The address and the data beat of an edge. */
  function Moved(h: History, e: Edge): History {
    var h1 := if e.aw.Some? then Addressed(h, e.aw.value) else h;
    if e.w.Some? then Transferred(h1, e.w.value) else h1
  }

  lemma ListsNext(h: History, edges: seq<Edge>, e: Edge)
    requires RecordsLists(h, edges)
    ensures RecordsLists(Moved(h, e), edges + [e]) && Moved(h, e).answered == h.answered
  {
    var more := edges + [e];
    assert Before(more) == edges && Last(more) == e;
    hide Before, Last;
    assert h.addresses + [] == h.addresses && h.noData + [] == h.noData;
  }

  lemma DueIs(h: History, id: nat)
    ensures id in Due(h) <==> multiset(h.answered)[id] < Owed(h)[id]
  {
    hide Owed;
  }

  lemma RecordsNext(h: History, edges: seq<Edge>, e: Edge)
    requires Records(h, edges)
    ensures Records(After(h, e.aw, e.w, e.b), edges + [e])
  {
    hide RecordsLists, Due, Moved;
    var more := edges + [e];
    assert Before(more) == edges && Last(more) == e;
    ListsNext(h, edges, e);
    AfterIs(h, e);
    OwedIs(Moved(h, e), more);
    if e.b.Some? {
      DueIs(Moved(h, e), e.b.value);
      AnsweredSame(Moved(h, e), e.b.value, more);
    }
    hide Finished, Owed, Before, Last;
  }

  lemma AfterIs(h: History, e: Edge)
    ensures After(h, e.aw, e.w, e.b) == if e.b.Some? then Responded(Moved(h, e), e.b.value) else Moved(h, e)
  {
  }

  lemma OwedIs(h: History, edges: seq<Edge>)
    requires RecordsLists(h, edges)
    ensures Owed(h) == Finished(edges)
  {
  }

  lemma AnsweredSame(h: History, id: nat, edges: seq<Edge>)
    requires RecordsLists(h, edges)
    ensures RecordsLists(Responded(h, id), edges)
  {
    hide Due;
  }

  class Checker {
    var wd: int
    var b: int
    var aw: int
    var wlast: int
    var awids: seq<nat>
    var bids: seq<nat>
    ghost var history: History
    ghost var edges: seq<Edge>   // all clock edges since reset

    /** The counters and lists are functions of the history. */
    ghost predicate Valid()
      reads this`wd, this`b, this`aw, this`wlast, this`awids, this`bids, this`history
    {
      var h := history;
      && Sound(h)
      && wd == h.promised - h.seen
      && awids == h.addresses[Min(|h.addresses|, h.lasts)..]
      && aw == |awids|
      && wlast == h.lasts - Min(|h.addresses|, h.lasts)
      && b == |bids|
      && multiset(bids) == Due(h)
    }

    constructor ()
      ensures Tracked() && edges == [] && history == History([], [], 0, 0, 0, [])
    {
      wd, b, aw, wlast, awids, bids, history := 0, 0, 0, 0, [], [], History([], [], 0, 0, 0, []);
      edges := [];
    }

    /** Addresses waiting for data and last beats waiting for an address never exist at the same time. */
    lemma NeverBoth()
      requires Valid()
      ensures aw == 0 || wlast == 0
      ensures aw >= 0 && wlast >= 0 && b >= 0
    {
    }

    method AddressSeen(a: Address)
      requires Valid()
      modifies this
      ensures edges == old(edges)
      ensures Valid() && history == Addressed(old(history), a)
    {
      hide Due, Sound, Owed, Complete;
      AddressedDue(history, a);
      assert multiset(bids + [a.id]) == multiset(bids) + multiset{a.id};
      history := Addressed(history, a);
      if !a.hasData {
        b := b + 1;
        bids := bids + [a.id];
      } else {
        wd := wd + a.beats;
        if wlast > aw {
          b := b + 1;
          wlast := wlast - 1;
          bids := bids + [a.id];
        } else {
          aw := aw + 1;
          awids := awids + [a.id];
        }
      }
    }

    method DataSeen(last: bool)
      requires Valid()
      modifies this
      ensures edges == old(edges)
      ensures Valid() && history == Transferred(old(history), last)
    {
      hide Due, Sound, Owed, Complete;
      TransferredDue(history, last);
      history := Transferred(history, last);
      wd := wd - 1;
      if last {
        if aw > wlast {
          b := b + 1;
          aw := aw - 1;
          bids := bids + [awids[0]];
          awids := awids[1..];
        } else {
          wlast := wlast + 1;
        }
      }
    }

    method ResponseSeen(id: nat)
      requires Valid()
      modifies this
      ensures edges == old(edges)
      ensures Valid() && history == Responded(old(history), id)
    {
      hide Due, Sound, Owed, Complete;
      RespondedDue(history, id);
      SameLists(history, id);
      history := Responded(history, id);
      var i := 0;
      while i < |bids| && bids[i] != id
        invariant 0 <= i <= |bids|
        invariant id !in bids[..i]
      {
        i := i + 1;
      }
      if i < |bids| {
        assert id in multiset(bids);
        RemovedOne(bids, i);
        bids := bids[..i] + bids[i + 1..];
        b := b - 1;
      } else {
        assert bids[..i] == bids && id !in multiset(bids);
      }
    }

    /** The history is that of the clock edges. */
    ghost predicate Tracked()
      reads this
    {
      Valid() && Records(history, edges)
    }

    /** One clock edge: the address first, then the data beat, then the response. */
    method Clock(awHandshake: Option<Address>, wHandshake: Option<bool>, bHandshake: Option<nat>)
      requires Tracked()
      modifies this
      ensures Tracked() && history == After(old(history), awHandshake, wHandshake, bHandshake)
      ensures edges == old(edges) + [Edge(awHandshake, wHandshake, bHandshake)]
      ensures wd == Announced(edges) - DataCount(edges)
    {
      hide Valid, Records, After, Announced, DataCount;
      RecordsNext(history, edges, Edge(awHandshake, wHandshake, bHandshake));
      Handle(awHandshake, wHandshake, bHandshake);
      edges := edges + [Edge(awHandshake, wHandshake, bHandshake)];
      Accounts();
    }

    method Handle(awHandshake: Option<Address>, wHandshake: Option<bool>, bHandshake: Option<nat>)
      requires Valid()
      modifies this
      ensures Valid() && history == After(old(history), awHandshake, wHandshake, bHandshake) && edges == old(edges)
    {
      hide Valid, Addressed, Transferred, Responded;
      if awHandshake.Some? {
        AddressSeen(awHandshake.value);
      }
      if wHandshake.Some? {
        DataSeen(wHandshake.value);
      }
      if bHandshake.Some? {
        ResponseSeen(bHandshake.value);
      }
    }

    /** What the counters and lists say about the clock edges since reset: beats outstanding, addresses and
        last beats that wait for each other, and the responses due. */
    lemma Accounts()
      requires Tracked()
      ensures wd == Announced(edges) - DataCount(edges)
      ensures var (a, l) := (|AddressIds(edges, true)|, LastCount(edges));
              aw == (if a > l then a - l else 0) && wlast == (if l > a then l - a else 0)
      ensures awids == AddressIds(edges, true)[Min(|AddressIds(edges, true)|, LastCount(edges))..]
      ensures multiset(bids) == Finished(edges) - multiset(Accounted(edges)) && b == |bids|
      ensures multiset(Accounted(edges)) <= Finished(edges)
    {
    }

    /** What is expected at the next clock edge: an address when more beats came than were announced, data when
        fewer did, and a response when one is due. */
    method Expected() returns (awvalid: bool, wvalid: bool, bvalid: bool)
      requires Tracked()
      ensures awvalid <==> DataCount(edges) > Announced(edges)
      ensures wvalid <==> DataCount(edges) < Announced(edges)
      ensures bvalid <==> exists id :: multiset(Accounted(edges))[id] < Finished(edges)[id]
    {
      Accounts();
      hide Finished, Accounted, AddressIds, LastCount;
      awvalid, wvalid, bvalid := wd < 0, wd > 0, b > 0;
      ghost var due := Finished(edges) - multiset(Accounted(edges));
      if bvalid {
        assert bids[0] in multiset(bids);
        assert due[bids[0]] > 0;
      } else {
        assert bids == [] && due == multiset{};
        assert forall id :: due[id] == 0;
      }
    }
  }
}
