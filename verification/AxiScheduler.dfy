/** The axi2tlm bridge's transaction scheduling: an address phase, a write data phase, one thread per
    active transaction ID and a response phase, all sharing one list. */
module AxiScheduler {
  import opened MachineTypes

  /** An accepted transaction; `serial` tells apart transactions that look alike. */
  datatype Tx = Tx(serial: nat, id: nat, address: nat, beats: nat)

  /** Where the thread of an ID is: in front of the wait guard, or inside b_transport. */
  datatype Phase = Waiting(tx: Tx) | InFlight(tx: Tx)

  const MAX_OUTSTANDING := 16
  const FIFO_DEPTH := 16
  const PAGE := 4096

  datatype State = State(
    ready: bool,             // the registered arready or awready
    count: nat,              // m_numReadTransactions or m_numWriteTransactions
    data: seq<Tx>,           // write transactions still waiting for data
    received: nat,           // beats received of the first of them
    list: seq<Tx>,           // rtList or wtList
    threads: map<nat, Phase>,
    fifo: seq<Tx>,
    held: Option<Tx>,        // in the response phase
    accepted: seq<Tx>,       // histories
    issued: seq<Tx>,
    answered: seq<Tx>)

  datatype Request = Request(id: nat, address: nat, beats: nat)

  datatype Step =
    | Address(request: Option<Request>)   // a clock edge of the address channel
    | Beat                                // a write data beat
    | Issue(id: nat)                      // the guard lets the thread's transaction through
    | Return(id: nat)                     // b_transport comes back
    | Take                                // the response phase takes the next answer
    | Give                                // and hands it over

  predicate SamePage(t: Tx, u: Tx) {
    t.address / PAGE == u.address / PAGE
  }

  /** The first transaction with an ID. */
  function GetFirst(list: seq<Tx>, id: nat): (r: Option<Tx>)
  {
    if list == [] then None
    else if list[0].id == id then Some(list[0])
    else GetFirst(list[1..], id)
  }

  /** A transaction in front of tx touches the same 4K page. */
  predicate Overlapping(list: seq<Tx>, tx: Tx) {
    list != [] && list[0] != tx && (SamePage(list[0], tx) || Overlapping(list[1..], tx))
  }

  function Without(list: seq<Tx>, tx: Tx): seq<Tx> {
    if list == [] then []
    else if list[0] == tx then Without(list[1..], tx)
    else [list[0]] + Without(list[1..], tx)
  }

  /** A transaction joins the list; a thread is started when its ID has none. The thread's first look
      finds this very transaction, as no other thread removes transactions with its ID. */
  function Enter(s: State, tx: Tx): State {
    s.(list := s.list + [tx],
       threads := if GetFirst(s.list, tx.id).Some? then s.threads else s.threads[tx.id := Waiting(tx)])
  }

  function Accept(s: State, writes: bool, r: Request): State {
    var tx := Tx(|s.accepted|, r.id, r.address, r.beats);
    var s' := s.(count := s.count + 1, ready := s.count + 1 < MAX_OUTSTANDING, accepted := s.accepted + [tx]);
    if writes then s'.(data := s'.data + [tx]) else Enter(s', tx)
  }

  /** Handled by the response phase at most one at a time. */
  function Holding(s: State): nat {
    if s.held.Some? then 1 else 0
  }

  predicate Enabled(s: State, st: Step) {
    match st
    case Address(_) => true
    case Beat => s.data != []
    case Issue(id) => id in s.threads && s.threads[id].Waiting? && !Overlapping(s.list, s.threads[id].tx)
    case Return(id) => id in s.threads && s.threads[id].InFlight?
    case Take => s.held.None? && s.fifo != []
    case Give => s.held.Some?
  }

  function Taken(s: State): State
    requires s.fifo != []
  {
    s.(held := Some(s.fifo[0]), fifo := s.fifo[1..])
  }

  function Given(s: State): State
    requires s.held.Some?
  {
    s.(held := None, count := if s.count == 0 then 0 else s.count - 1, answered := s.answered + [s.held.value])
  }

  function Apply(s: State, writes: bool, st: Step): State
    requires Enabled(s, st)
  {
    match st
    case Address(request) =>
      if request.Some? && s.ready then Accept(s, writes, request.value)
      else s.(ready := s.count < MAX_OUTSTANDING)
    case Beat =>
      if s.received + 1 < s.data[0].beats then s.(received := s.received + 1)
      else Enter(s.(data := s.data[1..], received := 0), s.data[0])
    case Issue(id) =>
      var tx := s.threads[id].tx;
      s.(threads := s.threads[id := InFlight(tx)], issued := s.issued + [tx])
    case Return(id) =>
      var tx := s.threads[id].tx;
      var list := Without(s.list, tx);
      var next := GetFirst(list, id);
      s.(list := list, fifo := s.fifo + [tx],
         threads := if next.Some? then s.threads[id := Waiting(next.value)] else s.threads - {id})
    case Take => Taken(s)
    case Give => Given(s)
  }

  const START := State(true, 0, [], 0, [], map[], [], None, [], [], [])

  // ----- the invariant

  ghost predicate Sorted(ts: seq<Tx>) {
    forall i, j :: 0 <= i < j < |ts| ==> ts[i].serial < ts[j].serial
  }

  /** Serial numbers are positions among the accepted; list and data are in that order. */
  ghost predicate Ordered(s: State) {
    && (forall k :: 0 <= k < |s.accepted| ==> s.accepted[k].serial == k)
    && Sorted(s.list + s.data)
    && (forall tx :: tx in s.list + s.data ==> tx in s.accepted)
  }

  /** One thread for each ID in the list, working on the first transaction with its ID. */
  ghost predicate Threaded(s: State) {
    && (forall id :: id in s.threads <==> GetFirst(s.list, id).Some?)
    && (forall id :: id in s.threads ==> GetFirst(s.list, id) == Some(s.threads[id].tx))
  }

  /** A transaction being issued has none of its page in front of it. */
  ghost predicate PagesApart(s: State) {
    forall id :: id in s.threads && s.threads[id].InFlight? ==> !Overlapping(s.list, s.threads[id].tx)
  }

  /** The outstanding count is what is in the bridge, and at most sixteen. */
  ghost predicate Counted(s: State) {
    && s.count == |s.data| + |s.list| + |s.fifo| + Holding(s)
    && s.count <= MAX_OUTSTANDING
    && (s.ready ==> s.count < MAX_OUTSTANDING)
  }

  function Held(s: State): multiset<Tx> {
    if s.held.Some? then multiset{s.held.value} else multiset{}
  }

  /** Every accepted transaction is in exactly one place. */
  ghost predicate Conserved(s: State) {
    multiset(s.accepted) == multiset(s.data) + multiset(s.list) + multiset(s.fifo) + Held(s) + multiset(s.answered)
  }

  ghost predicate Unissued(s: State, tx: Tx) {
    tx in s.data || (tx in s.list && !(tx.id in s.threads && s.threads[tx.id] == InFlight(tx)))
  }

  /** Each accepted transaction is issued once, unless it is still waiting to be. */
  ghost predicate IssuedOnce(s: State) {
    && (forall i, j :: 0 <= i < j < |s.issued| ==> s.issued[i] != s.issued[j])
    && (forall tx :: tx in s.issued <==> tx in s.accepted && !Unissued(s, tx))
  }

  predicate Conflict(t: Tx, u: Tx) {
    t.id == u.id || SamePage(t, u)
  }

  /** Transactions with the same ID or page are issued in the order they were accepted. */
  ghost predicate IssuedInOrder(s: State) {
    && (forall i, j :: 0 <= i < j < |s.issued| && Conflict(s.issued[i], s.issued[j]) ==>
          s.issued[i].serial < s.issued[j].serial)
    && (forall tx, u :: tx in s.issued && Unissued(s, u) && Conflict(tx, u) ==> tx.serial < u.serial)
  }

  // ----- lists

  lemma {:induction false} FirstIs(list: seq<Tx>, id: nat)
    ensures var r := GetFirst(list, id);
            && (r.Some? <==> exists u :: u in list && u.id == id)
            && (r.Some? ==> r.value in list && r.value.id == id)
            && (r.Some? && Sorted(list) ==> forall u :: u in list && u.id == id ==> r.value.serial <= u.serial)
  {
    if list != [] {
      FirstIs(list[1..], id);
      assert forall u :: u in list <==> u == list[0] || u in list[1..];
    }
  }

  lemma {:induction false} FirstAppend(list: seq<Tx>, tx: Tx, id: nat)
    ensures GetFirst(list + [tx], id) ==
            if GetFirst(list, id).Some? then GetFirst(list, id) else if tx.id == id then Some(tx) else None
  {
    if list == [] {
      assert [tx][1..] == [];
      assert list + [tx] == [tx];
    } else {
      assert (list + [tx])[1..] == list[1..] + [tx];
      FirstAppend(list[1..], tx, id);
    }
  }

  lemma {:induction false} FirstWithout(list: seq<Tx>, tx: Tx, id: nat)
    requires id != tx.id
    ensures GetFirst(Without(list, tx), id) == GetFirst(list, id)
  {
    if list != [] {
      FirstWithout(list[1..], tx, id);
      if list[0] != tx {
        assert Without(list, tx)[1..] == Without(list[1..], tx);
      }
    }
  }

  lemma {:induction false} OverlapIs(list: seq<Tx>, tx: Tx)
    requires Sorted(list) && tx in list
    ensures Overlapping(list, tx) <==>
            exists u :: u in list && u.serial < tx.serial && u.address / 4096 == tx.address / 4096
  {
    HeadIsLeast(list);
    if list[0] != tx {
      OverlapIs(list[1..], tx);
    }
  }

  lemma {:induction false} WithoutMembers(list: seq<Tx>, tx: Tx)
    ensures forall u :: u in Without(list, tx) <==> u in list && u != tx
    ensures tx !in list ==> Without(list, tx) == list
  {
    if list != [] {
      WithoutMembers(list[1..], tx);
      assert forall u :: u in list <==> u == list[0] || u in list[1..];
    }
  }

  lemma {:induction false} WithoutSorted(list: seq<Tx>, tx: Tx)
    requires Sorted(list)
    ensures Sorted(Without(list, tx))
  {
    if list != [] {
      WithoutSorted(list[1..], tx);
      HeadIsLeast(list);
      WithoutMembers(list[1..], tx);
      var rest := Without(list[1..], tx);
      assert forall k :: 0 <= k < |rest| ==> rest[k] in list[1..];
    }
  }

  lemma {:induction false} WithoutOne(list: seq<Tx>, tx: Tx)
    requires Sorted(list) && tx in list
    ensures |Without(list, tx)| == |list| - 1 && multiset(list) == multiset(Without(list, tx)) + multiset{tx}
  {
    HeadIsLeast(list);
    assert list == [list[0]] + list[1..];
    if list[0] == tx {
      WithoutMembers(list[1..], tx);
    } else {
      WithoutOne(list[1..], tx);
    }
  }

  lemma HeadIsLeast(list: seq<Tx>)
    requires Sorted(list) && list != []
    ensures Sorted(list[1..])
    ensures forall u :: u in list <==> u == list[0] || u in list[1..]
    ensures forall u :: u in list[1..] ==> list[0].serial < u.serial
  {
    forall u | u in list[1..] ensures list[0].serial < u.serial {
      var k :| 0 <= k < |list[1..]| && list[1..][k] == u;
      assert list[k + 1] == u;
    }
  }

  // ----- one step keeps the invariant

  lemma ThreadFirst(s: State, id: nat)
    requires Threaded(s) && id in s.threads
    ensures s.threads[id].tx in s.list && s.threads[id].tx.id == id
    ensures Sorted(s.list) ==> forall u :: u in s.list && u.id == id ==> s.threads[id].tx.serial <= u.serial
  {
    FirstIs(s.list, id);
  }

  lemma EnterThreaded(s: State, tx: Tx)
    requires Threaded(s)
    ensures Threaded(Enter(s, tx))
  {
    forall id: nat ensures GetFirst(s.list + [tx], id) ==
      if GetFirst(s.list, id).Some? then GetFirst(s.list, id) else if tx.id == id then Some(tx) else None
    {
      FirstAppend(s.list, tx, id);
    }
  }

  lemma {:induction false} OverlapAppend(list: seq<Tx>, tx: Tx, t: Tx)
    requires t in list
    ensures Overlapping(list + [tx], t) == Overlapping(list, t)
  {
    assert (list + [tx])[1..] == list[1..] + [tx];
    if list[0] != t {
      OverlapAppend(list[1..], tx, t);
    }
  }

  lemma EnterPages(s: State, tx: Tx)
    requires Threaded(s) && PagesApart(s)
    ensures PagesApart(Enter(s, tx))
  {
    var s' := Enter(s, tx);
    forall id | id in s'.threads && s'.threads[id].InFlight? ensures !Overlapping(s'.list, s'.threads[id].tx) {
      ThreadFirst(s, id);
      OverlapAppend(s.list, tx, s.threads[id].tx);
    }
  }

  lemma EnterUnissued(s: State, tx: Tx)
    requires Threaded(s) && tx !in s.list
    ensures forall u :: Unissued(Enter(s, tx), u) <==> Unissued(s, u) || u == tx
  {
    forall u ensures Unissued(Enter(s, tx), u) <==> Unissued(s, u) || u == tx {
      if u.id in s.threads {
        ThreadFirst(s, u.id);
      }
    }
  }

  lemma AcceptUnissued(s: State, writes: bool, r: Request)
    requires Ordered(s) && Threaded(s)
    ensures var tx := Tx(|s.accepted|, r.id, r.address, r.beats);
            tx !in s.accepted && forall u :: Unissued(Accept(s, writes, r), u) <==> Unissued(s, u) || u == tx
  {
    var tx := Tx(|s.accepted|, r.id, r.address, r.beats);
    if !writes {
      assert tx !in s.list + s.data;
      var s' := s.(count := s.count + 1, ready := s.count + 1 < MAX_OUTSTANDING, accepted := s.accepted + [tx]);
      EnterUnissued(s', tx);
      assert forall u :: Unissued(s', u) <==> Unissued(s, u);
    }
  }

  // What is where: order, threads, pages, count and conservation.
  ghost predicate Placed(s: State) {
    Ordered(s) && Threaded(s) && PagesApart(s) && Counted(s) && Conserved(s)
  }

  function Fresh(s: State, r: Request): Tx {
    Tx(|s.accepted|, r.id, r.address, r.beats)
  }

  lemma AcceptOrdered(s: State, writes: bool, r: Request)
    requires Ordered(s) && (writes || s.data == [])
    ensures Ordered(Accept(s, writes, r))
  {
    var s', tx := Accept(s, writes, r), Fresh(s, r);
    var old' := s.list + s.data;
    assert s'.list + s'.data == old' + [tx];
    forall i, j | 0 <= i < j < |old'| + 1 ensures (old' + [tx])[i].serial < (old' + [tx])[j].serial {
      assert old'[i] in s.accepted;
    }
  }

  lemma AcceptConserved(s: State, writes: bool, r: Request)
    requires Conserved(s)
    ensures Conserved(Accept(s, writes, r))
  {
  }

  lemma AcceptPlaced(s: State, writes: bool, r: Request)
    requires Placed(s) && s.ready && (writes || s.data == [])
    ensures Placed(Accept(s, writes, r))
  {
    AcceptOrdered(s, writes, r);
    AcceptConserved(s, writes, r);
    hide Ordered, Conserved;
    if !writes {
      EnterThreaded(s, Fresh(s, r));
      EnterPages(s, Fresh(s, r));
    }
    AcceptShape(s, writes, r);
    hide Accept, Enter;
  }

  lemma AcceptShape(s: State, writes: bool, r: Request)
    ensures var s', e := Accept(s, writes, r), Enter(s, Fresh(s, r));
            && s'.list == (if writes then s.list else e.list) && s'.threads == (if writes then s.threads else e.threads)
            && s'.count == s.count + 1 && s'.ready == (s'.count < MAX_OUTSTANDING)
            && |s'.data| + |s'.list| == |s.data| + |s.list| + 1 && s'.fifo == s.fifo && s'.held == s.held
  {
  }

  function FirstDone(s: State): State
    requires s.data != []
  {
    s.(data := s.data[1..], received := 0)
  }

  lemma EnterOrdered(s: State)
    requires Ordered(s) && s.data != []
    ensures Ordered(Enter(FirstDone(s), s.data[0]))
  {
    assert s.data == [s.data[0]] + s.data[1..];
    assert s.list + [s.data[0]] + s.data[1..] == s.list + s.data;
  }

  lemma EnterConserved(s: State)
    requires Conserved(s) && s.data != []
    ensures Conserved(Enter(FirstDone(s), s.data[0]))
  {
    assert s.data == [s.data[0]] + s.data[1..];
  }

  lemma EnterCounted(s: State)
    requires Counted(s) && s.data != []
    ensures Counted(Enter(FirstDone(s), s.data[0]))
  {
    hide GetFirst;
  }

  lemma SameThreads(s: State, s': State)
    requires Threaded(s) && PagesApart(s) && s'.list == s.list && s'.threads == s.threads
    ensures Threaded(s') && PagesApart(s')
  {
  }

  lemma EnterPlaced(s: State)
    requires Placed(s) && s.data != []
    ensures Placed(Enter(FirstDone(s), s.data[0]))
  {
    hide Ordered, Threaded, PagesApart, Counted, Conserved, Enter;
    EnterOrdered(s);
    EnterConserved(s);
    EnterCounted(s);
    SameThreads(s, FirstDone(s));
    EnterThreaded(FirstDone(s), s.data[0]);
    EnterPages(FirstDone(s), s.data[0]);
  }

  lemma SortedPrefix(a: seq<Tx>, b: seq<Tx>)
    requires Sorted(a + b)
    ensures Sorted(a) && Sorted(b)
    ensures forall t, u :: t in a && u in b ==> t.serial < u.serial
  {
    assert forall k :: 0 <= k < |a| ==> (a + b)[k] == a[k];
    assert forall k :: 0 <= k < |b| ==> (a + b)[|a| + k] == b[k];
    forall t, u | t in a && u in b ensures t.serial < u.serial {
      var i :| 0 <= i < |a| && a[i] == t;
      var j :| 0 <= j < |b| && b[j] == u;
      assert (a + b)[i].serial < (a + b)[|a| + j].serial;
    }
  }

  lemma SortedJoin(a: seq<Tx>, b: seq<Tx>)
    requires Sorted(a) && Sorted(b) && forall t, u :: t in a && u in b ==> t.serial < u.serial
    ensures Sorted(a + b)
  {
    forall i, j | 0 <= i < j < |a + b| ensures (a + b)[i].serial < (a + b)[j].serial {
      if i < |a| <= j {
        assert a[i] in a && b[j - |a|] in b;
      }
    }
  }

  lemma ReturnOrdered(s: State, id: nat)
    requires Ordered(s) && id in s.threads
    ensures Ordered(s.(list := Without(s.list, s.threads[id].tx)))
  {
    var tx := s.threads[id].tx;
    SortedPrefix(s.list, s.data);
    WithoutSorted(s.list, tx);
    WithoutMembers(s.list, tx);
    SortedJoin(Without(s.list, tx), s.data);
    hide Sorted;
    forall t | t in Without(s.list, tx) + s.data ensures t in s.accepted {
      assert t in s.list + s.data;
    }
  }

  lemma ReturnThreaded(s: State, writes: bool, id: nat)
    requires Threaded(s) && Enabled(s, Return(id))
    ensures Threaded(Apply(s, writes, Return(id)))
  {
    ThreadFirst(s, id);
    var tx := s.threads[id].tx;
    forall other: nat | other != id ensures GetFirst(Without(s.list, tx), other) == GetFirst(s.list, other) {
      FirstWithout(s.list, tx, other);
    }
    hide GetFirst, Without;
  }

  lemma ReturnPages(s: State, writes: bool, id: nat)
    requires Ordered(s) && Threaded(s) && PagesApart(s) && Enabled(s, Return(id))
    ensures PagesApart(Apply(s, writes, Return(id)))
  {
    var s', tx := Apply(s, writes, Return(id)), s.threads[id].tx;
    SortedPrefix(s.list, s.data);
    WithoutSorted(s.list, tx);
    WithoutMembers(s.list, tx);
    forall k | k in s'.threads && s'.threads[k].InFlight? ensures !Overlapping(s'.list, s'.threads[k].tx) {
      var t := s'.threads[k].tx;
      assert k != id && s.threads[k] == s'.threads[k];
      ThreadFirst(s, k);
      ThreadFirst(s, id);
      OverlapIs(s.list, t);
      OverlapIs(s'.list, t);
    }
  }

  lemma ReturnCounted(s: State, writes: bool, id: nat)
    requires Ordered(s) && Threaded(s) && Counted(s) && Enabled(s, Return(id))
    ensures Counted(Apply(s, writes, Return(id)))
  {
    ThreadFirst(s, id);
    SortedPrefix(s.list, s.data);
    WithoutOne(s.list, s.threads[id].tx);
    hide Sorted, GetFirst, Without, Ordered, Threaded;
  }

  lemma ReturnConserved(s: State, writes: bool, id: nat)
    requires Ordered(s) && Threaded(s) && Conserved(s) && Enabled(s, Return(id))
    ensures Conserved(Apply(s, writes, Return(id)))
  {
    ThreadFirst(s, id);
    SortedPrefix(s.list, s.data);
    WithoutOne(s.list, s.threads[id].tx);
    hide Sorted, GetFirst, Without, Ordered, Threaded;
  }

  lemma ReturnPlaced(s: State, writes: bool, id: nat)
    requires Placed(s) && Enabled(s, Return(id))
    ensures Placed(Apply(s, writes, Return(id)))
  {
    ReturnOrdered(s, id);
    ReturnThreaded(s, writes, id);
    ReturnPages(s, writes, id);
    ReturnCounted(s, writes, id);
    ReturnConserved(s, writes, id);
    hide Sorted, GetFirst, Overlapping, Without, Threaded, PagesApart, Conserved, Counted;
  }

  lemma IssuePlaced(s: State, writes: bool, id: nat)
    requires Placed(s) && Enabled(s, Issue(id))
    ensures Placed(Apply(s, writes, Issue(id)))
  {
    hide Sorted, GetFirst, Overlapping;
  }

  lemma TakenConserved(s: State)
    requires Conserved(s) && s.fifo != [] && s.held.None?
    ensures Conserved(Taken(s))
  {
    assert s.fifo == [s.fifo[0]] + s.fifo[1..];
  }

  lemma GivenConserved(s: State)
    requires Conserved(s) && s.held.Some?
    ensures Conserved(Given(s))
  {
  }

  lemma AnswerPlaced(s: State)
    requires Placed(s)
    ensures s.fifo != [] && s.held.None? ==> Placed(Taken(s))
    ensures s.held.Some? ==> Placed(Given(s))
  {
    hide Ordered, Threaded, PagesApart, Conserved;
    if s.fifo != [] && s.held.None? {
      TakenConserved(s);
      SameList(s, Taken(s));
    }
    if s.held.Some? {
      GivenConserved(s);
      SameList(s, Given(s));
    }
  }

  lemma SameList(s: State, s': State)
    requires Ordered(s) && Threaded(s) && PagesApart(s)
    requires s'.list == s.list && s'.data == s.data && s'.threads == s.threads && s'.accepted == s.accepted
    ensures Ordered(s') && Threaded(s') && PagesApart(s')
  {
  }

  // Who has been issued.
  ghost predicate IssuedFit(s: State) {
    IssuedOnce(s) && IssuedInOrder(s)
  }

  /** A step that issues nothing and unissues nothing leaves the issue history right. */
  lemma NothingIssued(s: State, s': State)
    requires IssuedFit(s) && s'.issued == s.issued && s'.accepted == s.accepted
    requires forall u :: Unissued(s', u) <==> Unissued(s, u)
    ensures IssuedFit(s')
  {
    hide Unissued;
  }

  lemma AcceptIssued(s: State, writes: bool, r: Request)
    requires Ordered(s) && Threaded(s) && IssuedFit(s)
    ensures IssuedFit(Accept(s, writes, r))
  {
    var s', tx := Accept(s, writes, r), Fresh(s, r);
    AcceptUnissued(s, writes, r);
    assert s'.issued == s.issued && s'.accepted == s.accepted + [tx];
    assert forall u :: u in s.accepted ==> u.serial < tx.serial;
    hide Accept, Unissued, Ordered, Threaded;
  }

  lemma ReturnUnissued(s: State, writes: bool, id: nat)
    requires Ordered(s) && Threaded(s) && Enabled(s, Return(id))
    ensures forall u :: Unissued(Apply(s, writes, Return(id)), u) <==> Unissued(s, u)
  {
    var s', tx := Apply(s, writes, Return(id)), s.threads[id].tx;
    ThreadFirst(s, id);
    SortedPrefix(s.list, s.data);
    WithoutMembers(s.list, tx);
    ReturnThreaded(s, writes, id);
    hide Sorted, GetFirst, Without;
    forall u ensures Unissued(s', u) <==> Unissued(s, u) {
      if u == tx {
        assert tx !in s.data by { assert tx in s.list; }
      } else if u.id == id {
        assert id in s'.threads ==> s'.threads[id].Waiting?;
      }
    }
  }

  lemma IssueUnissued(s: State, writes: bool, id: nat)
    requires Ordered(s) && Threaded(s) && Enabled(s, Issue(id))
    ensures var tx := s.threads[id].tx;
            Unissued(s, tx) && forall u :: Unissued(Apply(s, writes, Issue(id)), u) <==> Unissued(s, u) && u != tx
    ensures forall u :: Unissued(s, u) && Conflict(u, s.threads[id].tx) ==> s.threads[id].tx.serial <= u.serial
  {
    var s', tx := Apply(s, writes, Issue(id)), s.threads[id].tx;
    ThreadFirst(s, id);
    SortedPrefix(s.list, s.data);
    OverlapIs(s.list, tx);
    hide Sorted, GetFirst, Overlapping;
  }

  lemma IssueIssued(s: State, writes: bool, id: nat)
    requires Ordered(s) && Threaded(s) && IssuedFit(s) && Enabled(s, Issue(id))
    ensures IssuedFit(Apply(s, writes, Issue(id)))
  {
    var s', tx := Apply(s, writes, Issue(id)), s.threads[id].tx;
    IssueUnissued(s, writes, id);
    ThreadFirst(s, id);
    assert tx in s.list + s.data;
    assert s'.issued == s.issued + [tx] && s'.accepted == s.accepted;
    SerialsDiffer(s);
    hide Unissued, Ordered, Threaded, Apply;
  }

  lemma SerialsDiffer(s: State)
    requires Ordered(s)
    ensures forall t, u :: t in s.accepted && u in s.accepted && t.serial == u.serial ==> t == u
  {
  }

  // ----- every reachable state

  ghost predicate Invariant(s: State, writes: bool) {
    Placed(s) && IssuedFit(s) && (writes || s.data == [])
  }

  lemma StepKeepsInvariant(s: State, writes: bool, st: Step)
    requires Invariant(s, writes) && Enabled(s, st)
    ensures Invariant(Apply(s, writes, st), writes)
  {
    hide Placed, IssuedFit;
    var s' := Apply(s, writes, st);
    assert Placed(s') by { StepPlaced(s, writes, st); }
    assert IssuedFit(s') by { StepIssued(s, writes, st); }
  }

  lemma PlacedHas(s: State)
    requires Placed(s)
    ensures Ordered(s) && Threaded(s) && Counted(s)
  {
  }

  lemma Restarted(s: State, s': State)
    requires Placed(s) && (s' == s.(ready := s.count < MAX_OUTSTANDING) || s' == s.(received := s.received + 1))
    ensures Placed(s')
  {
    SameList(s, s');
    hide Ordered, Threaded, PagesApart;
  }

  lemma StepPlaced(s: State, writes: bool, st: Step)
    requires Placed(s) && Enabled(s, st) && (writes || s.data == [])
    ensures Placed(Apply(s, writes, st))
  {
    hide Placed, Accept, Enter, Taken, Given;
    match st
    case Address(request) =>
      if request.Some? && s.ready {
        AcceptPlaced(s, writes, request.value);
      } else {
        Restarted(s, Apply(s, writes, st));
      }
    case Beat =>
      if s.received + 1 < s.data[0].beats {
        Restarted(s, Apply(s, writes, st));
      } else {
        EnterPlaced(s);
      }
    case Issue(id) => IssuePlaced(s, writes, id);
    case Return(id) => ReturnPlaced(s, writes, id);
    case Take => AnswerPlaced(s);
    case Give => AnswerPlaced(s);
  }

  lemma StepIssued(s: State, writes: bool, st: Step)
    requires Placed(s) && IssuedFit(s) && Enabled(s, st)
    ensures IssuedFit(Apply(s, writes, st))
  {
    PlacedHas(s);
    hide Placed, IssuedFit, Unissued, Ordered, Threaded, Counted;
    match st
    case Address(request) =>
      if request.Some? && s.ready {
        AcceptIssued(s, writes, request.value);
      } else {
        QuietIssued(s, Apply(s, writes, st));
      }
    case Beat =>
      if s.received + 1 < s.data[0].beats {
        QuietIssued(s, Apply(s, writes, st));
      } else {
        BeatUnissued(s);
        NothingIssued(s, Apply(s, writes, st));
      }
    case Issue(id) => IssueIssued(s, writes, id);
    case Return(id) =>
      ReturnUnissued(s, writes, id);
      NothingIssued(s, Apply(s, writes, st));
    case Take => QuietIssued(s, Apply(s, writes, st));
    case Give => QuietIssued(s, Apply(s, writes, st));
  }

  lemma QuietIssued(s: State, s': State)
    requires IssuedFit(s) && s'.issued == s.issued && s'.accepted == s.accepted
    requires s'.list == s.list && s'.data == s.data && s'.threads == s.threads
    ensures IssuedFit(s')
  {
    NothingIssued(s, s');
  }

  lemma BeatUnissued(s: State)
    requires Ordered(s) && Threaded(s) && s.data != []
    ensures forall u :: Unissued(Enter(FirstDone(s), s.data[0]), u) <==> Unissued(s, u)
  {
    var tx := s.data[0];
    assert s.data == [tx] + s.data[1..];
    SortedPrefix(s.list, s.data);
    assert tx in s.data;
    EnterUnissued(FirstDone(s), tx);
    assert forall u :: u in s.data <==> u == tx || u in s.data[1..];
    hide Sorted, GetFirst, Enter;
    forall u ensures Unissued(FirstDone(s), u) || u == tx <==> Unissued(s, u) {
    }
  }

  ghost predicate IsRun(states: seq<State>, writes: bool, steps: seq<Step>) {
    && |states| == |steps| + 1 && states[0] == START
    && forall k :: 0 <= k < |steps| ==>
         Enabled(states[k], steps[k]) && states[k + 1] == Apply(states[k], writes, steps[k])
  }

  /** The invariant holds in every state of every run. */
  lemma {:induction false} RunInvariant(states: seq<State>, writes: bool, steps: seq<Step>, k: nat)
    requires IsRun(states, writes, steps) && k < |states|
    ensures Invariant(states[k], writes)
  {
    if k == 0 {
      StartInvariant(writes);
    } else {
      RunInvariant(states, writes, steps, k - 1);
      StepKeepsInvariant(states[k - 1], writes, steps[k - 1]);
    }
  }

  lemma StartInvariant(writes: bool)
    ensures Invariant(START, writes)
  {
  }

  // ----- what the invariant means

  /** When nothing is left to issue, what was issued is what was accepted, each transaction once. */
  lemma ExactlyOnce(s: State, writes: bool)
    requires Invariant(s, writes) && s.list == [] && s.data == []
    ensures multiset(s.issued) == multiset(s.accepted)
  {
    SameMembers(s.issued, s.accepted);
  }

  lemma {:induction false} SameMembers(a: seq<Tx>, b: seq<Tx>)
    requires forall i, j :: 0 <= i < j < |a| ==> a[i] != a[j]
    requires forall i, j :: 0 <= i < j < |b| ==> b[i] != b[j]
    requires forall t :: t in a <==> t in b
    ensures multiset(a) == multiset(b)
  {
    forall t: Tx ensures multiset(a)[t] == multiset(b)[t] {
      CountInDistinct(a, t);
      CountInDistinct(b, t);
    }
  }

  lemma {:induction false} CountInDistinct(a: seq<Tx>, t: Tx)
    requires forall i, j :: 0 <= i < j < |a| ==> a[i] != a[j]
    ensures multiset(a)[t] == if t in a then 1 else 0
  {
    if a != [] {
      assert a == [a[0]] + a[1..];
      CountInDistinct(a[1..], t);
    }
  }

  /** Two transactions inside b_transport at the same time touch different pages. */
  lemma InFlightApart(s: State, writes: bool, i: nat, j: nat)
    requires Invariant(s, writes) && i in s.threads && j in s.threads && i != j
    requires s.threads[i].InFlight? && s.threads[j].InFlight?
    ensures s.threads[i].tx.address / 4096 != s.threads[j].tx.address / 4096
  {
    var t, u := s.threads[i].tx, s.threads[j].tx;
    ThreadFirst(s, i);
    ThreadFirst(s, j);
    SortedPrefix(s.list, s.data);
    OverlapIs(s.list, t);
    OverlapIs(s.list, u);
    assert t in s.list + s.data && u in s.list + s.data;
    SerialsDiffer(s);
    hide Sorted, GetFirst, Overlapping;
  }

  /** A thread coming back from b_transport finds room in the response FIFO, even while the entry the
      response phase has just taken still counts. */
  lemma NeverBlocks(s: State, writes: bool, id: nat)
    requires Invariant(s, writes) && Enabled(s, Return(id))
    ensures |s.fifo| + Holding(s) < 16
  {
    ThreadFirst(s, id);
  }

  /** The transaction at the front of the list is being issued or passes the guard. */
  lemma FrontPasses(s: State, writes: bool)
    requires Invariant(s, writes) && s.list != []
    ensures var id := s.list[0].id;
            id in s.threads && s.threads[id].tx == s.list[0] && (Enabled(s, Issue(id)) || Enabled(s, Return(id)))
  {
    assert GetFirst(s.list, s.list[0].id) == Some(s.list[0]);
  }

  // ----- progress

  predicate Inner(st: Step) {
    st.Issue? || st.Return? || st.Take? || st.Give?
  }

  /** As long as a transaction is in the list or its answer is on its way, something can happen. */
  lemma SomethingEnabled(s: State, writes: bool) returns (st: Step)
    requires Invariant(s, writes) && (s.list != [] || s.fifo != [] || s.held.Some?)
    ensures Inner(st) && Enabled(s, st)
  {
    if s.held.Some? {
      st := Give;
    } else if s.fifo != [] {
      st := Take;
    } else {
      FrontPasses(s, writes);
      var id := s.list[0].id;
      st := if s.threads[id].InFlight? then Return(id) else Issue(id);
    }
  }

  predicate Flying(threads: map<nat, Phase>, t: Tx) {
    t.id in threads && threads[t.id] == InFlight(t)
  }

  function WaitingCount(list: seq<Tx>, threads: map<nat, Phase>): (n: nat)
    ensures n <= |list|
  {
    if list == [] then 0 else (if Flying(threads, list[0]) then 0 else 1) + WaitingCount(list[1..], threads)
  }

  /** Steps left until everything in the list has been answered. */
  function Rank(s: State): nat {
    WaitingCount(s.list, s.threads) + 3 * |s.list| + 2 * |s.fifo| + Holding(s)
  }

  lemma {:induction false} WaitingSame(list: seq<Tx>, a: map<nat, Phase>, b: map<nat, Phase>)
    requires forall t :: t in list ==> Flying(a, t) == Flying(b, t)
    ensures WaitingCount(list, a) == WaitingCount(list, b)
  {
    if list != [] {
      WaitingSame(list[1..], a, b);
    }
  }

  lemma {:induction false} WaitingIssue(list: seq<Tx>, a: map<nat, Phase>, b: map<nat, Phase>, tx: Tx)
    requires Sorted(list) && tx in list && !Flying(a, tx) && Flying(b, tx)
    requires forall t :: t in list && t != tx ==> Flying(a, t) == Flying(b, t)
    ensures WaitingCount(list, a) == WaitingCount(list, b) + 1
  {
    HeadIsLeast(list);
    if list[0] == tx {
      WaitingSame(list[1..], a, b);
    } else {
      WaitingIssue(list[1..], a, b, tx);
    }
  }

  lemma {:induction false} WaitingWithout(list: seq<Tx>, a: map<nat, Phase>, tx: Tx)
    requires Flying(a, tx)
    ensures WaitingCount(Without(list, tx), a) == WaitingCount(list, a)
  {
    if list != [] {
      WaitingWithout(list[1..], a, tx);
      if list[0] != tx {
        assert Without(list, tx)[1..] == Without(list[1..], tx);
      }
    }
  }

  lemma IssueRank(s: State, writes: bool, id: nat)
    requires Ordered(s) && Threaded(s) && Enabled(s, Issue(id))
    ensures Rank(Apply(s, writes, Issue(id))) == Rank(s) - 1
  {
    var s', tx := Apply(s, writes, Issue(id)), s.threads[id].tx;
    ThreadFirst(s, id);
    SortedPrefix(s.list, s.data);
    WaitingIssue(s.list, s.threads, s'.threads, tx);
  }

  lemma ReturnRank(s: State, writes: bool, id: nat)
    requires Ordered(s) && Threaded(s) && Enabled(s, Return(id))
    ensures Rank(Apply(s, writes, Return(id))) == Rank(s) - 1
  {
    var s', tx := Apply(s, writes, Return(id)), s.threads[id].tx;
    ThreadFirst(s, id);
    SortedPrefix(s.list, s.data);
    WithoutOne(s.list, tx);
    WithoutMembers(s.list, tx);
    WaitingWithout(s.list, s.threads, tx);
    WaitingSame(s'.list, s.threads, s'.threads);
  }

  /** Every such step brings the end one step nearer. */
  lemma RankFalls(s: State, writes: bool, st: Step)
    requires Invariant(s, writes) && Enabled(s, st) && Inner(st)
    ensures Rank(Apply(s, writes, st)) == Rank(s) - 1
  {
    match st
    case Issue(id) => IssueRank(s, writes, id);
    case Return(id) => ReturnRank(s, writes, id);
    case Take =>
    case Give =>
  }

  lemma RankBounded(s: State, writes: bool)
    requires Invariant(s, writes)
    ensures Rank(s) <= 4 * MAX_OUTSTANDING
  {
  }

  lemma RankZero(s: State, writes: bool)
    requires Invariant(s, writes)
    ensures Rank(s) == 0 ==> multiset(s.accepted) == multiset(s.data) + multiset(s.answered)
    ensures Rank(s) > 0 ==> exists st :: Inner(st) && Enabled(s, st)
  {
    if Rank(s) > 0 {
      var st := SomethingEnabled(s, writes);
    }
  }

  /** Steps inside the bridge, with nothing new coming in. */
  ghost predicate IsInnerRun(states: seq<State>, writes: bool, steps: seq<Step>) {
    && |states| == |steps| + 1
    && forall k :: 0 <= k < |steps| ==>
         Inner(steps[k]) && Enabled(states[k], steps[k]) && states[k + 1] == Apply(states[k], writes, steps[k])
  }

  lemma InnerRunTail(states: seq<State>, writes: bool, steps: seq<Step>)
    requires IsInnerRun(states, writes, steps) && steps != []
    ensures Inner(steps[0]) && Enabled(states[0], steps[0]) && states[1] == Apply(states[0], writes, steps[0])
    ensures IsInnerRun(states[1..], writes, steps[1..])
  {
    hide Inner, Enabled, Apply;
    forall k | 0 <= k < |steps[1..]|
      ensures Inner(steps[1..][k]) && Enabled(states[1..][k], steps[1..][k]) &&
              states[1..][k + 1] == Apply(states[1..][k], writes, steps[1..][k])
    {
      assert steps[1..][k] == steps[k + 1] && states[1..][k] == states[k + 1] && states[1..][k + 1] == states[k + 2];
    }
  }

  /** From any reachable state at most 64 inner steps are possible; they go on until every transaction
      whose data has arrived is answered, in whatever order they are taken. */
  lemma {:induction false} Drains(states: seq<State>, writes: bool, steps: seq<Step>)
    requires IsInnerRun(states, writes, steps) && Invariant(states[0], writes)
    ensures |steps| <= Rank(states[0]) <= 4 * MAX_OUTSTANDING
    ensures var end := states[|steps|];
            |steps| == Rank(states[0]) ==> multiset(end.accepted) == multiset(end.data) + multiset(end.answered)
    ensures |steps| < Rank(states[0]) ==> exists st :: Inner(st) && Enabled(states[|steps|], st)
    decreases |steps|
  {
    hide Invariant, Rank, Apply, Enabled, Inner, IsInnerRun;
    InnerRunLength(states, writes, steps);
    RankBounded(states[0], writes);
    if steps == [] {
      RankZero(states[0], writes);
    } else {
      InnerRunTail(states, writes, steps);
      StepKeepsInvariant(states[0], writes, steps[0]);
      RankFalls(states[0], writes, steps[0]);
      Drains(states[1..], writes, steps[1..]);
      assert states[1..][|steps| - 1] == states[|steps|];
    }
  }

  lemma InnerRunLength(states: seq<State>, writes: bool, steps: seq<Step>)
    requires IsInnerRun(states, writes, steps)
    ensures |states| == |steps| + 1
  {
  }
}
