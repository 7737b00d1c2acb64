/** The processes of the axi2tlm bridge on their shared lists, counters and FIFO, in place. */
module Axi2Tlm {
  import opened AxiScheduler
  import opened MachineTypes

  method GetFirstWithID(list: seq<Tx>, id: nat) returns (r: Option<Tx>)
    ensures r == GetFirst(list, id)
  {
    var it := 0;
    assert list[0..] == list;
    while it < |list|
      invariant 0 <= it <= |list| && GetFirst(list, id) == GetFirst(list[it..], id)
    {
      if list[it].id == id {
        return Some(list[it]);
      }
      assert list[it..][1..] == list[it + 1..];
      it := it + 1;
    }
    r := None;
  }

  method InList(list: seq<Tx>, id: nat) returns (found: bool)
    ensures found <==> GetFirst(list, id).Some?
  {
    var it := 0;
    assert list[0..] == list;
    while it < |list|
      invariant 0 <= it <= |list| && GetFirst(list, id) == GetFirst(list[it..], id)
    {
      if list[it].id == id {
        return true;
      }
      assert list[it..][1..] == list[it + 1..];
      it := it + 1;
    }
    found := false;
  }

  /** Looks at the transactions in front of tr, which is in the list. */
  method OverlappingAddress(list: seq<Tx>, tr: Tx) returns (overlaps: bool)
    requires tr in list
    ensures overlaps <==> Overlapping(list, tr)
  {
    var it := 0;
    assert list[0..] == list;
    while list[it] != tr
      invariant 0 <= it < |list| && tr in list[it..] && (Overlapping(list, tr) <==> Overlapping(list[it..], tr))
      decreases |list| - it
    {
      if list[it].address / PAGE == tr.address / PAGE {
        return true;
      }
      assert list[it..][1..] == list[it + 1..];
      assert list[it..] == [list[it]] + list[it + 1..];
      it := it + 1;
    }
    overlaps := false;
  }

  /** Removes every occurrence. */
  method Remove(list: seq<Tx>, tr: Tx) returns (r: seq<Tx>)
    ensures r == Without(list, tr)
  {
    r := [];
    var it := |list|;
    while it > 0
      invariant 0 <= it <= |list| && r == Without(list[it..], tr)
    {
      it := it - 1;
      assert list[it..][1..] == list[it + 1..];
      r := if list[it] == tr then r else [list[it]] + r;
    }
    assert list[0..] == list;
  }

  /** One direction of the bridge: the reads or the writes. */
  class Channel {
    const writes: bool
    var ready: bool
    var numTransactions: nat
    var wrDataList: seq<Tx>
    var beatsReceived: nat
    var list: seq<Tx>
    var threads: map<nat, Phase>
    var fifo: seq<Tx>
    var held: Option<Tx>
    var numAccepted: nat
    ghost var accepted: seq<Tx>
    ghost var issued: seq<Tx>
    ghost var answered: seq<Tx>

    ghost function State(): State
      reads this
    {
      AxiScheduler.State(ready, numTransactions, wrDataList, beatsReceived, list, threads, fifo, held, accepted,
                         issued, answered)
    }

    ghost predicate Valid()
      reads this
    {
      Invariant(State(), writes) && numAccepted == |accepted|
    }

    constructor (writes: bool)
      ensures Valid() && State() == START && this.writes == writes
    {
      this.writes, ready, numTransactions, beatsReceived, numAccepted := writes, true, 0, 0, 0;
      wrDataList, list, threads, fifo, held, accepted, issued, answered := [], [], map[], [], None, [], [], [];
      new;
      StartInvariant(writes);
    }

    /** Adds a transaction to the list and starts a thread for its ID if there is none. */
    method Queue(tr: Tx)
      modifies this`list, this`threads
      ensures State() == Enter(old(State()), tr)
    {
      var processing := InList(list, tr.id);
      list := list + [tr];
      if !processing {
        threads := threads[tr.id := Waiting(tr)];
      }
    }

    /** A clock edge of read_address_phase or write_address_phase. */
    method AddressPhase(valid: Option<Request>)
      requires Valid()
      modifies this
      ensures Valid() && State() == Apply(old(State()), writes, Address(valid))
    {
      hide Invariant;
      StepKeepsInvariant(State(), writes, Address(valid));
      if valid.Some? && ready {
        var tr := Tx(numAccepted, valid.value.id, valid.value.address, valid.value.beats);
        accepted, numAccepted := accepted + [tr], numAccepted + 1;
        numTransactions := numTransactions + 1;
        if writes {
          wrDataList := wrDataList + [tr];
        } else {
          Queue(tr);
        }
      }
      ready := numTransactions < MAX_OUTSTANDING;
    }

    /** A data beat of write_data_phase; the last beat of a transaction passes it on. */
    method WriteDataBeat()
      requires Valid() && wrDataList != []
      modifies this
      ensures Valid() && State() == Apply(old(State()), writes, Step.Beat)
      ensures var t, complete := old(wrDataList[0]), old(beatsReceived) + 1 >= old(wrDataList[0].beats);
              && list == (if complete then old(list) + [t] else old(list))
              && wrDataList == (if complete then old(wrDataList)[1..] else old(wrDataList))
              && beatsReceived == if complete then 0 else old(beatsReceived) + 1
    {
      hide Invariant;
      StepKeepsInvariant(State(), writes, Step.Beat);
      var wt := wrDataList[0];
      beatsReceived := beatsReceived + 1;
      if beatsReceived >= wt.beats {
        wrDataList, beatsReceived := wrDataList[1..], 0;
        Queue(wt);
      }
    }

    /** RunTLMTransaction up to b_transport: the transaction goes out unless the guard makes it wait. */
    method TryIssue(id: nat) returns (issues: bool)
      requires Valid() && id in threads && threads[id].Waiting?
      modifies this`threads, this`issued
      ensures Valid() && (issues <==> Enabled(old(State()), Issue(id)))
      ensures var t := old(threads[id].tx);
              issues <==> !exists u :: u in old(list) && u.serial < t.serial && u.address / 4096 == t.address / 4096
      ensures State() == if issues then Apply(old(State()), writes, Issue(id)) else old(State())
    {
      hide Invariant;
      ThreadListed(State(), writes, id);
      GuardIs(State(), writes, id);
      var tr := threads[id].tx;
      var overlaps := OverlappingAddress(list, tr);
      issues := !overlaps;
      if issues {
        StepKeepsInvariant(State(), writes, Issue(id));
        issued := issued + [tr];
        threads := threads[id := InFlight(tr)];
      }
    }

    /** RunTLMTransaction after b_transport: the FIFO has room, then the next transaction with the ID. */
    method Complete(id: nat)
      requires Valid() && id in threads && threads[id].InFlight?
      modifies this`list, this`fifo, this`threads
      ensures |old(fifo)| + (if held.Some? then 1 else 0) < FIFO_DEPTH
      ensures Valid() && State() == Apply(old(State()), writes, Return(id))
    {
      hide Invariant;
      NeverBlocks(State(), writes, id);
      StepKeepsInvariant(State(), writes, Return(id));
      var tr := threads[id].tx;
      list := Remove(list, tr);
      fifo := fifo + [tr];
      var next := GetFirstWithID(list, id);
      threads := if next.Some? then threads[id := Waiting(next.value)] else threads - {id};
    }

    /** read_data_phase or write_resp_phase takes the next answer. */
    method TakeResponse()
      requires Valid() && held.None? && fifo != []
      modifies this`held, this`fifo
      ensures Valid() && State() == Apply(old(State()), writes, Take)
    {
      hide Invariant;
      StepKeepsInvariant(State(), writes, Take);
      held, fifo := Some(fifo[0]), fifo[1..];
    }

    /** The answer has been handed over. */
    method GiveResponse()
      requires Valid() && held.Some?
      modifies this`held, this`numTransactions, this`answered
      ensures Valid() && State() == Apply(old(State()), writes, Give)
      ensures numTransactions == old(numTransactions) - 1
    {
      hide Invariant;
      StepKeepsInvariant(State(), writes, Give);
      Outstanding(State(), writes);
      answered := answered + [held.value];
      held := None;
      numTransactions := numTransactions - 1;
    }
  }

  lemma GuardIs(s: State, writes: bool, id: nat)
    requires Invariant(s, writes) && id in s.threads
    ensures var t := s.threads[id].tx;
            Overlapping(s.list, t) <==>
            exists u :: u in s.list && u.serial < t.serial && u.address / 4096 == t.address / 4096
  {
    ThreadFirst(s, id);
    SortedPrefix(s.list, s.data);
    OverlapIs(s.list, s.threads[id].tx);
  }

  lemma ThreadListed(s: State, writes: bool, id: nat)
    requires Invariant(s, writes) && id in s.threads
    ensures s.threads[id].tx in s.list
  {
    ThreadFirst(s, id);
  }

  lemma Outstanding(s: State, writes: bool)
    requires Invariant(s, writes) && s.held.Some?
    ensures s.count > 0
  {
  }
}
