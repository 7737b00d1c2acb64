/** What the state of a channel says about the steps that led to it. */
module AxiHistory {
  import opened AxiScheduler
  import opened MachineTypes

  /** The requests that met a ready channel, in order. */
  ghost function RequestsBy(states: seq<State>, steps: seq<Step>, k: nat): (rs: seq<Request>)
    requires k <= |steps| && k <= |states|
  {
    if k == 0 then []
    else
      RequestsBy(states, steps, k - 1) +
      if steps[k - 1].Address? && steps[k - 1].request.Some? && states[k - 1].ready then [steps[k - 1].request.value]
      else []
  }

  /** Data beats taken. */
  function BeatsBy(steps: seq<Step>, k: nat): nat
    requires k <= |steps|
  {
    if k == 0 then 0 else BeatsBy(steps, k - 1) + if steps[k - 1].Beat? then 1 else 0
  }

  /** The transactions that went to b_transport, and those that came back, in order. */
  ghost function IssuesBy(states: seq<State>, steps: seq<Step>, k: nat): seq<Tx>
    requires k <= |steps| && k <= |states|
  {
    if k == 0 then []
    else IssuesBy(states, steps, k - 1) + if steps[k - 1].Issue? then Working(states[k - 1], steps[k - 1].id) else []
  }

  ghost function ReturnsBy(states: seq<State>, steps: seq<Step>, k: nat): seq<Tx>
    requires k <= |steps| && k <= |states|
  {
    if k == 0 then []
    else ReturnsBy(states, steps, k - 1) + if steps[k - 1].Return? then Working(states[k - 1], steps[k - 1].id) else []
  }

  /** What the thread of an ID works on. */
  function Working(s: State, id: nat): seq<Tx> {
    if id in s.threads then [s.threads[id].tx] else []
  }

  lemma RunStep(states: seq<State>, writes: bool, steps: seq<Step>, k: nat)
    requires IsRun(states, writes, steps) && 0 < k <= |steps|
    ensures Enabled(states[k - 1], steps[k - 1]) && states[k] == Apply(states[k - 1], writes, steps[k - 1])
    ensures Invariant(states[k - 1], writes)
  {
    RunInvariant(states, writes, steps, k - 1);
    hide Enabled, Apply, Invariant;
  }

  lemma RunStart(states: seq<State>, writes: bool, steps: seq<Step>)
    requires IsRun(states, writes, steps)
    ensures |states| == |steps| + 1 && states[0] == START
  {
  }

  // ----- what has been accepted

  ghost predicate AcceptedFrom(s: State, rs: seq<Request>) {
    |s.accepted| == |rs| &&
    forall j :: 0 <= j < |rs| ==> s.accepted[j] == Tx(j, rs[j].id, rs[j].address, rs[j].beats)
  }

  lemma StepAccepts(s: State, writes: bool, st: Step, rs: seq<Request>)
    requires Enabled(s, st) && AcceptedFrom(s, rs)
    ensures AcceptedFrom(Apply(s, writes, st),
                         rs + if st.Address? && st.request.Some? && s.ready then [st.request.value] else [])
  {
    hide GetFirst, Overlapping, Without;
  }

  /** The accepted transactions are the requests that met a ready channel, with their ID, address and beats. */
  lemma {:induction false} AcceptedExactly(states: seq<State>, writes: bool, steps: seq<Step>, k: nat)
    requires IsRun(states, writes, steps) && k <= |steps|
    ensures |states| == |steps| + 1 && AcceptedFrom(states[k], RequestsBy(states, steps, k))
  {
    hide Apply, Enabled, Invariant, AcceptedFrom, IsRun;
    RunStart(states, writes, steps);
    if k == 0 {
      assert AcceptedFrom(START, []) by { StartAccepts(); }
    } else {
      AcceptedExactly(states, writes, steps, k - 1);
      RunStep(states, writes, steps, k);
      StepAccepts(states[k - 1], writes, steps[k - 1], RequestsBy(states, steps, k - 1));
    }
  }

  lemma StartAccepts()
    ensures AcceptedFrom(START, [])
  {
  }

  /** The channel is ready after an edge of the address channel exactly when fewer than 16 accepted
      transactions are unanswered; nothing else changes it. */
  lemma ReadyExactly(states: seq<State>, writes: bool, steps: seq<Step>, k: nat)
    requires IsRun(states, writes, steps) && k < |steps|
    ensures |states| == |steps| + 1
    ensures states[k + 1].ready == if steps[k].Address? then |states[k + 1].accepted| - |states[k + 1].answered| < 16
                                   else states[k].ready
  {
    RunStep(states, writes, steps, k + 1);
    RunInvariant(states, writes, steps, k + 1);
    Unanswered(states[k + 1], writes);
    StepReady(states[k], writes, steps[k]);
    hide Apply, Enabled, Invariant;
  }

  lemma Unanswered(s: State, writes: bool)
    requires Invariant(s, writes)
    ensures s.count == |s.accepted| - |s.answered|
  {
    hide Ordered, Threaded, PagesApart, IssuedFit;
    var all := multiset(s.data) + multiset(s.list) + multiset(s.fifo) + AxiScheduler.Held(s) + multiset(s.answered);
    assert |multiset(s.accepted)| == |all|;
  }

  lemma StepReady(s: State, writes: bool, st: Step)
    requires Enabled(s, st)
    ensures var s' := Apply(s, writes, st);
            s'.ready == if st.Address? then s'.count < 16 else s.ready
  {
    hide GetFirst, Overlapping, Without;
  }

  // ----- the data of a write

  /** Beats a transaction takes: one at least. */
  function BeatsOf(t: Tx): nat {
    if t.beats == 0 then 1 else t.beats
  }

  function Needed(ts: seq<Tx>): nat {
    if ts == [] then 0 else Needed(ts[..|ts| - 1]) + BeatsOf(ts[|ts| - 1])
  }

  lemma NeededNext(ts: seq<Tx>, n: nat)
    requires n < |ts|
    ensures Needed(ts[..n + 1]) == Needed(ts[..n]) + BeatsOf(ts[n])
  {
    assert ts[..n + 1][..n] == ts[..n];
  }

  /** The transactions waiting for data are the last ones accepted. */
  ghost predicate DataLast(s: State) {
    |s.data| <= |s.accepted| && s.data == s.accepted[|s.accepted| - |s.data|..]
  }

  /** Accepted transactions whose data is complete. */
  ghost function Filled(s: State): seq<Tx>
    requires |s.data| <= |s.accepted|
  {
    s.accepted[..|s.accepted| - |s.data|]
  }

  /** `beats` beats filled the transactions that no longer wait for data, and the rest went to the first that
      does; that one still lacks some. */
  ghost predicate BeatsCount(s: State, beats: nat) {
    && DataLast(s)
    && beats == Needed(Filled(s)) + s.received
    && (if s.data == [] then s.received == 0 else s.received < BeatsOf(s.data[0]))
  }

  lemma StepCounts(s: State, st: Step, beats: nat)
    requires Enabled(s, st) && BeatsCount(s, beats)
    ensures BeatsCount(Apply(s, true, st), beats + if st.Beat? then 1 else 0)
  {
    hide Needed, BeatsCount;
    match st
    case Address(r) =>
      if r.Some? && s.ready {
        AcceptCounts(s, r.value, beats);
      } else {
        SameCounts(s, Apply(s, true, st), beats);
      }
    case Beat => BeatCounts(s, beats);
    case _ => SameCounts(s, Apply(s, true, st), beats);
  }

  lemma SameCounts(s: State, s': State, beats: nat)
    requires BeatsCount(s, beats) && s'.data == s.data && s'.received == s.received && s'.accepted == s.accepted
    ensures BeatsCount(s', beats)
  {
  }

  lemma AcceptCounts(s: State, r: Request, beats: nat)
    requires BeatsCount(s, beats)
    ensures BeatsCount(Accept(s, true, r), beats)
  {
    assert Filled(Accept(s, true, r)) == Filled(s);
  }

  lemma BeatCounts(s: State, beats: nat)
    requires BeatsCount(s, beats) && s.data != []
    ensures BeatsCount(Apply(s, true, Beat), beats + 1)
  {
    hide GetFirst, Needed;
    var n := |s.accepted| - |s.data|;
    assert s.data[0] == s.accepted[n] && s.data[1..] == s.accepted[n + 1..];
    NeededNext(s.accepted, n);
  }

  lemma {:induction false} BeatsCounted(states: seq<State>, steps: seq<Step>, k: nat)
    requires IsRun(states, true, steps) && k <= |steps|
    ensures |states| == |steps| + 1 && BeatsCount(states[k], BeatsBy(steps, k))
  {
    hide Apply, Enabled, Invariant, BeatsCount, IsRun;
    RunStart(states, true, steps);
    if k == 0 {
      StartCounts();
    } else {
      BeatsCounted(states, steps, k - 1);
      RunStep(states, true, steps, k);
      StepCounts(states[k - 1], steps[k - 1], BeatsBy(steps, k - 1));
    }
  }

  lemma StartCounts()
    ensures BeatsCount(START, 0)
  {
  }

  lemma {:induction false} NeededGrows(ts: seq<Tx>, i: nat, j: nat)
    requires i <= j <= |ts|
    ensures Needed(ts[..i]) + (j - i) <= Needed(ts[..j])
    decreases j
  {
    if i < j {
      NeededNext(ts, j - 1);
      NeededGrows(ts, i, j - 1);
    }
  }

  /** Write j has all its data, and is on its way or answered, exactly when as many beats have been taken as
      writes 0 to j announce. */
  lemma CompleteExactly(states: seq<State>, steps: seq<Step>, k: nat, j: nat)
    requires IsRun(states, true, steps) && k <= |steps|
    requires |states| == |steps| + 1 && j < |states[k].accepted|
    ensures var s := states[k];
            s.accepted[j] !in s.data <==> BeatsBy(steps, k) >= Needed(s.accepted[..j + 1])
    ensures var s := states[k];
            s.accepted[j] !in s.data <==>
            s.accepted[j] in s.list || s.accepted[j] in s.fifo || s.held == Some(s.accepted[j]) ||
            s.accepted[j] in s.answered
  {
    BeatsCounted(states, steps, k);
    RunInvariant(states, true, steps, k);
    hide IsRun, Invariant, BeatsCount;
    OnePlace(states[k], states[k].accepted[j]);
    CompleteAt(states[k], BeatsBy(steps, k), j);
  }

  lemma CompleteAt(s: State, beats: nat, j: nat)
    requires Invariant(s, true) && BeatsCount(s, beats) && j < |s.accepted|
    ensures s.accepted[j] !in s.data <==> beats >= Needed(s.accepted[..j + 1])
  {
    hide Invariant, Needed;
    SerialPlace(s);
    var n := |s.accepted| - |s.data|;
    if j < n {
      NeededGrows(s.accepted, j + 1, n);
    } else {
      assert s.accepted[n] == s.data[0];
      NeededNext(s.accepted, n);
      NeededGrows(s.accepted, n + 1, j + 1);
    }
  }

  lemma SerialPlace(s: State)
    requires Invariant(s, true) && DataLast(s)
    ensures forall j :: 0 <= j < |s.accepted| ==> (s.accepted[j] in s.data <==> j >= |s.accepted| - |s.data|)
  {
    forall j | 0 <= j < |s.accepted| ensures s.accepted[j] in s.data <==> j >= |s.accepted| - |s.data| {
      var n := |s.accepted| - |s.data|;
      if j >= n {
        assert s.accepted[n..][j - n] == s.accepted[j];
      }
    }
  }

  /** An accepted transaction is in one place. */
  lemma OnePlace(s: State, t: Tx)
    requires Invariant(s, true) && t in s.accepted
    ensures t !in s.data <==> t in s.list || t in s.fifo || s.held == Some(t) || t in s.answered
  {
    hide Threaded, PagesApart, IssuedFit, Counted;
    AcceptedOnce(s, t);
    assert multiset(s.accepted)[t] == multiset(s.data)[t] + multiset(s.list)[t] + multiset(s.fifo)[t] +
                                      AxiScheduler.Held(s)[t] + multiset(s.answered)[t];
  }

  lemma AcceptedOnce(s: State, t: Tx)
    requires Ordered(s) && t in s.accepted
    ensures multiset(s.accepted)[t] == 1
  {
    CountInDistinct(s.accepted, t);
  }

  // ----- the order of issues and answers

  function HeldSeq(s: State): seq<Tx> {
    if s.held.Some? then [s.held.value] else []
  }

  ghost predicate Flows(s: State, issues: seq<Tx>, back: seq<Tx>) {
    s.issued == issues && s.answered + HeldSeq(s) + s.fifo == back
  }

  lemma StepFlows(s: State, writes: bool, st: Step, issues: seq<Tx>, back: seq<Tx>)
    requires Enabled(s, st) && Flows(s, issues, back)
    ensures Flows(Apply(s, writes, st), issues + (if st.Issue? then Working(s, st.id) else []),
                  back + if st.Return? then Working(s, st.id) else [])
  {
    hide GetFirst, Overlapping, Without;
    assert issues + [] == issues && back + [] == back;
    if st.Take? {
      assert s.fifo == [s.fifo[0]] + s.fifo[1..];
    }
  }

  /** The answers come out in the order in which the transactions came back from b_transport. */
  lemma {:induction false} FirstInFirstOut(states: seq<State>, writes: bool, steps: seq<Step>, k: nat)
    requires IsRun(states, writes, steps) && k <= |steps|
    ensures |states| == |steps| + 1
    ensures var s := states[k];
            && s.issued == IssuesBy(states, steps, k)
            && s.answered + HeldSeq(s) + s.fifo == ReturnsBy(states, steps, k)
  {
    hide Apply, Enabled, Invariant, IsRun;
    RunStart(states, writes, steps);
    if k > 0 {
      FirstInFirstOut(states, writes, steps, k - 1);
      RunStep(states, writes, steps, k);
      StepFlows(states[k - 1], writes, steps[k - 1], IssuesBy(states, steps, k - 1), ReturnsBy(states, steps, k - 1));
    }
  }

  /** Transactions with the same ID come back in the order of their acceptance, before any that is still
      in the bridge. */
  ghost predicate SameIdInOrder(s: State, done: seq<Tx>) {
    && (forall i, j :: 0 <= i < j < |done| && done[i].id == done[j].id ==> done[i].serial < done[j].serial)
    && (forall t, u :: t in done && (u in s.list || u in s.data) && t.id == u.id ==> t.serial < u.serial)
    && (forall t :: t in done ==> t in s.accepted)
  }

  lemma AcceptKeepsOrder(s: State, writes: bool, r: Request, done: seq<Tx>)
    requires Ordered(s) && SameIdInOrder(s, done)
    ensures SameIdInOrder(Accept(s, writes, r), done)
  {
    hide GetFirst, Sorted;
    assert forall t :: t in s.accepted ==> t.serial < |s.accepted|;
  }

  lemma ReturnKeepsOrder(s: State, writes: bool, id: nat, done: seq<Tx>)
    requires Ordered(s) && Threaded(s) && Enabled(s, Return(id)) && SameIdInOrder(s, done)
    ensures SameIdInOrder(Apply(s, writes, Return(id)), done + [s.threads[id].tx])
  {
    var tx := s.threads[id].tx;
    ThreadFirst(s, id);
    SortedPrefix(s.list, s.data);
    WithoutMembers(s.list, tx);
    assert tx in s.list + s.data;
    FirstOfId(s, id);
    hide GetFirst, Without, Sorted, Threaded;
  }

  lemma FirstOfId(s: State, id: nat)
    requires Ordered(s) && Threaded(s) && id in s.threads
    ensures forall u :: (u in s.list || u in s.data) && u.id == id && u != s.threads[id].tx ==>
                          s.threads[id].tx.serial < u.serial
  {
    var tx := s.threads[id].tx;
    ThreadFirst(s, id);
    SortedPrefix(s.list, s.data);
    SerialsDiffer(s);
    hide GetFirst, Sorted, Threaded;
    forall u | (u in s.list || u in s.data) && u.id == id && u != tx ensures tx.serial < u.serial {
      assert u in s.list + s.data && tx in s.list + s.data;
    }
  }

  lemma StepKeepsOrder(s: State, writes: bool, st: Step, done: seq<Tx>)
    requires Ordered(s) && Threaded(s) && Enabled(s, st) && SameIdInOrder(s, done)
    ensures SameIdInOrder(Apply(s, writes, st), done + if st.Return? then Working(s, st.id) else [])
  {
    hide GetFirst, Sorted, Threaded, Ordered, Overlapping, Without, Accept;
    assert done + [] == done;
    match st
    case Address(r) =>
      if r.Some? && s.ready {
        AcceptKeepsOrder(s, writes, r.value, done);
      }
    case Return(id) => ReturnKeepsOrder(s, writes, id, done);
    case _ =>
  }

  lemma {:induction false} RunKeepsOrder(states: seq<State>, writes: bool, steps: seq<Step>, k: nat)
    requires IsRun(states, writes, steps) && k <= |steps|
    ensures |states| == |steps| + 1 && SameIdInOrder(states[k], ReturnsBy(states, steps, k))
  {
    hide Apply, Enabled, Invariant, IsRun, SameIdInOrder, Ordered, Threaded;
    RunStart(states, writes, steps);
    if k == 0 {
      StartKeepsOrder();
    } else {
      RunKeepsOrder(states, writes, steps, k - 1);
      RunStep(states, writes, steps, k);
      InvariantHas(states[k - 1], writes);
      StepKeepsOrder(states[k - 1], writes, steps[k - 1], ReturnsBy(states, steps, k - 1));
    }
  }

  lemma StartKeepsOrder()
    ensures SameIdInOrder(START, [])
  {
  }

  lemma InvariantHas(s: State, writes: bool)
    requires Invariant(s, writes)
    ensures Ordered(s) && Threaded(s)
  {
  }

  /** Answers with the same ID are handed over in the order in which their requests were accepted. */
  lemma AnswersInOrder(states: seq<State>, writes: bool, steps: seq<Step>, k: nat, i: nat, j: nat)
    requires IsRun(states, writes, steps) && k <= |steps|
    requires |states| == |steps| + 1 && i < j < |states[k].answered|
    requires states[k].answered[i].id == states[k].answered[j].id
    ensures states[k].answered[i].serial < states[k].answered[j].serial
  {
    RunKeepsOrder(states, writes, steps, k);
    FirstInFirstOut(states, writes, steps, k);
    hide IsRun;
    var all := ReturnsBy(states, steps, k);
    assert all[i] == states[k].answered[i] && all[j] == states[k].answered[j];
  }
}
