/** What storing a payload means byte by byte, whatever chunks it is cut into. */
module AceBytes {
  import opened AceInterference
  import opened AcePayload
  import opened AceRefinement
  import opened AceRuns
  import opened AceTypes
  import opened Arithmetic
  import opened MachineTypes

  /** A memory after some stores, in order. */
  ghost function AfterStores(m: Memory, stores: seq<(Key, Store)>): Memory {
    if stores == [] then m
    else
      var before, last := AfterStores(m, stores[..|stores| - 1]), stores[|stores| - 1];
      before[last.0 := Merge(before[last.0], last.1)]
  }

  /** The payload enables byte p: its byte enables repeat, and none at all enable everything. */
  predicate Enables(be: seq<bool>, p: nat) {
    |be| > 0 ==> be[p % |be|]
  }

  /** Offset `off` of line k is where byte p of a payload at addr belongs, for some p from `from` up to `to`. */
  predicate Inside(addr: nat, secure: bool, from: nat, to: nat, k: Key, off: nat) {
    k.secure == secure && k.tag % LINE_SIZE == 0 && addr + from <= k.tag + off < addr + to
  }

  /** One place before and after bytes from..to of a payload are stored: it takes the payload's byte where
      that is enabled, and keeps its own everywhere else.  With `gaps` the places of disabled bytes are open. */
  predicate PlaceTakes(was: Byte, now: Byte, addr: nat, secure: bool, data: seq<Byte>, be: seq<bool>, from: nat,
                       to: nat, gaps: bool, k: Key, off: nat)
    requires to <= |data|
  {
    if !Inside(addr, secure, from, to, k, off) then now == was
    else if Enables(be, k.tag + off - addr) then now == data[k.tag + off - addr]
    else gaps || now == was
  }

  ghost predicate Takes(m: Memory, m': Memory, addr: nat, secure: bool, data: seq<Byte>, be: seq<bool>, from: nat,
                        to: nat, gaps: bool)
    requires to <= |data|
  {
    forall k: Key, off: nat | off < LINE_SIZE ::
      PlaceTakes(m[k][off], m'[k][off], addr, secure, data, be, from, to, gaps, k, off)
  }

  lemma SameTag(k: Key, off: nat, tag: nat, off': nat)
    requires k.tag % LINE_SIZE == 0 && tag % LINE_SIZE == 0 && off < LINE_SIZE && off' < LINE_SIZE
    requires k.tag + off == tag + off'
    ensures k.tag == tag && off == off'
  {
    QuotientUnique(LINE_SIZE, k.tag / LINE_SIZE, off, tag / LINE_SIZE, off');
  }

  lemma Aligned(a: nat)
    ensures (a - a % LINE_SIZE) % LINE_SIZE == 0
  {
    ModUnique(a - a % LINE_SIZE, LINE_SIZE, a / LINE_SIZE, 0);
  }

  /** A chunk stores exactly its part of the payload. */
  lemma ChunkTakes(m: Memory, addr: nat, secure: bool, data: seq<Byte>, be: seq<bool>, pos: nat, f: Store, gaps: bool)
    requires pos < |data| && Fills(f, ChunkStore(addr, data, be, pos)) && (gaps || f == ChunkStore(addr, data, be, pos))
    ensures var k := KeyOf(addr + pos, secure);
            Takes(m, m[k := Merge(m[k], f)], addr, secure, data, be, pos, pos + ChunkLen(addr, |data|, pos), gaps)
  {
    var key, n := KeyOf(addr + pos, secure), ChunkLen(addr, |data|, pos);
    hide ChunkStore, ChunkLen, KeyOf;
    forall k: Key, off: nat | off < LINE_SIZE
      ensures PlaceTakes(m[k][off], m[key := Merge(m[key], f)][k][off], addr, secure, data, be, pos, pos + n, gaps, k,
                         off)
    {
      PlaceOfChunk(addr, secure, pos, n, k, off);
      ChunkHolds(addr, data, be, pos);
    }
  }

  /** The places of a chunk are those of its own line that it reaches. */
  lemma PlaceOfChunk(addr: nat, secure: bool, pos: nat, n: nat, k: Key, off: nat)
    requires off < LINE_SIZE && (addr + pos) % LINE_SIZE + n <= LINE_SIZE
    ensures var o := (addr + pos) % LINE_SIZE;
            Inside(addr, secure, pos, pos + n, k, off) <==> k == KeyOf(addr + pos, secure) && o <= off < o + n
    ensures k == KeyOf(addr + pos, secure) ==> k.tag + off - addr == pos + off - (addr + pos) % LINE_SIZE
  {
    Aligned(addr + pos);
    if Inside(addr, secure, pos, pos + n, k, off) {
      SameTag(k, off, KeyOf(addr + pos, secure).tag, (addr + pos) % LINE_SIZE + (k.tag + off - addr - pos));
    }
  }

  lemma ChunkHolds(addr: nat, data: seq<Byte>, be: seq<bool>, pos: nat)
    requires pos < |data|
    ensures var w, n := ChunkStore(addr, data, be, pos), ChunkLen(addr, |data|, pos);
            && w.off == (addr + pos) % LINE_SIZE && |w.data| == |w.en| == n
            && (forall i :: 0 <= i < n ==> w.data[i] == data[pos + i])
            && (forall i :: 0 <= i < n ==> (w.en[i] <==> Enables(be, pos + i)))
  {
    var w := ChunkStore(addr, data, be, pos);
    forall i | 0 <= i < |w.en| ensures w.en[i] <==> Enables(be, pos + i) {
      assert w.en[i] == EnabledAt(be, pos + i);
    }
  }

  lemma TakesThen(a: Memory, b: Memory, c: Memory, addr: nat, secure: bool, data: seq<Byte>, be: seq<bool>, from: nat,
                  mid: nat, to: nat, gaps: bool)
    requires from <= mid <= to <= |data|
    requires Takes(a, b, addr, secure, data, be, from, mid, gaps) && Takes(b, c, addr, secure, data, be, mid, to, gaps)
    ensures Takes(a, c, addr, secure, data, be, from, to, gaps)
  {
    forall k: Key, off: nat | off < LINE_SIZE
      ensures PlaceTakes(a[k][off], c[k][off], addr, secure, data, be, from, to, gaps, k, off)
    {
      assert PlaceTakes(a[k][off], b[k][off], addr, secure, data, be, from, mid, gaps, k, off);
      assert PlaceTakes(b[k][off], c[k][off], addr, secure, data, be, mid, to, gaps, k, off);
    }
  }

  lemma {:induction false} StoresAppend(m: Memory, a: seq<(Key, Store)>, b: seq<(Key, Store)>)
    ensures AfterStores(m, a + b) == AfterStores(AfterStores(m, a), b)
    decreases |b|
  {
    if b == [] {
      assert a + b == a;
    } else {
      assert (a + b)[..|a + b| - 1] == a + b[..|b| - 1];
      StoresAppend(m, a, b[..|b| - 1]);
    }
  }

  lemma FirstStore(m: Memory, stores: seq<(Key, Store)>)
    requires stores != []
    ensures AfterStores(m, stores) ==
            AfterStores(m[stores[0].0 := Merge(m[stores[0].0], stores[0].1)], stores[1..])
  {
    assert stores == [stores[0]] + stores[1..];
    StoresAppend(m, [stores[0]], stores[1..]);
    assert AfterStores(m, []) == m;
    assert [stores[0]][..0] == [];
  }

  /** The stores of a payload, from pos on, do to any memory what the bytes of the payload say. */
  lemma {:induction false} StoresTake(m: Memory, addr: nat, secure: bool, data: seq<Byte>, be: seq<bool>, pos: nat,
                                      own: seq<(Key, Store)>, gaps: bool)
    requires pos <= |data| && AllFill(own, Chunks(addr, secure, data, be, pos))
    requires gaps || own == Chunks(addr, secure, data, be, pos)
    ensures Takes(m, AfterStores(m, own), addr, secure, data, be, pos, |data|, gaps)
    decreases |data| - pos
  {
    hide Takes, AfterStores, ChunkStore, Fills, KeyOf;
    if pos == |data| {
      NothingTaken(m, addr, secure, data, be, gaps);
      NoStores(m);
    } else {
      FirstChunk(addr, secure, data, be, pos, own);
      hide Chunks, ChunkLen, AllFill;
      var next := pos + ChunkLen(addr, |data|, pos);
      var k := KeyOf(addr + pos, secure);
      var m' := m[k := Merge(m[k], own[0].1)];
      FirstStore(m, own);
      ChunkTakes(m, addr, secure, data, be, pos, own[0].1, gaps);
      StoresTake(m', addr, secure, data, be, next, own[1..], gaps);
      TakesThen(m, m', AfterStores(m', own[1..]), addr, secure, data, be, pos, next, |data|, gaps);
    }
  }

  lemma NoStores(m: Memory)
    ensures AfterStores(m, []) == m
  {
  }

  lemma FirstChunk(addr: nat, secure: bool, data: seq<Byte>, be: seq<bool>, pos: nat, own: seq<(Key, Store)>)
    requires pos < |data| && AllFill(own, Chunks(addr, secure, data, be, pos))
    ensures var next := pos + ChunkLen(addr, |data|, pos);
            && own != [] && next <= |data| && own[0].0 == KeyOf(addr + pos, secure)
            && Fills(own[0].1, ChunkStore(addr, data, be, pos))
            && AllFill(own[1..], Chunks(addr, secure, data, be, next))
            && (own == Chunks(addr, secure, data, be, pos) ==>
                  own[0].1 == ChunkStore(addr, data, be, pos) && own[1..] == Chunks(addr, secure, data, be, next))
  {
    hide ChunkStore, ChunkLen, Fills, KeyOf;
  }

  lemma NothingTaken(m: Memory, addr: nat, secure: bool, data: seq<Byte>, be: seq<bool>, gaps: bool)
    ensures Takes(m, m, addr, secure, data, be, |data|, |data|, gaps)
  {
  }

  /** A stored payload is its bytes: after the stores of all its chunks every enabled byte p is at address
      addr + p, and every other place of memory is as it was. */
  lemma PayloadBytes(m: Memory, addr: nat, secure: bool, data: seq<Byte>, be: seq<bool>, k: Key, off: nat)
    requires off < LINE_SIZE
    ensures var p := k.tag + off - addr;
            AfterStores(m, Chunks(addr, secure, data, be, 0))[k][off] ==
            if k.secure == secure && k.tag % LINE_SIZE == 0 && 0 <= p < |data| && (|be| > 0 ==> be[p % |be|])
            then data[p] else m[k][off]
  {
    var m' := AfterStores(m, Chunks(addr, secure, data, be, 0));
    StoresTake(m, addr, secure, data, be, 0, Chunks(addr, secure, data, be, 0), false);
    hide Chunks, AfterStores;
    assert PlaceTakes(m[k][off], m'[k][off], addr, secure, data, be, 0, |data|, false, k, off);
  }

  // ----- the same on the log

  /** No other master stores to this place between the two logs. */
  ghost predicate LeftAlone(first: seq<Entry>, now: seq<Entry>, port: nat, k: Key, off: nat) {
    forall i :: |first| <= i < |now| && now[i].Stored? && now[i].port != port && now[i].key == k ==>
      !now[i].st.Covers(off)
  }

  /** Such a place holds what the own stores make of it. */
  lemma {:induction false} OwnReplayed(mem: Memory, first: seq<Entry>, now: seq<Entry>, port: nat,
                                       own: seq<(Key, Store)>, k: Key, off: nat)
    requires Progress(first, now, port, own) && LeftAlone(first, now, port, k, off) && off < LINE_SIZE
    ensures LastStored(mem, now, k, off) == AfterStores(Replay(mem, first), own)[k][off]
    decreases |now|
  {
    if |now| == |first| {
      assert now == first && own == [];
      ReplayIsLastStored(mem, first, k, off);
    } else {
      var n := |now| - 1;
      var before, e := now[..n], now[n];
      assert now == before + [e];
      hide OwnStores, LastStored, Replay, Merge, AfterStores;
      OwnStoresSnoc(before, e, port);
      OwnGrows(first, before, port);
      assert OwnStores(now, port) == OwnStores(first, port) + own;
      var part := OwnStores(before, port)[|OwnStores(first, port)|..];
      Cancel(OwnStores(first, port), own, part + if e.Stored? && e.port == port then [(e.key, e.st)] else []);
      OwnReplayed(mem, first, before, port, part, k, off);
      LastStoredSnoc(mem, before, e, k, off);
      if e.Stored? && e.port == port {
        OneMore(Replay(mem, first), part, e.key, e.st, k, off);
      } else {
        assert part + [] == part;
      }
    }
  }

  lemma OneMore(m: Memory, part: seq<(Key, Store)>, key: Key, w: Store, k: Key, off: nat)
    requires off < LINE_SIZE
    ensures AfterStores(m, part + [(key, w)])[k][off] ==
            if key == k && w.Covers(off) then w.data[off - w.off] else AfterStores(m, part)[k][off]
  {
    var all := part + [(key, w)];
    assert all[..|all| - 1] == part;
  }

  lemma Cancel(f: seq<(Key, Store)>, a: seq<(Key, Store)>, b: seq<(Key, Store)>)
    requires f + a == f + b
    ensures a == b
  {
    assert a == (f + a)[|f|..] && b == (f + b)[|f|..];
  }

  lemma {:induction false} OwnGrows(first: seq<Entry>, now: seq<Entry>, port: nat)
    requires first <= now
    ensures OwnStores(first, port) <= OwnStores(now, port)
    decreases |now|
  {
    if |now| > |first| {
      var n := |now| - 1;
      assert now == now[..n] + [now[n]];
      OwnGrows(first, now[..n], port);
      OwnStoresSnoc(now[..n], now[n], port);
    } else {
      assert now == first;
    }
  }

  /** Between two logs the payload has been stored: every place no other master stored to holds the byte
      last stored there before, or that of the payload. */
  ghost predicate PayloadStored(mem: Memory, first: seq<Entry>, now: seq<Entry>, port: nat, addr: nat, secure: bool,
                                data: seq<Byte>, be: seq<bool>, gaps: bool)
  {
    forall k: Key, off: nat | off < LINE_SIZE && LeftAlone(first, now, port, k, off) ::
      PlaceTakes(LastStored(mem, first, k, off), LastStored(mem, now, k, off), addr, secure, data, be, 0, |data|, gaps,
                 k, off)
  }

  lemma StoredOnLog(mem: Memory, first: seq<Entry>, now: seq<Entry>, port: nat, addr: nat, secure: bool,
                    data: seq<Byte>, be: seq<bool>, own: seq<(Key, Store)>, gaps: bool)
    requires Progress(first, now, port, own) && AllFill(own, Chunks(addr, secure, data, be, 0))
    requires gaps || own == Chunks(addr, secure, data, be, 0)
    ensures PayloadStored(mem, first, now, port, addr, secure, data, be, gaps)
  {
    var m := Replay(mem, first);
    StoresTake(m, addr, secure, data, be, 0, own, gaps);
    hide Chunks, AfterStores, Progress, AllFill, LeftAlone, LastStored, Replay;
    forall k: Key, off: nat | off < LINE_SIZE && LeftAlone(first, now, port, k, off)
      ensures PlaceTakes(LastStored(mem, first, k, off), LastStored(mem, now, k, off), addr, secure, data, be, 0,
                         |data|, gaps, k, off)
    {
      ReplayIsLastStored(mem, first, k, off);
      OwnReplayed(mem, first, now, port, own, k, off);
      assert PlaceTakes(m[k][off], AfterStores(m, own)[k][off], addr, secure, data, be, 0, |data|, gaps, k, off);
    }
  }
}
