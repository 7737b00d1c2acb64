/** A payload cut into pieces that each lie in one cache line. */
module AcePayload {
  import opened AceTypes
  import opened Arithmetic
  import opened MachineTypes

  /** Byte p of a payload takes part in the access; an empty enable array enables everything. */
  predicate EnabledAt(be: seq<bool>, p: nat) {
    be == [] || be[p % |be|]
  }

  /** Bytes from pos on that lie in the same line: up to its end or that of the payload. */
  function ChunkLen(addr: nat, len: nat, pos: nat): (n: nat)
    requires pos < len
    ensures 0 < n <= len - pos && n <= LINE_SIZE
    ensures (addr + pos) % LINE_SIZE + n <= LINE_SIZE
    ensures n == len - pos || (addr + pos) % LINE_SIZE + n == LINE_SIZE
  {
    var left := LINE_SIZE - (addr + pos) % LINE_SIZE;
    if len - pos > left then left else len - pos
  }

  /** All bytes of a chunk have the chunk's key, at consecutive offsets. */
  lemma SameLine(addr: nat, i: nat, secure: bool)
    requires addr % LINE_SIZE + i < LINE_SIZE
    ensures KeyOf(addr + i, secure) == KeyOf(addr, secure)
    ensures (addr + i) % LINE_SIZE == addr % LINE_SIZE + i
  {
    var q, r := addr / LINE_SIZE, addr % LINE_SIZE;
    assert addr + i == LINE_SIZE * q + (r + i);
    ModUnique(addr + i, LINE_SIZE, q, r + i);
  }

  function ChunkStore(addr: nat, data: seq<Byte>, be: seq<bool>, pos: nat): (st: Store)
    requires pos < |data|
    ensures st.Fits()
    ensures |st.data| == ChunkLen(addr, |data|, pos)
    ensures forall i :: 0 <= i < |st.data| ==> st.data[i] == data[pos + i]
  {
    var n := ChunkLen(addr, |data|, pos);
    Store((addr + pos) % LINE_SIZE, data[pos..pos + n],
          seq(n, i requires 0 <= i < n => EnabledAt(be, pos + i)))
  }

  /** The slot of an address: lines that follow each other use the slots in turn. */
  lemma SlotOf(addr: nat, secure: bool)
    ensures Index(KeyOf(addr, secure)) == (addr / LINE_SIZE) % NUM_LINES
  {
    var q := addr / LINE_SIZE;
    Regrouped(LINE_SIZE, NUM_LINES, q / NUM_LINES, q % NUM_LINES);
    SlotArithmetic(addr - addr % LINE_SIZE, LINE_SIZE, NUM_LINES, q / NUM_LINES, q % NUM_LINES);
  }

  lemma SlotArithmetic(x: nat, l: Positive, n: Positive, a: nat, b: nat)
    requires b < n && x == l * n * a + l * b
    ensures x % (l * n) / l == b
  {
    MulMonotone(l, b + 1, n);
    Regrouped(l, n, a, b);
    ModUnique(x, l * n, a, l * b);
    ModUnique(l * b, l, b, 0);
  }

  lemma Regrouped(l: nat, n: nat, a: nat, b: nat)
    ensures l * (n * a + b) == l * n * a + l * b
    ensures l * (b + 1) == l * b + l
  {
    assert l * (n * a) == l * n * a;
  }

  /** The byte enables sent with the chunk: a window of the payload's when they cover its data, else as many
      as there are, turned round to start at pos. */
  method EnableWindow(be: seq<bool>, len: nat, pos: nat, n: nat) returns (window: seq<bool>)
    requires 0 < n && pos + n <= len
    ensures forall i :: 0 <= i < n ==> (EnabledAt(window, i) <==> EnabledAt(be, pos + i))
    ensures |window| == if |be| >= len then n else |be|
  {
    if |be| >= len {
      window := be[pos..pos + n];
      forall i | 0 <= i < n ensures EnabledAt(window, i) <==> EnabledAt(be, pos + i) {
        SmallMod(i, n);
        SmallMod(pos + i, |be|);
      }
    } else {
      window := [];
      for i := 0 to |be|
        invariant |window| == i && forall x :: 0 <= x < i ==> window[x] == be[(pos + x) % |be|]
      {
        window := window + [be[(pos + i) % |be|]];
      }
      if be != [] {
        forall i | 0 <= i < n ensures EnabledAt(window, i) <==> EnabledAt(be, pos + i) {
          ModAdd(i, pos, |be|);
        }
      }
    }
  }

  /** The transaction sent for one chunk of a write-through store is the store the chunk stands for. */
  method SentChunk(addr: nat, data: seq<Byte>, be: seq<bool>, pos: nat) returns (w: Store)
    requires pos < |data|
    ensures w == ChunkStore(addr, data, be, pos)
  {
    var n := ChunkLen(addr, |data|, pos);
    var window := EnableWindow(be, |data|, pos, n);
    w := Store((addr + pos) % LINE_SIZE, data[pos..pos + n], seq(n, i requires 0 <= i < n => EnabledAt(window, i)));
  }

  /** The stores a payload stands for, from pos on. */
  function Chunks(addr: nat, secure: bool, data: seq<Byte>, be: seq<bool>, pos: nat): seq<(Key, Store)>
    requires pos <= |data|
    decreases |data| - pos
  {
    if pos == |data| then []
    else
      [(KeyOf(addr + pos, secure), ChunkStore(addr, data, be, pos))]
      + Chunks(addr, secure, data, be, pos + ChunkLen(addr, |data|, pos))
  }

  /** Every chunk that fills a whole line enables all its bytes. */
  predicate NoSparseLine(addr: nat, data: seq<Byte>, be: seq<bool>, pos: nat)
    requires pos <= |data|
    decreases |data| - pos
  {
    pos < |data| ==>
      var st := ChunkStore(addr, data, be, pos);
      (st.WholeLine() ==> st.NoSparse()) && NoSparseLine(addr, data, be, pos + ChunkLen(addr, |data|, pos))
  }

  /** What a MakeUnique makes of a whole line with gaps in its enables: the bytes left in the slot fill them. */
  function Filled(w: Store, b: Block): (f: Store)
    requires w.WholeLine()
    ensures f.WholeLine() && f.NoSparse() && Fills(f, w) && Merge(b, f) == Merge(b, w)
  {
    if w.NoSparse() then w
    else
      var f := Store(0, Merge(b, w), seq(LINE_SIZE, _ => true));
      assert forall n :: 0 <= n < LINE_SIZE ==> Merge(b, f)[n] == Merge(b, w)[n];
      f
  }

  /** f stores every byte that w enables, and is w unless w is a whole line with gaps. */
  predicate Fills(f: Store, w: Store) {
    f == w ||
    (w.WholeLine() && !w.NoSparse() && f.WholeLine() && f.NoSparse() &&
     forall i :: 0 <= i < LINE_SIZE && w.en[i] ==> f.data[i] == w.data[i])
  }

  /** The same store by store. */
  ghost predicate AllFill(own: seq<(Key, Store)>, chunks: seq<(Key, Store)>) {
    |own| == |chunks| && forall c :: 0 <= c < |own| ==> own[c].0 == chunks[c].0 && Fills(own[c].1, chunks[c].1)
  }

  lemma SameFill(own: seq<(Key, Store)>)
    ensures AllFill(own, own)
  {
  }

  lemma {:induction false} ChunksNotSparse(addr: nat, secure: bool, data: seq<Byte>, be: seq<bool>, pos: nat, c: nat)
    requires pos <= |data| && NoSparseLine(addr, data, be, pos) && c < |Chunks(addr, secure, data, be, pos)|
    ensures var w := Chunks(addr, secure, data, be, pos)[c].1; w.WholeLine() ==> w.NoSparse()
    decreases |data| - pos
  {
    hide ChunkStore, ChunkLen;
    if c > 0 {
      ChunksNotSparse(addr, secure, data, be, pos + ChunkLen(addr, |data|, pos), c - 1);
    }
  }

  /** Without a sparse whole line the stores are the chunks themselves. */
  lemma FillsExactly(addr: nat, secure: bool, data: seq<Byte>, be: seq<bool>, own: seq<(Key, Store)>)
    requires AllFill(own, Chunks(addr, secure, data, be, 0)) && NoSparseLine(addr, data, be, 0)
    ensures own == Chunks(addr, secure, data, be, 0)
  {
    hide NoSparseLine, Chunks;
    forall c | 0 <= c < |own| ensures own[c] == Chunks(addr, secure, data, be, 0)[c] {
      ChunksNotSparse(addr, secure, data, be, 0, c);
    }
  }

  /** A chunk goes out as WriteLineUnique when it fills the line and enables every byte. */
  predicate GoesWhole(w: Store) {
    w.WholeLine() && w.NoSparse()
  }

  /** A chunk whose own cached copy a write-through store keeps right: it goes out whole, starts before its
      own length, or enables no byte. */
  predicate Harmless(w: Store, pos: nat) {
    GoesWhole(w) || pos < |w.data| || w.EnablesNone()
  }

  /** Every chunk from pos on is harmless; a payload inside one line always is. */
  predicate AllHarmless(addr: nat, data: seq<Byte>, be: seq<bool>, pos: nat)
    requires pos <= |data|
    decreases |data| - pos
  {
    pos < |data| ==>
      Harmless(ChunkStore(addr, data, be, pos), pos) && AllHarmless(addr, data, be, pos + ChunkLen(addr, |data|, pos))
  }

  function NumChunks(addr: nat, len: nat, pos: nat): nat
    requires pos <= len
    decreases len - pos
  {
    if pos == len then 0 else 1 + NumChunks(addr, len, pos + ChunkLen(addr, len, pos))
  }

  lemma NumChunksNext(addr: nat, len: nat, pos: nat)
    requires pos <= len
    ensures NumChunks(addr, len, len) == 0
    ensures pos < len ==> NumChunks(addr, len, pos) == 1 + NumChunks(addr, len, pos + ChunkLen(addr, len, pos))
  {
  }

  /** The payload is cut at pos: `own` are the chunks before it, `done` of them. */
  ghost predicate Cut(addr: nat, secure: bool, data: seq<Byte>, be: seq<bool>, pos: nat,
                      own: seq<(Key, Store)>, done: nat)
  {
    && pos <= |data|
    && own + Chunks(addr, secure, data, be, pos) == Chunks(addr, secure, data, be, 0)
    && done + NumChunks(addr, |data|, pos) == NumChunks(addr, |data|, 0)
  }

  lemma CutStart(addr: nat, secure: bool, data: seq<Byte>, be: seq<bool>)
    ensures Cut(addr, secure, data, be, 0, [], 0)
  {
  }

  lemma CutNext(addr: nat, secure: bool, data: seq<Byte>, be: seq<bool>, pos: nat, own: seq<(Key, Store)>, done: nat)
    requires Cut(addr, secure, data, be, pos, own, done) && pos < |data|
    ensures Cut(addr, secure, data, be, pos + ChunkLen(addr, |data|, pos),
                own + [(KeyOf(addr + pos, secure), ChunkStore(addr, data, be, pos))], done + 1)
  {
  }

  lemma CutEnd(addr: nat, secure: bool, data: seq<Byte>, be: seq<bool>, own: seq<(Key, Store)>, done: nat)
    requires Cut(addr, secure, data, be, |data|, own, done)
    ensures own == Chunks(addr, secure, data, be, 0) && done == NumChunks(addr, |data|, 0)
  {
    assert own + [] == own;
  }
}
