/** Lines, addresses and partial writes shared by the ACE cache model. */
module AceTypes {
  import opened MachineTypes

  type Positive = n: nat | n > 0 witness 1

  /** CACHELINE_SZ and CACHE_SZ / CACHELINE_SZ: the template arguments, left arbitrary. */
  const LINE_SIZE: Positive
  const NUM_LINES: Positive

  type Block = b: seq<Byte> | |b| == LINE_SIZE ghost witness ZeroBlock()

  function ZeroBlock(): (b: seq<Byte>)
    ensures |b| == LINE_SIZE
  {
    seq(LINE_SIZE, i => 0)
  }

  function ZeroBlockAt(k: Key): (b: Block) {
    ZeroBlock()
  }

  /** A cache line's address: the aligned address and the security world it belongs to. */
  datatype Key = Key(tag: nat, secure: bool)

  /** Memory by line; it has a block for every key. */
  type Memory = m: imap<Key, Block> | forall k: Key :: k in m ghost witness ZeroMemory()

  ghost function ZeroMemory(): (m: imap<Key, Block>)
    ensures forall k: Key :: k in m
  {
    imap k: Key :: ZeroBlockAt(k)
  }

  function KeyOf(addr: nat, secure: bool): Key {
    Key(addr - addr % LINE_SIZE, secure)
  }

  /** The direct-mapped slot of a key. */
  function Index(k: Key): (n: nat)
    ensures n < NUM_LINES
  {
    var n := (k.tag % (LINE_SIZE * NUM_LINES)) / LINE_SIZE;
    DivisionBound(k.tag % (LINE_SIZE * NUM_LINES), LINE_SIZE, NUM_LINES);
    n
  }

  lemma DivisionBound(x: nat, d: Positive, n: nat)
    requires x < d * n
    ensures x / d < n
  {
  }

  /** A write of `data` at `off` inside one line, byte by byte under the enables `en`. */
  datatype Store = Store(off: nat, data: seq<Byte>, en: seq<bool>) {
    predicate Fits() {
      |data| == |en| && off + |data| <= LINE_SIZE
    }

    predicate WholeLine() {
      Fits() && off == 0 && |data| == LINE_SIZE
    }

    predicate NoSparse() {
      forall i :: 0 <= i < |en| ==> en[i]
    }

    predicate EnablesNone() {
      forall i :: 0 <= i < |en| ==> !en[i]
    }

    predicate Covers(i: nat) {
      off <= i < off + |data| && i - off < |en| && en[i - off]
    }
  }

  function Merge(b: Block, st: Store): (r: Block)
  {
    seq(LINE_SIZE, i requires 0 <= i < LINE_SIZE => if st.Covers(i) then st.data[i - st.off] else b[i])
  }

  datatype Line = Line(valid: bool, key: Key, shared: bool, dirty: bool, data: Block)
}
