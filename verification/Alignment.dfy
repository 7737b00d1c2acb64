/** How the aligner cuts a payload, and what payloads and their pieces mean. */
module Alignment {
  import opened Arithmetic
  import opened Bits
  import opened MachineTypes

  const WRAP := 0x1_0000_0000_0000_0000

  /** A transaction on the bytes offset .. offset + len of a data buffer; `enables` repeats over the
      data, and no enables at all enable every byte. */
  datatype Payload = Payload(write: bool, addr: U64, offset: nat, len: U32, width: U32, enables: seq<bool>)

  /** The constructor arguments; a validator may let a streaming burst through in one piece. */
  datatype Limits = Limits(busWidth: U32, maxLen: U64, boundary: U64, natural: bool,
                           accepts: Option<(U64, U32, U32) -> bool>)

  predicate Usable(l: Limits) {
    l.maxLen > 0 && l.boundary > 0 && l.busWidth >= 8
  }

  // ----- what a payload means

  /** A width of 0 stands for no streaming. */
  function StreamingWidth(p: Payload): (w: U32)
    ensures p.len > 0 ==> w > 0
  {
    if p.width == 0 then p.len else p.width
  }

  /** 64-bit addition. */
  function Wrapped(a: nat, b: nat): U64 {
    (a + b) % WRAP
  }

  function AddressAt(p: Payload, i: nat): U64
    requires p.len > 0
  {
    Wrapped(p.addr, i % StreamingWidth(p))
  }

  predicate EnabledAt(p: Payload, i: nat) {
    p.enables == [] || p.enables[i % |p.enables|]
  }

  type Space = U64 -> Byte

  function Put(m: Space, a: U64, b: Byte): Space {
    (x: U64) => if x == a then b else m(x)
  }

  /** Memory after the first n bytes of a write: one byte after the other, a later one on top. */
  function Written(m: Space, data: seq<Byte>, p: Payload, n: nat): Space
    requires n <= p.len && p.offset + p.len <= |data|
  {
    if n == 0 then m
    else
      var before := Written(m, data, p, n - 1);
      if EnabledAt(p, n - 1) then Put(before, AddressAt(p, n - 1), data[p.offset + n - 1]) else before
  }

  /** The buffer after the first n bytes of a read. */
  function Fetched(m: Space, data: seq<Byte>, p: Payload, n: nat): (r: seq<Byte>)
    requires n <= p.len && p.offset + p.len <= |data|
    ensures |r| == |data|
  {
    if n == 0 then data
    else
      var before := Fetched(m, data, p, n - 1);
      if EnabledAt(p, n - 1) then before[p.offset + n - 1 := m(AddressAt(p, n - 1))] else before
  }

  /** Byte i of the payload is enabled, and where it goes. */
  predicate Enables(p: Payload, i: nat) {
    |p.enables| > 0 ==> p.enables[i % |p.enables|]
  }

  function Place(p: Payload, i: nat): nat
    requires p.len > 0
  {
    (p.addr + i % (if p.width > 0 then p.width else p.len)) % 0x1_0000_0000_0000_0000
  }

  lemma MeaningOf(p: Payload, i: nat)
    requires p.len > 0
    ensures AddressAt(p, i) == Place(p, i) && (EnabledAt(p, i) <==> Enables(p, i))
  {
  }

  /** Byte i of the payload is enabled and goes to x. */
  predicate GoesTo(p: Payload, i: nat, x: U64)
    requires p.len > 0
  {
    Enables(p, i) && Place(p, i) == x
  }

  /** After the first n bytes of a write a place holds the last enabled byte that goes there. */
  lemma {:induction false} WrittenMeans(m: Space, data: seq<Byte>, p: Payload, n: nat, x: U64, i: nat)
    requires n <= p.len && p.offset + p.len <= |data| && i < n
    requires GoesTo(p, i, x) && forall j :: i < j < n ==> !GoesTo(p, j, x)
    ensures Written(m, data, p, n)(x) == data[p.offset + i]
  {
    hide AddressAt, EnabledAt, GoesTo;
    OneByte(m, data, p, n, x);
    if i < n - 1 {
      WrittenMeans(m, data, p, n - 1, x, i);
    }
  }

  /** And a place nothing goes to is left alone. */
  lemma {:induction false} NotWritten(m: Space, data: seq<Byte>, p: Payload, n: nat, x: U64)
    requires n <= p.len && p.offset + p.len <= |data|
    requires forall j :: 0 <= j < n ==> !GoesTo(p, j, x)
    ensures Written(m, data, p, n)(x) == m(x)
  {
    hide AddressAt, EnabledAt, GoesTo;
    if n > 0 {
      OneByte(m, data, p, n, x);
      NotWritten(m, data, p, n - 1, x);
    }
  }

  lemma OneByte(m: Space, data: seq<Byte>, p: Payload, n: nat, x: U64)
    requires 0 < n <= p.len && p.offset + p.len <= |data|
    ensures Written(m, data, p, n)(x) ==
            if GoesTo(p, n - 1, x) then data[p.offset + n - 1] else Written(m, data, p, n - 1)(x)
  {
    MeaningOf(p, n - 1);
    hide AddressAt, EnabledAt, Enables, Place;
  }

  /** After the first n bytes of a read the buffer holds what memory has for each enabled one. */
  lemma {:induction false} FetchedMeans(m: Space, data: seq<Byte>, p: Payload, n: nat, b: nat)
    requires n <= p.len && p.offset + p.len <= |data| && b < |data|
    ensures Fetched(m, data, p, n)[b] ==
            if p.offset <= b < p.offset + n && Enables(p, b - p.offset) then m(Place(p, b - p.offset)) else data[b]
  {
    if n > 0 {
      hide Place, AddressAt, EnabledAt, Enables;
      FetchedMeans(m, data, p, n - 1, b);
      MeaningOf(p, n - 1);
    }
  }

  // ----- the cut

  /** The largest power of two dividing an address; address 0 is divisible by every one of them. */
  function NaturalAlignment(addr: U64): (r: nat)
    ensures r == if addr == 0 then WRAP - 1 else Pow2(TrailingZeros(addr))
  {
    Pow2Of64();
    if addr == 0 then WRAP - 1
    else
      AndNegate(addr, 64);
      And(addr, WRAP - addr)
  }

  lemma AlignmentDivides(addr: U64)
    ensures addr % NaturalAlignment(addr) == 0
  {
    if addr > 0 {
      DividesExactly(addr, TrailingZeros(addr));
    }
  }

  function MaxRange(l: Limits, addr: U64): (r: nat)
    requires Usable(l)
    ensures 0 < r <= l.maxLen
    ensures addr % l.boundary + r <= l.boundary
    ensures l.natural ==> r <= NaturalAlignment(addr)
  {
    var r := Min(l.maxLen, l.boundary - addr % l.boundary);
    if l.natural then Min(r, NaturalAlignment(addr) - addr % NaturalAlignment(addr)) else r
  }

  lemma RangeIs(l: Limits, addr: U64)
    requires Usable(l)
    ensures MaxRange(l, addr) == if l.natural then Min(Min(l.maxLen, l.boundary - addr % l.boundary),
                                                       NaturalAlignment(addr))
                                 else Min(l.maxLen, l.boundary - addr % l.boundary)
  {
    AlignmentDivides(addr);
  }

  /** The payload goes through untouched. */
  predicate Forwarded(l: Limits, p: Payload)
    requires Usable(l)
  {
    && (!l.natural || p.addr % NaturalAlignment(p.addr) == 0)
    && p.len < l.maxLen
    && p.len == MaxRange(l, p.addr)
    && StreamingWidth(p) == p.len
  }

  function PieceAddress(p: Payload, pos: nat): U64
    requires p.len > 0
  {
    Wrapped(p.addr, pos % StreamingWidth(p))
  }

  /** Length and streaming width of the piece cut at pos. */
  function Cut(l: Limits, p: Payload, pos: nat): (c: (U32, U32))
    requires Usable(l) && pos < p.len
    ensures 0 < c.0 <= p.len - pos && c.0 <= MaxRange(l, PieceAddress(p, pos))
  {
    var width := StreamingWidth(p);
    var len := Min(p.len - pos, MaxRange(l, PieceAddress(p, pos)));
    if pos % width != 0 then
      var t := Min(len, width - pos % width);
      (t, t)
    else if width == p.len then (len, p.width)
    else if l.accepts.Some? && l.accepts.value(PieceAddress(p, pos), len, width) then (len, width)
    else
      var t := Min(len, Min(l.busWidth / 8, width));
      (t, t)
  }

  /** |enables| enables from position pos on, out of two copies side by side. */
  function Slide(enables: seq<bool>, pos: nat): (r: seq<bool>)
    ensures |r| == |enables|
  {
    if enables == [] then []
    else (enables + enables)[pos % |enables|..pos % |enables| + |enables|]
  }

  function Piece(l: Limits, p: Payload, pos: nat): Payload
    requires Usable(l) && pos < p.len
  {
    var c := Cut(l, p, pos);
    Payload(p.write, PieceAddress(p, pos), p.offset + pos, c.0, c.1, Slide(p.enables, pos))
  }

  /** The pieces from pos to the end. */
  function Pieces(l: Limits, p: Payload, pos: nat): (r: seq<Payload>)
    requires Usable(l) && pos <= p.len
    decreases p.len - pos
  {
    if pos == p.len then []
    else [Piece(l, p, pos)] + Pieces(l, p, pos + Piece(l, p, pos).len)
  }

  /** Everything sent on when every piece succeeds. */
  function Sent(l: Limits, p: Payload): seq<Payload>
    requires Usable(l)
  {
    if Forwarded(l, p) then [p] else Pieces(l, p, 0)
  }

  // ----- the limits hold

  /** Non-empty, short enough, inside one boundary window, and no longer than its address is aligned. */
  predicate Within(l: Limits, q: Payload)
    requires Usable(l)
  {
    && 0 < q.len <= l.maxLen
    && q.addr % l.boundary + q.len <= l.boundary
    && (l.natural ==> q.len <= NaturalAlignment(q.addr))
  }

  /** The pieces lie one after the other from pos to the end. */
  predicate Tiles(qs: seq<Payload>, start: nat, end: nat)
    decreases |qs|
  {
    if qs == [] then start == end
    else qs[0].offset == start && qs[0].len > 0 && Tiles(qs[1..], start + qs[0].len, end)
  }

  lemma {:induction false} PiecesTile(l: Limits, p: Payload, pos: nat)
    requires Usable(l) && pos <= p.len
    ensures Tiles(Pieces(l, p, pos), p.offset + pos, p.offset + p.len)
    ensures forall q :: q in Pieces(l, p, pos) ==> Within(l, q)
    decreases p.len - pos
  {
    if pos < p.len {
      PiecesTile(l, p, pos + Piece(l, p, pos).len);
    }
  }

  lemma SentWithinLimits(l: Limits, p: Payload)
    requires Usable(l)
    ensures Tiles(Sent(l, p), p.offset, p.offset + p.len)
    ensures forall q :: q in Sent(l, p) ==> Within(l, q)
  {
    if Forwarded(l, p) {
      assert Tiles(Sent(l, p)[1..], p.offset + p.len, p.offset + p.len);
    } else {
      PiecesTile(l, p, 0);
    }
  }

  // ----- what decides the length of a piece

  /** Length up to the end of the payload or the first limit of the address. */
  function Offered(l: Limits, left: nat, addr: U64): (n: nat)
    requires Usable(l)
    ensures n <= left
  {
    var n := Min(Min(left, l.maxLen), l.boundary - addr % l.boundary);
    if l.natural then Min(n, NaturalAlignment(addr)) else n
  }

  /** The validator lets a piece of n bytes at this address go over rows of w bytes. */
  predicate LetsThrough(l: Limits, addr: U64, n: nat, w: nat) {
    n < 0x1_0000_0000 && w < 0x1_0000_0000 && l.accepts.Some? && l.accepts.value(addr, n, w)
  }

  /** A piece of a streaming payload that starts inside a row ends in it; one that starts a row goes over the
      rows only when the validator lets it, and otherwise is no wider than the bus and the row.  Without
      streaming the first piece keeps the payload's width. */
  ghost predicate Streamed(l: Limits, p: Payload, q: Payload)
    requires Usable(l) && p.len > 0
  {
    var (w, pos) := (if p.width == 0 then p.len else p.width, q.offset - p.offset);
    && 0 <= pos < p.len
    && if pos % w != 0 then pos % w + q.len <= w && q.width == q.len
       else if w == p.len then q.width == p.width
       else if LetsThrough(l, q.addr, Offered(l, p.len - pos, q.addr), w)
       then q.width == w && q.len == Offered(l, p.len - pos, q.addr)
       else q.len <= l.busWidth / 8 && q.len <= w && q.width == q.len
  }

  /** A piece of n bytes at the place of q would break a limit. */
  ghost predicate TooLong(l: Limits, p: Payload, q: Payload, n: nat)
    requires Usable(l) && p.len > 0 && p.offset <= q.offset <= p.offset + p.len
  {
    var (w, pos) := (if p.width == 0 then p.len else p.width, q.offset - p.offset);
    || pos + n > p.len || n > l.maxLen || q.addr % l.boundary + n > l.boundary
    || (l.natural && n > NaturalAlignment(q.addr))
    || (pos % w != 0 && pos % w + n > w)
    || (pos % w == 0 && w != p.len && !LetsThrough(l, q.addr, Offered(l, p.len - pos, q.addr), w) &&
        (n > l.busWidth / 8 || n > w))
  }

  lemma PieceStreamed(l: Limits, p: Payload, pos: nat)
    requires Usable(l) && pos < p.len
    ensures Streamed(l, p, Piece(l, p, pos))
    ensures forall n :: n > Piece(l, p, pos).len ==> TooLong(l, p, Piece(l, p, pos), n)
  {
    hide MaxRange, PieceAddress, Slide, NaturalAlignment;
    RangeIs(l, PieceAddress(p, pos));
  }

  lemma {:induction false} FromPosition(l: Limits, p: Payload, pos: nat, q: Payload) returns (at: nat)
    requires Usable(l) && pos <= p.len && q in Pieces(l, p, pos)
    ensures at < p.len && q == Piece(l, p, at)
    decreases p.len - pos
  {
    hide Slide, MaxRange, PieceAddress;
    if q == Piece(l, p, pos) {
      at := pos;
    } else {
      at := FromPosition(l, p, pos + Piece(l, p, pos).len, q);
    }
  }

  /** Every transaction sent obeys the rules for streaming, and is as long as all the limits together allow. */
  lemma SentStreamed(l: Limits, p: Payload, q: Payload)
    requires Usable(l) && q in Sent(l, p)
    ensures p.len > 0 && Streamed(l, p, q)
    ensures forall n :: n > q.len ==> TooLong(l, p, q, n)
  {
    FastPathAgrees(l, p);
    hide Streamed, TooLong, Piece, Pieces, Forwarded;
    var at := FromPosition(l, p, 0, q);
    PieceStreamed(l, p, at);
  }

  /** Forwarding a payload untouched is the same as cutting it. */
  lemma FastPathAgrees(l: Limits, p: Payload)
    requires Usable(l)
    ensures Sent(l, p) == Pieces(l, p, 0)
  {
    if Forwarded(l, p) {
      assert Slide(p.enables, 0) == p.enables;
      SmallMod(0, StreamingWidth(p));
      assert PieceAddress(p, 0) == p.addr;
      hide MaxRange, NaturalAlignment, Slide, PieceAddress;
      assert Piece(l, p, 0) == p;
      assert Pieces(l, p, p.len) == [];
    }
  }

  // ----- the pieces mean what the payload meant

  /** The cut keeps to one row of the streaming window, or starts at one and keeps its width. */
  lemma CutKeepsRow(l: Limits, p: Payload, pos: nat)
    requires Usable(l) && pos < p.len
    ensures var w, q := StreamingWidth(p), Piece(l, p, pos);
            || (q.len <= StreamingWidth(q) && pos % w + q.len <= w)
            || (pos % w == 0 && StreamingWidth(q) == w)
  {
    hide MaxRange, PieceAddress, Slide;
  }

  lemma SameColumn(pos: nat, i: nat, w: nat, v: nat)
    requires w > 0 && v > 0
    requires (i < v && pos % w + i < w) || (pos % w == 0 && v == w)
    ensures pos % w + i % v == (pos + i) % w
  {
    ModAdd(pos, i, w);
    if i < v && pos % w + i < w {
      SmallMod(i, v);
      SmallMod(pos % w + i, w);
    }
  }

  /** Byte i of the piece cut at pos is byte pos + i of the payload: where it goes. */
  lemma PieceAddresses(l: Limits, p: Payload, pos: nat, i: nat)
    requires Usable(l) && pos < p.len && i < Piece(l, p, pos).len
    ensures AddressAt(Piece(l, p, pos), i) == AddressAt(p, pos + i)
    ensures Place(Piece(l, p, pos), i) == Place(p, pos + i)
  {
    hide Cut, Slide, StreamingWidth, Wrapped;
    MeaningOf(p, pos + i);
    MeaningOf(Piece(l, p, pos), i);
    var w, v := StreamingWidth(p), StreamingWidth(Piece(l, p, pos));
    CutKeepsRow(l, p, pos);
    SameColumn(pos, i, w, v);
    WrapTwice(p.addr, pos % w, i % v, (pos + i) % w);
  }

  lemma WrapTwice(addr: nat, column: nat, i: nat, sum: nat)
    requires column + i == sum
    ensures Wrapped(Wrapped(addr, column), i) == Wrapped(addr, sum)
  {
    ModAdd(addr + column, i, WRAP);
  }

  /** Whether it is enabled. */
  lemma PieceEnables(l: Limits, p: Payload, pos: nat, i: nat)
    requires Usable(l) && pos < p.len
    ensures EnabledAt(Piece(l, p, pos), i) == EnabledAt(p, pos + i)
    ensures Enables(Piece(l, p, pos), i) == Enables(p, pos + i)
  {
    var n := |p.enables|;
    if n > 0 {
      ModAdd(pos, i, n);
      ModAdd(i, pos % n, n);
      var k := pos % n + i % n;
      if k < n {
        SmallMod(k, n);
      } else {
        ModDrop(k, n);
        SmallMod(k - n, n);
      }
    }
  }

  lemma {:induction false} PieceWrites(l: Limits, p: Payload, pos: nat, m: Space, data: seq<Byte>, n: nat)
    requires Usable(l) && pos < p.len && p.offset + p.len <= |data| && n <= Piece(l, p, pos).len
    ensures Written(Written(m, data, p, pos), data, Piece(l, p, pos), n) == Written(m, data, p, pos + n)
  {
    hide AddressAt, EnabledAt, Cut, Slide, PieceAddress;
    if n > 0 {
      PieceWrites(l, p, pos, m, data, n - 1);
      PieceAddresses(l, p, pos, n - 1);
      PieceEnables(l, p, pos, n - 1);
    }
  }

  lemma {:induction false} PieceFetches(l: Limits, p: Payload, pos: nat, m: Space, data: seq<Byte>, n: nat)
    requires Usable(l) && pos < p.len && p.offset + p.len <= |data| && n <= Piece(l, p, pos).len
    ensures Fetched(m, Fetched(m, data, p, pos), Piece(l, p, pos), n) == Fetched(m, data, p, pos + n)
  {
    hide AddressAt, EnabledAt, Cut, Slide, PieceAddress;
    if n > 0 {
      PieceFetches(l, p, pos, m, data, n - 1);
      PieceAddresses(l, p, pos, n - 1);
      PieceEnables(l, p, pos, n - 1);
    }
  }

  // ----- how many pieces

  /** Pieces of m bytes needed for n bytes. */
  function RoundedUp(n: nat, m: nat): nat
    requires m > 0
  {
    if n == 0 then 0 else if n <= m then 1 else 1 + RoundedUp(n - m, m)
  }

  lemma RoundedUpNext(n: nat, m: nat)
    requires m > 0 && n > 0
    ensures RoundedUp(n, m) >= 1 && (n > m ==> RoundedUp(n, m) == 1 + RoundedUp(n - m, m))
  {
  }

  lemma {:induction false} RoundedUpBound(n: nat, m: nat)
    requires m > 0
    ensures RoundedUp(n, m) <= n / m + 1
  {
    if n > m {
      ModDrop(n, m);
      RoundedUpBound(n - m, m);
    }
  }

  lemma {:induction false} RoundedUpMonotone(k: nat, n: nat, m: nat)
    requires m > 0 && k <= n
    ensures RoundedUp(k, m) <= RoundedUp(n, m)
  {
    if k > m {
      RoundedUpMonotone(k - m, n - m, m);
    }
  }

  /** Powers of two for the length and address limits, no streaming, natural alignment on. */
  predicate Binary(l: Limits, p: Payload, a: nat, b: nat) {
    Usable(l) && l.natural && l.maxLen == Pow2(a) && l.boundary == Pow2(b) && p.len > 0 && StreamingWidth(p) == p.len
  }

  /** What is left of a boundary window is a multiple of every smaller power of two dividing the address. */
  lemma WindowLeft(addr: nat, j: nat, b: nat)
    requires j <= b && addr % Pow2(j) == 0
    ensures Pow2(b) - addr % Pow2(b) >= Pow2(j)
  {
    Pow2Divides(j, b);
    ReducedMultiple(addr, Pow2(b), Pow2(j));
    DifferenceOfMultiples(Pow2(b), addr % Pow2(b), Pow2(j));
    PositiveMultiple(Pow2(b) - addr % Pow2(b), Pow2(j));
  }

  /** At an address divisible by both limits the piece may be as long as the smaller limit. */
  lemma AlignedRange(l: Limits, addr: U64, a: nat, b: nat)
    requires Usable(l) && l.natural && l.maxLen == Pow2(a) && l.boundary == Pow2(b)
    requires addr % Pow2(Min(a, b)) == 0
    ensures MaxRange(l, addr) == Pow2(Min(a, b))
  {
    hide Pow2, TrailingZeros, MaxRange, NaturalAlignment;
    RangeIs(l, addr);
    WindowLeft(addr, Min(a, b), b);
    Pow2Grows(Min(a, b), a);
    if addr > 0 {
      DividesExactly(addr, Min(a, b));
      Pow2Grows(Min(a, b), TrailingZeros(addr));
    }
  }

  /** Elsewhere it is as long as the address is aligned. */
  lemma UnalignedRange(l: Limits, addr: U64, a: nat, b: nat)
    requires Usable(l) && l.natural && l.maxLen == Pow2(a) && l.boundary == Pow2(b)
    requires addr % Pow2(Min(a, b)) != 0
    ensures addr > 0 && TrailingZeros(addr) < Min(a, b)
    ensures MaxRange(l, addr) == Pow2(TrailingZeros(addr))
  {
    hide Pow2, TrailingZeros, MaxRange, NaturalAlignment;
    SmallMod(0, Pow2(Min(a, b)));
    RangeIs(l, addr);
    var z := TrailingZeros(addr);
    DividesExactly(addr, Min(a, b));
    DividesExactly(addr, z);
    WindowLeft(addr, z, b);
    Pow2Grows(z, a);
  }

  lemma WholeCut(l: Limits, p: Payload, pos: nat)
    requires Usable(l) && pos < p.len && StreamingWidth(p) == p.len
    ensures Piece(l, p, pos).len == Min(p.len - pos, MaxRange(l, PieceAddress(p, pos)))
    ensures PieceAddress(p, pos) == (p.addr + pos) % WRAP
  {
    SmallMod(pos, p.len);
  }

  /** The address after a piece of t bytes is divisible by whatever divides address and t and 2^64. */
  lemma NextAddress(p: Payload, pos: nat, t: nat, k: nat)
    requires p.len > 0 && StreamingWidth(p) == p.len && pos + t < p.len && k <= 64
    requires (PieceAddress(p, pos) + t) % Pow2(k) == 0
    ensures PieceAddress(p, pos + t) % Pow2(k) == 0
  {
    hide Pow2;
    SmallMod(pos, p.len);
    SmallMod(pos + t, p.len);
    ModAdd(p.addr + pos, t, WRAP);
    Pow2Of64();
    Pow2Divides(k, 64);
    ReducedMultiple(PieceAddress(p, pos) + t, WRAP, Pow2(k));
  }

  lemma PiecesNext(l: Limits, p: Payload, pos: nat)
    requires Usable(l) && pos < p.len
    ensures var t := Piece(l, p, pos).len;
            0 < t <= p.len - pos && |Pieces(l, p, pos)| == 1 + if t < p.len - pos then |Pieces(l, p, pos + t)| else 0
  {
  }

  /** Each piece cut for alignment at least doubles the alignment of the address after it, so from an
      address divisible by 2^j on there are few of them. */
  lemma {:induction false} PieceCount(l: Limits, p: Payload, a: nat, b: nat, pos: nat, j: nat)
    requires Binary(l, p, a, b) && pos < p.len && j <= Min(a, b) <= 64
    requires PieceAddress(p, pos) % Pow2(j) == 0
    ensures |Pieces(l, p, pos)| <= Min(a, b) - j + RoundedUp(p.len - pos, Pow2(Min(a, b)))
    decreases p.len - pos
  {
    hide Pow2, TrailingZeros, Pieces, Piece, PieceAddress, MaxRange, NaturalAlignment, RoundedUp;
    var k, addr, t := Min(a, b), PieceAddress(p, pos), Piece(l, p, pos).len;
    WholeCut(l, p, pos);
    PiecesNext(l, p, pos);
    RoundedUpNext(p.len - pos, Pow2(k));
    if addr % Pow2(k) == 0 {
      AlignedRange(l, addr, a, b);
      if t < p.len - pos {
        SumOfMultiples(addr, t, Pow2(k));
        NextAddress(p, pos, t, k);
        PieceCount(l, p, a, b, pos + t, k);
      }
    } else {
      UnalignedRange(l, addr, a, b);
      if t < p.len - pos {
        var z := TrailingZeros(addr);
        DividesExactly(addr, j);
        NextAlignment(addr);
        NextAddress(p, pos, t, z + 1);
        PieceCount(l, p, a, b, pos + t, z + 1);
        RoundedUpMonotone(p.len - pos - t, p.len - pos, Pow2(k));
      }
    }
  }

  /** At most log2(M) + len / M + 1 pieces, M the smaller of the two limits. */
  lemma SentCount(l: Limits, p: Payload, a: nat, b: nat)
    requires Binary(l, p, a, b)
    ensures |Sent(l, p)| <= Min(a, b) + p.len / Pow2(Min(a, b)) + 1
  {
    LogBelow64(l.maxLen, a);
    PieceCount(l, p, a, b, 0, 0);
    RoundedUpBound(p.len, Pow2(Min(a, b)));
  }

  lemma LogBelow64(x: U64, a: nat)
    requires x == Pow2(a)
    ensures a < 64
  {
    Pow2Of64();
    if a >= 64 {
      Pow2Grows(64, a);
    }
  }
}
