/** What stands on the XGMII lanes for a packet, symbol by symbol, and which symbols make a packet. */
module XgmiiWire {
  import opened Arithmetic
  import opened MachineTypes
  import opened Xgmii

  // ----- the encoder

  /** Symbol i of a packet: two words of idle, start, preamble, data, the fixed checksum, terminate, idle. */
  function SymbolAt(p: seq<Byte>, i: nat): Symbol {
    if i < 16 then Symbol(true, 0x07)
    else if i == 16 then Symbol(true, 0xfb)
    else if i < 23 then Symbol(false, 0x55)
    else if i == 23 then Symbol(false, 0xd5)
    else if i < 24 + |p| then Symbol(false, p[i - 24])
    else if i < 28 + |p| then Symbol(false, 0xc0 + (i - 24 - |p|))
    else if i == 28 + |p| then Symbol(true, 0xfd)
    else Symbol(true, 0x07)
  }

  /** Symbols of a packet: data, checksum and terminate fill words, with four words around them. */
  function Length(p: seq<Byte>): nat {
    (|p| + 12) / 8 * 8 + 32
  }

  lemma PacketIs(p: seq<Byte>)
    ensures |PacketSymbols(p)| == Length(p)
    ensures forall i :: 0 <= i < Length(p) ==> PacketSymbols(p)[i] == SymbolAt(p, i)
  {
    var head, body := Idles(16) + Preamble(), Body(p);
    HeadIs();
    BodyIs(p);
    hide Idles, Preamble, Body, Padding;
    assert PacketSymbols(p) == head + body + Idles(8);
  }

  lemma HeadIs()
    ensures forall i :: 0 <= i < 24 ==> (Idles(16) + Preamble())[i] == SymbolAt([], i)
  {
  }

  lemma BodyIs(p: seq<Byte>)
    ensures |Body(p)| == (|p| + 12) / 8 * 8
    ensures forall i :: 0 <= i < |Body(p)| ==> Body(p)[i] == SymbolAt(p, i + 24)
  {
    var bs := p + CHECKSUM;
    assert Body(p) == Data(bs) + [TERMINATE] + Idles(Padding(|p|));
    forall i | 0 <= i < |Body(p)| ensures Body(p)[i] == SymbolAt(p, i + 24) {
      if i < |bs| {
        assert Body(p)[i] == Symbol(false, bs[i]);
      }
    }
  }

  lemma {:induction false} WordsTenIs(xs: seq<Symbol>)
    requires |xs| % 8 == 0
    ensures |Words(TenGig, xs)| == |xs| / 8
    ensures forall i, l :: 0 <= i < |xs| / 8 && 0 <= l < 8 ==> Words(TenGig, xs)[i][l] == xs[8 * i + l]
  {
    if xs != [] {
      WordsTenIs(xs[8..]);
      forall i, l | 0 <= i < |xs| / 8 && 0 <= l < 8 ensures Words(TenGig, xs)[i][l] == xs[8 * i + l] {
        if i > 0 {
          assert Words(TenGig, xs)[i] == Words(TenGig, xs[8..])[i - 1];
          assert xs[8..][8 * (i - 1) + l] == xs[8 * i + l];
        }
      }
    }
  }

  lemma {:induction false} WordsOneIs(xs: seq<Symbol>)
    ensures |Words(OneGig, xs)| == |xs|
    ensures forall i :: 0 <= i < |xs| ==> Words(OneGig, xs)[i] == [xs[i]] + seq(7, _ => Symbol(true, 0))
  {
    if xs != [] {
      WordsOneIs(xs[1..]);
      assert xs[..1] == [xs[0]];
    }
  }

  /** The words on the wire for a packet: eight symbols each in 10G mode, one each, on lane 0, in 1G mode. */
  lemma PacketOnWire(mode: Mode, p: seq<Byte>)
    ensures |Encode(mode, p)| == if mode.TenGig? then Length(p) / 8 else Length(p)
    ensures mode.TenGig? ==>
              forall i, l :: 0 <= i < Length(p) / 8 && 0 <= l < 8 ==> Encode(mode, p)[i][l] == SymbolAt(p, 8 * i + l)
    ensures mode.OneGig? ==>
              forall i, l :: 0 <= i < Length(p) && 0 <= l < 8 ==>
                Encode(mode, p)[i][l] == if l == 0 then SymbolAt(p, i) else Symbol(true, 0)
  {
    PacketIs(p);
    hide Words, PacketSymbols, SymbolAt, Length;
    if mode.TenGig? {
      WordsTenIs(PacketSymbols(p));
    } else {
      WordsOneIs(PacketSymbols(p));
    }
  }

  // ----- the decoder

  /** Characters other than start, error and terminate are skipped, wherever they stand. */
  function Meant(xs: seq<Symbol>): seq<Symbol> {
    if xs == [] then []
    else if xs[0].ctrl && xs[0].data != 0xfb && xs[0].data != 0xfd && xs[0].data != 0xfe then Meant(xs[1..])
    else [xs[0]] + Meant(xs[1..])
  }

  lemma {:induction false} OthersSkipped(s: State, xs: seq<Symbol>)
    ensures Steps(s, xs) == Steps(s, Meant(xs))
    decreases |xs|
  {
    if xs != [] {
      OthersSkipped(Step(s, xs[0]).state, xs[1..]);
      var ys := Meant(xs);
      if ys != [] && ys[0] == xs[0] && ys == [xs[0]] + Meant(xs[1..]) {
        assert ys[1..] == Meant(xs[1..]);
      }
    }
  }

  /** Without a start character nothing comes out of a decoder that is not in a packet. */
  lemma {:induction false} NothingWithoutStart(xs: seq<Symbol>)
    requires forall i :: 0 <= i < |xs| ==> xs[i] != Symbol(true, 0xfb)
    ensures Steps(RESET, xs) == Effect(RESET, [])
  {
    if xs != [] {
      assert xs[0] != Symbol(true, 0xfb);
      assert Step(RESET, xs[0]) == Effect(RESET, []);
      NothingWithoutStart(xs[1..]);
    }
  }

  /** An error character ends the packet: nothing of it comes out. */
  lemma ErrorDrops(s: State, xs: seq<Symbol>)
    requires s.Gathering? && forall i :: 0 <= i < |xs| ==> xs[i] != Symbol(true, 0xfb)
    ensures Steps(s, [Symbol(true, 0xfe)] + xs) == Effect(RESET, [])
  {
    var all := [Symbol(true, 0xfe)] + xs;
    assert all[1..] == xs;
    NothingWithoutStart(xs);
  }

  predicate Lacks(bs: seq<Byte>, b: Byte) {
    forall i :: 0 <= i < |bs| ==> bs[i] != b
  }

  lemma {:induction false} NoMark(preamble55: bool, bs: seq<Byte>)
    requires Lacks(bs, if preamble55 then 0xd5 else 0x55)
    ensures Steps(Gathering(true, preamble55, false, []), Data(bs)) ==
            Effect(Gathering(true, preamble55, false, []), [])
  {
    if bs != [] {
      assert Data(bs)[1..] == Data(bs[1..]);
      assert Step(Gathering(true, preamble55, false, []), Data(bs)[0]) ==
             Effect(Gathering(true, preamble55, false, []), []);
      NoMark(preamble55, bs[1..]);
    }
  }

  lemma StepsOne(s: State, x: Symbol)
    ensures Steps(s, [x]) == Step(s, x)
  {
    assert Steps(Step(s, x).state, []) == Effect(Step(s, x).state, []);
  }

  /** Start, whatever comes before the first 55, whatever comes before the next d5, data, terminate: the data
      is gathered and its length announced less the four bytes of the checksum.  8192 bytes are too many. */
  lemma FrameExactly(s: State, junk: seq<Byte>, mid: seq<Byte>, bs: seq<Byte>)
    requires s.Gathering? && Lacks(junk, 0x55) && Lacks(mid, 0xd5)
    ensures Steps(s, [Symbol(true, 0xfb)] + Data(junk) + [Symbol(false, 0x55)] + Data(mid) + [Symbol(false, 0xd5)] +
                     Data(bs) + [Symbol(true, 0xfd)]) ==
            Effect(RESET, if |bs| < 8192 then [Frame((|bs| - 4) % 0x1_0000_0000, bs)] else [])
  {
    hide Steps, Step, Data;
    var first, second := [Symbol(true, 0xfb)] + Data(junk), [Symbol(false, 0x55)] + Data(mid);
    var rest := Data(bs) + [Symbol(true, 0xfd)];
    Opened(s, junk);
    Marked(mid);
    var waiting, seen := Gathering(true, false, false, []), Gathering(true, true, false, []);
    Through(seen, Symbol(false, 0xd5), STARTED);
    assert [Symbol(true, 0xfb)] + Data(junk) + [Symbol(false, 0x55)] + Data(mid) + [Symbol(false, 0xd5)] + Data(bs) +
           [Symbol(true, 0xfd)] == first + (second + ([Symbol(false, 0xd5)] + rest));
    StepsAppend(s, first, second + ([Symbol(false, 0xd5)] + rest));
    StepsAppend(waiting, second, [Symbol(false, 0xd5)] + rest);
    StepsAppend(seen, [Symbol(false, 0xd5)], rest);
    Closed(bs);
  }

  lemma Through(s: State, x: Symbol, s': State)
    requires s == Gathering(true, true, false, []) && x == Symbol(false, 0xd5) && s' == STARTED
    ensures Steps(s, [x]) == Effect(s', [])
  {
    StepsOne(s, x);
  }

  lemma Opened(s: State, junk: seq<Byte>)
    requires s.Gathering? && Lacks(junk, 0x55)
    ensures Steps(s, [Symbol(true, 0xfb)] + Data(junk)) == Effect(Gathering(true, false, false, []), [])
  {
    StepsOne(s, Symbol(true, 0xfb));
    StepsAppend(s, [Symbol(true, 0xfb)], Data(junk));
    NoMark(false, junk);
  }

  lemma Marked(mid: seq<Byte>)
    requires Lacks(mid, 0xd5)
    ensures Steps(Gathering(true, false, false, []), [Symbol(false, 0x55)] + Data(mid)) ==
            Effect(Gathering(true, true, false, []), [])
  {
    var waiting := Gathering(true, false, false, []);
    StepsOne(waiting, Symbol(false, 0x55));
    StepsAppend(waiting, [Symbol(false, 0x55)], Data(mid));
    NoMark(true, mid);
  }

  lemma Closed(bs: seq<Byte>)
    ensures Steps(STARTED, Data(bs) + [Symbol(true, 0xfd)]) ==
            Effect(RESET, if |bs| < 8192 then [Frame((|bs| - 4) % 0x1_0000_0000, bs)] else [])
  {
    hide Steps;
    assert Data(bs) + [Symbol(true, 0xfd)] == Data(bs) + [TERMINATE] + Idles(0);
    if |bs| < 8192 {
      StepsEnd(STARTED, bs, 0);
      assert STARTED.data + bs == bs;
    } else {
      var head, tail := bs[..BUFFER_SIZE], bs[BUFFER_SIZE..];
      assert Data(bs) + [TERMINATE] + Idles(0) == Data(head) + (Data(tail) + ([TERMINATE] + Idles(0)));
      StepsAppend(STARTED, Data(head), Data(tail) + ([TERMINATE] + Idles(0)));
      StepsAppend(RESET, Data(tail), [TERMINATE] + Idles(0));
      StepsFill(STARTED, head);
      StepsIgnored(tail);
      EndIgnored(0);
    }
  }

  /** A packet whose preamble is missing or unfinished is dropped. */
  lemma NoPreambleNoFrame(s: State, junk: seq<Byte>, mid: seq<Byte>)
    requires s.Gathering? && Lacks(junk, 0x55) && Lacks(mid, 0xd5)
    ensures Steps(s, [Symbol(true, 0xfb)] + Data(junk) + [Symbol(true, 0xfd)]) == Effect(RESET, [])
    ensures Steps(s, [Symbol(true, 0xfb)] + Data(junk) + [Symbol(false, 0x55)] + Data(mid) + [Symbol(true, 0xfd)]) ==
            Effect(RESET, [])
  {
    hide Steps, Data;
    var first, second := [Symbol(true, 0xfb)] + Data(junk), [Symbol(false, 0x55)] + Data(mid);
    Opened(s, junk);
    Marked(mid);
    StepsOne(Gathering(true, false, false, []), Symbol(true, 0xfd));
    StepsOne(Gathering(true, true, false, []), Symbol(true, 0xfd));
    StepsAppend(s, first, [Symbol(true, 0xfd)]);
    StepsAppend(s, first, second + [Symbol(true, 0xfd)]);
    StepsAppend(Gathering(true, false, false, []), second, [Symbol(true, 0xfd)]);
    assert first + (second + [Symbol(true, 0xfd)]) ==
           [Symbol(true, 0xfb)] + Data(junk) + [Symbol(false, 0x55)] + Data(mid) + [Symbol(true, 0xfd)];
  }
}
