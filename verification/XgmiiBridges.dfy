/** The two XGMII bridges as they run, proved against the wire format. */
module XgmiiBridges {
  import opened Arithmetic
  import opened Bits
  import opened MachineTypes
  import opened Xgmii

  // ----- the control mask of the encoder, shifted out bit by bit

  function Shifted(c: nat, i: nat): nat {
    if i == 0 then c else Shifted(c, i - 1) / 2
  }

  predicate Bit(c: nat, i: nat) {
    Shifted(c, i) % 2 == 1
  }

  /** Bytes with their control bits taken from a mask. */
  function Masked(buf: seq<Byte>, ctrl: nat): (xs: seq<Symbol>)
    ensures |xs| == |buf|
  {
    seq(|buf|, i requires 0 <= i < |buf| => Symbol(Bit(ctrl, i), buf[i]))
  }

  lemma {:induction false} ShiftedZero(i: nat)
    ensures Shifted(0, i) == 0
  {
    if i > 0 {
      ShiftedZero(i - 1);
    }
  }

  lemma {:induction false} OnesShifted(n: nat, i: nat)
    ensures Shifted(Pow2(n) - 1, i) == if i <= n then Pow2(n - i) - 1 else 0
  {
    if i > 0 {
      OnesShifted(n, i - 1);
    }
  }

  /** n ones above k zeros. */
  function Ones(n: nat, k: nat): nat {
    Pow2Grows(k, k + n);
    Pow2(k + n) - Pow2(k)
  }

  lemma {:induction false} MaskShifted(n: nat, k: nat, i: nat)
    ensures Shifted(Ones(n, k), i) == if i <= k then Ones(n, k - i) else Shifted(Ones(n, 0), i - k)
  {
    if i > 0 {
      MaskShifted(n, k, i - 1);
    }
  }

  lemma MaskBits(n: nat, k: nat, i: nat)
    ensures Bit(Ones(n, k), i) <==> k <= i < k + n
  {
    MaskShifted(n, k, i);
    if i >= k {
      OnesShifted(n, i - k);
    }
  }

  /** All ones shifted left inside 32 bits: bit i of the result is set from bit k on. */
  lemma ControlMask(k: nat, i: nat)
    requires k < 32 && i < 32
    ensures Bit((0xFFFF_FFFF * Pow2(k)) % 0x1_0000_0000, i) <==> i >= k
  {
    Pow2Of32();
    Pow2Grows(k, 32);
    MaskBits(32 - k, k, i);
    hide Pow2, Bit;
    var p := Pow2(k);
    ModUnique(0xFFFF_FFFF * p, 0x1_0000_0000, p - 1, 0x1_0000_0000 - p);
  }

  // ----- tlm2xgmii

  class Encoder {
    const mode: Mode
    var wire: seq<Word>   // the words driven so far, one a clock edge

    constructor (mode: Mode)
      ensures this.mode == mode && wire == []
    {
      this.mode, wire := mode, [];
    }

    method PushDataBuf(buf: seq<Byte>, ctrl: nat)
      modifies this
      ensures wire == old(wire) + Words(mode, Masked(buf, ctrl))
    {
      hide Words;
      var lanes := if mode.TenGig? then 8 else 1;
      ghost var xs := Masked(buf, ctrl);
      var i, c := 0, ctrl;
      NoWords(mode);
      while i < |buf|
        invariant i <= |buf| && c == Shifted(ctrl, i)
        invariant old(wire) + Words(mode, xs) == wire + Words(mode, xs[i..])
      {
        ghost var from, before := i, wire;
        var word := new Symbol[8](_ => UNUSED);
        var l := 0;
        while l < lanes && i < |buf|
          invariant 0 <= l <= lanes && i == from + l <= |buf| && c == Shifted(ctrl, i) && wire == before
          invariant forall k :: 0 <= k < 8 ==> word[k] == if k < l then xs[from + k] else UNUSED
        {
          word[l] := Symbol(c % 2 == 1, buf[i]);
          c := c / 2;
          i := i + 1;
          l := l + 1;
        }
        var driven: Word := word[..];
        NextWord(mode, xs[from..], driven);
        assert xs[from..][i - from..] == xs[i..];
        assert Words(mode, xs[from..]) == [driven] + Words(mode, xs[i..]);
        wire := wire + [driven];
        assert wire + Words(mode, xs[i..]) == before + Words(mode, xs[from..]);
      }
      assert xs[i..] == [];
    }

    method ProcessPacket(data: array<Byte>)
      modifies this
      ensures wire == old(wire) + Encode(mode, data[..])
    {
      hide Words, Masked, Encode;
      var len := data.Length;
      ghost var p := data[..];
      var idleSeq: seq<Byte> := [0x07, 0x07, 0x07, 0x07, 0x07, 0x07, 0x07, 0x07];
      var preambleSeq: seq<Byte> := [0xfb, 0x55, 0x55, 0x55, 0x55, 0x55, 0x55, 0xd5];
      IdlesMasked(idleSeq);
      PreambleMasked(preambleSeq);
      assert Idles(0) == [];
      NoWords(mode);
      for i := 0 to 2
        invariant wire == old(wire) + Words(mode, Idles(8 * i))
      {
        PushDataBuf(idleSeq, 0xff);
        WordsAppend(mode, Idles(8 * i), Idles(8));
        assert Idles(8 * i) + Idles(8) == Idles(8 * (i + 1));
      }
      PushDataBuf(preambleSeq, 1);
      var whole := len - len % 8;
      PushDataBuf(data[..whole], 0);
      DataMasked(p[..whole]);
      var last, n, ctrl := LastBytes(data[whole..]);
      PushDataBuf(last, ctrl);
      PushDataBuf(idleSeq, 0xff);
      PacketParts(mode, p, last, ctrl);
    }
  }

  lemma NoWords(mode: Mode)
    ensures Words(mode, []) == []
  {
  }

  /** Symbols the next word takes. */
  function Taken(mode: Mode, xs: seq<Symbol>): (n: nat)
    requires xs != []
    ensures 0 < n <= |xs| && n <= 8
  {
    if mode.OneGig? then 1 else if |xs| < 8 then |xs| else 8
  }

  lemma NextWord(mode: Mode, xs: seq<Symbol>, w: Word)
    requires xs != []
    requires forall k :: 0 <= k < 8 ==> w[k] == if k < Taken(mode, xs) then xs[k] else UNUSED
    ensures Words(mode, xs) == [w] + Words(mode, xs[Taken(mode, xs)..])
  {
    var n := Taken(mode, xs);
    NoWords(mode);
    assert w == xs[..n] + seq(8 - n, _ => UNUSED);
    if mode.TenGig? && |xs| < 8 {
      assert xs[..n] == xs && xs[n..] == [];
    } else if mode.TenGig? {
      assert w == xs[..8];
    }
  }

  /** What is left of the data, the checksum, the end character and idles, in eight or sixteen bytes, and
      the control bits for them. */
  method LastBytes(data: seq<Byte>) returns (last: seq<Byte>, len: nat, ctrl: nat)
    requires |data| < 8
    ensures len == |data| + 5 && |last| == (if len > 8 then 16 else 8)
    ensures Masked(last, ctrl) == Data(data + CHECKSUM) + [TERMINATE] + Idles(|last| - len)
  {
    var d := new Byte[16](_ => 0x07);
    for i := 0 to |data|
      invariant forall k :: 0 <= k < 16 ==> d[k] == if k < i then data[k] else 0x07
    {
      d[i] := data[i];
    }
    len := |data|;
    d[len], d[len + 1], d[len + 2], d[len + 3], d[len + 4] := 0xC0, 0xC1, 0xC2, 0xC3, 0xFD;
    len := len + 5;
    ctrl := (0xFFFF_FFFF * Pow2(len - 1)) % 0x1_0000_0000;
    last := d[..if len > 8 then 16 else 8];
    LastMasked(data, last, len, ctrl);
  }

  lemma LastMasked(data: seq<Byte>, last: seq<Byte>, len: nat, ctrl: nat)
    requires |data| < 8 && len == |data| + 5 <= |last| <= 16
    requires ctrl == (0xFFFF_FFFF * Pow2(len - 1)) % 0x1_0000_0000
    requires forall k :: 0 <= k < |last| ==>
               last[k] == if k < len - 1 then (data + CHECKSUM)[k] else if k == len - 1 then 0xFD else 0x07
    ensures Masked(last, ctrl) == Data(data + CHECKSUM) + [TERMINATE] + Idles(|last| - len)
  {
    forall k | 0 <= k < |last| ensures Bit(ctrl, k) <==> k >= len - 1 {
      ControlMask(len - 1, k);
    }
    hide Bit, Pow2;
  }

  lemma IdlesMasked(idles: seq<Byte>)
    requires idles == [0x07, 0x07, 0x07, 0x07, 0x07, 0x07, 0x07, 0x07]
    ensures Masked(idles, 0xff) == Idles(8)
  {
    Pow2Of8();
    assert Ones(8, 0) == 0xff;
    forall k | 0 <= k < 8 ensures Bit(0xff, k) {
      MaskBits(8, 0, k);
    }
    hide Bit, Pow2;
  }

  lemma PreambleMasked(preamble: seq<Byte>)
    requires preamble == [0xfb, 0x55, 0x55, 0x55, 0x55, 0x55, 0x55, 0xd5]
    ensures Masked(preamble, 1) == Xgmii.Preamble()
  {
    assert Ones(1, 0) == 1;
    forall k | 0 <= k < 8 ensures Bit(1, k) <==> k == 0 {
      MaskBits(1, 0, k);
    }
    hide Bit;
  }

  lemma DataMasked(data: seq<Byte>)
    ensures Masked(data, 0) == Data(data)
  {
    forall k | 0 <= k < |data| ensures !Bit(0, k) {
      ShiftedZero(k);
    }
    hide Bit;
  }

  lemma PaddingIs(n: nat)
    ensures Padding(n) == (if n % 8 + 5 > 8 then 16 else 8) - n % 8 - 5
  {
  }

  lemma PacketParts(mode: Mode, p: seq<Byte>, last: seq<Byte>, ctrl: nat)
    requires |last| == if |p| % 8 + 5 > 8 then 16 else 8
    requires var rest := p[|p| - |p| % 8..];
             Masked(last, ctrl) == Data(rest + CHECKSUM) + [TERMINATE] + Idles(|last| - |rest| - 5)
    ensures Encode(mode, p) == Words(mode, Idles(16)) + Words(mode, Xgmii.Preamble()) + Words(mode,
        Data(p[..|p| - |p| % 8])) +
                               Words(mode, Masked(last, ctrl)) + Words(mode, Idles(8))
  {
    hide Words, Masked, Padding;
    PaddingIs(|p|);
    var n := |p| - |p| % 8;
    var head, whole, end := Idles(16) + Xgmii.Preamble(), Data(p[..n]), Masked(last, ctrl);
    assert Padding(|p|) == |last| - |p[n..]| - 5;
    assert p == p[..n] + p[n..];
    assert Body(p) == whole + end by {
      assert Data(p + CHECKSUM) == whole + Data(p[n..] + CHECKSUM);
    }
    assert PacketSymbols(p) == head + (whole + (end + Idles(8)));
    WordsAppend(mode, Idles(16), Xgmii.Preamble());
    WordsAppend(mode, head, whole + (end + Idles(8)));
    WordsAppend(mode, whole, end + Idles(8));
    WordsAppend(mode, end, Idles(8));
  }

  // ----- xgmii2tlm

  class Decoder {
    const mode: Mode
    const buf: array<Byte>
    var len: nat
    var sofFound: bool
    var preamble55Found: bool
    var preambleD5Found: bool
    var overran: bool           // a byte was stored past the end of buf
    var sent: seq<Frame>        // the payloads given to the socket

    ghost predicate Valid()
      reads this
    {
      buf.Length == BUFFER_SIZE && (!overran ==> len <= buf.Length)
    }

    function State(): State
      requires Valid()
      reads this, buf
    {
      if overran then Overran else Gathering(sofFound, preamble55Found, preambleD5Found, buf[..len])
    }

    constructor (mode: Mode)
      ensures Valid() && fresh(buf) && this.mode == mode && State() == RESET && sent == []
    {
      this.mode := mode;
      buf := new Byte[BUFFER_SIZE](_ => 0);
      len, sofFound, preamble55Found, preambleD5Found, overran, sent := 0, false, false, false, false, [];
    }

    method Reset()
      requires Valid() && !overran
      modifies this`len, this`sofFound, this`preamble55Found, this`preambleD5Found
      ensures Valid() && State() == RESET
    {
      len, sofFound, preamble55Found, preambleD5Found := 0, false, false, false;
    }

    method ProcessByte(data: Byte, ctrl: bool)
      requires Valid()
      modifies this, buf
      ensures Valid()
      ensures var e := Step(old(State()), Symbol(ctrl, data));
              State() == e.state && sent == old(sent) + e.frames
    {
      if overran { return; }
      if ctrl {
        if data == 0xfb {
          sofFound, preamble55Found, preambleD5Found, len := true, false, false, 0;
        }
        if data == 0xfe {
          Reset();
        }
        if data == 0xfd {
          if !preambleD5Found {
            Reset();
            return;
          }
          sent := sent + [Frame((len - 4) % 0x1_0000_0000, buf[..len])];
          Reset();
        }
      } else {
        if sofFound {
          if preambleD5Found {
            if len >= buf.Length {
              overran := true;
              return;
            }
            ghost var gathered := buf[..len];
            buf[len] := data;
            len := len + 1;
            assert buf[..len] == gathered + [data];
          } else if preamble55Found {
            if data == 0xd5 {
              preambleD5Found := true;
            }
          } else {
            if data == 0x55 {
              preamble55Found := true;
            }
          }
        }
        if len == buf.Length {
          Reset();
        }
      }
    }

    /** One clock edge: eight bytes at once when every lane carries packet data, else lane by lane. */
    method ProcessWord(w: Word)
      requires Valid()
      modifies this, buf
      ensures Valid()
      ensures var e := WordStep(mode, old(State()), w);
              State() == e.state && sent == old(sent) + e.frames
    {
      hide Step;
      if overran {
        StepsOverran(w);
        StepsOverran(w[..1]);
        return;
      }
      if mode.TenGig? && preambleD5Found && forall l :: 0 <= l < 8 ==> !w[l].ctrl {
        if len + 8 > buf.Length {
          overran := true;
          return;
        }
        ghost var gathered := buf[..len];
        forall l | 0 <= l < 8 {
          buf[len + l] := w[l].data;
        }
        len := len + 8;
        assert buf[..len] == gathered + Bytes(w);
        return;
      }
      var lanes := if mode.TenGig? then 8 else 1;
      ghost var xs := if mode.TenGig? then w else w[..1];
      var l := 0;
      StepsNone(State());
      while l < lanes
        invariant Valid() && 0 <= l <= lanes
        invariant State() == Steps(old(State()), xs[..l]).state
        invariant sent == old(sent) + Steps(old(State()), xs[..l]).frames
      {
        StepsAppend(old(State()), xs[..l], [w[l]]);
        StepsOne(State(), w[l]);
        assert xs[..l] + [w[l]] == xs[..l + 1];
        ProcessByte(w[l].data, w[l].ctrl);
        l := l + 1;
      }
      assert xs[..l] == xs;
    }

    /** The words of any number of clock edges. */
    method Process(words: seq<Word>)
      requires Valid()
      modifies this, buf
      ensures Valid()
      ensures var e := Run(mode, old(State()), words);
              State() == e.state && sent == old(sent) + e.frames
    {
      hide Step, WordStep;
      RunNone(mode, State());
      for i := 0 to |words|
        invariant Valid()
        invariant State() == Run(mode, old(State()), words[..i]).state
        invariant sent == old(sent) + Run(mode, old(State()), words[..i]).frames
      {
        RunAppend(mode, old(State()), words[..i], [words[i]]);
        RunOne(mode, State(), words[i]);
        assert words[..i] + [words[i]] == words[..i + 1];
        ProcessWord(words[i]);
      }
      assert words[..|words|] == words;
    }
  }

  lemma StepsOne(s: State, x: Symbol)
    ensures Steps(s, [x]) == Step(s, x)
  {
    hide Step;
    assert Steps(Step(s, x).state, []) == Effect(Step(s, x).state, []);
  }

  lemma RunNone(mode: Mode, s: State)
    ensures Run(mode, s, []) == Effect(s, [])
  {
  }

  lemma RunOne(mode: Mode, s: State, w: Word)
    ensures Run(mode, s, [w]) == WordStep(mode, s, w)
  {
    hide WordStep;
    assert Run(mode, WordStep(mode, s, w).state, []) == Effect(WordStep(mode, s, w).state, []);
  }

  /** One packet across the wire, which then rests for `gap` clock edges. */
  method Deliver(encoder: Encoder, decoder: Decoder, packet: array<Byte>, gap: nat)
    requires encoder.mode == decoder.mode && Fits(encoder.mode, packet[..]) && packet != decoder.buf
    requires decoder.Valid() && decoder.State() == RESET
    modifies encoder, decoder, decoder.buf
    ensures decoder.Valid() && decoder.State() == RESET
    ensures |decoder.sent| == |old(decoder.sent)| + 1 && decoder.sent[..|old(decoder.sent)|] == old(decoder.sent)
    ensures Delivers(decoder.sent[|old(decoder.sent)|], packet[..])
  {
    hide Encode, Run, Delivers;
    var before := |encoder.wire|;
    ghost var p := packet[..];
    encoder.ProcessPacket(packet);
    var words := encoder.wire[before..];
    IdleAtEnd(encoder.mode, p);
    OnePacket(encoder.mode, RESET, p, gap);
    decoder.Process(words + seq(gap, _ => words[|words| - 1]));
  }

  /** One bridge feeding the other: each packet arrives, in order, whatever the pauses between them. */
  method Link(mode: Mode, packets: seq<array<Byte>>, gaps: seq<nat>) returns (received: seq<Frame>)
    requires |gaps| == |packets|
    requires forall i :: 0 <= i < |packets| ==> Fits(mode, packets[i][..])
    ensures |received| == |packets|
    ensures forall i :: 0 <= i < |packets| ==> Delivers(received[i], packets[i][..])
  {
    hide Delivers;
    var encoder := new Encoder(mode);
    var decoder := new Decoder(mode);
    for i := 0 to |packets|
      invariant encoder.mode == mode && decoder.mode == mode && decoder.Valid() && fresh(decoder.buf)
      invariant decoder.State() == RESET && |decoder.sent| == i
      invariant forall k :: 0 <= k < i ==> Delivers(decoder.sent[k], packets[k][..])
    {
      Deliver(encoder, decoder, packets[i], gaps[i]);
    }
    received := decoder.sent;
  }
}
