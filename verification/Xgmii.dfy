/** XGMII words and the two bridges' view of them: what an encoder puts on the wire for a packet and
    what a decoder makes of any words at all. */
module Xgmii {
  import opened Arithmetic
  import opened MachineTypes

  datatype Mode = TenGig | OneGig

  /** What one lane carries at a clock edge: a data byte or a control character. */
  datatype Symbol = Symbol(ctrl: bool, data: Byte)

  /** The eight lanes of xxc and xxd. */
  type Word = w: seq<Symbol> | |w| == 8 witness seq(8, _ => Symbol(true, 0))

  const IDLE := Symbol(true, 0x07)
  const START := Symbol(true, 0xfb)
  const TERMINATE := Symbol(true, 0xfd)
  const UNUSED := Symbol(true, 0)
  const CHECKSUM: seq<Byte> := [0xC0, 0xC1, 0xC2, 0xC3]
  const BUFFER_SIZE := 8192

  // ----- the decoder

  /** The payload sent to the socket: its data length and the bytes gathered. */
  datatype Frame = Frame(length: U32, gathered: seq<Byte>)

  /** Overran: the program wrote past the end of its buffer; nothing is known from then on. */
  datatype State =
    | Overran
    | Gathering(sof: bool, preamble55: bool, preambleD5: bool, data: seq<Byte>)

  const RESET := Gathering(false, false, false, [])

  datatype Effect = Effect(state: State, frames: seq<Frame>)

  /** The length is the number of bytes gathered without the checksum, in 32 bits. */
  function FrameOf(data: seq<Byte>): Frame {
    Frame((|data| - 4) % 0x1_0000_0000, data)
  }

  function Step(s: State, x: Symbol): Effect {
    if s.Overran? then Effect(s, [])
    else if x.ctrl then
      if x.data == 0xfb then Effect(Gathering(true, false, false, []), [])
      else if x.data == 0xfe then Effect(RESET, [])
      else if x.data == 0xfd then Effect(RESET, if s.preambleD5 then [FrameOf(s.data)] else [])
      else Effect(s, [])
    else
      var s' := if !s.sof then s
                else if s.preambleD5 then
                  if |s.data| >= BUFFER_SIZE then Overran else s.(data := s.data + [x.data])
                else if s.preamble55 then s.(preambleD5 := x.data == 0xd5)
                else s.(preamble55 := x.data == 0x55);
      Effect(if s'.Gathering? && |s'.data| == BUFFER_SIZE then RESET else s', [])
  }

  function Then(e: Effect, f: Effect): Effect {
    Effect(f.state, e.frames + f.frames)
  }

  function Steps(s: State, xs: seq<Symbol>): Effect
    decreases |xs|
  {
    if xs == [] then Effect(s, [])
    else Then(Step(s, xs[0]), Steps(Step(s, xs[0]).state, xs[1..]))
  }

  predicate AllData(xs: seq<Symbol>) {
    forall i :: 0 <= i < |xs| ==> !xs[i].ctrl
  }

  function Bytes(xs: seq<Symbol>): (bs: seq<Byte>)
    ensures |bs| == |xs|
  {
    seq(|xs|, i requires 0 <= i < |xs| => xs[i].data)
  }

  /** All lanes carry packet data: eight bytes go straight into the buffer. */
  predicate Fast(mode: Mode, s: State, w: Word) {
    mode.TenGig? && s.Gathering? && s.preambleD5 && AllData(w)
  }

  function WordStep(mode: Mode, s: State, w: Word): Effect {
    if Fast(mode, s, w) then
      Effect(if |s.data| + 8 > BUFFER_SIZE then Overran else s.(data := s.data + Bytes(w)), [])
    else Steps(s, if mode.TenGig? then w else w[..1])
  }

  function Run(mode: Mode, s: State, ws: seq<Word>): Effect
    decreases |ws|
  {
    if ws == [] then Effect(s, [])
    else Then(WordStep(mode, s, ws[0]), Run(mode, WordStep(mode, s, ws[0]).state, ws[1..]))
  }

  // ----- the encoder

  /** Symbols on the wire, eight to a word or one to a word; lanes without a symbol are control 0. */
  function Words(mode: Mode, xs: seq<Symbol>): seq<Word> {
    if xs == [] then []
    else if mode.TenGig? && |xs| >= 8 then [xs[..8]] + Words(mode, xs[8..])
    else if mode.TenGig? then [xs + seq(8 - |xs|, _ => UNUSED)]
    else [xs[..1] + seq(7, _ => UNUSED)] + Words(mode, xs[1..])
  }

  function Data(bs: seq<Byte>): (xs: seq<Symbol>)
    ensures |xs| == |bs| && AllData(xs)
  {
    seq(|bs|, i requires 0 <= i < |bs| => Symbol(false, bs[i]))
  }

  function Idles(n: nat): (xs: seq<Symbol>)
    ensures |xs| == n && forall i :: 0 <= i < n ==> xs[i] == IDLE
  {
    seq(n, _ => IDLE)
  }

  function Preamble(): (xs: seq<Symbol>)
    ensures |xs| == 8
  {
    [START] + Data([0x55, 0x55, 0x55, 0x55, 0x55, 0x55, 0xd5])
  }

  /** Idles that fill the last word of a packet of n bytes. */
  function Padding(n: nat): (k: nat)
    ensures k < 8 && (n + 5 + k) % 8 == 0
  {
    (8 - (n + 5) % 8) % 8
  }

  /** The data and checksum, the terminate character and the idles that fill the word. */
  function Body(p: seq<Byte>): (xs: seq<Symbol>)
    ensures |xs| % 8 == 0
  {
    Data(p + CHECKSUM) + [TERMINATE] + Idles(Padding(|p|))
  }

  function PacketSymbols(p: seq<Byte>): (xs: seq<Symbol>)
    ensures |xs| % 8 == 0
  {
    Idles(16) + Preamble() + Body(p) + Idles(8)
  }

  function Encode(mode: Mode, p: seq<Byte>): seq<Word> {
    Words(mode, PacketSymbols(p))
  }

  // ----- runs in pieces

  lemma {:induction false} StepsAppend(s: State, a: seq<Symbol>, b: seq<Symbol>)
    ensures Steps(s, a + b) == Then(Steps(s, a), Steps(Steps(s, a).state, b))
    decreases |a|
  {
    if a == [] {
      assert a + b == b;
    } else {
      assert (a + b)[1..] == a[1..] + b;
      StepsAppend(Step(s, a[0]).state, a[1..], b);
    }
  }

  lemma {:induction false} RunAppend(mode: Mode, s: State, a: seq<Word>, b: seq<Word>)
    ensures Run(mode, s, a + b) == Then(Run(mode, s, a), Run(mode, Run(mode, s, a).state, b))
    decreases |a|
  {
    hide WordStep;
    if a == [] {
      assert a + b == b;
    } else {
      assert (a + b)[1..] == a[1..] + b;
      RunAppend(mode, WordStep(mode, s, a[0]).state, a[1..], b);
    }
  }

  lemma {:induction false} WordsAppend(mode: Mode, a: seq<Symbol>, b: seq<Symbol>)
    requires |a| % 8 == 0
    ensures Words(mode, a + b) == Words(mode, a) + Words(mode, b)
  {
    if mode.TenGig? {
      WordsAppendTen(a, b);
    } else {
      WordsAppendOne(a, b);
    }
  }

  lemma {:induction false} WordsAppendTen(a: seq<Symbol>, b: seq<Symbol>)
    requires |a| % 8 == 0
    ensures Words(TenGig, a + b) == Words(TenGig, a) + Words(TenGig, b)
  {
    if a == [] {
      assert a + b == b;
    } else {
      assert (a + b)[8..] == a[8..] + b && (a + b)[..8] == a[..8];
      WordsAppendTen(a[8..], b);
    }
  }

  lemma {:induction false} WordsAppendOne(a: seq<Symbol>, b: seq<Symbol>)
    ensures Words(OneGig, a + b) == Words(OneGig, a) + Words(OneGig, b)
  {
    if a == [] {
      assert a + b == b;
    } else {
      assert (a + b)[1..] == a[1..] + b && (a + b)[..1] == a[..1];
      WordsAppendOne(a[1..], b);
    }
  }

  lemma OneLaneWord(s: State, w: Word)
    ensures WordStep(OneGig, s, w) == Step(s, w[0])
  {
    hide Step;
    assert w[..1] == [w[0]];
    assert Steps(s, [w[0]]) == Then(Step(s, w[0]), Effect(Step(s, w[0]).state, []));
  }

  /** One lane per word: the decoder takes the symbols one by one. */
  lemma {:induction false} OneLane(s: State, xs: seq<Symbol>)
    ensures Run(OneGig, s, Words(OneGig, xs)) == Steps(s, xs)
    decreases |xs|
  {
    if xs != [] {
      hide Step, Fast;
      var w: Word := xs[..1] + seq(7, _ => UNUSED);
      OneLaneWord(s, w);
      assert w[0] == xs[0];
      OneLane(Step(s, xs[0]).state, xs[1..]);
    }
  }

  /** A word with a control character in it is taken lane by lane. */
  lemma SlowWord(s: State, w: Word)
    requires !AllData(w)
    ensures Run(TenGig, s, [w]) == Steps(s, w)
  {
    assert Run(TenGig, WordStep(TenGig, s, w).state, []) == Effect(WordStep(TenGig, s, w).state, []);
  }

  // ----- the fast path

  lemma StepsCons(s: State, xs: seq<Symbol>)
    requires xs != []
    ensures Steps(s, xs) == Then(Step(s, xs[0]), Steps(Step(s, xs[0]).state, xs[1..]))
  {
  }

  lemma StepsNone(s: State)
    ensures Steps(s, []) == Effect(s, [])
  {
  }

  /** Data bytes inside a packet are appended as long as the buffer does not fill up. */
  lemma {:induction false} StepsData(s: State, bs: seq<Byte>)
    requires s.Gathering? && s.sof && s.preambleD5 && |s.data| + |bs| < BUFFER_SIZE
    ensures Steps(s, Data(bs)) == Effect(s.(data := s.data + bs), [])
    decreases |bs|
  {
    StepsNone(s);
    hide Steps;
    if bs == [] {
      assert s.data + bs == s.data && Data(bs) == [];
    } else {
      var s' := s.(data := s.data + [bs[0]]);
      assert Step(s, Data(bs)[0]) == Effect(s', []);
      assert Data(bs)[1..] == Data(bs[1..]);
      StepsCons(s, Data(bs));
      StepsData(s', bs[1..]);
      assert s.data + [bs[0]] + bs[1..] == s.data + bs;
    }
  }

  /** Filling the buffer lane by lane drops the packet. */
  lemma {:induction false} StepsFill(s: State, bs: seq<Byte>)
    requires s.Gathering? && s.sof && s.preambleD5 && |s.data| < BUFFER_SIZE == |s.data| + |bs|
    ensures Steps(s, Data(bs)) == Effect(RESET, [])
  {
    var n := |bs| - 1;
    assert Data(bs) == Data(bs[..n]) + [Symbol(false, bs[n])];
    StepsData(s, bs[..n]);
    StepsAppend(s, Data(bs[..n]), [Symbol(false, bs[n])]);
    var s' := s.(data := s.data + bs[..n]);
    assert Steps(s', [Symbol(false, bs[n])]) == Effect(RESET, []);
  }

  lemma {:induction false} StepsIgnored(bs: seq<Byte>)
    ensures Steps(RESET, Data(bs)) == Effect(RESET, [])
  {
    if bs != [] {
      assert Data(bs)[1..] == Data(bs[1..]);
      StepsIgnored(bs[1..]);
    }
  }

  /** The fast path and the byte-by-byte path agree exactly when the eight bytes do not fill the buffer,
      or when it is full already. */
  lemma FastAgrees(s: State, w: Word)
    requires s.Gathering? && s.sof && Fast(TenGig, s, w) && |s.data| <= BUFFER_SIZE
    ensures WordStep(TenGig, s, w) == Steps(s, w) <==> (|s.data| + 8 < BUFFER_SIZE || |s.data| == BUFFER_SIZE)
  {
    var bs := Bytes(w);
    assert w == Data(bs);
    if |s.data| + 8 < BUFFER_SIZE {
      StepsData(s, bs);
    } else if |s.data| < BUFFER_SIZE {
      var n := BUFFER_SIZE - |s.data|;
      assert w == Data(bs[..n]) + Data(bs[n..]);
      StepsFill(s, bs[..n]);
      StepsIgnored(bs[n..]);
      StepsAppend(s, Data(bs[..n]), Data(bs[n..]));
    } else {
      StepsOverran(w[1..]);
    }
  }

  lemma {:induction false} StepsOverran(xs: seq<Symbol>)
    ensures Steps(Overran, xs) == Effect(Overran, [])
  {
    if xs != [] {
      StepsOverran(xs[1..]);
    }
  }

  lemma {:induction false} RunOverran(mode: Mode, ws: seq<Word>)
    ensures Run(mode, Overran, ws) == Effect(Overran, [])
  {
    if ws != [] {
      StepsOverran(ws[0]);
      StepsOverran(ws[0][..1]);
      RunOverran(mode, ws[1..]);
    }
  }

  /** Whole words of packet data go through the fast path until the buffer is full to the last byte. */
  lemma {:induction false} FastRun(s: State, bs: seq<Byte>)
    requires s.Gathering? && s.preambleD5 && |bs| % 8 == 0 && |s.data| + |bs| <= BUFFER_SIZE
    ensures Run(TenGig, s, Words(TenGig, Data(bs))) == Effect(s.(data := s.data + bs), [])
    decreases |bs|
  {
    if bs == [] {
      assert s.data + bs == s.data;
    } else {
      var w: Word := Data(bs)[..8];
      assert Data(bs)[8..] == Data(bs[8..]) && Bytes(w) == bs[..8];
      FastRun(s.(data := s.data + bs[..8]), bs[8..]);
      assert s.data + bs[..8] + bs[8..] == s.data + bs;
    }
  }

  // ----- one packet

  lemma {:induction false} StepsIdles(s: State, n: nat)
    ensures Steps(s, Idles(n)) == Effect(s, [])
  {
    if n > 0 {
      assert Idles(n)[1..] == Idles(n - 1);
      StepsIdles(s, n - 1);
    }
  }

  const STARTED := Gathering(true, true, true, [])

  lemma StepsPreamble(s: State)
    requires s.Gathering?
    ensures Steps(s, Preamble()) == Effect(STARTED, [])
  {
    var waiting, seen := Gathering(true, false, false, []), Gathering(true, true, false, []);
    var five: seq<Byte> := [0x55, 0x55, 0x55, 0x55, 0x55];
    assert Preamble() == [START, Symbol(false, 0x55)] + (Data(five) + [Symbol(false, 0xd5)]);
    StepsAppend(s, [START, Symbol(false, 0x55)], Data(five) + [Symbol(false, 0xd5)]);
    assert Steps(s, [START, Symbol(false, 0x55)]) == Effect(seen, []) by {
      assert Steps(waiting, [Symbol(false, 0x55)]) == Effect(seen, []);
    }
    StepsAppend(seen, Data(five), [Symbol(false, 0xd5)]);
    StepsRepeated(5);
    assert Steps(seen, [Symbol(false, 0xd5)]) == Effect(STARTED, []);
    assert Data(five) == seq(5, _ => Symbol(false, 0x55));
  }

  /** A repeated preamble byte changes nothing. */
  lemma {:induction false} StepsRepeated(n: nat)
    ensures Steps(Gathering(true, true, false, []), seq(n, _ => Symbol(false, 0x55))) ==
            Effect(Gathering(true, true, false, []), [])
  {
    var xs := seq(n, _ => Symbol(false, 0x55));
    if n > 0 {
      assert xs[1..] == seq(n - 1, _ => Symbol(false, 0x55));
      StepsRepeated(n - 1);
    }
  }

  /** The end of a packet: the rest of the data, the terminate character, idles. */
  lemma StepsEnd(s: State, bs: seq<Byte>, n: nat)
    requires s.Gathering? && s.sof && s.preambleD5 && (bs == [] || |s.data| + |bs| < BUFFER_SIZE)
    ensures Steps(s, Data(bs) + [TERMINATE] + Idles(n)) == Effect(RESET, [FrameOf(s.data + bs)])
  {
    var s' := s.(data := s.data + bs);
    if bs == [] {
      assert s.data + bs == s.data;
    } else {
      StepsData(s, bs);
    }
    StepsAppend(s, Data(bs), [TERMINATE] + Idles(n));
    assert Data(bs) + [TERMINATE] + Idles(n) == Data(bs) + ([TERMINATE] + Idles(n));
    StepsAppend(s', [TERMINATE], Idles(n));
    StepsIdles(RESET, n);
    assert Steps(s', [TERMINATE]) == Effect(RESET, [FrameOf(s'.data)]);
  }

  lemma OneWord(w: Word)
    ensures Words(TenGig, w) == [w]
  {
    assert w[..8] == w && w[8..] == [];
  }

  lemma HeadTen(s: State)
    requires s.Gathering?
    ensures Run(TenGig, s, Words(TenGig, Idles(16) + Preamble())) == Effect(STARTED, [])
  {
    hide Steps, Run, Words;
    var w: Word := Idles(8);
    assert w[0].ctrl && Preamble()[0].ctrl;
    assert Idles(16) + Preamble() == Idles(8) + (Idles(8) + Preamble());
    WordsAppend(TenGig, Idles(8), Idles(8) + Preamble());
    WordsAppend(TenGig, Idles(8), Preamble());
    OneWord(Idles(8));
    OneWord(Preamble());
    SlowWord(s, Idles(8));
    SlowWord(s, Preamble());
    StepsIdles(s, 8);
    StepsPreamble(s);
    RunAppend(TenGig, s, [w], [w] + [Preamble()]);
    RunAppend(TenGig, s, [w], [Preamble()]);
  }

  /** Full words first, then one word with what is left of data and checksum. */
  lemma BodyParts(p: seq<Byte>) returns (full: seq<Byte>, rest: seq<Byte>)
    ensures full + rest == p + CHECKSUM && |full| % 8 == 0 && |rest| < 8
    ensures |rest| + 1 + Padding(|p|) == 8
    ensures Body(p) == Data(full) + (Data(rest) + [TERMINATE] + Idles(Padding(|p|)))
  {
    hide Padding;
    var bs := p + CHECKSUM;
    var n := |bs| - |bs| % 8;
    full, rest := bs[..n], bs[n..];
    assert Data(bs) == Data(full) + Data(rest);
  }

  lemma BodyTen(p: seq<Byte>)
    requires |p| + 4 <= BUFFER_SIZE
    ensures Run(TenGig, STARTED, Words(TenGig, Body(p))) == Effect(RESET, [FrameOf(p + CHECKSUM)])
  {
    hide Steps, Run, Words, Padding;
    var full, rest := BodyParts(p);
    var last: Word := Data(rest) + [TERMINATE] + Idles(Padding(|p|));
    assert last[|rest|] == TERMINATE;
    WordsAppend(TenGig, Data(full), last);
    OneWord(last);
    assert STARTED.data + full == full;
    FastRun(STARTED, full);
    var s := STARTED.(data := full);
    SlowWord(s, last);
    StepsEnd(s, rest, Padding(|p|));
    RunAppend(TenGig, STARTED, Words(TenGig, Data(full)), [last]);
  }

  /** One byte too many: the buffer is full and the next data byte is written past its end. */
  lemma BodyTenOverruns(p: seq<Byte>)
    requires |p| + 4 > BUFFER_SIZE
    ensures Run(TenGig, STARTED, Words(TenGig, Body(p))) == Effect(Overran, [])
  {
    hide Steps, Run;
    var bs := p + CHECKSUM;
    var head, tail := bs[..BUFFER_SIZE], Data(bs[BUFFER_SIZE..]) + [TERMINATE] + Idles(Padding(|p|));
    assert Body(p) == Data(head) + tail by {
      assert Data(bs) == Data(head) + Data(bs[BUFFER_SIZE..]);
    }
    WordsAppend(TenGig, Data(head), tail);
    assert STARTED.data + head == head;
    FastRun(STARTED, head);
    var s := STARTED.(data := head);
    RunAppend(TenGig, STARTED, Words(TenGig, Data(head)), Words(TenGig, tail));
    var w: Word := tail[..8];
    assert Words(TenGig, tail) == [w] + Words(TenGig, tail[8..]);
    assert !w[0].ctrl;
    FullOverruns(s, w, Words(TenGig, tail[8..]));
  }

  lemma FullOverruns(s: State, w: Word, ws: seq<Word>)
    requires s.Gathering? && s.sof && s.preambleD5 && |s.data| == BUFFER_SIZE && !w[0].ctrl
    ensures Run(TenGig, s, [w] + ws) == Effect(Overran, [])
  {
    StepsOverran(w[1..]);
    assert WordStep(TenGig, s, w) == Effect(Overran, []);
    RunOverran(TenGig, ws);
    assert ([w] + ws)[1..] == ws;
  }

  /** In 10G mode a packet of up to 8188 bytes comes out whole, from whatever state the decoder was in;
      a longer one makes it write past its buffer. */
  lemma PacketTen(s: State, p: seq<Byte>)
    requires s.Gathering?
    ensures Run(TenGig, s, Encode(TenGig, p)) ==
            if |p| <= 8188 then Effect(RESET, [FrameOf(p + CHECKSUM)]) else Effect(Overran, [])
  {
    var head, body, idle := Idles(16) + Preamble(), Body(p), Idles(8);
    assert PacketSymbols(p) == head + (body + idle);
    WordsAppend(TenGig, head, body + idle);
    WordsAppend(TenGig, body, idle);
    HeadTen(s);
    RunAppend(TenGig, s, Words(TenGig, head), Words(TenGig, body) + Words(TenGig, idle));
    RunAppend(TenGig, STARTED, Words(TenGig, body), Words(TenGig, idle));
    OneWord(idle);
    if |p| <= 8188 {
      BodyTen(p);
      SlowWord(RESET, idle);
      StepsIdles(RESET, 8);
    } else {
      BodyTenOverruns(p);
      RunOverran(TenGig, Words(TenGig, idle));
    }
  }

  /** In 1G mode it comes out whole up to 8187 bytes; a longer one is dropped. */
  lemma PacketOne(s: State, p: seq<Byte>)
    requires s.Gathering?
    ensures Run(OneGig, s, Encode(OneGig, p)) == Effect(RESET, if |p| < 8188 then [FrameOf(p + CHECKSUM)] else [])
  {
    hide Steps, Run, Words;
    var bs, n := p + CHECKSUM, Padding(|p|);
    var end := [TERMINATE] + Idles(n) + Idles(8);
    OneLane(s, PacketSymbols(p));
    assert PacketSymbols(p) == Idles(16) + (Preamble() + (Data(bs) + end));
    StepsAppend(s, Idles(16), Preamble() + (Data(bs) + end));
    StepsAppend(s, Preamble(), Data(bs) + end);
    StepsIdles(s, 16);
    StepsPreamble(s);
    BodyOne(bs, n);
    assert Data(bs) + end == Data(bs) + [TERMINATE] + Idles(n + 8);
  }

  lemma BodyOne(bs: seq<Byte>, n: nat)
    ensures Steps(STARTED, Data(bs) + [TERMINATE] + Idles(n + 8)) ==
            Effect(RESET, if |bs| < BUFFER_SIZE then [FrameOf(bs)] else [])
  {
    hide Steps;
    var end := [TERMINATE] + Idles(n + 8);
    if |bs| < BUFFER_SIZE {
      StepsEnd(STARTED, bs, n + 8);
      assert STARTED.data + bs == bs;
    } else {
      var head, tail := bs[..BUFFER_SIZE], bs[BUFFER_SIZE..];
      assert Data(bs) + [TERMINATE] + Idles(n + 8) == Data(head) + (Data(tail) + end);
      StepsAppend(STARTED, Data(head), Data(tail) + end);
      StepsAppend(RESET, Data(tail), end);
      StepsFill(STARTED, head);
      StepsIgnored(tail);
      EndIgnored(n + 8);
    }
  }

  lemma EndIgnored(n: nat)
    ensures Steps(RESET, [TERMINATE] + Idles(n)) == Effect(RESET, [])
  {
    StepsAppend(RESET, [TERMINATE], Idles(n));
    StepsIdles(RESET, n);
    assert Steps(RESET, [TERMINATE]) == Effect(RESET, []);
  }

  // ----- any number of packets

  /** The last word stays on the wire for k more clock edges. */
  function Held(ws: seq<Word>, k: nat): seq<Word>
    requires ws != []
  {
    ws + seq(k, _ => ws[|ws| - 1])
  }

  lemma IdleAtEnd(mode: Mode, p: seq<Byte>)
    ensures var ws := Encode(mode, p);
            ws != [] && ws[|ws| - 1] == (if mode.TenGig? then Idles(8) else [IDLE] + seq(7, _ => UNUSED))
  {
    var xs := Idles(16) + Preamble() + Body(p);
    WordsAppend(mode, xs, Idles(8));
    if mode.TenGig? {
      OneWord(Idles(8));
    } else {
      assert Idles(8) == Idles(7) + [IDLE];
      WordsAppendOne(Idles(7), [IDLE]);
      assert Words(OneGig, [IDLE]) == [[IDLE] + seq(7, _ => UNUSED)] by {
        assert [IDLE][..1] == [IDLE];
      }
    }
  }

  lemma {:induction false} IdleWords(mode: Mode, s: State, w: Word, k: nat)
    requires w == if mode.TenGig? then Idles(8) else [IDLE] + seq(7, _ => UNUSED)
    ensures Run(mode, s, seq(k, _ => w)) == Effect(s, [])
  {
    if k > 0 {
      assert seq(k, _ => w)[1..] == seq(k - 1, _ => w);
      IdleWords(mode, s, w, k - 1);
      if mode.TenGig? {
        assert w[0].ctrl;
        StepsIdles(s, 8);
      } else {
        assert w[..1] == Idles(1);
        StepsIdles(s, 1);
      }
    }
  }

  predicate Fits(mode: Mode, p: seq<Byte>) {
    if mode.TenGig? then |p| <= 8188 else |p| < 8188
  }

  /** Packets one after the other, the wire held for gaps[i] edges after packet i. */
  function Stream(mode: Mode, ps: seq<seq<Byte>>, gaps: seq<nat>): seq<Word>
    requires |gaps| == |ps|
  {
    if ps == [] then []
    else
      IdleAtEnd(mode, ps[0]);
      Held(Encode(mode, ps[0]), gaps[0]) + Stream(mode, ps[1..], gaps[1..])
  }

  /** The decoder delivered p: the bytes it gathered up to the length it announced. */
  predicate Delivers(f: Frame, p: seq<Byte>) {
    f.length == |p| <= |f.gathered| && f.gathered[..f.length] == p
  }

  lemma OnePacket(mode: Mode, s: State, p: seq<Byte>, gap: nat)
    requires s.Gathering? && Fits(mode, p) && Encode(mode, p) != []
    ensures Run(mode, s, Held(Encode(mode, p), gap)) == Effect(RESET, [FrameOf(p + CHECKSUM)])
    ensures Delivers(FrameOf(p + CHECKSUM), p)
  {
    hide Run, Encode;
    var ws := Encode(mode, p);
    IdleAtEnd(mode, p);
    assert (p + CHECKSUM)[..|p|] == p;
    if mode.TenGig? { PacketTen(s, p); } else { PacketOne(s, p); }
    IdleWords(mode, RESET, ws[|ws| - 1], gap);
    RunAppend(mode, s, ws, seq(gap, _ => ws[|ws| - 1]));
  }

  /** The decoder delivers exactly the packets sent, in order, whatever the gaps between them. */
  lemma {:induction false} StreamRoundTrip(mode: Mode, s: State, ps: seq<seq<Byte>>, gaps: seq<nat>)
    requires s.Gathering? && |gaps| == |ps| && forall p :: p in ps ==> Fits(mode, p)
    ensures var e := Run(mode, s, Stream(mode, ps, gaps));
            && e.state == (if ps == [] then s else RESET)
            && |e.frames| == |ps| && forall i :: 0 <= i < |ps| ==> Delivers(e.frames[i], ps[i])
    decreases |ps|
  {
    hide Encode, Held;
    if ps != [] {
      IdleAtEnd(mode, ps[0]);
      var first, rest := Held(Encode(mode, ps[0]), gaps[0]), Stream(mode, ps[1..], gaps[1..]);
      OnePacket(mode, s, ps[0], gaps[0]);
      StreamRoundTrip(mode, RESET, ps[1..], gaps[1..]);
      RunAppend(mode, s, first, rest);
      var e := Run(mode, s, Stream(mode, ps, gaps));
      assert e.frames == [FrameOf(ps[0] + CHECKSUM)] + Run(mode, RESET, rest).frames;
    }
  }

  /** The words before the first packet are all zero and mean nothing to a decoder just started. */
  lemma {:induction false} QuietStart(mode: Mode, k: nat)
    ensures Run(mode, RESET, seq(k, _ => seq(8, _ => Symbol(false, 0)))) == Effect(RESET, [])
  {
    var w: Word := seq(8, _ => Symbol(false, 0));
    if k > 0 {
      assert seq(k, _ => seq(8, _ => Symbol(false, 0)))[1..] == seq(k - 1, _ => seq(8, _ => Symbol(false, 0)));
      QuietStart(mode, k - 1);
      assert w == Data(Bytes(w)) && w[..1] == Data(Bytes(w[..1]));
      StepsIgnored(Bytes(w));
      StepsIgnored(Bytes(w[..1]));
    }
  }
}
