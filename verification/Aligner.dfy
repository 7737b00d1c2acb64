/** The aligner's transport loop in front of a byte memory that may refuse transactions. */
module Aligner {
  import opened Alignment
  import opened Arithmetic
  import opened MachineTypes

  datatype Response = Incomplete | Ok | Failed

  /** The first n bytes of a payload have had their effect, and nothing else. */
  ghost predicate Done(p: Payload, n: nat, m: Space, data: seq<Byte>, m': Space, data': seq<Byte>) {
    && n <= p.len && p.offset + p.len <= |data|
    && m' == (if p.write then Written(m, data, p, n) else m)
    && data' == (if p.write then data else Fetched(m, data, p, n))
  }

  /** What the initiator socket is bound to; a refused transaction has no effect. */
  class Target {
    var memory: Space
    var seen: seq<Payload>
    const accepts: nat -> bool

    constructor (memory: Space, accepts: nat -> bool)
      ensures this.memory == memory && this.accepts == accepts && seen == []
    {
      this.memory, this.accepts, seen := memory, accepts, [];
    }

    method BTransport(p: Payload, data: array<Byte>) returns (r: Response)
      requires p.offset + p.len <= data.Length
      modifies this, data
      ensures seen == old(seen) + [p]
      ensures r == if accepts(|old(seen)|) then Ok else Failed
      ensures Done(p, if r.Ok? then p.len else 0, old(memory), old(data[..]), memory, data[..])
    {
      r := if accepts(|seen|) then Ok else Failed;
      seen := seen + [p];
      ghost var memory0, data0 := memory, data[..];
      if r.Ok? {
        for i := 0 to p.len
          invariant seen == old(seen) + [p]
          invariant memory == if p.write then Written(memory0, data0, p, i) else memory0
          invariant data[..] == if p.write then data0 else Fetched(memory0, data0, p, i)
        {
          if EnabledAt(p, i) {
            if p.write {
              memory := Put(memory, AddressAt(p, i), data[p.offset + i]);
            } else {
              data[p.offset + i] := memory(AddressAt(p, i));
            }
          }
        }
      }
    }
  }

  function TotalLength(qs: seq<Payload>): nat {
    if qs == [] then 0 else TotalLength(qs[..|qs| - 1]) + qs[|qs| - 1].len
  }

  ghost predicate AllAccepted(accepts: nat -> bool, from: nat, to: nat) {
    forall k :: from <= k < to ==> accepts(k)
  }

  /** Of the transactions to send, the first `done` succeed and the next one, if any, is the last one sent. */
  ghost predicate Issued(accepts: nat -> bool, before: seq<Payload>, after: seq<Payload>, sent: seq<Payload>,
                         done: nat) {
    && done <= |sent|
    && AllAccepted(accepts, |before|, |before| + done)
    && (done < |sent| ==> !accepts(|before| + done))
    && after == before + (if done < |sent| then sent[..done + 1] else sent)
  }

  lemma PieceDone(l: Limits, p: Payload, pos: nat, m: Space, data: seq<Byte>, m': Space, data': seq<Byte>,
                  m'': Space, data'': seq<Byte>)
    requires Usable(l) && pos < p.len && Done(p, pos, m, data, m', data')
    requires Done(Piece(l, p, pos), Piece(l, p, pos).len, m', data', m'', data'')
    ensures Done(p, pos + Piece(l, p, pos).len, m, data, m'', data'')
  {
    hide Written, Fetched;
    if p.write {
      PieceWrites(l, p, pos, m, data, Piece(l, p, pos).len);
    } else {
      PieceFetches(l, p, pos, m, data, Piece(l, p, pos).len);
    }
  }

  lemma NothingChanged(p: Payload, m: Space, data: seq<Byte>, m': Space, data': seq<Byte>)
    requires Done(p, 0, m, data, m', data')
    ensures m' == m && data' == data
  {
  }

  lemma NoneAccepted(accepts: nat -> bool, from: nat)
    ensures AllAccepted(accepts, from, from)
  {
  }

  lemma OneMoreAccepted(accepts: nat -> bool, from: nat, to: nat)
    requires AllAccepted(accepts, from, to) && accepts(to)
    ensures AllAccepted(accepts, from, to + 1)
  {
  }

  lemma StartReached(l: Limits, p: Payload, sent: seq<Payload>)
    requires Usable(l) && sent == Pieces(l, p, 0)
    ensures Reached(l, p, sent, 0, 0)
  {
  }

  lemma NothingDone(p: Payload, m: Space, data: seq<Byte>)
    requires p.offset + p.len <= |data|
    ensures Done(p, 0, m, data, m, data)
  {
  }

  lemma PieceShape(l: Limits, p: Payload, pos: nat)
    requires Usable(l) && pos < p.len
    ensures var q := Piece(l, p, pos);
            q.write == p.write && q.offset == p.offset + pos && 0 < q.len <= p.len - pos && |q.enables| == |p.enables|
  {
    hide Cut, Slide;
  }

  /** Pieces sent so far and bytes covered by them. */
  ghost predicate Reached(l: Limits, p: Payload, sent: seq<Payload>, done: nat, pos: nat) {
    && Usable(l) && pos <= p.len && done <= |sent|
    && sent[done..] == Pieces(l, p, pos)
    && TotalLength(sent[..done]) == pos
  }

  lemma ReachedNext(l: Limits, p: Payload, sent: seq<Payload>, done: nat, pos: nat)
    requires Reached(l, p, sent, done, pos) && pos < p.len
    ensures done < |sent| && sent[done] == Piece(l, p, pos)
    ensures Reached(l, p, sent, done + 1, pos + Piece(l, p, pos).len)
  {
    PieceShape(l, p, pos);
    hide Piece;
    assert sent[done] == sent[done..][0];
    assert sent[done + 1..] == sent[done..][1..];
    assert sent[..done + 1][..done] == sent[..done];
  }

  /** The response the initiator gets: an empty payload keeps the one it came with. */
  ghost predicate Answered(p: Payload, sent: seq<Payload>, done: nat, before: Response, response: Response) {
    && done <= |sent|
    && (done == |sent| ==> TotalLength(sent[..done]) == p.len)
    && response == (if done < |sent| then Failed else if p.len == 0 then before else Ok)
  }

  lemma ForwardedIssued(accepts: nat -> bool, s0: seq<Payload>, p: Payload, done: nat, before: Response,
                        response: Response)
    requires response == (if accepts(|s0|) then Ok else Failed) && done == (if response.Ok? then 1 else 0) && p.len > 0
    ensures Issued(accepts, s0, s0 + [p], [p], done) && Answered(p, [p], done, before, response)
    ensures TotalLength([p][..done]) == if response.Ok? then p.len else 0
  {
    assert [p][..0] == [] && [p][..1] == [p];
  }

  lemma RefusedIssued(accepts: nat -> bool, s0: seq<Payload>, l: Limits, p: Payload, sent: seq<Payload>, done: nat,
                      pos: nat,
                      before: Response, response: Response)
    requires Reached(l, p, sent, done, pos) && done < |sent| && AllAccepted(accepts, |s0|, |s0| + done)
    requires !accepts(|s0| + done) && response == Failed
    ensures Issued(accepts, s0, s0 + sent[..done] + [sent[done]], sent, done) &&
            Answered(p, sent, done, before, response)
    ensures TotalLength(sent[..done]) == pos
  {
    assert s0 + sent[..done] + [sent[done]] == s0 + sent[..done + 1];
  }

  lemma CompleteIssued(accepts: nat -> bool, s0: seq<Payload>, l: Limits, p: Payload, sent: seq<Payload>, done: nat,
                       before: Response, response: Response)
    requires Reached(l, p, sent, done, p.len) && AllAccepted(accepts, |s0|, |s0| + done)
    requires response == if p.len == 0 then before else Ok
    ensures Issued(accepts, s0, s0 + sent[..done], sent, done) && Answered(p, sent, done, before, response)
    ensures TotalLength(sent[..done]) == p.len
  {
    assert |sent[done..]| == 0;
    assert sent[..done] == sent;
  }

  lemma WholeRow(p: Payload, pos: nat)
    requires pos < p.len && StreamingWidth(p) == p.len && pos % p.len == 0
    ensures pos == 0
  {
    SmallMod(pos, p.len);
  }

  class Aligner {
    var busWidth: U32
    var maxLen: U64
    const maxAddressBoundary: U64
    const doNaturalAlignment: bool
    const validator: Option<(U64, U32, U32) -> bool>
    const initSocket: Target

    constructor (busWidth: U32, maxLen: U64, boundary: U64, natural: bool,
                 validator: Option<(U64, U32, U32) -> bool>, target: Target)
      ensures Configured() == Limits(busWidth, maxLen, boundary, natural, validator) && initSocket == target
    {
      this.busWidth, this.maxLen, maxAddressBoundary, doNaturalAlignment := busWidth, maxLen, boundary, natural;
      this.validator, initSocket := validator, target;
    }

    function Configured(): Limits
      reads this
    {
      Limits(busWidth, maxLen, maxAddressBoundary, doNaturalAlignment, validator)
    }

    /** Length of the piece at pos and the streaming width it is given; `width` is the one set before. */
    method Measure(trans: Payload, pos: nat, tAddr: U64, streamingWidth: U32, width: U32) returns (tLen: U32,
        tWidth: U32)
      requires Usable(Configured()) && pos < trans.len && (pos == 0 ==> width == trans.width)
      requires tAddr == PieceAddress(trans, pos) && streamingWidth == StreamingWidth(trans)
      ensures (tLen, tWidth) == Cut(Configured(), trans, pos)
    {
      hide PieceAddress, StreamingWidth, MaxRange;
      if streamingWidth == trans.len && pos % streamingWidth == 0 {
        WholeRow(trans, pos);
      }
      tLen, tWidth := Min(trans.len - pos, MaxRange(Configured(), tAddr)), width;
      if pos % streamingWidth != 0 {
        tLen := Min(tLen, streamingWidth - pos % streamingWidth);
        tWidth := tLen;
      } else if streamingWidth != trans.len {
        if validator.Some? && validator.value(tAddr, tLen, streamingWidth) {
          tWidth := streamingWidth;
        } else {
          var busWidthBytes := Min(busWidth / 8, streamingWidth);
          tLen := Min(tLen, busWidthBytes);
          tWidth := tLen;
        }
      }
    }

    /** The reused payload set up for the next piece; `be` holds two copies of the enables. */
    method Chop(trans: Payload, pos: nat, gp0: Payload, be: seq<bool>) returns (gp: Payload)
      requires Usable(Configured()) && pos < trans.len
      requires gp0.write == trans.write && (pos == 0 ==> gp0.width == trans.width) && |gp0.enables| == |trans.enables|
      requires be == trans.enables + trans.enables
      ensures gp == Piece(Configured(), trans, pos)
    {
      hide Cut, MaxRange;
      var beLen, streamingWidth := |trans.enables|, if trans.width == 0 then trans.len else trans.width;
      var tAddr := (trans.addr + pos % streamingWidth) % WRAP;
      var tLen, tWidth := Measure(trans, pos, tAddr, streamingWidth, gp0.width);
      gp := gp0.(width := tWidth, addr := tAddr, offset := trans.offset + pos, len := tLen);
      if beLen != 0 {
        gp := gp.(enables := be[pos % beLen..pos % beLen + beLen]);
      }
    }

    /** The pieces go out in order until one is refused; those before it have exactly the effect of that
        many bytes of the payload, and when none is refused the payload has its whole effect. */
    method BTransport(trans: Payload, data: array<Byte>, before: Response) returns (response: Response, ghost done: nat)
      requires Usable(Configured()) && trans.offset + trans.len <= data.Length
      modifies initSocket, data
      ensures Configured() == old(Configured())
      ensures var sent := Sent(Configured(), trans);
              && Issued(initSocket.accepts, old(initSocket.seen), initSocket.seen, sent, done)
              && Answered(trans, sent, done, before, response)
              && Done(trans, TotalLength(sent[..done]), old(initSocket.memory), old(data[..]), initSocket.memory,
                      data[..])
    {
      hide Pieces, Piece, Written, Fetched, Reached, Done, Answered, Issued, TotalLength, AllAccepted, MaxRange,
           NaturalAlignment;
      ghost var l, sent := Configured(), Sent(Configured(), trans);
      ghost var s0, m0, d0 := initSocket.seen, initSocket.memory, data[..];
      NothingDone(trans, m0, d0);
      done := 0;
      var streamingWidth := if trans.width == 0 then trans.len else trans.width;
      var naturalAlignment := NaturalAlignment(trans.addr);
      if (!doNaturalAlignment || trans.addr % naturalAlignment == 0) && trans.len < maxLen &&
         trans.len == MaxRange(Configured(), trans.addr) && streamingWidth == trans.len {
        response := initSocket.BTransport(trans, data);
        done := if response.Ok? then 1 else 0;
        assert sent == [trans];
        ForwardedIssued(initSocket.accepts, s0, trans, done, before, response);
        return;
      }
      var gp, be := trans, trans.enables + trans.enables;
      var pos := 0;
      response := before;
      StartReached(l, trans, sent);
      NoneAccepted(initSocket.accepts, |s0|);
      assert initSocket.seen == s0 + sent[..done];
      while pos < trans.len
        invariant Configured() == l && pos <= trans.len
        invariant gp.write == trans.write && (pos == 0 ==> gp.width == trans.width) && |gp.enables| == |trans.enables|
        invariant Reached(l, trans, sent, done, pos) && done <= |sent|
        invariant initSocket.seen == s0 + sent[..done] && AllAccepted(initSocket.accepts, |s0|, |s0| + done)
        invariant response == if pos == 0 then before else Ok
        invariant Done(trans, pos, m0, d0, initSocket.memory, data[..])
        decreases trans.len - pos
      {
        gp := Chop(trans, pos, gp, be);
        PieceShape(l, trans, pos);
        ReachedNext(l, trans, sent, done, pos);
        ghost var m, d := initSocket.memory, data[..];
        response := initSocket.BTransport(gp, data);
        if response != Ok {
          NothingChanged(gp, m, d, initSocket.memory, data[..]);
          RefusedIssued(initSocket.accepts, s0, l, trans, sent, done, pos, before, response);
          return;
        }
        OneMoreAccepted(initSocket.accepts, |s0|, |s0| + done);
        PieceDone(l, trans, pos, m0, d0, m, d, initSocket.memory, data[..]);
        pos := pos + gp.len;
        done := done + 1;
      }
      CompleteIssued(initSocket.accepts, s0, l, trans, sent, done, before, response);
    }
  }
}
