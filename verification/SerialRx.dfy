/** The automaton that finds frames in a byte stream. */
module SerialRx {
  import opened Bytes

  const START: byte := 0x01
  const STOP: byte := 0x04
  const PAYLOAD: byte := 0x50
  const CONFIRMATION: byte := 0x43
  const ACK: byte := 0x06
  const NAK: byte := 0x15

  const HEADER_SIZE := 14
  const FOOTER_SIZE := 9

  datatype RxState = WaitForStart | ReadHeader | ReadPayload

  datatype Rx = Rx(state: RxState, frameData: seq<byte>)

  datatype RxEvent = OutOfFrame | WholeFrame(raw: seq<byte>)

  predicate RxValid(rx: Rx)
  {
    match rx.state
    case WaitForStart => true
    case ReadHeader => 0 < |rx.frameData| < HEADER_SIZE
    case ReadPayload => |rx.frameData| >= HEADER_SIZE
  }

  function RxStep(rx: Rx, b: byte): (Rx, seq<RxEvent>)
  {
    match rx.state
    case WaitForStart =>
      if b == START then (Rx(ReadHeader, [b]), []) else (rx, [OutOfFrame])
    case ReadHeader =>
      var data := rx.frameData + [b];
      (Rx(if |data| >= HEADER_SIZE then ReadPayload else ReadHeader, data), [])
    case ReadPayload =>
      var data := rx.frameData + [b];
      if b == STOP then (Rx(WaitForStart, data), [WholeFrame(data)]) else (Rx(ReadPayload, data), [])
  }

  function RxAll(rx: Rx, data: seq<byte>): (Rx, seq<RxEvent>)
    decreases |data|
  {
    if data == [] then (rx, [])
    else
      var (rx1, e1) := RxStep(rx, data[0]);
      var (rx2, e2) := RxAll(rx1, data[1..]);
      (rx2, e1 + e2)
  }

  lemma RxStepValid(rx: Rx, b: byte)
    requires RxValid(rx)
    ensures RxValid(RxStep(rx, b).0)
    ensures forall e | e in RxStep(rx, b).1 && e.WholeFrame? :: |e.raw| > HEADER_SIZE
  {
  }

  lemma {:induction false} RxAllConcat(rx: Rx, a: seq<byte>, b: seq<byte>)
    ensures var (rx1, e1) := RxAll(rx, a);
            var (rx2, e2) := RxAll(rx1, b);
            RxAll(rx, a + b) == (rx2, e1 + e2)
    decreases |a|
  {
    if a == [] {
      assert a + b == b;
      assert [] + RxAll(rx, b).1 == RxAll(rx, b).1;
    } else {
      assert (a + b)[1..] == a[1..] + b;
      var (rx1, e1) := RxStep(rx, a[0]);
      RxAllConcat(rx1, a[1..], b);
      var (rx2, e2) := RxAll(rx1, a[1..]);
      var (rx3, e3) := RxAll(rx2, b);
      assert e1 + (e2 + e3) == (e1 + e2) + e3;
    }
  }

  /** Starts with the start byte and, after the header, has the stop byte only at its end. */
  predicate FrameShaped(raw: seq<byte>)
  {
    && |raw| > HEADER_SIZE && raw[0] == START && raw[|raw| - 1] == STOP
    && forall k | HEADER_SIZE <= k < |raw| - 1 :: raw[k] != STOP
  }

  lemma PartsFrameShaped(h: seq<byte>, c: seq<byte>, t: seq<byte>)
    requires |h| == HEADER_SIZE && |t| == FOOTER_SIZE && h[0] == START && t[8] == STOP
    requires STOP !in c && STOP !in t[..8]
    ensures FrameShaped(h + c + t)
  {
    var raw := h + c + t;
    forall k | HEADER_SIZE <= k < |raw| - 1
      ensures raw[k] != STOP
    {
      if k < HEADER_SIZE + |c| {
        assert raw[k] == c[k - HEADER_SIZE];
      } else {
        assert raw[k] == t[..8][k - HEADER_SIZE - |c|];
      }
    }
  }

  /** The automaton `k` bytes into a frame. */
  function Within(raw: seq<byte>, k: nat): Rx
    requires 0 < k < |raw|
  {
    Rx(if k < HEADER_SIZE then ReadHeader else ReadPayload, raw[..k])
  }

  /** The automaton is `k` bytes into `raw`. */
  predicate At(rx: Rx, raw: seq<byte>, k: nat)
  {
    k < |raw| && if k == 0 then rx.state == WaitForStart else rx == Within(raw, k)
  }

  /** One byte inside a frame goes one position on; the last one completes the frame. */
  lemma StepWithin(raw: seq<byte>, rx: Rx, k: nat)
    requires FrameShaped(raw) && At(rx, raw, k)
    ensures RxStep(rx, raw[k])
         == if k + 1 < |raw| then (Within(raw, k + 1), []) else (Rx(WaitForStart, raw), [WholeFrame(raw)])
  {
    assert raw[..k + 1] == raw[..k] + [raw[k]];
    assert raw[..1] == [raw[0]];
    assert raw[..|raw|] == raw;
  }

  lemma {:induction false} RxFrameFrom(raw: seq<byte>, rx: Rx, k: nat)
    requires FrameShaped(raw) && At(rx, raw, k)
    ensures RxAll(rx, raw[k..]) == (Rx(WaitForStart, raw), [WholeFrame(raw)])
    decreases |raw| - k
  {
    StepWithin(raw, rx, k);
    assert raw[k..][1..] == raw[k + 1..];
    var (rx1, e1) := RxStep(rx, raw[k]);
    if k + 1 < |raw| {
      RxFrameFrom(raw, rx1, k + 1);
      assert e1 + [WholeFrame(raw)] == [WholeFrame(raw)];
    } else {
      assert raw[k..][1..] == [];
      assert RxAll(rx1, []) == (rx1, []);
      assert e1 + [] == e1;
    }
  }

  lemma {:induction false} RxFrames(rx: Rx, raws: seq<seq<byte>>)
    requires rx.state == WaitForStart && forall raw | raw in raws :: FrameShaped(raw)
    ensures var (rx', events) := RxAll(rx, Join(raws));
            rx'.state == WaitForStart && events == Each((raw: seq<byte>) => WholeFrame(raw), raws)
    decreases |raws|
  {
    if raws != [] {
      var raw := raws[0];
      assert raw[0..] == raw;
      RxFrameFrom(raw, rx, 0);
      RxAllConcat(rx, raw, Join(raws[1..]));
      RxFrames(Rx(WaitForStart, raw), raws[1..]);
    }
  }

  /** Feeding chunks one after the other. */
  function RxChunks(rx: Rx, chunks: seq<seq<byte>>): (Rx, seq<RxEvent>)
    decreases |chunks|
  {
    if chunks == [] then (rx, [])
    else
      var (rx1, e1) := RxAll(rx, chunks[0]);
      var (rx2, e2) := RxChunks(rx1, chunks[1..]);
      (rx2, e1 + e2)
  }

  lemma {:induction false} ChunkingIrrelevant(rx: Rx, chunks: seq<seq<byte>>)
    ensures RxChunks(rx, chunks) == RxAll(rx, Join(chunks))
    decreases |chunks|
  {
    if chunks != [] {
      ChunkingIrrelevant(RxAll(rx, chunks[0]).0, chunks[1..]);
      RxAllConcat(rx, chunks[0], Join(chunks[1..]));
    }
  }

  // ---------------------------------------------------------------- any bytes at all

  /** A piece of a byte stream: a byte outside frames, or a frame. */
  predicate IsToken(t: seq<byte>)
  {
    (|t| == 1 && t[0] != 0x01) || FrameShaped(t)
  }

  /** The beginning of a frame: no stop byte has come since its header. */
  predicate Unfinished(t: seq<byte>)
  {
    t != [] ==> t[0] == 0x01 && forall k | 14 <= k < |t| :: t[k] != 0x04
  }

  function TokenEvent(t: seq<byte>): RxEvent
  {
    if |t| == 1 then OutOfFrame else WholeFrame(t)
  }

  /** Where the frame at the beginning of `data` ends, or the end of `data`. */
  function FrameEnd(data: seq<byte>, from: nat): (k: nat)
    requires from <= |data|
    ensures from <= k <= |data| && (forall j | from <= j < k :: data[j] != 0x04) && (k < |data| ==> data[k] == 0x04)
    decreases |data| - from
  {
    if from == |data| || data[from] == 0x04 then from else FrameEnd(data, from + 1)
  }

  /** The pieces of a stream, and the frame it breaks off in. */
  function Tokens(data: seq<byte>): (seq<seq<byte>>, seq<byte>)
    decreases |data|
  {
    if data == [] then ([], [])
    else if data[0] != 0x01 then
      var (ts, rest) := Tokens(data[1..]);
      ([[data[0]]] + ts, rest)
    else
      var k := if |data| <= 14 then |data| else FrameEnd(data, 14);
      if k == |data| then ([], data)
      else
        var (ts, rest) := Tokens(data[k + 1..]);
        ([data[..k + 1]] + ts, rest)
  }

  /** The pieces and the rest make up the stream. */
  predicate Pieces(data: seq<byte>, ts: seq<seq<byte>>, rest: seq<byte>)
  {
    data == Join(ts) + rest && Unfinished(rest) && forall t | t in ts :: IsToken(t)
  }

  lemma OnePiece(t: seq<byte>, data: seq<byte>, ts: seq<seq<byte>>, rest: seq<byte>)
    requires IsToken(t) && Pieces(data, ts, rest)
    ensures Pieces(t + data, [t] + ts, rest)
  {
    hide IsToken, Unfinished;
    assert ([t] + ts)[1..] == ts;
    AppendTwo(t, Join(ts), rest);
  }

  lemma FirstFrame(data: seq<byte>)
    requires |data| > 14 && data[0] == 0x01
    ensures var k := FrameEnd(data, 14); if k == |data| then Unfinished(data) else FrameShaped(data[..k + 1])
  {
  }

  lemma {:induction false} TokensRead(data: seq<byte>)
    ensures Pieces(data, Tokens(data).0, Tokens(data).1)
    decreases |data|
  {
    hide Pieces, FrameEnd;
    if data == [] || (data[0] == 0x01 && |data| <= 14) {
      NoPiece(data);
    } else if data[0] != 0x01 {
      TokensRead(data[1..]);
      OnePiece([data[0]], data[1..], Tokens(data[1..]).0, Tokens(data[1..]).1);
      assert data == [data[0]] + data[1..];
    } else {
      var k := FrameEnd(data, 14);
      FirstFrame(data);
      if k == |data| {
        NoPiece(data);
      } else {
        TokensRead(data[k + 1..]);
        OnePiece(data[..k + 1], data[k + 1..], Tokens(data[k + 1..]).0, Tokens(data[k + 1..]).1);
        assert data == data[..k + 1] + data[k + 1..];
      }
    }
  }

  lemma NoPiece(rest: seq<byte>)
    requires Unfinished(rest)
    ensures Pieces(rest, [], rest)
  {
    assert [] + rest == rest;
  }

  /** The automaton at the beginning of a frame that breaks off. */
  predicate BrokenOff(rx: Rx, rest: seq<byte>)
  {
    if rest == [] then rx.state == WaitForStart
    else rx == Rx(if |rest| < 14 then ReadHeader else ReadPayload, rest)
  }

  lemma {:induction false} UnfinishedRead(rx: Rx, rest: seq<byte>)
    requires rx.state == WaitForStart && Unfinished(rest)
    ensures BrokenOff(RxAll(rx, rest).0, rest) && RxAll(rx, rest).1 == []
  {
    if rest != [] {
      var front, last := rest[..|rest| - 1], rest[|rest| - 1];
      assert rest == front + [last];
      UnfinishedRead(rx, front);
      RxAllConcat(rx, front, [last]);
      OneByte(RxAll(rx, front).0, last);
    }
  }

  lemma OneByte(rx: Rx, b: byte)
    ensures RxAll(rx, [b]) == RxStep(rx, b)
  {
    assert [b][1..] == [] && RxStep(rx, b).1 + [] == RxStep(rx, b).1;
  }

  lemma TokenReadOf(rx: Rx, t: seq<byte>)
    requires rx.state == WaitForStart && IsToken(t)
    ensures RxAll(rx, t).0.state == WaitForStart && RxAll(rx, t).1 == [TokenEvent(t)]
  {
    if FrameShaped(t) {
      assert t[0..] == t;
      RxFrameFrom(t, rx, 0);
    } else {
      assert t == [t[0]];
      OneByte(rx, t[0]);
    }
  }

  lemma {:induction false} TokensFound(rx: Rx, ts: seq<seq<byte>>, rest: seq<byte>)
    requires rx.state == WaitForStart && Unfinished(rest) && forall t | t in ts :: IsToken(t)
    ensures var (rx', events) := RxAll(rx, Join(ts) + rest);
            BrokenOff(rx', rest) && events == Each(TokenEvent, ts)
    decreases |ts|
  {
    if ts == [] {
      assert [] + rest == rest;
      UnfinishedRead(rx, rest);
    } else {
      assert ts[0] in ts && forall t | t in ts[1..] :: t in ts;
      var tail := Join(ts[1..]) + rest;
      AppendTwo(ts[0], Join(ts[1..]), rest);
      TokenReadOf(rx, ts[0]);
      RxAllConcat(rx, ts[0], tail);
      TokensFound(RxAll(rx, ts[0]).0, ts[1..], rest);
    }
  }

  /** Any byte stream is read, piece by piece, as frames and bytes outside of them, each noticed in turn, and a frame that breaks
      off at the end; and there is no other way to read it so. */
  lemma EveryStreamRead(rx: Rx, data: seq<byte>, ts: seq<seq<byte>>, rest: seq<byte>)
    requires rx.state == WaitForStart
    ensures Pieces(data, ts, rest) ==> RxAll(rx, data).1 == Each(TokenEvent, ts) && BrokenOff(RxAll(rx, data).0, rest)
    ensures Pieces(data, Tokens(data).0, Tokens(data).1)
  {
    hide RxAll, Tokens;
    TokensRead(data);
    if Pieces(data, ts, rest) {
      TokensFound(rx, ts, rest);
    }
  }
}
