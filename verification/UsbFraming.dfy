/** Frames with a length in front, as they go over the USB line. */
module UsbFraming {
  import opened Bytes

  const WORD := 0x1_0000_0000   // what an unsigned 32-bit number wraps around at
  const PREFIX := 4

  /** A 32-bit number in network byte order. */
  function Ntohl(s: seq<byte>): (v: int)
    requires |s| == 4
    ensures 0 <= v < WORD
  {
    var a: int, b: int, c: int, d: int := s[0], s[1], s[2], s[3];
    a * 0x100_0000 + b * 0x1_0000 + c * 0x100 + d
  }

  function Htonl(v: int): (s: seq<byte>)
    requires 0 <= v < WORD
    ensures |s| == 4
  {
    [v / 0x100_0000, v / 0x1_0000 % 0x100, v / 0x100 % 0x100, v % 0x100]
  }

  lemma NtohlOfHtonl(v: int)
    requires 0 <= v < WORD
    ensures Ntohl(Htonl(v)) == v
  {
    assert v == v / 0x100 * 0x100 + v % 0x100;
    assert v / 0x100 == v / 0x1_0000 * 0x100 + v / 0x100 % 0x100;
    assert v / 0x1_0000 == v / 0x100_0000 * 0x100 + v / 0x1_0000 % 0x100;
  }

  /** The bytes of one frame; the length is cut to 32 bits. */
  function Encode(payload: seq<byte>): seq<byte>
  {
    Htonl(|payload| % WORD) + payload
  }

  /** The bytes of a frame: four for the length, the most significant first, and the payload. */
  lemma EncodedAs(payload: seq<byte>)
    ensures |Encode(payload)| == 4 + |payload| && Encode(payload)[4..] == payload
    ensures var a: int, b: int, c: int, d: int := Encode(payload)[0], Encode(payload)[1], Encode(payload)[2], Encode(payload)[3];
            0x100_0000 * a + 0x1_0000 * b + 0x100 * c + d == |payload| % 0x1_0000_0000
  {
    NtohlOfHtonl(|payload| % WORD);
  }

  /** The size of the frame being read with its prefix, cut to 32 bits; 0 as long as the prefix is not complete. */
  function FrameSize(frame: seq<byte>): int
  {
    if |frame| < PREFIX then 0 else (Ntohl(frame[..PREFIX]) + PREFIX) % WORD
  }

  /** One byte: the frame read so far, and the message if it is complete. */
  function Step(frame: seq<byte>, b: byte): (seq<byte>, seq<seq<byte>>)
  {
    var f := frame + [b];
    if FrameSize(f) != 0 && |f| == FrameSize(f) then ([], [f[PREFIX..]]) else (f, [])
  }

  function All(frame: seq<byte>, data: seq<byte>): (seq<byte>, seq<seq<byte>>)
  {
    if data == [] then (frame, [])
    else
      var (f1, e1) := All(frame, data[..|data| - 1]);
      var (f2, e2) := Step(f1, data[|data| - 1]);
      (f2, e1 + e2)
  }

  lemma AllSnoc(frame: seq<byte>, data: seq<byte>, b: byte)
    ensures var (f1, e1) := All(frame, data);
            var (f2, e2) := Step(f1, b);
            && All(frame, data + [b]) == (f2, e1 + e2)
            && (e1 == [] ==> All(frame, data + [b]) == (f2, e2))
  {
    assert (data + [b])[..|data|] == data;
    assert [] + Step(All(frame, data).0, b).1 == Step(All(frame, data).0, b).1;
  }

  lemma {:induction false} AllConcat(frame: seq<byte>, a: seq<byte>, b: seq<byte>)
    ensures var (f1, e1) := All(frame, a);
            var (f2, e2) := All(f1, b);
            All(frame, a + b) == (f2, e1 + e2)
    decreases |b|
  {
    var (f1, e1) := All(frame, a);
    if b == [] {
      assert a + b == a && e1 + [] == e1;
    } else {
      var front, last := b[..|b| - 1], b[|b| - 1];
      AllConcat(frame, a, front);
      assert a + b == (a + front) + [last];
      AllSnoc(frame, a + front, last);
      var (f2, e2) := All(f1, front);
      AppendTwo(e1, e2, Step(f2, last).1);
    }
  }

  // ---------------------------------------------------------------- a frame gets through

  /** Short enough for length and prefix together to fit in 32 bits. */
  predicate Fits(payload: seq<byte>)
  {
    |payload| < WORD - PREFIX
  }

  lemma FrameSizeOf(payload: seq<byte>, k: nat)
    requires k <= |Encode(payload)|
    ensures FrameSize(Encode(payload)[..k]) == if k < PREFIX then 0 else (|payload| % WORD + PREFIX) % WORD
  {
    if k >= PREFIX {
      assert Encode(payload)[..k][..PREFIX] == Htonl(|payload| % WORD);
      NtohlOfHtonl(|payload| % WORD);
    }
  }

  lemma StepInside(payload: seq<byte>, k: nat)
    requires Fits(payload) && k < |Encode(payload)|
    ensures var e := Encode(payload);
            Step(e[..k], e[k]) == if k + 1 < |e| then (e[..k + 1], []) else ([], [payload])
  {
    hide Ntohl, Htonl;
    var e := Encode(payload);
    assert e[..k + 1] == e[..k] + [e[k]];
    FrameSizeOf(payload, k + 1);
    if k + 1 == |e| {
      assert e[..k + 1] == e && e[PREFIX..] == payload;
    }
  }

  lemma {:induction false} FrameFrom(payload: seq<byte>, k: nat)
    requires Fits(payload) && k <= |Encode(payload)|
    ensures var e := Encode(payload);
            All([], e[..k]) == if k < |e| then (e[..k], []) else ([], [payload])
    decreases k
  {
    hide Encode, Step;
    var e := Encode(payload);
    EncodeLength(payload);
    if k == 0 {
      assert e[..k] == [];
      assert All([], e[..k]) == ([], []);
    } else {
      FrameFrom(payload, k - 1);
      assert e[..k] == e[..k - 1] + [e[k - 1]];
      AllSnoc([], e[..k - 1], e[k - 1]);
      StepInside(payload, k - 1);
    }
  }

  lemma EncodeLength(payload: seq<byte>)
    ensures |Encode(payload)| == PREFIX + |payload|
  {
  }

  lemma FrameThrough(payload: seq<byte>)
    requires Fits(payload)
    ensures All([], Encode(payload)) == ([], [payload])
  {
    hide Encode, All;
    var e := Encode(payload);
    FrameFrom(payload, |e|);
    assert e[..|e|] == e;
  }

  /** A list of payloads comes out as it went in, and nothing of it is left behind. */
  lemma {:induction false} FramesThrough(payloads: seq<seq<byte>>)
    requires forall p | p in payloads :: Fits(p)
    ensures All([], Join(Each(Encode, payloads))) == ([], payloads)
  {
    hide Encode, Step;
    if payloads != [] {
      assert payloads[0] in payloads && forall p | p in payloads[1..] :: p in payloads;
      FrameThrough(payloads[0]);
      FramesThrough(payloads[1..]);
      AllConcat([], Encode(payloads[0]), Join(Each(Encode, payloads[1..])));
      assert payloads == [payloads[0]] + payloads[1..];
    }
  }

  /** Taking in chunk after chunk. */
  function Chunks(frame: seq<byte>, chunks: seq<seq<byte>>): (seq<byte>, seq<seq<byte>>)
    decreases |chunks|
  {
    if chunks == [] then (frame, [])
    else
      var (f1, e1) := All(frame, chunks[0]);
      var (f2, e2) := Chunks(f1, chunks[1..]);
      (f2, e1 + e2)
  }

  lemma {:induction false} ChunkingIrrelevant(frame: seq<byte>, chunks: seq<seq<byte>>)
    ensures Chunks(frame, chunks) == All(frame, Join(chunks))
    decreases |chunks|
  {
    if chunks != [] {
      ChunkingIrrelevant(All(frame, chunks[0]).0, chunks[1..]);
      AllConcat(frame, chunks[0], Join(chunks[1..]));
    }
  }

  /** Whatever the portions in which the bytes arrive. */
  lemma RoundTrip(payloads: seq<seq<byte>>, chunks: seq<seq<byte>>)
    requires forall p | p in payloads :: Fits(p)
    requires Join(chunks) == Join(Each(Encode, payloads))
    ensures Chunks([], chunks) == ([], payloads)
  {
    ChunkingIrrelevant([], chunks);
    FramesThrough(payloads);
  }

  // ---------------------------------------------------------------- and a longer one does not

  /** With a size below that of the prefix a frame never ends. */
  lemma {:induction false} NeverEnds(frame: seq<byte>, data: seq<byte>)
    requires |frame| >= PREFIX && FrameSize(frame) < PREFIX
    ensures All(frame, data) == (frame + data, [])
    decreases |data|
  {
    hide Ntohl;
    if data == [] {
      assert frame + [] == frame;
    } else {
      var front, last := data[..|data| - 1], data[|data| - 1];
      NeverEnds(frame, front);
      var f := frame + front + [last];
      assert f == frame + data && f[..PREFIX] == frame[..PREFIX];
      AllSnoc(frame, front, last);
      assert data == front + [last];
    }
  }

  /** The wrapped-around size is below that of the prefix: whatever follows, nothing comes out any more. */
  lemma TooLongNeverEnds(payload: seq<byte>, rest: seq<byte>)
    requires |payload| % WORD >= WORD - PREFIX
    ensures All([], Encode(payload) + rest).1 == []
  {
    hide All;
    var e := Encode(payload);
    FrameSizeOf(payload, PREFIX);
    PrefixAlone(payload);
    assert e + rest == e[..PREFIX] + (e[PREFIX..] + rest);
    AllConcat([], e[..PREFIX], e[PREFIX..] + rest);
    NeverEnds(e[..PREFIX], e[PREFIX..] + rest);
  }

  lemma PrefixAlone(payload: seq<byte>)
    requires |payload| % WORD != 0
    ensures All([], Encode(payload)[..PREFIX]) == (Encode(payload)[..PREFIX], [])
  {
    var e := Encode(payload);
    PartOfPrefix(payload, 0);
    PartOfPrefix(payload, 1);
    PartOfPrefix(payload, 2);
    PartOfPrefix(payload, 3);
  }

  lemma PartOfPrefix(payload: seq<byte>, k: nat)
    requires k < PREFIX && |payload| % WORD != 0
    ensures var e := Encode(payload);
            && (k == 0 ==> All([], e[..0]) == (e[..0], []))
            && (All([], e[..k]) == (e[..k], []) ==> All([], e[..k + 1]) == (e[..k + 1], []))
  {
    hide Ntohl, Htonl;
    var e := Encode(payload);
    assert e[..k + 1] == e[..k] + [e[k]];
    AllSnoc([], e[..k], e[k]);
    FrameSizeOf(payload, k + 1);
  }

  lemma EncodeCut(payload: seq<byte>, m: nat)
    requires m == |payload| % WORD && m <= |payload|
    ensures Encode(payload) == Encode(payload[..m]) + payload[m..]
  {
    hide Htonl;
    assert payload == payload[..m] + payload[m..];
    AppendTwo(Htonl(m), payload[..m], payload[m..]);
  }

  /** The length is cut, and what it says is taken for the message. */
  lemma TooLongIsCut(payload: seq<byte>, m: nat, rest: seq<byte>)
    requires m == |payload| % WORD < WORD - PREFIX && m < |payload|
    ensures var e := All([], Encode(payload) + rest).1; e != [] && e[0] != payload
  {
    hide Encode, All;
    var short, more := payload[..m], payload[m..];
    EncodeCut(payload, m);
    FrameThrough(short);
    AppendTwo(Encode(short), more, rest);
    AllConcat([], Encode(short), more + rest);
    assert All([], Encode(payload) + rest).1[0] == short;
  }

  lemma FirstTooLong(payloads: seq<seq<byte>>)
    requires payloads != [] && !Fits(payloads[0])
    ensures All([], Join(Each(Encode, payloads))).1 != payloads
  {
    hide Encode, All;
    var m := |payloads[0]| % WORD;
    var rest := Join(Each(Encode, payloads)[1..]);
    if m >= WORD - PREFIX {
      TooLongNeverEnds(payloads[0], rest);
    } else {
      TooLongIsCut(payloads[0], m, rest);
    }
  }

  /** A list of payloads gets through exactly if the length of each fits in 32 bits together with the prefix. */
  lemma {:induction false} RoundTripIff(payloads: seq<seq<byte>>)
    ensures All([], Join(Each(Encode, payloads))).1 == payloads <==> forall p | p in payloads :: Fits(p)
  {
    hide Encode, All, Fits;
    if payloads == [] {
      FramesThrough([]);
    } else if !Fits(payloads[0]) {
      FirstTooLong(payloads);
      assert payloads[0] in payloads;
    } else {
      var tail := payloads[1..];
      FrameThrough(payloads[0]);
      RoundTripIff(tail);
      AllConcat([], Encode(payloads[0]), Join(Each(Encode, tail)));
      var e := All([], Join(Each(Encode, tail))).1;
      assert payloads == [payloads[0]] + tail;
      assert ([payloads[0]] + e)[1..] == e;
      assert forall p | p in payloads :: p == payloads[0] || p in tail;
      assert forall p | p in tail :: p in payloads;
    }
  }

  // ---------------------------------------------------------------- and one that is not written whole does not either

  /** A frame of which the channel took `prefix` bytes of the length and `text` bytes of the payload. */
  datatype Write = Write(payload: seq<byte>, prefix: nat, text: nat)

  predicate Sensible(w: Write)
  {
    w.prefix <= PREFIX && w.text <= |w.payload|
  }

  predicate Whole(w: Write)
  {
    w.prefix == PREFIX && w.text == |w.payload|
  }

  function Cut(w: Write): seq<byte>
    requires Sensible(w)
  {
    Htonl(|w.payload| % WORD)[..w.prefix] + w.payload[..w.text]
  }

  lemma CutOfWhole(w: Write)
    requires Sensible(w)
    ensures |Cut(w)| == w.prefix + w.text
    ensures Cut(w) == Encode(w.payload) <==> Whole(w)
  {
    hide Htonl;
    if Whole(w) {
      assert Htonl(|w.payload| % WORD)[..PREFIX] == Htonl(|w.payload| % WORD) && w.payload[..|w.payload|] == w.payload;
    } else {
      EncodeLength(w.payload);
    }
  }

  /** What is on the wire after some writes. */
  function Wire(ws: seq<Write>): seq<byte>
    requires forall w | w in ws :: Sensible(w)
  {
    if ws == [] then [] else Cut(ws[0]) + Wire(ws[1..])
  }

  function Payloads(ws: seq<Write>): seq<seq<byte>>
  {
    if ws == [] then [] else [ws[0].payload] + Payloads(ws[1..])
  }

  /** The bytes it takes to write messages. */
  function Volume(messages: seq<seq<byte>>): nat
  {
    if messages == [] then 0 else PREFIX + |messages[0]| + Volume(messages[1..])
  }

  lemma {:induction false} VolumeConcat(a: seq<seq<byte>>, b: seq<seq<byte>>)
    ensures Volume(a + b) == Volume(a) + Volume(b)
  {
    if a == [] {
      assert a + b == b;
    } else {
      assert (a + b)[1..] == a[1..] + b;
      VolumeConcat(a[1..], b);
    }
  }

  lemma StepConserves(frame: seq<byte>, b: byte)
    ensures var (f, e) := Step(frame, b); |f| + Volume(e) == |frame| + 1
  {
    hide Ntohl;
  }

  /** No byte read is lost or made up. */
  lemma {:induction false} Conserved(frame: seq<byte>, data: seq<byte>)
    ensures var (f, e) := All(frame, data); |f| + Volume(e) == |frame| + |data|
    decreases |data|
  {
    hide Step, Volume;
    if data == [] {
      NoVolume();
    } else {
      var front, last := data[..|data| - 1], data[|data| - 1];
      Conserved(frame, front);
      StepConserves(All(frame, front).0, last);
      VolumeConcat(All(frame, front).1, Step(All(frame, front).0, last).1);
    }
  }

  lemma NoVolume()
    ensures Volume([]) == 0
  {
  }

  lemma {:induction false} WireLength(ws: seq<Write>)
    requires forall w | w in ws :: Sensible(w)
    ensures |Wire(ws)| <= Volume(Payloads(ws))
    ensures |Wire(ws)| == Volume(Payloads(ws)) ==> forall w | w in ws :: Whole(w)
  {
    hide Cut;
    if ws != [] {
      assert ws[0] in ws && forall w | w in ws[1..] :: w in ws;
      CutOfWhole(ws[0]);
      WireLength(ws[1..]);
      assert forall w | w in ws :: w == ws[0] || w in ws[1..];
    }
  }

  lemma {:induction false} WholeWire(ws: seq<Write>)
    requires forall w | w in ws :: Sensible(w) && Whole(w)
    ensures Wire(ws) == Join(Each(Encode, Payloads(ws)))
  {
    hide Cut, Encode;
    if ws != [] {
      assert ws[0] in ws && forall w | w in ws[1..] :: w in ws;
      CutOfWhole(ws[0]);
      WholeWire(ws[1..]);
      var ps := Payloads(ws);
      assert ps[1..] == Payloads(ws[1..]);
      assert Each(Encode, ps)[1..] == Each(Encode, ps[1..]);
    }
  }

  lemma {:induction false} PayloadsFit(ws: seq<Write>)
    ensures (forall p | p in Payloads(ws) :: Fits(p)) <==> forall w | w in ws :: Fits(w.payload)
  {
    if ws != [] {
      PayloadsFit(ws[1..]);
      var tail := Payloads(ws[1..]);
      assert Payloads(ws) == [ws[0].payload] + tail;
      assert (forall p | p in Payloads(ws) :: Fits(p)) <==> Fits(ws[0].payload) && forall p | p in tail :: Fits(p) by {
        assert forall p | p in tail :: p in Payloads(ws);
        assert Payloads(ws)[0] in Payloads(ws);
      }
      assert (forall w | w in ws :: Fits(w.payload)) <==> Fits(ws[0].payload) && forall w | w in ws[1..] :: Fits(w.payload) by {
        assert forall w | w in ws :: w == ws[0] || w in ws[1..];
        assert forall w | w in ws[1..] :: w in ws;
        assert ws[0] in ws;
      }
    }
  }

  /** The other side reads what was sent, in whatever portions, exactly if every payload is short enough and the channel took
      every frame whole, the length as well as the payload. */
  lemma ReadAsSentIff(ws: seq<Write>, chunks: seq<seq<byte>>)
    requires (forall w | w in ws :: Sensible(w)) && Join(chunks) == Wire(ws)
    ensures Chunks([], chunks).1 == Payloads(ws) <==> forall w | w in ws :: Whole(w) && Fits(w.payload)
  {
    hide All, Wire, Payloads, Volume, Chunks, Join, Whole, Fits, Cut, Sensible;
    ChunkingIrrelevant([], chunks);
    Conserved([], Wire(ws));
    WireLength(ws);
    if forall w | w in ws :: Whole(w) {
      WholeWire(ws);
      RoundTripIff(Payloads(ws));
      PayloadsFit(ws);
    }
  }
}
