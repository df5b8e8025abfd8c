/** The frames on the serial line as bytes. */
module SerialFrames {
  import opened Bytes
  import opened Crc32
  import opened CrcNumber
  import opened SerialRx

  const NUMBER_LIMIT := 10000 // four decimal digits

  datatype Frame = Frame(kind: byte, mid: int, index: int, number: int, content: seq<byte>)

  // ---------------------------------------------------------------- numbers in text

  function Digits(v: nat): seq<byte>
  {
    if v < 10 then [48 + v] else Digits(v / 10) + [48 + v % 10]
  }

  function Filled(s: seq<byte>, width: nat): seq<byte>
    decreases if |s| < width then width - |s| else 0
  {
    if |s| >= width then s else Filled([48] + s, width)
  }

  /** A number in at least four decimal places, filled with zeros. */
  function Field(v: int): seq<byte>
  {
    Filled(if v < 0 then [45] + Digits(-v) else Digits(v), 4)
  }

  function HexDigit(v: nat): byte
    requires v < 16
  {
    if v < 10 then 48 + v else 55 + v
  }

  /** The `width` lowest hexadecimal places of `v`, upper case. */
  function Hex(v: nat, width: nat): (s: seq<byte>)
    ensures |s| == width
    decreases width
  {
    if width == 0 then [] else Hex(v / 16, width - 1) + [HexDigit(v % 16)]
  }

  predicate IsDecimal(s: seq<byte>)
  {
    forall k | 0 <= k < |s| :: 48 <= s[k] <= 57
  }

  function DecimalValue(s: seq<byte>): int
    decreases |s|
  {
    if s == [] then 0
    else
      var last: int := s[|s| - 1];
      10 * DecimalValue(s[..|s| - 1]) + last - 48
  }

  predicate IsHex(s: seq<byte>)
  {
    forall k | 0 <= k < |s| :: 48 <= s[k] <= 57 || 65 <= s[k] <= 70
  }

  function HexValue(s: seq<byte>): int
    decreases |s|
  {
    if s == [] then 0
    else
      var last: int := s[|s| - 1];
      16 * HexValue(s[..|s| - 1]) + if last < 65 then last - 48 else last - 55
  }

  lemma FieldOfFour(v: int)
    requires 0 <= v < NUMBER_LIMIT
    ensures |Field(v)| == 4 && IsDecimal(Field(v)) && DecimalValue(Field(v)) == v
  {
    var s := Digits(v);
    DigitsValue(v);
    FilledValue(s, 4);
  }

  lemma {:induction false} DigitsValue(v: nat)
    ensures IsDecimal(Digits(v)) && DecimalValue(Digits(v)) == v && |Digits(v)| >= 1
    ensures v < 10 ==> |Digits(v)| == 1
    ensures v < 100 ==> |Digits(v)| <= 2
    ensures v < 1000 ==> |Digits(v)| <= 3
    ensures v < 10000 ==> |Digits(v)| <= 4
  {
    if v >= 10 {
      DigitsValue(v / 10);
      var s := Digits(v);
      assert s[..|s| - 1] == Digits(v / 10) && s[|s| - 1] == 48 + v % 10;
    } else {
      assert Digits(v)[..0] == [];
    }
  }

  lemma {:induction false} FilledValue(s: seq<byte>, width: nat)
    requires IsDecimal(s)
    ensures IsDecimal(Filled(s, width)) && DecimalValue(Filled(s, width)) == DecimalValue(s)
    ensures |Filled(s, width)| == if |s| < width then width else |s|
    decreases if |s| < width then width - |s| else 0
  {
    if |s| < width {
      LeadingZero(s);
      FilledValue([48] + s, width);
    }
  }

  lemma {:induction false} LeadingZero(s: seq<byte>)
    ensures DecimalValue([48] + s) == DecimalValue(s)
    decreases |s|
  {
    var t := [48] + s;
    if s != [] {
      assert t[..|t| - 1] == [48] + s[..|s| - 1];
      LeadingZero(s[..|s| - 1]);
    } else {
      assert t[..0] == [];
    }
  }

  lemma {:induction false} HexRoundTrip(v: nat, width: nat)
    requires v < Power16(width)
    ensures IsHex(Hex(v, width)) && HexValue(Hex(v, width)) == v
    decreases width
  {
    if width > 0 {
      HexRoundTrip(v / 16, width - 1);
      var s := Hex(v, width);
      assert s[..|s| - 1] == Hex(v / 16, width - 1) && s[|s| - 1] == HexDigit(v % 16);
    }
  }

  // ---------------------------------------------------------------- a frame as bytes

  function Header(f: Frame): seq<byte>
  {
    [START, f.kind] + Field(f.mid) + Field(f.index) + Field(f.number)
  }

  /** The sender's checksum: first the header, then, continuing, the content. */
  function FrameCrc(f: Frame): nat
  {
    Number(Checksum(Checksum(0, Header(f)), f.content), 8)
  }

  function Footer(f: Frame): seq<byte>
  {
    Hex(FrameCrc(f), 8) + [STOP]
  }

  function Encode(f: Frame): seq<byte>
  {
    Header(f) + f.content + Footer(f)
  }

  /** What four-digit numbers and the stop byte can carry. */
  predicate Transmittable(f: Frame)
  {
    && f.kind in {PAYLOAD, CONFIRMATION}
    && 0 <= f.mid < NUMBER_LIMIT && 0 <= f.index < NUMBER_LIMIT && 0 <= f.number < NUMBER_LIMIT
    && STOP !in f.content
  }

  lemma HeaderShape(f: Frame)
    requires Transmittable(f)
    ensures var h := Header(f);
            |h| == HEADER_SIZE && h[0] == START && h[1] == f.kind && IsDecimal(h[2..14])
            && DecimalValue(h[2..6]) == f.mid && DecimalValue(h[6..10]) == f.index && DecimalValue(h[10..14]) == f.number
  {
    FieldOfFour(f.mid);
    FieldOfFour(f.index);
    FieldOfFour(f.number);
    FieldsIn([START, f.kind], Field(f.mid), Field(f.index), Field(f.number));
  }

  lemma FieldsIn(p: seq<byte>, a: seq<byte>, b: seq<byte>, c: seq<byte>)
    requires |p| == 2 && |a| == |b| == |c| == 4 && IsDecimal(a) && IsDecimal(b) && IsDecimal(c)
    ensures var h := p + a + b + c;
            h[2..6] == a && h[6..10] == b && h[10..14] == c && IsDecimal(h[2..14])
  {
    var h := p + a + b + c;
    assert h[2..14] == a + b + c;
  }

  lemma FooterShape(f: Frame)
    ensures FooterOf(Footer(f), FrameCrc(f))
  {
    NumberBounded(Checksum(Checksum(0, Header(f)), f.content), 8);
    FooterOfNumber(FrameCrc(f));
  }

  predicate FooterOf(t: seq<byte>, crc: nat)
  {
    |t| == FOOTER_SIZE && t[8] == STOP && IsHex(t[..8]) && HexValue(t[..8]) == crc && STOP !in t[..8]
  }

  lemma FooterOfNumber(crc: nat)
    requires crc < Power16(8)
    ensures FooterOf(Hex(crc, 8) + [STOP], crc)
  {
    HexRoundTrip(crc, 8);
    assert (Hex(crc, 8) + [STOP])[..8] == Hex(crc, 8);
  }

  // ---------------------------------------------------------------- reading a frame

  /** The four numbers of a raw frame, as the stream extraction of the standard library reads them. */
  datatype Numbers = Numbers(crc: int, mid: int, index: int, number: int)

  /** Long enough for header and footer, and nothing but digits where numbers are expected. */
  predicate HasNumbers(raw: seq<byte>)
  {
    && |raw| >= HEADER_SIZE + FOOTER_SIZE
    && IsDecimal(raw[2..14]) && IsHex(raw[|raw| - 9..|raw| - 1])
  }

  function NumbersIn(raw: seq<byte>): Numbers
    requires HasNumbers(raw)
  {
    Numbers(HexValue(raw[|raw| - 9..|raw| - 1]),
            DecimalValue(raw[2..6]), DecimalValue(raw[6..10]), DecimalValue(raw[10..14]))
  }

  /** A checksum where the footer has it, whatever the header is like. */
  predicate HasChecksum(raw: seq<byte>)
  {
    |raw| >= HEADER_SIZE + FOOTER_SIZE && IsHex(raw[|raw| - 9..|raw| - 1])
  }

  /** `read` is a number reader: on fields made of digits it gives their value; elsewhere it may do anything. The checksum is
      read first, from the footer alone. */
  ghost predicate ReadsNumbers(read: seq<byte> -> Numbers)
  {
    && (forall raw | HasNumbers(raw) :: read(raw) == NumbersIn(raw))
    && (forall raw | HasChecksum(raw) :: read(raw).crc == HexValue(raw[|raw| - 9..|raw| - 1]))
  }

  /** A frame as the receiver sees it. */
  datatype Received = Received(kind: byte, mid: int, index: int, number: int, intact: bool, content: seq<byte>)

  /** The receiver's checksum: header and content in one call. */
  function RawCrc(raw: seq<byte>): nat
    requires |raw| >= FOOTER_SIZE
  {
    Number(Checksum(0, raw[..|raw| - FOOTER_SIZE]), 8)
  }

  /** A complete raw frame has at least one byte after its header. */
  function Read(raw: seq<byte>, read: seq<byte> -> Numbers): Received
    requires |raw| > HEADER_SIZE
  {
    var v := read(raw);
    Received(raw[1], v.mid, v.index, v.number, RawCrc(raw) == v.crc,
             if |raw| >= HEADER_SIZE + FOOTER_SIZE then raw[HEADER_SIZE..|raw| - FOOTER_SIZE] else raw[HEADER_SIZE..])
  }

  /** Any raw frame is the header, the content, and nine bytes of footer, unless it is too short for a footer; it is intact if
      the checksum of all but its last nine bytes is the number read. */
  lemma ReadRaw(raw: seq<byte>, read: seq<byte> -> Numbers)
    requires |raw| > 14
    ensures var f, footer := Read(raw, read), if |raw| >= 23 then raw[|raw| - 9..] else [];
            && f.kind == raw[1] && raw == raw[..14] + f.content + footer
            && (f.mid, f.index, f.number) == (read(raw).mid, read(raw).index, read(raw).number)
            && (f.intact <==> Number(Checksum(0, raw[..|raw| - 9]), 8) == read(raw).crc)
  {
  }

  /** What a frame is on arrival when nothing happened to it. */
  function Arrived(f: Frame): Received
  {
    Received(f.kind, f.mid, f.index, f.number, true, f.content)
  }

  /** The parts of a raw frame, found again in the whole. */
  lemma PartsOf(h: seq<byte>, c: seq<byte>, t: seq<byte>)
    requires |h| == HEADER_SIZE && |t| == FOOTER_SIZE
    ensures var raw := h + c + t;
            |raw| == HEADER_SIZE + |c| + FOOTER_SIZE
            && raw[0] == h[0] && raw[1] == h[1]
            && raw[2..6] == h[2..6] && raw[6..10] == h[6..10] && raw[10..14] == h[10..14] && raw[2..14] == h[2..14]
            && raw[HEADER_SIZE..|raw| - FOOTER_SIZE] == c && raw[..|raw| - FOOTER_SIZE] == h + c
            && raw[|raw| - 9..|raw| - 1] == t[..8]
  {
  }

  lemma ReadParts(h: seq<byte>, c: seq<byte>, t: seq<byte>, read: seq<byte> -> Numbers)
    requires |h| == HEADER_SIZE && |t| == FOOTER_SIZE && ReadsNumbers(read)
    requires IsDecimal(h[2..14]) && IsHex(t[..8])
    ensures read(h + c + t) == Numbers(HexValue(t[..8]), DecimalValue(h[2..6]), DecimalValue(h[6..10]), DecimalValue(h[10..14]))
  {
    PartsOf(h, c, t);
    assert HasNumbers(h + c + t);
  }

  /** The receiver reads back what the sender wrote, and the two ways to compute the checksum agree. */
  lemma ReadEncoded(f: Frame, read: seq<byte> -> Numbers)
    requires Transmittable(f) && ReadsNumbers(read)
    ensures |Encode(f)| > HEADER_SIZE && Read(Encode(f), read) == Arrived(f)
  {
    HeaderShape(f);
    FooterShape(f);
    PartsOf(Header(f), f.content, Footer(f));
    ReadParts(Header(f), f.content, Footer(f), read);
    ChecksumConcat(0, Header(f), f.content);
  }

  /** Damage confined to four consecutive bytes of header and content never passes for an intact frame, whether or not the
      numbers in the header can still be read. */
  lemma DamageDetected(f: Frame, read: seq<byte> -> Numbers,
                       before: seq<byte>, burst: seq<byte>, burst': seq<byte>, after: seq<byte>)
    requires Transmittable(f) && ReadsNumbers(read)
    requires Header(f) + f.content == before + burst + after
    requires |burst| == |burst'| <= 4 && burst != burst'
    ensures |before + burst' + after + Footer(f)| > HEADER_SIZE
    ensures !Read(before + burst' + after + Footer(f), read).intact
  {
    HeaderShape(f);
    FooterShape(f);
    IntactMeans(before + burst' + after, Footer(f), read);
    ChecksumConcat(0, Header(f), f.content);
    BurstDetected(0, before, burst, burst', after);
    NumbersDiffer(Checksum(0, before + burst + after), Checksum(0, before + burst' + after));
  }

  lemma NumbersDiffer(x: bv32, y: bv32)
    requires x != y
    ensures Number(x, 8) != Number(y, 8)
  {
    if Number(x, 8) == Number(y, 8) {
      NumberInjective(x, y);
    }
  }

  lemma IntactMeans(covered: seq<byte>, t: seq<byte>, read: seq<byte> -> Numbers)
    requires |covered| >= HEADER_SIZE && |t| == FOOTER_SIZE && IsHex(t[..8]) && ReadsNumbers(read)
    ensures Read(covered + t, read).intact <==> Number(Checksum(0, covered), 8) == HexValue(t[..8])
  {
    hide HasNumbers, NumbersIn, Checksum;
    var raw := covered + t;
    assert raw[..|raw| - FOOTER_SIZE] == covered;
    assert raw[|raw| - 9..|raw| - 1] == t[..8];
    assert HasChecksum(raw);
  }

  // ---------------------------------------------------------------- a frame byte by byte

  lemma TwoDigits(v: nat)
    requires 10 <= v < 100
    ensures Digits(v) == [48 + v / 10, 48 + v % 10]
  {
    assert Digits(v / 10) == [48 + v / 10];
  }

  lemma ThreeDigits(v: nat)
    requires 100 <= v < 1000
    ensures Digits(v) == [48 + v / 100, 48 + v / 10 % 10, 48 + v % 10]
  {
    TwoDigits(v / 10);
    assert v / 10 / 10 == v / 100;
  }

  lemma FourDigits(v: nat)
    requires 1000 <= v < 10000
    ensures Digits(v) == [48 + v / 1000, 48 + v / 100 % 10, 48 + v / 10 % 10, 48 + v % 10]
  {
    ThreeDigits(v / 10);
    assert v / 10 / 10 == v / 100 && v / 10 / 100 == v / 1000;
  }

  /** The four decimal places of a number. */
  lemma FieldPlaces(v: int)
    requires 0 <= v < 10000
    ensures Field(v) == [48 + v / 1000, 48 + v / 100 % 10, 48 + v / 10 % 10, 48 + v % 10]
  {
    hide Digits, Filled;
    if v < 10 {
      assert Digits(v) == [48 + v] by { OneDigit(v); }
      Fill([48 + v]);
    } else if v < 100 {
      TwoDigits(v);
      Fill([48 + v / 10, 48 + v % 10]);
    } else if v < 1000 {
      ThreeDigits(v);
      Fill([48 + v / 100, 48 + v / 10 % 10, 48 + v % 10]);
    } else {
      FourDigits(v);
      Fill([48 + v / 1000, 48 + v / 100 % 10, 48 + v / 10 % 10, 48 + v % 10]);
    }
  }

  lemma OneDigit(v: nat)
    requires v < 10
    ensures Digits(v) == [48 + v]
  {
  }

  lemma Fill(s: seq<byte>)
    requires 1 <= |s| <= 4
    ensures Filled(s, 4) == (if |s| == 1 then [48, 48, 48] else if |s| == 2 then [48, 48] else if |s| == 3 then [48] else []) + s
    decreases 4 - |s|
  {
    if |s| < 4 {
      Fill([48] + s);
    }
  }

  const HEX_DIGITS: seq<byte> := [48, 49, 50, 51, 52, 53, 54, 55, 56, 57, 65, 66, 67, 68, 69, 70] // 0..9 and A..F

  lemma {:induction false} HexPlaces(v: nat, width: nat, k: nat)
    requires k < width
    ensures Hex(v, width)[k] == HEX_DIGITS[v / Power16(width - 1 - k) % 16]
    decreases width
  {
    if k < width - 1 {
      HexPlaces(v / 16, width - 1, k);
      DividedTwice(v, Power16(width - 2 - k));
    }
  }

  lemma DividedTwice(v: nat, p: nat)
    requires p > 0
    ensures v / 16 / p == v / (16 * p)
  {
    DivideTwice(v / 16, v % 16, p);
  }

  /** Every byte of a frame: start byte, type, mid, index and number in four decimal places each, the content, and the checksum
      of all that in eight hexadecimal places, the highest first, before the stop byte. */
  lemma FrameLayout(f: Frame, k: nat)
    requires Transmittable(f) && k < 8
    ensures var raw, n := Encode(f), |f.content|;
            && |raw| == 14 + n + 9 && raw[0] == 0x01 && raw[1] == f.kind && f.kind in {0x50, 0x43}
            && raw[2..6] == [48 + f.mid / 1000, 48 + f.mid / 100 % 10, 48 + f.mid / 10 % 10, 48 + f.mid % 10]
            && raw[6..10] == [48 + f.index / 1000, 48 + f.index / 100 % 10, 48 + f.index / 10 % 10, 48 + f.index % 10]
            && raw[10..14] == [48 + f.number / 1000, 48 + f.number / 100 % 10, 48 + f.number / 10 % 10, 48 + f.number % 10]
            && raw[14..14 + n] == f.content && raw[22 + n] == 0x04
            && raw[14 + n + k] == HEX_DIGITS[Number(Checksum(0, raw[..14 + n]), 8) / Power16(7 - k) % 16]
  {
    hide Checksum, Number, Hex, Field;
    FieldPlaces(f.mid);
    FieldPlaces(f.index);
    FieldPlaces(f.number);
    HeaderParts(f);
    PartsOf(Header(f), f.content, Footer(f));
    ChecksumConcat(0, Header(f), f.content);
    HexPlaces(FrameCrc(f), 8, k);
    var raw, n := Encode(f), |f.content|;
    assert raw[14 + n + k] == Footer(f)[k] == Hex(FrameCrc(f), 8)[k];
  }

  lemma HeaderParts(f: Frame)
    requires Transmittable(f)
    ensures var h := Header(f);
            |h| == 14 && h[0] == 0x01 && h[1] == f.kind
            && h[2..6] == Field(f.mid) && h[6..10] == Field(f.index) && h[10..14] == Field(f.number)
  {
    FieldOfFour(f.mid);
    FieldOfFour(f.index);
    FieldOfFour(f.number);
    FieldsIn([START, f.kind], Field(f.mid), Field(f.index), Field(f.number));
  }

  // ---------------------------------------------------------------- streams of frames

  /** The bytes of several frames in a row. */
  function EncodeAll(fs: seq<Frame>): seq<byte>
  {
    Join(Each(Encode, fs))
  }

  /** Any frames, written one after the other and read in any chunks, arrive as they are and in order. */
  lemma CodecRoundTrip(rx: Rx, fs: seq<Frame>, chunks: seq<seq<byte>>, read: seq<byte> -> Numbers)
    requires rx.state == WaitForStart && ReadsNumbers(read)
    requires forall f | f in fs :: Transmittable(f)
    requires Join(chunks) == EncodeAll(fs)
    ensures var (rx', events) := RxChunks(rx, chunks);
            rx'.state == WaitForStart && |events| == |fs|
            && forall k | 0 <= k < |fs| ::
                 events[k].WholeFrame? && |events[k].raw| > HEADER_SIZE && Read(events[k].raw, read) == Arrived(fs[k])
  {
    var raws := Each(Encode, fs);
    var complete := (raw: seq<byte>) => WholeFrame(raw);
    forall k | 0 <= k < |fs|
      ensures FrameShaped(raws[k])
      ensures Each(complete, raws)[k] == WholeFrame(raws[k])
      ensures |raws[k]| > HEADER_SIZE && Read(raws[k], read) == Arrived(fs[k])
    {
      FrameInBatch(fs, k, read);
      EachAt(complete, raws, k);
    }
    ChunkingIrrelevant(rx, chunks);
    RxFrames(rx, raws);
  }

  lemma EncodeFrameShaped(f: Frame)
    requires Transmittable(f)
    ensures FrameShaped(Encode(f))
  {
    HeaderShape(f);
    FooterShape(f);
    PartsFrameShaped(Header(f), f.content, Footer(f));
  }

  lemma FrameInBatch(fs: seq<Frame>, k: nat, read: seq<byte> -> Numbers)
    requires k < |fs| && ReadsNumbers(read) && forall f | f in fs :: Transmittable(f)
    ensures var raws := Each(Encode, fs);
            FrameShaped(raws[k]) && Read(raws[k], read) == Arrived(fs[k])
  {
    EachAt(Encode, fs, k);
    assert fs[k] in fs;
    EncodeFrameShaped(fs[k]);
    ReadEncoded(fs[k], read);
  }
}
