/** Entries of a log stream: little-endian integers, the special entries, and their byte layout. */
module Entries {
  import opened Bytes

  // ---------------------------------------------------------------- little-endian integers

  const TWO_TO_32: nat := 0x1_0000_0000
  const TWO_TO_63: nat := 0x8000_0000_0000_0000
  const TWO_TO_64: nat := 0x1_0000_0000_0000_0000

  type u16 = x: nat | x < 0x1_0000
  type u32 = x: nat | x < TWO_TO_32
  type u64 = x: nat | x < TWO_TO_64

  /** The number of values of a `k`-byte integer. */
  function Range256(k: nat): (r: nat)
    ensures r >= 1
  {
    if k == 0 then 1 else 256 * Range256(k - 1)
  }

  lemma Ranges()
    ensures Range256(1) == 256 && Range256(2) == 0x1_0000 && Range256(4) == TWO_TO_32 && Range256(8) == TWO_TO_64
  {
    assert Range256(2) == 256 * Range256(1);
    assert Range256(4) == 256 * 256 * Range256(2);
    assert Range256(6) == 256 * 256 * Range256(4);
    assert Range256(8) == 256 * 256 * Range256(6);
  }

  function LE(n: nat, k: nat): (r: bytes)
    ensures |r| == k
  {
    if k == 0 then [] else [n % 256] + LE(n / 256, k - 1)
  }

  function FromLE(b: bytes): nat {
    if b == [] then 0 else b[0] + 256 * FromLE(b[1..])
  }

  lemma {:induction false} FromLEBound(b: bytes)
    ensures FromLE(b) < Range256(|b|)
  {
    if b != [] {
      FromLEBound(b[1..]);
    }
  }

  lemma {:induction false} FromLEOfLE(n: nat, k: nat)
    requires n < Range256(k)
    ensures FromLE(LE(n, k)) == n
  {
    if k > 0 {
      FromLEOfLE(n / 256, k - 1);
      assert LE(n, k)[1..] == LE(n / 256, k - 1);
    }
  }

  lemma {:induction false} LEOfFromLE(b: bytes)
    ensures LE(FromLE(b), |b|) == b
  {
    if b != [] {
      LEOfFromLE(b[1..]);
      assert FromLE(b) % 256 == b[0] && FromLE(b) / 256 == FromLE(b[1..]);
    }
  }

  // ---------------------------------------------------------------- reading from a stretch of bytes

  /** What reading a value gives: the value and the bytes after it, or an overflow of the input. */
  datatype Parsed<+T> = Fail | Ok(value: T, rest: bytes) {
    predicate IsFailure() { Fail? }
    function PropagateFailure<U>(): Parsed<U>
      requires Fail?
    {
      Fail
    }
    function Extract(): (T, bytes)
      requires Ok?
    {
      (value, rest)
    }
  }

  function Take(b: bytes, n: nat): Parsed<bytes> {
    if n <= |b| then Ok(b[..n], b[n..]) else Fail
  }

  function ReadUint(b: bytes, k: nat): (r: Parsed<nat>)
    ensures r.Ok? ==> r.value < Range256(k)
  {
    if k <= |b| then
      FromLEBound(b[..k]);
      Ok(FromLE(b[..k]), b[k..])
    else Fail
  }

  /** Strings and other byte sequences are prefixed with a 32 bit length. */
  type text = s: bytes | |s| < TWO_TO_32

  function EncodeText(s: text): bytes {
    LE(|s|, 4) + s
  }

  function ReadText(b: bytes): (r: Parsed<text>)
  {
    Ranges();
    var (size, b) :- ReadUint(b, 4);
    Take(b, size)
  }

  lemma ReadUintOf(n: nat, k: nat, rest: bytes)
    requires n < Range256(k)
    ensures ReadUint(LE(n, k) + rest, k) == Ok(n, rest)
  {
    FromLEOfLE(n, k);
    assert (LE(n, k) + rest)[..k] == LE(n, k);
  }

  lemma ReadUintOnly(b: bytes, k: nat)
    requires ReadUint(b, k).Ok?
    ensures b == LE(ReadUint(b, k).value, k) + ReadUint(b, k).rest
  {
    LEOfFromLE(b[..k]);
  }

  lemma ReadTextOf(s: text, rest: bytes)
    ensures ReadText(EncodeText(s) + rest) == Ok(s, rest)
  {
    Ranges();
    assert EncodeText(s) + rest == LE(|s|, 4) + (s + rest);
    ReadUintOf(|s|, 4, s + rest);
  }

  lemma ReadTextOnly(b: bytes)
    requires ReadText(b).Ok?
    ensures b == EncodeText(ReadText(b).value) + ReadText(b).rest
  {
    Ranges();
    ReadUintOnly(b, 4);
  }

  // ---------------------------------------------------------------- the special entries

  datatype EventSource = EventSource(
    id: u64, severity: u16, category: text, function_: text, file: text, line: u64,
    formatString: text, argumentTags: text)

  datatype WriterProp = WriterProp(id: u64, name: text, batchSize: u64)

  /** `tzOffset` is kept as the unsigned image of the 32 bit signed integer. */
  datatype ClockSync = ClockSync(clockValue: u64, clockFrequency: u64, nsSinceEpoch: u64, tzOffset: u32, tzName: text)

  /** Tags with the top bit set mark special entries; any other tag is the source id of an event. */
  const SOURCE_TAG: u64 := TWO_TO_64 - 1
  const WRITER_TAG: u64 := TWO_TO_64 - 2
  const CLOCK_TAG: u64 := TWO_TO_64 - 3

  predicate IsSpecial(tag: u64) {
    tag >= TWO_TO_63
  }

  function EncodeSource(s: EventSource): bytes {
    LE(s.id, 8) + (LE(s.severity, 2) + (EncodeText(s.category) + (EncodeText(s.function_) + (EncodeText(s.file) +
    (LE(s.line, 8) + (EncodeText(s.formatString) + EncodeText(s.argumentTags)))))))
  }

  function EncodeWriter(w: WriterProp): bytes {
    LE(w.id, 8) + (EncodeText(w.name) + LE(w.batchSize, 8))
  }

  function EncodeClock(c: ClockSync): bytes {
    LE(c.clockValue, 8) + (LE(c.clockFrequency, 8) + (LE(c.nsSinceEpoch, 8) + (LE(c.tzOffset, 4) + EncodeText(c.tzName))))
  }

  function DecodeSource(b: bytes): Parsed<EventSource> {
    Ranges();
    var (id, b) :- ReadUint(b, 8);
    var (severity, b) :- ReadUint(b, 2);
    var (category, b) :- ReadText(b);
    var (function_, b) :- ReadText(b);
    var (file, b) :- ReadText(b);
    var (line, b) :- ReadUint(b, 8);
    var (formatString, b) :- ReadText(b);
    var (argumentTags, b) :- ReadText(b);
    Ok(EventSource(id, severity, category, function_, file, line, formatString, argumentTags), b)
  }

  function DecodeWriter(b: bytes): Parsed<WriterProp> {
    Ranges();
    var (id, b) :- ReadUint(b, 8);
    var (name, b) :- ReadText(b);
    var (batchSize, b) :- ReadUint(b, 8);
    Ok(WriterProp(id, name, batchSize), b)
  }

  function DecodeClock(b: bytes): Parsed<ClockSync> {
    Ranges();
    var (clockValue, b) :- ReadUint(b, 8);
    var (clockFrequency, b) :- ReadUint(b, 8);
    var (nsSinceEpoch, b) :- ReadUint(b, 8);
    var (tzOffset, b) :- ReadUint(b, 4);
    var (tzName, b) :- ReadText(b);
    Ok(ClockSync(clockValue, clockFrequency, nsSinceEpoch, tzOffset, tzName), b)
  }

  /** The fields of a source, one after the other, and then `rest`. */
  function SourceThen(s: EventSource, rest: bytes): bytes {
    LE(s.id, 8) + (LE(s.severity, 2) + (EncodeText(s.category) + (EncodeText(s.function_) + (EncodeText(s.file) +
    (LE(s.line, 8) + (EncodeText(s.formatString) + (EncodeText(s.argumentTags) + rest)))))))
  }

  lemma EncodeSourceThen(s: EventSource, rest: bytes)
    ensures EncodeSource(s) + rest == SourceThen(s, rest)
  {
    var b7 := EncodeText(s.argumentTags) + rest;
    var b6 := EncodeText(s.formatString) + b7;
    var b5 := LE(s.line, 8) + b6;
    var b4 := EncodeText(s.file) + b5;
    var b3 := EncodeText(s.function_) + b4;
    var b2 := EncodeText(s.category) + b3;
    var b1 := LE(s.severity, 2) + b2;
    assert EncodeSource(s) + rest == LE(s.id, 8) + b1;
  }

  /** Reading back a serialized source gives it, and leaves what follows untouched. */
  lemma SourceRoundTrip(s: EventSource, rest: bytes)
    ensures DecodeSource(EncodeSource(s) + rest) == Ok(s, rest)
  {
    Ranges();
    EncodeSourceThen(s, rest);
    var b7 := EncodeText(s.argumentTags) + rest;
    var b6 := EncodeText(s.formatString) + b7;
    var b5 := LE(s.line, 8) + b6;
    var b4 := EncodeText(s.file) + b5;
    var b3 := EncodeText(s.function_) + b4;
    var b2 := EncodeText(s.category) + b3;
    ReadUintOf(s.id, 8, LE(s.severity, 2) + b2);
    ReadUintOf(s.severity, 2, b2);
    ReadTextOf(s.category, b3);
    ReadTextOf(s.function_, b4);
    ReadTextOf(s.file, b5);
    ReadUintOf(s.line, 8, b6);
    ReadTextOf(s.formatString, b7);
    ReadTextOf(s.argumentTags, rest);
  }

  lemma WriterRoundTrip(w: WriterProp, rest: bytes)
    ensures DecodeWriter(EncodeWriter(w) + rest) == Ok(w, rest)
  {
    Ranges();
    var b2 := LE(w.batchSize, 8) + rest;
    var b1 := EncodeText(w.name) + b2;
    assert EncodeWriter(w) + rest == LE(w.id, 8) + b1;
    ReadUintOf(w.id, 8, b1);
    ReadTextOf(w.name, b2);
    ReadUintOf(w.batchSize, 8, rest);
  }

  lemma ClockRoundTrip(c: ClockSync, rest: bytes)
    ensures DecodeClock(EncodeClock(c) + rest) == Ok(c, rest)
  {
    Ranges();
    var b4 := EncodeText(c.tzName) + rest;
    var b3 := LE(c.tzOffset, 4) + b4;
    var b2 := LE(c.nsSinceEpoch, 8) + b3;
    var b1 := LE(c.clockFrequency, 8) + b2;
    assert EncodeClock(c) + rest == LE(c.clockValue, 8) + b1;
    ReadUintOf(c.clockValue, 8, b1);
    ReadUintOf(c.clockFrequency, 8, b2);
    ReadUintOf(c.nsSinceEpoch, 8, b3);
    ReadUintOf(c.tzOffset, 4, b4);
    ReadTextOf(c.tzName, rest);
  }

  /** Only the serialization of a source, followed by anything, reads as that source. */
  lemma SourceDecodesOnlyItself(b: bytes)
    requires DecodeSource(b).Ok?
    ensures b == EncodeSource(DecodeSource(b).value) + DecodeSource(b).rest
  {
    Ranges();
    ReadUintOnly(b, 8);
    var b1 := ReadUint(b, 8).rest;
    ReadUintOnly(b1, 2);
    var b2 := ReadUint(b1, 2).rest;
    ReadTextOnly(b2);
    var b3 := ReadText(b2).rest;
    ReadTextOnly(b3);
    var b4 := ReadText(b3).rest;
    ReadTextOnly(b4);
    var b5 := ReadText(b4).rest;
    ReadUintOnly(b5, 8);
    var b6 := ReadUint(b5, 8).rest;
    ReadTextOnly(b6);
    var b7 := ReadText(b6).rest;
    ReadTextOnly(b7);
    EncodeSourceThen(DecodeSource(b).value, DecodeSource(b).rest);
  }

  lemma WriterDecodesOnlyItself(b: bytes)
    requires DecodeWriter(b).Ok?
    ensures b == EncodeWriter(DecodeWriter(b).value) + DecodeWriter(b).rest
  {
    Ranges();
    ReadUintOnly(b, 8);
    var b1 := ReadUint(b, 8).rest;
    ReadTextOnly(b1);
    var b2 := ReadText(b1).rest;
    ReadUintOnly(b2, 8);
  }

  lemma ClockDecodesOnlyItself(b: bytes)
    requires DecodeClock(b).Ok?
    ensures b == EncodeClock(DecodeClock(b).value) + DecodeClock(b).rest
  {
    Ranges();
    ReadUintOnly(b, 8);
    var b1 := ReadUint(b, 8).rest;
    ReadUintOnly(b1, 8);
    var b2 := ReadUint(b1, 8).rest;
    ReadUintOnly(b2, 8);
    var b3 := ReadUint(b2, 8).rest;
    ReadUintOnly(b3, 4);
    ReadTextOnly(ReadUint(b3, 4).rest);
  }

  /** A source that is cut short is not decoded as anything; nor are writer properties or a clock sync. */
  lemma CutSourceFails(s: EventSource, n: nat)
    requires n < |EncodeSource(s)|
    ensures DecodeSource(EncodeSource(s)[..n]).Fail?
  {
    hide EncodeSource, DecodeSource;
    var b := EncodeSource(s);
    SourceRoundTrip(s, []);
    assert b + [] == b;
    if DecodeSource(b[..n]).Ok? {
      var v, rest := DecodeSource(b[..n]).value, DecodeSource(b[..n]).rest;
      SourceDecodesOnlyItself(b[..n]);
      SourceRoundTrip(v, rest + b[n..]);
      JoinCut(b, n, EncodeSource(v), rest);
    }
  }

  lemma CutWriterFails(w: WriterProp, n: nat)
    requires n < |EncodeWriter(w)|
    ensures DecodeWriter(EncodeWriter(w)[..n]).Fail?
  {
    hide EncodeWriter, DecodeWriter;
    var b := EncodeWriter(w);
    WriterRoundTrip(w, []);
    assert b + [] == b;
    if DecodeWriter(b[..n]).Ok? {
      var v, rest := DecodeWriter(b[..n]).value, DecodeWriter(b[..n]).rest;
      WriterDecodesOnlyItself(b[..n]);
      WriterRoundTrip(v, rest + b[n..]);
      JoinCut(b, n, EncodeWriter(v), rest);
    }
  }

  lemma CutClockFails(c: ClockSync, n: nat)
    requires n < |EncodeClock(c)|
    ensures DecodeClock(EncodeClock(c)[..n]).Fail?
  {
    hide EncodeClock, DecodeClock;
    var b := EncodeClock(c);
    ClockRoundTrip(c, []);
    assert b + [] == b;
    if DecodeClock(b[..n]).Ok? {
      var v, rest := DecodeClock(b[..n]).value, DecodeClock(b[..n]).rest;
      ClockDecodesOnlyItself(b[..n]);
      ClockRoundTrip(v, rest + b[n..]);
      JoinCut(b, n, EncodeClock(v), rest);
    }
  }

  lemma JoinCut(b: bytes, n: nat, a: bytes, rest: bytes)
    requires n < |b| && b[..n] == a + rest
    ensures b == a + (rest + b[n..]) && rest + b[n..] != []
  {
    assert b == b[..n] + b[n..];
  }

  // ---------------------------------------------------------------- framing

  /** A payload is prefixed with its 32 bit size. */
  function Frame(payload: text): bytes {
    EncodeText(payload)
  }

  function FrameAll(payloads: seq<text>): (r: bytes)
  {
    if payloads == [] then [] else Frame(payloads[0]) + FrameAll(payloads[1..])
  }

  lemma {:induction false} FrameAllAppend(a: seq<text>, b: seq<text>)
    ensures FrameAll(a + b) == FrameAll(a) + FrameAll(b)
  {
    if a == [] {
      assert a + b == b;
    } else {
      assert (a + b)[1..] == a[1..] + b;
      FrameAllAppend(a[1..], b);
    }
  }

  /** The payloads of `b`, if `b` is a run of whole entries. */
  function Unframe(b: bytes): Option<seq<text>>
    decreases |b|
  {
    if b == [] then Some([])
    else match ReadText(b)
      case Fail => None
      case Ok(payload, rest) =>
        match Unframe(rest)
        case None => None
        case Some(more) => Some([payload] + more)
  }

  lemma {:induction false} UnframeOfFrameAll(payloads: seq<text>)
    ensures Unframe(FrameAll(payloads)) == Some(payloads)
  {
    if payloads != [] {
      ReadTextOf(payloads[0], FrameAll(payloads[1..]));
      UnframeOfFrameAll(payloads[1..]);
      assert payloads == [payloads[0]] + payloads[1..];
    }
  }

  lemma {:induction false} UnframeOnly(b: bytes)
    requires Unframe(b).Some?
    ensures FrameAll(Unframe(b).value) == b
    decreases |b|
  {
    if b != [] {
      ReadTextOnly(b);
      UnframeOnly(ReadText(b).rest);
      var payloads := Unframe(b).value;
      assert payloads[1..] == Unframe(ReadText(b).rest).value;
    }
  }

  /** Runs of whole entries, one after the other, are one. */
  lemma UnframeAppend(a: bytes, b: bytes)
    requires Unframe(a).Some? && Unframe(b).Some?
    ensures Unframe(a + b).Some?
  {
    var pa, pb := Unframe(a).value, Unframe(b).value;
    UnframeOnly(a);
    UnframeOnly(b);
    FrameAllAppend(pa, pb);
    UnframeOfFrameAll(pa + pb);
  }

  // ---------------------------------------------------------------- whole entries

  datatype Entry =
    | SourceEntry(source: EventSource)
    | WriterEntry(writer: WriterProp)
    | ClockEntry(clock: ClockSync)
    | EventEntry(sourceId: u64, clockValue: u64, arguments: bytes)

  /** Source ids of events have their top bit clear. */
  predicate EntryOk(e: Entry) {
    && (e.EventEntry? ==> !IsSpecial(e.sourceId))
    && |PayloadBytes(e)| < TWO_TO_32
  }

  function PayloadBytes(e: Entry): bytes {
    match e
    case SourceEntry(s) => LE(SOURCE_TAG, 8) + EncodeSource(s)
    case WriterEntry(w) => LE(WRITER_TAG, 8) + EncodeWriter(w)
    case ClockEntry(c) => LE(CLOCK_TAG, 8) + EncodeClock(c)
    case EventEntry(id, clock, args) => LE(id, 8) + (LE(clock, 8) + args)
  }

  function Payload(e: Entry): text
    requires EntryOk(e)
  {
    PayloadBytes(e)
  }

  function Payloads(es: seq<Entry>): (r: seq<text>)
    requires forall i :: 0 <= i < |es| ==> EntryOk(es[i])
    ensures |r| == |es|
    ensures forall i :: 0 <= i < |es| ==> r[i] == Payload(es[i])
  {
    if es == [] then [] else [Payload(es[0])] + Payloads(es[1..])
  }

  // ---------------------------------------------------------------- the bytes themselves

  lemma LEStep(n: nat, k: nat)
    requires k > 0
    ensures LE(n, k) == [n % 256] + LE(n / 256, k - 1) && LE(n, 0) == []
  {
  }

  lemma {:induction false} OnesLE(k: nat)
    ensures LE(Range256(k) - 1, k) == seq(k, _ => 0xFF)
  {
    if k > 0 {
      OnesLE(k - 1);
      assert (Range256(k) - 1) % 256 == 255 && (Range256(k) - 1) / 256 == Range256(k - 1) - 1;
      LEStep(Range256(k) - 1, k);
    }
  }

  /** The tags of special entries, as they lie in a stream. */
  lemma TagBytes()
    ensures LE(SOURCE_TAG, 8) == [0xFF, 0xFF, 0xFF, 0xFF, 0xFF, 0xFF, 0xFF, 0xFF]
    ensures LE(WRITER_TAG, 8) == [0xFE, 0xFF, 0xFF, 0xFF, 0xFF, 0xFF, 0xFF, 0xFF]
    ensures LE(CLOCK_TAG, 8) == [0xFD, 0xFF, 0xFF, 0xFF, 0xFF, 0xFF, 0xFF, 0xFF]
  {
    hide LE;
    Ranges();
    Range256Of7();
    OnesLE(7);
    LEStep(SOURCE_TAG, 8);
    LEStep(WRITER_TAG, 8);
    LEStep(CLOCK_TAG, 8);
    assert LE(Range256(7) - 1, 7) == [0xFF, 0xFF, 0xFF, 0xFF, 0xFF, 0xFF, 0xFF];
  }

  lemma Range256Of7()
    ensures Range256(7) == 0x100_0000_0000_0000
  {
    assert Range256(3) == 256 * 256 * Range256(1);
    assert Range256(5) == 256 * 256 * Range256(3);
    assert Range256(7) == 256 * 256 * Range256(5);
  }

  /** A source in a stream: the size of what follows, eight bytes FF, and its fields. */
  lemma FrameOfSource(s: EventSource)
    requires EntryOk(SourceEntry(s))
    ensures Frame(Payload(SourceEntry(s)))
            == LE(8 + |EncodeSource(s)|, 4) + ([0xFF, 0xFF, 0xFF, 0xFF, 0xFF, 0xFF, 0xFF, 0xFF] + EncodeSource(s))
  {
    TagBytes();
    hide LE, EncodeSource;
  }

  lemma FrameOfWriter(w: WriterProp)
    requires EntryOk(WriterEntry(w))
    ensures Frame(Payload(WriterEntry(w)))
            == LE(8 + |EncodeWriter(w)|, 4) + ([0xFE, 0xFF, 0xFF, 0xFF, 0xFF, 0xFF, 0xFF, 0xFF] + EncodeWriter(w))
  {
    TagBytes();
    hide LE, EncodeWriter;
  }

  lemma FrameOfClock(c: ClockSync)
    requires EntryOk(ClockEntry(c))
    ensures Frame(Payload(ClockEntry(c)))
            == LE(8 + |EncodeClock(c)|, 4) + ([0xFD, 0xFF, 0xFF, 0xFF, 0xFF, 0xFF, 0xFF, 0xFF] + EncodeClock(c))
  {
    TagBytes();
    hide LE, EncodeClock;
  }

  lemma {:induction false} ZerosLE(k: nat)
    ensures LE(0, k) == seq(k, _ => 0)
  {
    if k > 0 {
      ZerosLE(k - 1);
      LEStep(0, k);
    }
  }

  lemma SmallLE(n: byte)
    ensures LE(n, 2) == [n, 0] && LE(n, 4) == [n, 0, 0, 0] && LE(n, 8) == [n, 0, 0, 0, 0, 0, 0, 0]
  {
    hide LE;
    LEStep(n, 2);
    LEStep(n, 4);
    LEStep(n, 8);
    ZerosLE(1);
    ZerosLE(3);
    ZerosLE(7);
    assert LE(0, 3) == [0, 0, 0] && LE(0, 7) == [0, 0, 0, 0, 0, 0, 0];
  }

  lemma SmallText(n: byte)
    ensures EncodeText([n]) == [1, 0, 0, 0, n]
  {
    hide LE;
    SmallLE(1);
  }

  lemma Regroup(a: bytes, b: bytes, c: bytes, d: bytes, e: bytes, f: bytes, g: bytes, h: bytes)
    ensures a + (b + (c + (d + (e + (f + (g + h)))))) == (a + b) + (c + d + e) + (f + g + h)
  {
    assert c + (d + (e + (f + (g + h)))) == (c + d + e) + (f + g + h);
  }

  /** The order and widths of all fields, on examples in which no two are alike. */
  lemma SourceLayout()
    ensures EncodeSource(EventSource(1, 2, [3], [4], [5], 6, [7], [8])) ==
            [1, 0, 0, 0, 0, 0, 0, 0,        // id
             2, 0]                          // severity
            + [1, 0, 0, 0, 3,               // category
               1, 0, 0, 0, 4,               // function
               1, 0, 0, 0, 5]               // file
            + [6, 0, 0, 0, 0, 0, 0, 0,      // line
               1, 0, 0, 0, 7,               // format string
               1, 0, 0, 0, 8]               // argument tags
  {
    hide LE, EncodeText;
    SmallLE(1);
    SmallLE(2);
    SmallText(3);
    SmallText(4);
    SmallText(5);
    SmallLE(6);
    SmallText(7);
    SmallText(8);
    Regroup(LE(1, 8), LE(2, 2), EncodeText([3]), EncodeText([4]), EncodeText([5]), LE(6, 8), EncodeText([7]), EncodeText([8]));
  }

  lemma WriterLayout()
    ensures EncodeWriter(WriterProp(1, [2], 3)) ==
            [1, 0, 0, 0, 0, 0, 0, 0,   // id
             1, 0, 0, 0, 2,            // name
             3, 0, 0, 0, 0, 0, 0, 0]   // batch size
  {
    hide LE, EncodeText;
    SmallLE(1);
    SmallText(2);
    SmallLE(3);
  }

  lemma ClockLayout()
    ensures EncodeClock(ClockSync(1, 2, 3, 4, [5])) ==
            [1, 0, 0, 0, 0, 0, 0, 0,   // clock value
             2, 0, 0, 0, 0, 0, 0, 0,   // clock frequency
             3, 0, 0, 0, 0, 0, 0, 0,   // nanoseconds since the epoch
             4, 0, 0, 0,               // time zone offset
             1, 0, 0, 0, 5]            // time zone name
  {
    hide LE, EncodeText;
    SmallLE(1);
    SmallLE(2);
    SmallLE(3);
    SmallLE(4);
    SmallText(5);
  }

  lemma EventLayout()
    ensures EntryOk(EventEntry(1, 2, [3]))
    ensures Frame(Payload(EventEntry(1, 2, [3]))) ==
            [17, 0, 0, 0,              // size of what follows
             1, 0, 0, 0, 0, 0, 0, 0,   // source id
             2, 0, 0, 0, 0, 0, 0, 0,   // clock
             3]                        // arguments
  {
    hide LE;
    SmallLE(1);
    SmallLE(2);
    SmallLE(17);
  }
}
