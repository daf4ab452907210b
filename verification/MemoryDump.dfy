/** Finding the buffers of sessions in a memory dump by their magic numbers. */
module MemoryDumps {
  import opened Bytes
  import opened Entries
  import opened Ring
  import opened Recovery

  /** 0xFE214F726E35BDBC and 0xFE213F716D34BCBC as they lie in memory; see `MagicNumbers`. */
  const METADATA_MAGIC: bytes := [0xBC, 0xBD, 0x35, 0x6E, 0x72, 0x4F, 0x21, 0xFE]
  const DATA_MAGIC: bytes := [0xBC, 0xBC, 0x34, 0x6D, 0x71, 0x3F, 0x21, 0xFE]
  const FIRST_MAGIC_BYTE: byte := 0xBC

  lemma MagicNumbers()
    ensures FromLE(METADATA_MAGIC) == 0xFE21_4F72_6E35_BDBC
    ensures FromLE(DATA_MAGIC) == 0xFE21_3F71_6D34_BCBC
  {
    FromLE4(METADATA_MAGIC);
    FromLE4(METADATA_MAGIC[4..]);
    FromLE4(DATA_MAGIC);
    FromLE4(DATA_MAGIC[4..]);
    assert METADATA_MAGIC[4..][4..] == [] && DATA_MAGIC[4..][4..] == [];
  }

  lemma FromLE4(b: bytes)
    requires |b| >= 4
    ensures FromLE(b) == b[0] as int + 0x100 * (b[1] as int) + 0x1_0000 * (b[2] as int) + 0x100_0000 * (b[3] as int)
                         + TWO_TO_32 * FromLE(b[4..])
  {
    assert b[1..][1..] == b[2..] && b[2..][1..] == b[3..] && b[3..][1..] == b[4..];
  }

  datatype BufferType = Metadata | Data

  /** `session` is the address of the session, as a number. */
  datatype RecoveredBuffer = RecoveredBuffer(kind: BufferType, session: u64, buffer: bytes)

  // ---------------------------------------------------------------- what is recovered from a dump

  /** What follows the magic number of metadata: the session, a size, and that many bytes of whole entries. */
  function ParseMetadata(b: bytes): (r: Parsed<RecoveredBuffer>)
    ensures r.Ok? ==> |r.rest| <= |b| && r.value.kind == Metadata
  {
    Ranges();
    var (session, b) :- ReadUint(b, 8);
    var (size, b) :- ReadUint(b, 8);
    var (content, b) :- Take(b, size);
    if Unframe(content).Some? then Ok(RecoveredBuffer(Metadata, session, content), b) else Fail
  }

  /** The buffer of a queue with these members. */
  function ParseQueue(session: u64, w: nat, e: nat, capacity: nat, r: nat, b: bytes): (p: Parsed<RecoveredBuffer>)
    ensures p.Ok? ==> |p.rest| <= |b| && p.value.kind == Data
  {
    var (buffer, b) :- Take(b, capacity);
    match RecoverQueue(Shared(w, e, r, buffer))
    case None => Fail
    case Some(data) => Ok(RecoveredBuffer(Data, session, data), b)
  }

  /** What follows the magic number of a channel: the session, the members of the queue, and its buffer. */
  function ParseData(b: bytes): (r: Parsed<RecoveredBuffer>)
    ensures r.Ok? ==> |r.rest| <= |b| && r.value.kind == Data
  {
    Ranges();
    var (session, b) :- ReadUint(b, 8);
    var (writeIndex, b) :- ReadUint(b, 8);
    var (dataEnd, b) :- ReadUint(b, 8);
    var (capacity, b) :- ReadUint(b, 8);
    var (_, b) :- ReadUint(b, 8);
    var (readIndex, b) :- ReadUint(b, 8);
    ParseQueue(session, writeIndex, dataEnd, capacity, readIndex, b)
  }

  predicate StartsWithMagic(dump: bytes) {
    METADATA_MAGIC <= dump || DATA_MAGIC <= dump
  }

  function Parse(magic: bytes, b: bytes): (r: Parsed<RecoveredBuffer>)
    ensures r.Ok? ==> |r.rest| <= |b|
  {
    if magic == METADATA_MAGIC then ParseMetadata(b) else ParseData(b)
  }

  /** Buffers are taken at magic numbers; at one that no sane buffer follows, the search goes on right after it. */
  function Scan(dump: bytes): seq<RecoveredBuffer>
    decreases |dump|
  {
    if dump == [] then []
    else if !StartsWithMagic(dump) then Scan(dump[1..])
    else
      match Parse(dump[..8], dump[8..])
      case Fail => Scan(dump[8..])
      case Ok(buffer, rest) => [buffer] + Scan(rest)
  }

  lemma ParsedIsWhole(magic: bytes, b: bytes)
    requires Parse(magic, b).Ok?
    ensures Unframe(Parse(magic, b).value.buffer).Some?
  {
    hide Unframe, ReadUint;
  }

  /** Whatever the input: only runs of whole entries are recovered from it. */
  lemma {:induction false} RecoveredAreWhole(dump: bytes)
    ensures forall b :: b in Scan(dump) ==> Unframe(b.buffer).Some?
    decreases |dump|
  {
    hide Unframe, Parse, StartsWithMagic;
    if dump != [] {
      if !StartsWithMagic(dump) {
        RecoveredAreWhole(dump[1..]);
      } else {
        MagicIsLong(dump);
        RecoveredAreWhole(dump[8..]);
        var parsed := Parse(dump[..8], dump[8..]);
        if parsed.Ok? {
          ParsedIsWhole(dump[..8], dump[8..]);
          RecoveredAreWhole(parsed.rest);
        }
      }
    }
  }

  lemma MagicIsLong(dump: bytes)
    requires StartsWithMagic(dump)
    ensures |dump| >= 8
  {
  }

  // ---------------------------------------------------------------- the program

  /** An input file: reading or searching past its end puts it into a failed state. */
  class Input {
    const data: bytes
    var pos: nat
    var good: bool

    ghost predicate Valid()
      reads this
    {
      pos <= |data|
    }

    /** The bytes not yet consumed. */
    ghost function Rest(): bytes
      reads this
      requires Valid()
    {
      data[pos..]
    }

    constructor (data: bytes)
      ensures Valid() && this.data == data && good && Rest() == data
    {
      this.data := data;
      pos, good := 0, true;
    }

    /** Skips everything up to and including the first `delimiter`. */
    method Ignore(delimiter: byte)
      requires Valid() && good
      modifies this
      ensures Valid() && old(pos) <= pos
      ensures good ==> old(pos) < pos && data[pos - 1] == delimiter && delimiter !in data[old(pos)..pos - 1]
      ensures !good ==> delimiter !in old(Rest())
    {
      var start := pos;
      while pos < |data|
        invariant start <= pos <= |data| && good
        invariant delimiter !in data[start..pos]
      {
        pos := pos + 1;
        if data[pos - 1] == delimiter {
          return;
        }
      }
      good := false;
    }

    method Read(n: nat) returns (b: bytes)
      requires Valid()
      modifies this
      ensures Valid()
      ensures good == (old(good) && n <= |old(Rest())|)
      ensures good ==> b == old(Rest())[..n] && pos == old(pos) + n
      ensures old(good) && !good ==> b == old(Rest())
      ensures !old(good) ==> b == [] && pos == old(pos)
    {
      if !good {
        return [];
      }
      if n <= |data| - pos {
        b := data[pos..pos + n];
        pos := pos + n;
      } else {
        b := data[pos..];
        pos, good := |data|, false;
      }
    }

    /** One little-endian 64 bit integer; zero when there is not even a part of it. */
    method ReadU64() returns (n: nat)
      requires Valid()
      modifies this
      ensures Valid()
      ensures good <==> old(good) && ReadUint(old(Rest()), 8).Ok?
      ensures good ==> ReadUint(old(Rest()), 8) == Ok(n, Rest())
      ensures n < TWO_TO_64
      ensures !old(good) ==> pos == old(pos)
    {
      Ranges();
      var b := Read(8);
      if good {
        n := FromLE(b);
        FromLEBound(b);
      } else {
        n := 0;
      }
    }

    /** Has no effect on a failed input. */
    method Seek(to: nat)
      requires Valid() && to <= |data|
      modifies this`pos
      ensures Valid() && pos == if good then to else old(pos)
    {
      if good {
        pos := to;
      }
    }

    method Clear()
      requires Valid()
      modifies this`good
      ensures Valid() && good
    {
      good := true;
    }

    /** Nothing remains of a failed input. */
    method RemainingSize() returns (n: nat)
      requires Valid()
      ensures n == if good then |Rest()| else 0
    {
      n := if good then |data| - pos else 0;
    }
  }

  method ReadMetadata(input: Input) returns (r: Option<RecoveredBuffer>)
    requires input.Valid() && input.good
    modifies input
    ensures input.Valid()
    ensures match ParseMetadata(old(input.Rest()))
            case Fail => r == None
            case Ok(buffer, rest) => r == Some(buffer) && input.good && input.Rest() == rest
  {
    var session := input.ReadU64();
    var size := input.ReadU64();
    var remaining := input.RemainingSize();
    if size > remaining {
      return None;
    }
    var metadata := input.Read(size);
    if !input.good {
      return None;
    }
    var whole := CheckEntryBuffer(metadata);
    if !whole {
      return None;
    }
    return Some(RecoveredBuffer(Metadata, session, metadata));
  }

  lemma OutOfRangeIsRefused(w: nat, e: nat, r: nat)
    ensures forall buffer: bytes :: w > |buffer| || e > |buffer| || r > |buffer| ==> RecoverQueue(Shared(w, e, r, buffer)) == None
  {
  }

  /** The part of `readData` behind the members of the queue; a failed input stays failed. */
  method ReadQueueBuffer(input: Input, session: u64, writeIndex: nat, dataEnd: nat, capacity: nat, readIndex: nat)
    returns (r: Option<RecoveredBuffer>)
    requires input.Valid()
    modifies input
    ensures input.Valid()
    ensures !old(input.good) ==> r == None
    ensures old(input.good) ==>
              match ParseQueue(session, writeIndex, dataEnd, capacity, readIndex, old(input.Rest()))
              case Fail => r == None
              case Ok(buffer, rest) => r == Some(buffer) && input.good && input.Rest() == rest
  {
    hide RecoverQueue;
    OutOfRangeIsRefused(writeIndex, dataEnd, readIndex);
    if writeIndex > capacity || dataEnd > capacity || readIndex > capacity {
      return None;
    }
    var remaining := input.RemainingSize();
    if capacity > remaining {
      return None;
    }
    var buffer := input.Read(capacity);
    if !input.good {
      return None;
    }
    var data := ReadQueue(Shared(writeIndex, dataEnd, readIndex, buffer));
    if data.None? {
      return None;
    }
    return Some(RecoveredBuffer(Data, session, data.value));
  }

  method ReadData(input: Input) returns (r: Option<RecoveredBuffer>)
    requires input.Valid() && input.good
    modifies input
    ensures input.Valid()
    ensures match ParseData(old(input.Rest()))
            case Fail => r == None
            case Ok(buffer, rest) => r == Some(buffer) && input.good && input.Rest() == rest
  {
    hide FromLE, ReadUint, ParseQueue;
    var session := input.ReadU64();
    var writeIndex := input.ReadU64();
    var dataEnd := input.ReadU64();
    var capacity := input.ReadU64();
    var _ := input.ReadU64();
    var readIndex := input.ReadU64();
    r := ReadQueueBuffer(input, session, writeIndex, dataEnd, capacity, readIndex);
  }

  lemma {:induction false} ScanSkips(dump: bytes, n: nat)
    requires n <= |dump| && FIRST_MAGIC_BYTE !in dump[..n]
    ensures Scan(dump) == Scan(dump[n..])
  {
    if n > 0 {
      assert dump[0] == dump[..n][0];
      assert dump[1..][..n - 1] == dump[1..n];
      ScanSkips(dump[1..], n - 1);
    }
  }

  lemma ScanTooShort(dump: bytes)
    requires |dump| < 8
    ensures Scan(dump) == []
  {
    if dump != [] {
      ScanTooShort(dump[1..]);
    }
  }

  /** What the scan loop does after a magic number: an insane buffer leaves the input where it was. */
  method ReadBuffer(input: Input, magic: bytes) returns (r: Option<RecoveredBuffer>)
    requires input.Valid() && input.good
    modifies input
    ensures input.Valid() && input.good
    ensures match Parse(magic, old(input.Rest()))
            case Fail => r == None && input.pos == old(input.pos)
            case Ok(buffer, rest) => r == Some(buffer) && input.Rest() == rest
  {
    hide ParseMetadata, ParseData;
    var afterMagicPos := input.pos;
    if magic == METADATA_MAGIC {
      r := ReadMetadata(input);
    } else {
      r := ReadData(input);
    }
    if r.None? {
      input.Clear();
      input.Seek(afterMagicPos);
    }
  }

  lemma ScanFrom(data: bytes, start: nat, at: nat)
    requires start <= at <= |data| && FIRST_MAGIC_BYTE !in data[start..at]
    ensures Scan(data[start..]) == Scan(data[at..])
  {
    hide Scan;
    assert data[start..][..at - start] == data[start..at];
    assert data[start..][at - start..] == data[at..];
    ScanSkips(data[start..], at - start);
  }

  lemma ScanAt(data: bytes, at: nat, magic: bytes)
    requires at + 8 <= |data| && magic == data[at..at + 8]
    ensures Scan(data[at..]) ==
            if magic != METADATA_MAGIC && magic != DATA_MAGIC then Scan(data[at + 1..])
            else match Parse(magic, data[at + 8..])
                 case Fail => Scan(data[at + 8..])
                 case Ok(buffer, rest) => [buffer] + Scan(rest)
  {
    hide Parse;
    var dump := data[at..];
    assert dump[..8] == magic && dump[8..] == data[at + 8..] && dump[1..] == data[at + 1..];
  }

  /** Skips to the next place that may hold a magic number, and reads the eight bytes there. */
  method NextMagic(input: Input) returns (magic: Option<bytes>)
    requires input.Valid() && input.good
    modifies input
    ensures input.Valid() && (magic.Some? <==> input.good)
    ensures magic.None? ==> Scan(old(input.Rest())) == []
    ensures magic.Some? ==>
              && old(input.pos) + 8 <= input.pos && magic.value == input.data[input.pos - 8..input.pos]
              && Scan(old(input.Rest())) == Scan(input.data[input.pos - 8..])
  {
    hide Scan;
    ghost var start := input.pos;
    input.Ignore(FIRST_MAGIC_BYTE);
    if !input.good {
      assert input.data[start..|input.data|] == input.data[start..];
      ScanFrom(input.data, start, |input.data|);
      ScanTooShort(input.data[|input.data|..]);
      return None;
    }
    ghost var at := input.pos - 1;
    ScanFrom(input.data, start, at);
    var tail := input.Read(7);
    if !input.good {
      ScanTooShort(input.data[at..]);
      return None;
    }
    return Some([FIRST_MAGIC_BYTE] + tail);
  }

  /** The scan loop finds just what `Scan` says. */
  method RecoverBuffers(input: Input) returns (buffers: seq<RecoveredBuffer>)
    requires input.Valid() && input.good && input.pos == 0
    modifies input
    ensures buffers == Scan(input.data)
  {
    hide Parse, Scan;
    buffers := [];
    while true
      invariant input.Valid() && input.good
      invariant Scan(input.data) == buffers + Scan(input.Rest())
      decreases |input.data| - input.pos
    {
      var magic := NextMagic(input);
      if magic.None? {
        return;
      }
      ScanAt(input.data, input.pos - 8, magic.value);
      if magic.value == METADATA_MAGIC || magic.value == DATA_MAGIC {
        var r := ReadBuffer(input, magic.value);
        if r.Some? {
          buffers := buffers + [r.value];
        }
      } else {
        input.Seek(input.pos - 7);
      }
    }
  }

  // ---------------------------------------------------------------- what memory looks like

  /**
   A stretch of memory: the buffer of a `RecoverableVectorOutputStream`, a channel with its queue and the
   buffer of that, or something else.
   */
  datatype Piece =
    | MetadataPiece(session: u64, content: bytes)
    | ChannelPiece(session: u64, queue: Shared, pointer: u64)
    | Other(memory: bytes)

  function QueueImage(q: Shared, pointer: u64): bytes {
    LE(q.w, 8) + (LE(q.e, 8) + (LE(q.Capacity(), 8) + (LE(pointer, 8) + (LE(q.r, 8) + q.buf))))
  }

  function Image(p: Piece): bytes {
    match p
    case MetadataPiece(session, content) => METADATA_MAGIC + (LE(session, 8) + (LE(|content|, 8) + content))
    case ChannelPiece(session, queue, pointer) => DATA_MAGIC + (LE(session, 8) + QueueImage(queue, pointer))
    case Other(memory) => memory
  }

  function Memory(pieces: seq<Piece>): bytes {
    if pieces == [] then [] else Image(pieces[0]) + Memory(pieces[1..])
  }

  /** Sizes fit the 64 bit members, and the buffer is one `brecovery` accepts. */
  predicate Recoverable(p: Piece) {
    match p
    case MetadataPiece(_, content) => |content| < TWO_TO_64 && Unframe(content).Some?
    case ChannelPiece(_, queue, _) => queue.Capacity() < TWO_TO_64 && RecoverQueue(queue).Some?
    case Other(_) => true
  }

  /** Where a byte of `memory` starts a magic number, together with what follows it, no sane buffer stands behind it. */
  ghost predicate Harmless(memory: bytes, after: bytes) {
    forall k :: 0 <= k < |memory| && StartsWithMagic(memory[k..] + after) ==>
      Parse((memory[k..] + after)[..8], (memory[k..] + after)[8..]).Fail?
  }

  /** Other memory is given in one piece, and is harmless. */
  ghost predicate Distinguishable(pieces: seq<Piece>) {
    forall i :: 0 <= i < |pieces| && pieces[i].Other? ==>
      && (i + 1 < |pieces| ==> !pieces[i + 1].Other?)
      && Harmless(pieces[i].memory, Memory(pieces[i + 1..]))
  }

  function BufferOf(p: Piece): RecoveredBuffer
    requires Recoverable(p) && !p.Other?
  {
    match p
    case MetadataPiece(session, content) => RecoveredBuffer(Metadata, session, content)
    case ChannelPiece(session, queue, _) => RecoveredBuffer(Data, session, RecoverQueue(queue).value)
  }

  function BuffersOf(pieces: seq<Piece>): seq<RecoveredBuffer>
    requires forall i :: 0 <= i < |pieces| ==> Recoverable(pieces[i])
  {
    if pieces == [] then []
    else (if pieces[0].Other? then [] else [BufferOf(pieces[0])]) + BuffersOf(pieces[1..])
  }

  lemma ParseMetadataImage(session: u64, content: bytes, after: bytes)
    requires Recoverable(MetadataPiece(session, content))
    ensures ParseMetadata(LE(session, 8) + (LE(|content|, 8) + content) + after)
            == Ok(RecoveredBuffer(Metadata, session, content), after)
  {
    hide Unframe, ReadUint, FromLE, LE;
    Ranges();
    var b1 := LE(|content|, 8) + (content + after);
    assert LE(session, 8) + (LE(|content|, 8) + content) + after == LE(session, 8) + b1;
    ReadUintOf(session, 8, b1);
    ReadUintOf(|content|, 8, content + after);
    assert Take(content + after, |content|) == Ok(content, after);
  }

  lemma ParseDataImage(session: u64, queue: Shared, pointer: u64, after: bytes)
    requires Recoverable(ChannelPiece(session, queue, pointer))
    ensures ParseData(LE(session, 8) + QueueImage(queue, pointer) + after)
            == Ok(RecoveredBuffer(Data, session, RecoverQueue(queue).value), after)
  {
    InRangeIfRecovered(queue);
    hide RecoverQueue, LE, FromLE, ReadUint;
    Ranges();
    var b5 := LE(queue.r, 8) + (queue.buf + after);
    var b4 := LE(pointer, 8) + b5;
    var b3 := LE(queue.Capacity(), 8) + b4;
    var b2 := LE(queue.e, 8) + b3;
    var b1 := LE(queue.w, 8) + b2;
    ReadUintOf(session, 8, b1);
    ReadUintOf(queue.w, 8, b2);
    ReadUintOf(queue.e, 8, b3);
    ReadUintOf(queue.Capacity(), 8, b4);
    ReadUintOf(pointer, 8, b5);
    ReadUintOf(queue.r, 8, queue.buf + after);
    TakeAll(queue.buf, after);
    assert Shared(queue.w, queue.e, queue.r, queue.buf) == queue;
    assert ParseData(LE(session, 8) + b1) == Ok(RecoveredBuffer(Data, session, RecoverQueue(queue).value), after);
    Regroup(LE(session, 8), LE(queue.w, 8), LE(queue.e, 8), LE(queue.Capacity(), 8), LE(pointer, 8), LE(queue.r, 8), queue.buf, after);
  }

  lemma Regroup(a: bytes, b: bytes, c: bytes, d: bytes, e: bytes, f: bytes, g: bytes, after: bytes)
    ensures a + (b + (c + (d + (e + (f + g))))) + after == a + (b + (c + (d + (e + (f + (g + after))))))
  {
    var x5 := e + (f + g);
    assert x5 + after == e + (f + (g + after));
    assert (d + x5) + after == d + (x5 + after);
    assert (c + (d + x5)) + after == c + ((d + x5) + after);
    assert (b + (c + (d + x5))) + after == b + ((c + (d + x5)) + after);
  }

  lemma TakeAll(b: bytes, after: bytes)
    ensures Take(b + after, |b|) == Ok(b, after)
  {
  }

  lemma InRangeIfRecovered(queue: Shared)
    requires RecoverQueue(queue).Some?
    ensures IndicesInRange(queue)
  {
  }

  lemma ScanBehind(magic: bytes, b: bytes, after: bytes)
    requires magic == METADATA_MAGIC || magic == DATA_MAGIC
    requires Parse(magic, b + after).Ok?
    ensures Scan(magic + b + after) == [Parse(magic, b + after).value] + Scan(Parse(magic, b + after).rest)
  {
    hide Scan, Parse;
    var dump := magic + b + after;
    assert dump == dump[0..] && dump[8..] == b + after;
    ScanAt(dump, 0, magic);
  }

  lemma ScanPiece(p: Piece, after: bytes)
    requires Recoverable(p) && !p.Other?
    ensures Scan(Image(p) + after) == [BufferOf(p)] + Scan(after)
  {
    hide Scan, Unframe, RecoverQueue, ParseMetadata, ParseData, LE, QueueImage;
    if p.MetadataPiece? {
      ParseMetadataImage(p.session, p.content, after);
      ScanBehind(METADATA_MAGIC, LE(p.session, 8) + (LE(|p.content|, 8) + p.content), after);
    } else {
      ParseDataImage(p.session, p.queue, p.pointer, after);
      ScanBehind(DATA_MAGIC, LE(p.session, 8) + QueueImage(p.queue, p.pointer), after);
    }
  }

  /** No end of a magic number is the start of one. */
  lemma NoOverlap(dump: bytes, n: nat)
    requires 1 <= n < 8 <= |dump| && StartsWithMagic(dump)
    ensures !StartsWithMagic(dump[n..])
  {
    if |dump| >= n + 8 {
      assert dump[n..][0] == dump[n] && dump[n..][1] == dump[n + 1];
    }
  }

  /** So none in other memory reaches into a buffer or channel. */
  lemma MagicStaysInside(memory: bytes, after: bytes)
    requires memory != [] && StartsWithMagic(memory + after)
    requires after == [] || StartsWithMagic(after)
    ensures |memory| >= 8
  {
    hide StartsWithMagic;
    MagicIsLong(memory + after);
    assert (memory + after)[|memory|..] == after;
    if |memory| < 8 {
      NoOverlap(memory + after, |memory|);
    }
  }

  lemma {:induction false} ScanOther(memory: bytes, after: bytes)
    requires Harmless(memory, after) && (after == [] || StartsWithMagic(after))
    ensures Scan(memory + after) == Scan(after)
    decreases |memory|
  {
    hide StartsWithMagic, Parse, Scan;
    if memory == [] {
      assert memory + after == after;
    } else {
      assert memory[0..] + after == memory + after;
      if StartsWithMagic(memory + after) {
        MagicStaysInside(memory, after);
        ScanStray(memory, after);
        HarmlessBehind(memory, after, 8);
        ScanOther(memory[8..], after);
      } else {
        ScanPlain(memory, after);
        HarmlessBehind(memory, after, 1);
        ScanOther(memory[1..], after);
      }
    }
  }

  lemma HarmlessBehind(memory: bytes, after: bytes, n: nat)
    requires Harmless(memory, after) && n <= |memory|
    ensures Harmless(memory[n..], after)
  {
    hide Parse;
    forall k | 0 <= k < |memory| - n && StartsWithMagic(memory[n..][k..] + after)
      ensures Parse((memory[n..][k..] + after)[..8], (memory[n..][k..] + after)[8..]).Fail?
    {
      assert memory[n..][k..] == memory[n + k..];
    }
  }

  lemma ScanStray(memory: bytes, after: bytes)
    requires |memory| >= 8 && StartsWithMagic(memory + after)
    requires Parse((memory + after)[..8], (memory + after)[8..]).Fail?
    ensures Scan(memory + after) == Scan(memory[8..] + after)
  {
    hide Parse;
    assert (memory + after)[8..] == memory[8..] + after;
  }

  lemma ScanPlain(memory: bytes, after: bytes)
    requires memory != [] && !StartsWithMagic(memory + after)
    ensures Scan(memory + after) == Scan(memory[1..] + after)
  {
    hide Parse, StartsWithMagic;
    assert (memory + after)[1..] == memory[1..] + after;
  }

  lemma ImageStartsWithMagic(p: Piece, after: bytes)
    requires !p.Other?
    ensures StartsWithMagic(Image(p) + after)
  {
    hide LE, QueueImage;
  }

  /**
   From a dump, brecovery takes exactly the buffers of its metadata and channels, in the order of their
   addresses, whatever bytes those hold (a magic number in a logged text does no harm), provided that no magic
   number in the rest of the memory stands in front of what passes for a buffer.
   */
  lemma {:induction false} RecoversEveryBuffer(pieces: seq<Piece>)
    requires forall i :: 0 <= i < |pieces| ==> Recoverable(pieces[i])
    requires Distinguishable(pieces)
    ensures Scan(Memory(pieces)) == BuffersOf(pieces)
  {
    hide Scan, Recoverable, Harmless, Image, StartsWithMagic;
    if pieces == [] {
      ScanTooShort([]);
    } else {
      var after := Memory(pieces[1..]);
      if pieces[0].Other? {
        OtherImage(pieces[0]);
        assert pieces[1..] != [] ==> pieces[1..][0] == pieces[1];
        if pieces[1..] != [] {
          ImageStartsWithMagic(pieces[1], Memory(pieces[2..]));
          assert pieces[1..][1..] == pieces[2..];
        }
        ScanOther(pieces[0].memory, after);
      } else {
        ScanPiece(pieces[0], after);
      }
      forall i | 0 <= i < |pieces| - 1 && pieces[1..][i].Other?
        ensures i + 1 < |pieces| - 1 ==> !pieces[1..][i + 1].Other?
        ensures Harmless(pieces[1..][i].memory, Memory(pieces[1..][i + 1..]))
      {
        assert pieces[1..][i] == pieces[i + 1] && pieces[1..][i + 1..] == pieces[i + 2..];
      }
      RecoversEveryBuffer(pieces[1..]);
    }
  }

  lemma OtherImage(p: Piece)
    requires p.Other?
    ensures Image(p) == p.memory
  {
  }

  // ---------------------------------------------------------------- where things are in memory

  lemma At8(a: bytes, n: nat, rest: bytes)
    requires n < TWO_TO_64
    ensures var m := a + (LE(n, 8) + rest); FromLE(m[|a|..|a| + 8]) == n && m[|a| + 8..] == rest
  {
    Ranges();
    FromLEOfLE(n, 8);
    assert (a + (LE(n, 8) + rest))[|a|..|a| + 8] == LE(n, 8);
  }

  /** Metadata is its magic number, the session, the size of the content, and that. */
  lemma MetadataLayout(session: u64, content: bytes)
    requires |content| < TWO_TO_64
    ensures var m := Image(MetadataPiece(session, content));
            && |m| == 24 + |content| && FromLE(m[..8]) == 0xFE21_4F72_6E35_BDBC
            && FromLE(m[8..16]) == session && FromLE(m[16..24]) == |content| && m[24..] == content
  {
    hide LE, FromLE;
    MagicNumbers();
    At8(METADATA_MAGIC, session, LE(|content|, 8) + content);
    At8(METADATA_MAGIC + LE(session, 8), |content|, content);
    var m := Image(MetadataPiece(session, content));
    assert m == METADATA_MAGIC + LE(session, 8) + (LE(|content|, 8) + content);
    assert m[..8] == METADATA_MAGIC;
  }

  /** A channel is its magic number, the session, the members of the queue in their order, and its buffer. */
  lemma ChannelLayout(session: u64, w: u64, e: u64, r: u64, buf: bytes, pointer: u64)
    requires |buf| < TWO_TO_64
    ensures var m := Image(ChannelPiece(session, Shared(w, e, r, buf), pointer));
            && |m| == 56 + |buf| && FromLE(m[..8]) == 0xFE21_3F71_6D34_BCBC
            && FromLE(m[8..16]) == session && FromLE(m[16..24]) == w && FromLE(m[24..32]) == e
            && FromLE(m[32..40]) == |buf| && FromLE(m[40..48]) == pointer && FromLE(m[48..56]) == r && m[56..] == buf
  {
    hide LE, FromLE;
    MagicNumbers();
    var m6 := LE(r, 8) + buf;
    var m5 := LE(pointer, 8) + m6;
    var m4 := LE(|buf|, 8) + m5;
    var m3 := LE(e, 8) + m4;
    var m2 := LE(w, 8) + m3;
    var a1 := DATA_MAGIC + LE(session, 8);
    var a2 := a1 + LE(w, 8);
    var a3 := a2 + LE(e, 8);
    var a4 := a3 + LE(|buf|, 8);
    var a5 := a4 + LE(pointer, 8);
    At8(DATA_MAGIC, session, m2);
    At8(a1, w, m3);
    At8(a2, e, m4);
    At8(a3, |buf|, m5);
    At8(a4, pointer, m6);
    At8(a5, r, buf);
    var m := DATA_MAGIC + (LE(session, 8) + m2);
    assert m == Image(ChannelPiece(session, Shared(w, e, r, buf), pointer));
    assert m[..8] == DATA_MAGIC;
    assert m == a1 + m2;
    assert a1 + m2 == a2 + m3;
    assert a2 + m3 == a3 + m4;
    assert a3 + m4 == a4 + m5;
    assert a4 + m5 == a5 + m6;
  }
}
