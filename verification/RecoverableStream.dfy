/** The metadata buffer of a session, laid out so that it can be found in a memory dump. */
module RecoverableStreams {
  import opened Bytes
  import opened Entries
  import opened MemoryDumps
  import opened Recovery

  const HEADER_SIZE: nat := 24
  const SIZE_OFFSET: nat := 16
  const NO_MAGIC: bytes := [0, 0, 0, 0, 0, 0, 0, 0]

  /** A size has 64 bits, whatever it counts. */
  function Header(magic: bytes, id: u64, size: nat): (r: bytes)
    requires |magic| == 8
    ensures |r| == HEADER_SIZE
  {
    magic + LE(id, 8) + LE(size, 8)
  }

  /** What brecovery makes of memory that starts with `image`, if there is metadata: the content. */
  function Content(image: bytes): Option<bytes> {
    if METADATA_MAGIC <= image then
      match ParseMetadata(image[8..])
      case Fail => None
      case Ok(buffer, _) => Some(buffer.buffer)
    else None
  }

  lemma ContentOf(id: u64, size: u64, data: bytes)
    requires size <= |data|
    ensures Content(Header(METADATA_MAGIC, id, size) + data)
            == if Unframe(data[..size]).Some? then Some(data[..size]) else None
  {
    hide Unframe, ReadUint, FromLE, LE;
    Ranges();
    var image := Header(METADATA_MAGIC, id, size) + data;
    assert image[8..] == LE(id, 8) + (LE(size, 8) + data);
    ReadUintOf(id, 8, LE(size, 8) + data);
    ReadUintOf(size, 8, data);
  }

  lemma NoContent(id: u64, size: nat, data: bytes)
    ensures Content(Header(NO_MAGIC, id, size) + data) == None
    ensures !(METADATA_MAGIC <= Header(NO_MAGIC, id, size) + data)
  {
    var image := Header(NO_MAGIC, id, size) + data;
    assert image[0] == 0;
  }

  // ---------------------------------------------------------------- images of the buffer during a write

  predicate IsMagic(magic: bytes) {
    magic == NO_MAGIC || magic == METADATA_MAGIC
  }

  /**
   The memory of the buffer after some store of a write of `data` behind `before`: some of the new bytes
   are there and the size does not count them yet, or all are and it does.
   */
  ghost predicate During(image: bytes, id: u64, before: bytes, data: bytes) {
    || image == Header(METADATA_MAGIC, id, |before + data|) + (before + data)
    || exists magic: bytes, n: nat ::
         IsMagic(magic) && n <= |data| && image == Header(magic, id, |before|) + (before + data[..n])
  }

  lemma DuringContent(image: bytes, id: u64, before: bytes, data: bytes)
    requires During(image, id, before, data) && |before + data| < TWO_TO_64
    ensures Content(image) in {None, Some(before), Some(before + data)}
  {
    hide Content, Header, Unframe;
    var all := before + data;
    if image == Header(METADATA_MAGIC, id, |all|) + all {
      assert all[..|all|] == all;
      ContentOf(id, |all|, all);
    } else {
      var magic: bytes, n: nat :| IsMagic(magic) && n <= |data|
        && image == Header(magic, id, |before|) + (before + data[..n]);
      assert (before + data[..n])[..|before|] == before;
      if magic == NO_MAGIC {
        NoContent(id, |before|, before + data[..n]);
      } else {
        ContentOf(id, |before|, before + data[..n]);
      }
    }
  }

  /** The size in the header of an image. */
  function SizeField(image: bytes): nat {
    if |image| < HEADER_SIZE then 0 else FromLE(image[SIZE_OFFSET..HEADER_SIZE])
  }

  /**
   What a dump taken while `before` grew to `after` tells: one of these, as the size in its header says, or
   nothing at all.
   */
  function Told(image: bytes, before: bytes, after: bytes): Option<bytes> {
    if METADATA_MAGIC <= image && SizeField(image) == |before| then Some(before)
    else if METADATA_MAGIC <= image && SizeField(image) == |after| then Some(after)
    else None
  }

  /** `images` are dumps of that time; some of them tell nothing although the magic number is there. */
  ghost predicate DumpsTell(images: seq<bytes>, before: bytes, after: bytes) {
    && (forall i :: 0 <= i < |images| ==> Content(images[i]) == Told(images[i], before, after))
    && exists i :: 0 <= i < |images| && METADATA_MAGIC <= images[i] && Content(images[i]) == None
  }

  /** Nothing is recovered from these. */
  ghost predicate Unrecoverable(buffers: seq<bytes>) {
    forall i :: 0 <= i < |buffers| ==> !(METADATA_MAGIC <= buffers[i]) && Content(buffers[i]) == None
  }

  /**
   `images` is a history variable: the memory of the buffer after every store, where the eight bytes of a
   magic number or size are one store, and each byte of data is one. `abandoned` are the buffers given up when
   the vector grew, as they were left: they may lie in memory for a long time.
   */
  class RecoverableVectorOutputStream {
    var vector: bytes
    var capacity: nat
    ghost const id: u64
    ghost var images: seq<bytes>
    ghost var abandoned: seq<bytes>

    ghost predicate Valid()
      reads this
    {
      && HEADER_SIZE <= |vector| <= capacity
      && vector == Header(METADATA_MAGIC, id, Size()) + Data()
      && Unrecoverable(abandoned)
    }

    function Size(): nat
      reads this
      requires HEADER_SIZE <= |vector|
    {
      |vector| - HEADER_SIZE
    }

    function Data(): bytes
      reads this
      requires HEADER_SIZE <= |vector|
    {
      vector[HEADER_SIZE..]
    }

    constructor (id: u64)
      ensures Valid() && Data() == [] && this.id == id
    {
      this.id := id;
      vector := METADATA_MAGIC + LE(id, 8) + LE(0, 8);
      capacity := HEADER_SIZE;
      images, abandoned := [], [];
    }

    /** What is left behind is not recovered. */
    method Destroy()
      requires Valid()
      modifies this`vector, this`images
      ensures !(METADATA_MAGIC <= vector) && Content(vector) == None
    {
      hide Content, LE;
      ghost var size, data := Size(), Data();
      ReplaceMagic(METADATA_MAGIC, NO_MAGIC, id, size, data);
      NoContent(id, size, data);
      var _ := ClearMagic();
    }

    method SetMagic(magic: bytes)
      requires |magic| == 8 <= |vector|
      modifies this`vector, this`images
      ensures vector == magic + old(vector)[8..]
      ensures images == old(images) + [vector]
    {
      vector := magic + vector[8..];
      images := images + [vector];
    }

    method ClearMagic() returns (magic: bytes)
      requires |vector| >= 8
      modifies this`vector, this`images
      ensures magic == old(vector)[..8] && vector == NO_MAGIC + old(vector)[8..]
      ensures images == old(images) + [vector]
    {
      magic := vector[..8];
      SetMagic(NO_MAGIC);
    }

    method UpdateSize()
      requires HEADER_SIZE <= |vector|
      modifies this`vector, this`images
      ensures vector == old(vector)[..SIZE_OFFSET] + LE(old(Size()), 8) + old(vector)[HEADER_SIZE..]
      ensures images == old(images) + [vector]
    {
      vector := vector[..SIZE_OFFSET] + LE(|vector| - HEADER_SIZE, 8) + vector[HEADER_SIZE..];
      images := images + [vector];
    }

    /** Appends; if the buffer has to grow, it grows to any size that is enough. */
    method Insert(data: bytes)
      requires |vector| <= capacity
      modifies this`vector, this`capacity, this`images, this`abandoned
      ensures vector == old(vector) + data && |vector| <= capacity
      ensures abandoned == old(abandoned) + if old(capacity) < |vector| then [old(vector)] else []
      ensures |images| == |old(images)| + |data| && old(images) <= images
      ensures forall i :: |old(images)| <= i < |images| ==> images[i] == old(vector) + data[..i - |old(images)| + 1]
    {
      var needed := |vector| + |data|;
      if capacity < needed {
        assert needed <= needed;
        var grown: nat :| needed <= grown;
        capacity := grown;
        abandoned := abandoned + [vector];
      }
      for k := 0 to |data|
        invariant vector == old(vector) + data[..k] && |vector| <= capacity
        invariant |images| == |old(images)| + k && old(images) <= images
        invariant forall i :: |old(images)| <= i < |images| ==> images[i] == old(vector) + data[..i - |old(images)| + 1]
        invariant |old(vector)| + |data| <= capacity
        invariant abandoned == old(abandoned) + if old(capacity) < |old(vector)| + |data| then [old(vector)] else []
      {
        vector := vector + [data[k]];
        images := images + [vector];
        assert data[..k + 1] == data[..k] + [data[k]];
      }
      assert data[..|data|] == data;
    }

    /** The first part of `write`: if the vector has to grow, its magic number is cleared before. */
    method InsertSafely(data: bytes) returns (magic: bytes)
      requires Valid()
      modifies this`vector, this`capacity, this`images, this`abandoned
      ensures magic == if old(capacity) < |old(vector)| + |data| then METADATA_MAGIC else NO_MAGIC
      ensures |vector| <= capacity && Unrecoverable(abandoned)
      ensures var during := if magic == NO_MAGIC then METADATA_MAGIC else NO_MAGIC;
              vector == Header(during, id, |old(Data())|) + (old(Data()) + data)
      ensures old(images) <= images
      ensures forall i :: |old(images)| <= i < |images| ==> During(images[i], id, old(Data()), data)
    {
      hide Content, LE, Header, During;
      ghost var before := Data();
      ghost var during := METADATA_MAGIC;
      magic := NO_MAGIC;
      if capacity < |vector| + |data| {
        ReplaceMagic(METADATA_MAGIC, NO_MAGIC, id, |before|, before);
        NoContent(id, |before|, before);
        DuringInsert(NO_MAGIC, id, before, data, 0);
        magic := ClearMagic();
        during := NO_MAGIC;
      }
      assert vector == Header(during, id, |before|) + before;
      ghost var middle := |images|;
      Insert(data);
      InsertedAreDuring(images, middle, during, id, before, data);
    }

    /**
     Appends to the data. A dump taken after any store finds the old content, or the new one, or none.
     What it finds passed `checkEntryBuffer`, so only whole entries are ever found. A buffer that is given up
     on the way has no magic number any more.
     */
    method Write(data: bytes)
      requires Valid()
      modifies this`vector, this`capacity, this`images, this`abandoned
      ensures Valid() && Data() == old(Data()) + data
      ensures old(images) < images && images[|images| - 1] == vector
      ensures forall i :: |old(images)| <= i < |images| ==> During(images[i], id, old(Data()), data)
    {
      hide Content, LE, Header, During, Unrecoverable;
      ghost var before := Data();
      ghost var all := before + data;
      var magic := InsertSafely(data);
      if magic != NO_MAGIC {
        ReplaceMagic(NO_MAGIC, METADATA_MAGIC, id, |before|, all);
        DuringInsert(METADATA_MAGIC, id, before, data, |data|);
        SetMagic(magic);
      }
      ReplaceSize(METADATA_MAGIC, id, |before|, |all|, all);
      UpdateSize();
      DuringEnds(id, before, data);
    }

    /**
     An entry is written field by field. A dump taken after any store tells the entries there were before if
     the size in the header is still the old one, all of them if it is the new one, and otherwise nothing
     at all; and some dump does tell nothing at all, though the magic number is there.
     */
    method SerializeSizePrefixedTagged(e: Entry)
      requires Valid() && EntryOk(e) && !e.EventEntry?
      modifies this`vector, this`capacity, this`images, this`abandoned
      ensures Valid() && Data() == old(Data()) + Frame(Payload(e))
      ensures old(images) < images && images[|images| - 1] == vector
      ensures Size() < TWO_TO_64 && Unframe(old(Data())).Some? ==>
                DumpsTell(images[|old(images)|..], old(Data()), Data()) && Content(vector) == Some(Data())
    {
      hide Content, Unframe, LE, Header, During, Partial, Pieces, FrameAll, EntryOk, PayloadBytes;
      PiecesOfFrame(e);
      ghost var before, frame := Data(), Frame(Payload(e));
      ghost var first := |images|;
      var pieces := Pieces(e);
      for i := 0 to |pieces|
        invariant Valid() && Data() == before + Concat(pieces[..i])
        invariant old(images) <= images && first + i <= |images|
        invariant i > 0 ==> images[|images| - 1] == vector
        invariant forall k :: first <= k < |images| ==> Partial(images[k], id, before, frame)
        invariant i > 0 ==> exists k :: first <= k < |images| && images[k] == AfterSize(id, before, pieces[0])
      {
        ghost var start := |images|;
        assert pieces[..i + 1] == pieces[..i] + [pieces[i]];
        ConcatPush(pieces[..i], pieces[i]);
        Write(pieces[i]);
        forall k | start <= k < |images|
          ensures Partial(images[k], id, before, frame)
        {
          DuringIsPartial(images[k], id, before, pieces, i);
        }
        assert i == 0 ==> images[|images| - 1] == AfterSize(id, before, pieces[0]);
      }
      assert pieces[..|pieces|] == pieces;
      if Size() < TWO_TO_64 && Unframe(before).Some? {
        forall k | first <= k < |images|
          ensures Content(images[k]) == Told(images[k], before, before + frame)
        {
          PartialContent(images[k], id, before, Payload(e));
        }
        PayloadNotEmpty(e);
        NothingAfterSize(id, before, Payload(e));
        assert exists k :: 0 <= k < |images| - first && images[first..][k] == AfterSize(id, before, pieces[0]) by {
          var j :| first <= j < |images| && images[j] == AfterSize(id, before, pieces[0]);
          assert images[first..][j - first] == images[j];
        }
        FullContent(id, before, Payload(e));
      }
    }
  }

  lemma ReplaceMagic(magic: bytes, magic': bytes, id: u64, size: nat, data: bytes)
    requires |magic| == |magic'| == 8
    ensures magic' + (Header(magic, id, size) + data)[8..] == Header(magic', id, size) + data
    ensures (Header(magic, id, size) + data)[..8] == magic
  {
  }

  lemma ReplaceSize(magic: bytes, id: u64, size: nat, size': nat, data: bytes)
    requires |magic| == 8
    ensures var v := Header(magic, id, size) + data;
            v[..SIZE_OFFSET] + LE(size', 8) + v[HEADER_SIZE..] == Header(magic, id, size') + data
  {
  }

  lemma DuringInsert(magic: bytes, id: u64, before: bytes, data: bytes, n: nat)
    requires IsMagic(magic) && n <= |data|
    ensures During(Header(magic, id, |before|) + (before + data[..n]), id, before, data)
    ensures before + data[..0] == before && data[..|data|] == data
  {
    hide Header;
  }

  lemma InsertedAreDuring(images: seq<bytes>, from: nat, magic: bytes, id: u64, before: bytes, data: bytes)
    requires IsMagic(magic) && |images| == from + |data|
    requires forall i :: from <= i < |images| ==> images[i] == Header(magic, id, |before|) + before + data[..i - from + 1]
    ensures forall i :: from <= i < |images| ==> During(images[i], id, before, data)
  {
    hide Header, During;
    forall i | from <= i < |images|
      ensures During(images[i], id, before, data)
    {
      DuringInsert(magic, id, before, data, i - from + 1);
      assert images[i] == Header(magic, id, |before|) + (before + data[..i - from + 1]);
    }
  }

  lemma DuringEnds(id: u64, before: bytes, data: bytes)
    ensures During(Header(METADATA_MAGIC, id, |before + data|) + (before + data), id, before, data)
  {
    hide Header;
  }

  // ---------------------------------------------------------------- entries, field by field

  /** A string is written as its size and, unless it is empty, its characters. */
  function TextPieces(s: text): seq<bytes> {
    [LE(|s|, 4)] + if s == [] then [] else [s]
  }

  /** The arguments of the calls of `write` that serialize an entry. */
  function Pieces(e: Entry): (r: seq<bytes>)
    requires !e.EventEntry?
    ensures |r| > 0
  {
    [LE(|PayloadBytes(e)|, 4)] +
    match e
    case SourceEntry(s) =>
      [LE(SOURCE_TAG, 8), LE(s.id, 8), LE(s.severity, 2)] + (TextPieces(s.category) + (TextPieces(s.function_) +
      (TextPieces(s.file) + ([LE(s.line, 8)] + (TextPieces(s.formatString) + TextPieces(s.argumentTags))))))
    case WriterEntry(w) => [LE(WRITER_TAG, 8), LE(w.id, 8)] + (TextPieces(w.name) + [LE(w.batchSize, 8)])
    case ClockEntry(c) =>
      [LE(CLOCK_TAG, 8), LE(c.clockValue, 8), LE(c.clockFrequency, 8), LE(c.nsSinceEpoch, 8), LE(c.tzOffset, 4)]
      + TextPieces(c.tzName)
  }

  lemma TextPiecesOf(s: text)
    ensures Concat(TextPieces(s)) == EncodeText(s)
  {
    hide LE;
    ConcatOne(LE(|s|, 4));
    if s != [] {
      ConcatPush([LE(|s|, 4)], s);
    }
  }

  lemma ConcatCons(b: bytes, more: seq<bytes>)
    ensures Concat([b] + more) == b + Concat(more)
  {
    assert ([b] + more)[1..] == more;
  }

  lemma SourcePieces(s: EventSource)
    ensures Concat(TextPieces(s.category) + (TextPieces(s.function_) +
      (TextPieces(s.file) + ([LE(s.line, 8)] + (TextPieces(s.formatString) + TextPieces(s.argumentTags))))))
      == EncodeText(s.category) + (EncodeText(s.function_) + (EncodeText(s.file) +
      (LE(s.line, 8) + (EncodeText(s.formatString) + EncodeText(s.argumentTags)))))
  {
    hide LE, TextPieces, EncodeText, Concat;
    var p5, p6 := TextPieces(s.formatString), TextPieces(s.argumentTags);
    var p4 := [LE(s.line, 8)] + (p5 + p6);
    var p3 := TextPieces(s.file) + p4;
    var p2 := TextPieces(s.function_) + p3;
    TextPiecesOf(s.category);
    TextPiecesOf(s.function_);
    TextPiecesOf(s.file);
    TextPiecesOf(s.formatString);
    TextPiecesOf(s.argumentTags);
    ConcatAppend(p5, p6);
    ConcatCons(LE(s.line, 8), p5 + p6);
    ConcatAppend(TextPieces(s.file), p4);
    ConcatAppend(TextPieces(s.function_), p3);
    ConcatAppend(TextPieces(s.category), p2);
  }

  lemma ConcatHead(a: bytes, b: bytes, c: bytes, more: seq<bytes>)
    ensures Concat([a, b, c] + more) == a + (b + (c + Concat(more)))
    ensures Concat([a, b] + more) == a + (b + Concat(more))
  {
    hide Concat;
    assert [a, b, c] + more == [a] + ([b] + ([c] + more));
    assert [a, b] + more == [a] + ([b] + more);
    ConcatCons(c, more);
    ConcatCons(b, [c] + more);
    ConcatCons(b, more);
    ConcatCons(a, [b] + ([c] + more));
    ConcatCons(a, [b] + more);
  }

  /** Together they are the framed entry. */
  lemma PiecesOfFrame(e: Entry)
    requires EntryOk(e) && !e.EventEntry?
    ensures Concat(Pieces(e)) == Frame(Payload(e))
    ensures Pieces(e)[0] == LE(|Payload(e)|, 4)
  {
    hide LE, TextPieces, Concat, PayloadBytes;
    PiecesOfPayload(e);
    ConcatCons(Pieces(e)[0], Pieces(e)[1..]);
    assert Pieces(e) == [Pieces(e)[0]] + Pieces(e)[1..];
  }

  lemma PiecesOfPayload(e: Entry)
    requires !e.EventEntry?
    ensures Concat(Pieces(e)[1..]) == PayloadBytes(e)
  {
    hide LE, TextPieces, EncodeText, Concat;
    if e.SourceEntry? {
      var s := e.source;
      SourcePieces(s);
      ConcatHead(LE(SOURCE_TAG, 8), LE(s.id, 8), LE(s.severity, 2), TextPieces(s.category) + (TextPieces(s.function_) +
        (TextPieces(s.file) + ([LE(s.line, 8)] + (TextPieces(s.formatString) + TextPieces(s.argumentTags))))));
    } else if e.WriterEntry? {
      var w := e.writer;
      TextPiecesOf(w.name);
      ConcatPush(TextPieces(w.name), LE(w.batchSize, 8));
      assert Pieces(e)[1..] == [LE(WRITER_TAG, 8), LE(w.id, 8)] + (TextPieces(w.name) + [LE(w.batchSize, 8)]);
      ConcatHead(LE(WRITER_TAG, 8), LE(w.id, 8), [], TextPieces(w.name) + [LE(w.batchSize, 8)]);
    } else {
      var c := e.clock;
      var b1, b2, b3 := LE(CLOCK_TAG, 8), LE(c.clockValue, 8), LE(c.clockFrequency, 8);
      var b4, b5 := LE(c.nsSinceEpoch, 8), LE(c.tzOffset, 4);
      TextPiecesOf(c.tzName);
      ConcatHead(b4, b5, [], TextPieces(c.tzName));
      ConcatHead(b1, b2, b3, [b4, b5] + TextPieces(c.tzName));
      assert Pieces(e)[1..] == [b1, b2, b3] + ([b4, b5] + TextPieces(c.tzName));
    }
  }

  /** The memory of the buffer after some store while `frame` is written in pieces. */
  ghost predicate Partial(image: bytes, id: u64, before: bytes, frame: bytes) {
    exists magic: bytes, size: nat, n: nat ::
      && IsMagic(magic) && |before| <= size <= |before| + n && n <= |frame|
      && image == Header(magic, id, size) + (before + frame[..n])
  }

  lemma PartialOf(magic: bytes, id: u64, size: nat, before: bytes, frame: bytes, n: nat)
    requires IsMagic(magic) && |before| <= size <= |before| + n && n <= |frame|
    ensures Partial(Header(magic, id, size) + (before + frame[..n]), id, before, frame)
  {
    hide Header;
  }

  lemma PieceOfAll(pieces: seq<bytes>, i: nat, k: nat)
    requires i < |pieces| && k <= |pieces[i]|
    ensures var n := |Concat(pieces[..i])| + k;
            n <= |Concat(pieces)| && Concat(pieces)[..n] == Concat(pieces[..i]) + pieces[i][..k]
  {
    hide Concat;
    assert pieces == pieces[..i] + ([pieces[i]] + pieces[i + 1..]);
    ConcatAppend(pieces[..i], [pieces[i]] + pieces[i + 1..]);
    ConcatCons(pieces[i], pieces[i + 1..]);
  }

  lemma DuringIsPartial(image: bytes, id: u64, before: bytes, pieces: seq<bytes>, i: nat)
    requires i < |pieces| && During(image, id, before + Concat(pieces[..i]), pieces[i])
    ensures Partial(image, id, before, Concat(pieces))
  {
    hide Header, Concat, Partial;
    var done, piece := Concat(pieces[..i]), pieces[i];
    if image == Header(METADATA_MAGIC, id, |before + done + piece|) + (before + done + piece) {
      assert piece[..|piece|] == piece;
      PrefixIsPartial(METADATA_MAGIC, id, |before + done + piece|, before, pieces, i, |piece|);
    } else {
      var magic: bytes, k: nat :| IsMagic(magic) && k <= |piece|
        && image == Header(magic, id, |before + done|) + (before + done + piece[..k]);
      PrefixIsPartial(magic, id, |before + done|, before, pieces, i, k);
    }
  }

  lemma PrefixIsPartial(magic: bytes, id: u64, size: nat, before: bytes, pieces: seq<bytes>, i: nat, k: nat)
    requires i < |pieces| && k <= |pieces[i]| && IsMagic(magic)
    requires var n := |before| + |Concat(pieces[..i])|; n <= size <= n + k
    ensures Partial(Header(magic, id, size) + (before + Concat(pieces[..i]) + pieces[i][..k]), id, before, Concat(pieces))
  {
    hide Header, Concat, Partial;
    var done := Concat(pieces[..i]);
    PieceOfAll(pieces, i, k);
    JoinPiece(before, done, pieces[i][..k]);
    PartialOf(magic, id, size, before, Concat(pieces), |done| + k);
  }

  lemma JoinPiece(a: bytes, b: bytes, c: bytes)
    ensures a + b + c == a + (b + c)
  {
  }

  lemma SizeFieldOf(magic: bytes, id: u64, size: u64, data: bytes)
    requires |magic| == 8
    ensures SizeField(Header(magic, id, size) + data) == size
  {
    hide LE, FromLE;
    Ranges();
    FromLEOfLE(size, 8);
    assert (Header(magic, id, size) + data)[SIZE_OFFSET..HEADER_SIZE] == LE(size, 8);
  }

  lemma HasMagic(id: u64, size: nat, data: bytes)
    ensures METADATA_MAGIC <= Header(METADATA_MAGIC, id, size) + data
  {
    hide LE;
  }

  lemma PartialContent(image: bytes, id: u64, before: bytes, payload: text)
    requires Partial(image, id, before, Frame(payload)) && Unframe(before).Some?
    requires |before + Frame(payload)| < TWO_TO_64
    ensures Content(image) == Told(image, before, before + Frame(payload))
  {
    hide Header, Content, Unframe, Frame, SizeField, FrameAll;
    var frame := Frame(payload);
    var magic: bytes, size: nat, n: nat :|
      && IsMagic(magic) && |before| <= size <= |before| + n && n <= |frame|
      && image == Header(magic, id, size) + (before + frame[..n]);
    var data := before + frame[..n];
    if magic == NO_MAGIC {
      NoContent(id, size, data);
    } else {
      HasMagic(id, size, data);
      SizeFieldOf(magic, id, size, data);
      ContentOf(id, size, data);
      var k := size - |before|;
      assert data[..size] == before + frame[..k];
      BoundaryOrNothing(before, payload, k);
      assert k == 0 ==> before + frame[..k] == before;
      assert k == |frame| ==> frame[..k] == frame;
    }
  }

  /** A run of entries and a part of one more is a run of entries only if the part is nothing or everything. */
  lemma BoundaryOrNothing(before: bytes, payload: text, n: nat)
    requires Unframe(before).Some? && n <= |Frame(payload)|
    ensures Unframe(before + Frame(payload)[..n]).Some? <==> n == 0 || n == |Frame(payload)|
  {
    hide Unframe, Frame, FrameAll;
    UnframeOnly(before);
    var payloads := Unframe(before).value;
    if n == 0 {
      assert before + Frame(payload)[..n] == before;
    } else if n == |Frame(payload)| {
      assert Frame(payload)[..n] == Frame(payload);
      PushPayload(payloads, payload);
      UnframeOfFrameAll(payloads + [payload]);
    } else {
      PartialEntryHidesAll(payloads, payload, n);
    }
  }

  lemma PushPayload(payloads: seq<text>, payload: text)
    ensures FrameAll(payloads + [payload]) == FrameAll(payloads) + Frame(payload)
  {
    FrameAllAppend(payloads, [payload]);
    assert [payload][1..] == [] && FrameAll([payload]) == Frame(payload);
  }

  /** In the middle of an entry nothing is recovered, not even the whole entries before it. */
  lemma {:induction false} PartialEntryHidesAll(payloads: seq<text>, last: text, n: nat)
    requires 0 < n < |Frame(last)|
    ensures Unframe(FrameAll(payloads) + Frame(last)[..n]) == None
  {
    Ranges();
    var part := Frame(last)[..n];
    if payloads == [] {
      assert FrameAll(payloads) + part == part;
      if n >= 4 {
        assert part == LE(|last|, 4) + last[..n - 4];
        ReadUintOf(|last|, 4, last[..n - 4]);
      }
    } else {
      var b := FrameAll(payloads) + part;
      var rest := FrameAll(payloads[1..]) + part;
      assert b == EncodeText(payloads[0]) + rest;
      ReadTextOf(payloads[0], rest);
      PartialEntryHidesAll(payloads[1..], last, n);
    }
  }

  lemma PayloadNotEmpty(e: Entry)
    requires EntryOk(e)
    ensures Payload(e) != []
  {
    hide LE, EncodeText;
  }

  /** The buffer when the size of the entry was written, and no more. */
  ghost function AfterSize(id: u64, before: bytes, size: bytes): bytes {
    Header(METADATA_MAGIC, id, |before + size|) + (before + size)
  }

  lemma NothingAfterSize(id: u64, before: bytes, payload: text)
    requires payload != [] && Unframe(before).Some? && |before + Frame(payload)| < TWO_TO_64
    ensures var image := AfterSize(id, before, LE(|payload|, 4));
            METADATA_MAGIC <= image && Content(image) == None
  {
    hide Header, Content, Unframe, LE;
    var size := LE(|payload|, 4);
    assert Frame(payload)[..4] == size;
    var all := before + size;
    assert all[..|all|] == all;
    BoundaryOrNothing(before, payload, 4);
    ContentOf(id, |all|, all);
    HasMagic(id, |all|, all);
  }

  lemma FullContent(id: u64, before: bytes, payload: text)
    requires Unframe(before).Some? && |before + Frame(payload)| < TWO_TO_64
    ensures var all := before + Frame(payload);
            Content(Header(METADATA_MAGIC, id, |all|) + all) == Some(all)
  {
    hide Header, Content, Unframe, Frame;
    var all := before + Frame(payload);
    assert all[..|all|] == all && Frame(payload)[..|Frame(payload)|] == Frame(payload);
    BoundaryOrNothing(before, payload, |Frame(payload)|);
    ContentOf(id, |all|, all);
  }
}
