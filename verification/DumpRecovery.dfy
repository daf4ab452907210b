/**
 Recovery from end to end: from the memory of a program in the middle of its runs, through the search, the
 sorting and the output, to what a reader makes of the file.
 */
module DumpRecovery {
  import opened Bytes
  import opened Entries
  import opened EventStreams
  import opened MemoryDumps
  import opened Recovery
  import opened RecoverableStreams
  import opened RecoveredOutput
  import Ring
  import Protocol = SessionProtocol

  // ---------------------------------------------------------------- a ring and the channel it carries

  /** The protocol's view of a queue: a list of entries, of which some were released. */
  ghost predicate Carries(r: Ring.State, ch: Protocol.Channel) {
    EntriesOk(ch.log) && CommitsAreEntries(r.h.log, Payloads(ch.log)) && r.h.rel == ch.released
  }

  /** A new queue carries a new channel. */
  lemma InitCarries(r: Ring.State, writer: nat, prop: WriterProp)
    requires Ring.Init(r)
    ensures Carries(r, Protocol.Channel(writer, prop, true, [], 0, 0))
  {
  }

  /** `AddEvent` of the protocol is the commit of one framed entry. */
  lemma CommitCarries(r: Ring.State, ch: Protocol.Channel, e: Entry)
    requires Carries(r, ch) && Ring.Enabled(r, Ring.WCommit)
    requires EntryOk(e) && r.wr.pending == Frame(Payload(e))
    ensures Carries(Ring.Apply(r, Ring.WCommit), ch.(log := ch.log + [e]))
  {
    hide EntryOk, PayloadBytes, Frame;
    assert Payloads(ch.log + [e]) == Payloads(ch.log) + [Payload(e)];
  }

  /** `EndRead` of the protocol releases what was visible at the load of `writeIndex`. */
  lemma ReleaseCarries(r: Ring.State, ch: Protocol.Channel)
    requires Carries(r, ch) && Ring.Enabled(r, Ring.REndRead)
    ensures Carries(Ring.Apply(r, Ring.REndRead), ch.(released := r.rd.snap))
  {
    hide EntryOk, PayloadBytes;
  }

  /** No other step of the ring is one of the protocol. */
  lemma OtherStepsCarry(r: Ring.State, step: Ring.Step, ch: Protocol.Channel)
    requires Carries(r, ch) && Ring.Enabled(r, step) && !step.WCommit? && !step.REndRead?
    ensures Carries(Ring.Apply(r, step), ch)
    ensures step.RLoadW? ==> Ring.Apply(r, step).rd.snap == |ch.log|
  {
    hide EntryOk, PayloadBytes;
  }

  /** A view shows the bytes of the entries the protocol writes in one batch, and the batch size is their number. */
  lemma ViewIsBatch(r: Ring.State, ch: Protocol.Channel)
    requires Ring.Reachable(r) && Carries(r, ch) && r.rd.pc.RReading?
    ensures ch.released <= r.rd.snap <= |ch.log| && Ring.ViewFits(r.rd.pc.view, r.q.buf)
    ensures var events := ch.log[ch.released..r.rd.snap];
            && EntriesOk(events)
            && Ring.ViewBytes(r.rd.pc.view, r.q.buf) == FrameAll(Payloads(events))
            && r.rd.pc.view.Size() == Protocol.BatchSize(events)
  {
    hide EntryOk, PayloadBytes, FrameAll, CommitsAreEntries, Ring.Inv, Protocol.BatchSize;
    Ring.ReachableInv(r);
    ghost var _ := ViewOfLog(r);
    LogLength(r, ch);
    var events := ch.log[ch.released..r.rd.snap];
    ConcatOfEntries(r.h.log, Payloads(ch.log), r.h.rel, r.rd.snap);
    PayloadsSlice(ch.log, ch.released, r.rd.snap);
    Protocol.BatchSizeIsLength(events);
  }

  lemma ViewOfLog(r: Ring.State) returns (m: nat)
    requires Ring.Inv(r) && r.rd.pc.RReading?
    ensures r.h.rel <= m <= r.rd.snap <= |r.h.log| && Ring.ViewFits(r.rd.pc.view, r.q.buf)
    ensures Ring.ViewBytes(r.rd.pc.view, r.q.buf) == Concat(r.h.log[r.h.rel..r.rd.snap])
    ensures |Ring.ViewBytes(r.rd.pc.view, r.q.buf)| == r.rd.pc.view.Size()
  {
    m := Ring.ViewContents(r.q, r.h, r.rd.readEnd, r.rd.snap);
  }

  lemma LogLength(r: Ring.State, ch: Protocol.Channel)
    requires Carries(r, ch)
    ensures |r.h.log| == |ch.log|
  {
    hide EntryOk, PayloadBytes;
  }

  lemma PayloadsSlice(es: seq<Entry>, i: nat, j: nat)
    requires EntriesOk(es) && i <= j <= |es|
    ensures EntriesOk(es[i..j]) && Payloads(es[i..j]) == Payloads(es)[i..j]
  {
    hide EntryOk, PayloadBytes, Payloads, Payload;
    assert forall k :: 0 <= k < j - i ==> Payloads(es[i..j])[k] == Payload(es[i + k]);
  }

  // ---------------------------------------------------------------- the memory of a program

  /**
   A buffer or channel of a running program: serialized metadata of its session, or a queue in whatever state a
   run of the ring left it, which carries a channel of the session.
   */
  ghost predicate HoldsBuffer(piece: Piece, b: SessionBuffer, s: Protocol.Session) {
    match piece
    case MetadataPiece(p, content) =>
      && b.kind.Metadata? && b.session == p && IsBufferOf(b, s)
      && EntriesOk(b.entries) && content == FrameAll(Payloads(b.entries)) && |content| < TWO_TO_64
    case ChannelPiece(p, queue, _) =>
      && b.kind.Data? && b.session == p && queue.Capacity() < TWO_TO_64
      && exists r: Ring.State, c: nat :: HoldsChannel(r, queue, s, c) && b.entries == Unreleased(s.channels[c])
    case Other(_) => false
  }

  ghost predicate HoldsChannel(r: Ring.State, queue: Ring.Shared, s: Protocol.Session, c: nat) {
    c < |s.channels| && Ring.Reachable(r) && r.q == queue && Carries(r, s.channels[c])
  }

  /** The memory is that of a program with some sessions, each in the middle of some run; `bs` are their buffers in it. */
  ghost predicate MemoryOf(pieces: seq<Piece>, bs: seq<SessionBuffer>, sessions: map<u64, Protocol.Session>)
    decreases |pieces|
  {
    if pieces == [] then bs == []
    else if pieces[0].Other? then MemoryOf(pieces[1..], bs, sessions)
    else
      && bs != [] && bs[0].session in sessions && HoldsBuffer(pieces[0], bs[0], sessions[bs[0].session])
      && MemoryOf(pieces[1..], bs[1..], sessions)
  }

  /** A quiescent buffer of serialized metadata is a piece of memory. */
  lemma VectorIsPiece(id: u64, data: bytes)
    ensures Header(METADATA_MAGIC, id, |data|) + data == Image(MetadataPiece(id, data))
  {
    hide LE;
  }

  lemma PieceIsRecovered(piece: Piece, b: SessionBuffer, s: Protocol.Session)
    requires HoldsBuffer(piece, b, s)
    ensures Recoverable(piece) && !piece.Other? && EntriesOk(b.entries) && BufferOf(piece) == Encode(b)
  {
    hide EntryOk, PayloadBytes, FrameAll, Unframe, RecoverQueue, Ring.Reachable, Carries;
    if piece.MetadataPiece? {
      UnframeOfFrameAll(Payloads(b.entries));
    } else {
      var r: Ring.State, c: nat :| HoldsChannel(r, piece.queue, s, c) && b.entries == Unreleased(s.channels[c]);
      QueueIsRecovered(r, s.channels[c]);
    }
  }

  lemma QueueIsRecovered(r: Ring.State, ch: Protocol.Channel)
    requires Ring.Reachable(r) && Carries(r, ch)
    ensures EntriesOk(Unreleased(ch)) && RecoverQueue(r.q) == Some(FrameAll(Payloads(Unreleased(ch))))
  {
    hide EntryOk, PayloadBytes, FrameAll, CommitsAreEntries, RecoverQueue;
    var states, steps :| Ring.Run(states, steps) && states[|steps|] == r;
    DumpYieldsUnreadEntries(states, steps, |steps|, Payloads(ch.log));
    PayloadsSlice(ch.log, ch.released, |ch.log|);
    assert ch.log[ch.released..|ch.log|] == ch.log[ch.released..];
    assert Payloads(ch.log)[ch.released..|ch.log|] == Payloads(ch.log)[ch.released..];
  }

  lemma EncodedPush(b: SessionBuffer, bs: seq<SessionBuffer>)
    requires EntriesOk(b.entries) && AllOk(bs)
    ensures AllOk([b] + bs) && Encoded([b] + bs) == [Encode(b)] + Encoded(bs)
  {
    hide EntriesOk, Encode;
  }

  lemma NoneEncoded()
    ensures AllOk([]) && Encoded([]) == []
  {
  }

  /** The buffers found are those of the sessions. */
  lemma {:induction false} FoundAreEncoded(pieces: seq<Piece>, bs: seq<SessionBuffer>, sessions: map<u64, Protocol.Session>)
    requires MemoryOf(pieces, bs, sessions)
    ensures AllOk(bs) && forall i :: 0 <= i < |pieces| ==> Recoverable(pieces[i])
    ensures MemoryDumps.BuffersOf(pieces) == Encoded(bs)
    ensures forall b :: b in bs ==> b.session in sessions && IsBufferOf(b, sessions[b.session])
    decreases |pieces|
  {
    hide HoldsBuffer, Recoverable, BufferOf, Encode, EntriesOk, IsBufferOf, Encoded;
    if pieces == [] {
      NoneEncoded();
    } else {
      if pieces[0].Other? {
        FoundAreEncoded(pieces[1..], bs, sessions);
        OtherIsRecoverable(pieces[0]);
      } else {
        PieceIsRecovered(pieces[0], bs[0], sessions[bs[0].session]);
        BufferIsOfSession(pieces[0], bs[0], sessions[bs[0].session]);
        FoundAreEncoded(pieces[1..], bs[1..], sessions);
        assert bs == [bs[0]] + bs[1..];
        EncodedPush(bs[0], bs[1..]);
      }
    }
  }

  lemma OtherIsRecoverable(piece: Piece)
    requires piece.Other?
    ensures Recoverable(piece)
  {
  }

  lemma BufferIsOfSession(piece: Piece, b: SessionBuffer, s: Protocol.Session)
    requires HoldsBuffer(piece, b, s)
    ensures IsBufferOf(b, s)
  {
    hide EntryOk, PayloadBytes, FrameAll, Ring.Reachable, Carries, Payloads;
  }

  // ---------------------------------------------------------------- a permutation of encodings is one of the encoded

  function Without<T>(s: seq<T>, j: nat): seq<T>
    requires j < |s|
  {
    s[..j] + s[j + 1..]
  }

  lemma TakeOut<T>(s: seq<T>, j: nat)
    requires j < |s|
    ensures multiset(s) == multiset{s[j]} + multiset(Without(s, j))
  {
    assert s == s[..j] + [s[j]] + s[j + 1..];
  }

  lemma EncodedWithout(bs: seq<SessionBuffer>, j: nat)
    requires AllOk(bs) && j < |bs|
    ensures AllOk(Without(bs, j)) && Encoded(Without(bs, j)) == Without(Encoded(bs), j)
  {
    hide EntriesOk, Encode;
  }

  lemma Push<T>(x: T, s: seq<T>)
    ensures multiset([x] + s) == multiset{x} + multiset(s)
  {
  }

  lemma Cancel<T>(x: T, a: multiset<T>, b: multiset<T>)
    requires multiset{x} + a == multiset{x} + b
    ensures a == b
  {
    assert a == multiset{x} + a - multiset{x};
    assert b == multiset{x} + b - multiset{x};
  }

  /** Some buffer is encoded as the first one of `sorted`; without both, the rests correspond. */
  lemma FindFirst(sorted: seq<RecoveredBuffer>, bs: seq<SessionBuffer>) returns (j: nat)
    requires AllOk(bs) && multiset(sorted) == multiset(Encoded(bs)) && sorted != []
    ensures j < |bs| && Encoded(bs)[j] == sorted[0]
    ensures AllOk(Without(bs, j)) && multiset(sorted[1..]) == multiset(Encoded(Without(bs, j)))
  {
    hide EntriesOk, Encode, Without;
    SameMembers(sorted, Encoded(bs));
    assert sorted[0] in sorted;
    assert sorted[0] in Encoded(bs);
    j :| 0 <= j < |bs| && Encoded(bs)[j] == sorted[0];
    hide Encoded;
    EncodedWithout(bs, j);
    TakeOut(Encoded(bs), j);
    assert sorted == [sorted[0]] + sorted[1..];
    Push(sorted[0], sorted[1..]);
    Cancel(sorted[0], multiset(sorted[1..]), multiset(Encoded(Without(bs, j))));
  }

  lemma {:induction false} PermuteAlong(sorted: seq<RecoveredBuffer>, bs: seq<SessionBuffer>) returns (order: seq<SessionBuffer>)
    requires AllOk(bs) && multiset(sorted) == multiset(Encoded(bs))
    ensures multiset(order) == multiset(bs) && AllOk(order) && Encoded(order) == sorted
    decreases |sorted|
  {
    hide EntriesOk, Encode, Without;
    SameLength(sorted, Encoded(bs));
    if sorted == [] {
      order := [];
    } else {
      var j := FindFirst(sorted, bs);
      var more := PermuteAlong(sorted[1..], Without(bs, j));
      TakeOut(bs, j);
      Push(bs[j], more);
      EncodedPush(bs[j], more);
      assert sorted == [sorted[0]] + sorted[1..];
      order := [bs[j]] + more;
    }
  }

  lemma SameLength<T>(a: seq<T>, b: seq<T>)
    requires multiset(a) == multiset(b)
    ensures |a| == |b|
  {
    assert |multiset(a)| == |a| && |multiset(b)| == |b|;
  }

  // ---------------------------------------------------------------- the whole program

  /** `brecovery`: search, sort, write. Whatever the input, the output is a run of whole entries. */
  method Recover(input: Input) returns (output: bytes, ghost sorted: seq<RecoveredBuffer>)
    requires input.Valid() && input.good && input.pos == 0
    modifies input
    ensures Ordered(sorted) && multiset(sorted) == multiset(Scan(input.data))
    ensures output == Output(sorted) && Unframe(output).Some?
  {
    hide Scan, Ordered, Unframe;
    var buffers := RecoverBuffers(input);
    var inOrder := Sort(buffers);
    output := WriteOutput(inOrder);
    RecoveredAreWhole(input.data);
    SameMembers(inOrder, buffers);
    OutputIsWhole(inOrder);
    sorted := inOrder;
  }

  /** What was sorted is some order of the sessions' buffers. */
  lemma FoundInSomeOrder(
    pieces: seq<Piece>, bs: seq<SessionBuffer>, sessions: map<u64, Protocol.Session>, sorted: seq<RecoveredBuffer>)
    returns (order: seq<SessionBuffer>)
    requires MemoryOf(pieces, bs, sessions) && Distinguishable(pieces)
    requires multiset(sorted) == multiset(Scan(Memory(pieces)))
    ensures multiset(order) == multiset(bs) && AllOk(order) && Encoded(order) == sorted
    ensures forall b :: b in order ==> b.session in sessions && IsBufferOf(b, sessions[b.session])
    ensures forall b :: b in bs ==> b in order
  {
    hide MemoryOf, Distinguishable, Scan, Recoverable, IsBufferOf, EntriesOk, Encode, Encoded;
    FoundAreEncoded(pieces, bs, sessions);
    RecoversEveryBuffer(pieces);
    order := PermuteAlong(sorted, bs);
    SameMembers(order, bs);
  }

  /**
   From the memory of a program with any number of sessions, each at any step of its protocol, and their queues
   at any step of the ring, brecovery makes a file of whole entries: those of the metadata and the unreleased
   events of the channels, each just once. However equal buffers are ordered in it, a reader refuses no event,
   and reads each with the source its own session has for it.
   */
  lemma DumpReadsBack(
    pieces: seq<Piece>, bs: seq<SessionBuffer>, sessions: map<u64, Protocol.Session>, sorted: seq<RecoveredBuffer>)
    returns (order: seq<SessionBuffer>)
    requires MemoryOf(pieces, bs, sessions) && Distinguishable(pieces)
    requires forall p :: p in sessions ==>
               Protocol.Reachable(sessions[p]) && SessionBuffer(Metadata, p, SourceEntries(sessions[p].sources)) in bs
    requires Ordered(sorted) && multiset(sorted) == multiset(Scan(Memory(pieces)))
    ensures multiset(order) == multiset(bs) && AllOk(order) && EntriesOk(Flat(order))
    ensures Unframe(Output(sorted)) == Some(Payloads(Flat(order)))
    ensures forall i, k :: 0 <= i < |order| && 0 <= k < |order[i].entries| && order[i].entries[k].EventEntry? ==>
              EventResolves(order, sessions, i, k)
  {
    hide MemoryOf, Distinguishable, Scan, Ordered, Protocol.Reachable, IsBufferOf, EntriesOk, Encoded, Flat, Output, Unframe;
    hide StateAfterEntries, ResolvesTo, SourceEntries, Payloads, Memory;
    order := FoundInSomeOrder(pieces, bs, sessions, sorted);
    RecoveredFileReadsBack(order, sessions);
    forall i, k | 0 <= i < |order| && 0 <= k < |order[i].entries| && order[i].entries[k].EventEntry?
      ensures EventResolves(order, sessions, i, k)
    {
      assert order[i] in order;
    }
  }

  /** A reader that comes to the event has the source the session of its buffer gave that id. */
  ghost predicate EventResolves(order: seq<SessionBuffer>, sessions: map<u64, Protocol.Session>, i: nat, k: nat)
    requires i < |order| && k < |order[i].entries| && order[i].entries[k].EventEntry?
  {
    && order[i].session in sessions
    && ResolvesTo(StateAfterEntries(FRESH, Flat(order[..i]) + order[i].entries[..k]), order[i].entries[k].sourceId,
                  sessions[order[i].session].sources)
  }

  lemma SameMembers<T>(a: seq<T>, b: seq<T>)
    requires multiset(a) == multiset(b)
    ensures forall x :: x in a <==> x in b
  {
    assert forall x :: x in a <==> x in multiset(a);
    assert forall x :: x in b <==> x in multiset(b);
  }
}
