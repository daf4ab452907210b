/**
 The session and its writers as the mutable objects they are, between two acquisitions of the mutex.
 What interleaving adds to this is the subject of module `SessionProtocol`.
 */
module Sessions {
  import opened Bytes
  import opened Entries
  import opened Queues
  import opened Recovery
  import opened RecoverableStreams
  import opened RecoveredOutput
  import Ring
  import Protocol = SessionProtocol

  /** Keeps every write apart, to tell whether each of them is made of whole entries. */
  class OutputStream {
    var writes: seq<bytes>

    constructor ()
      ensures writes == []
    {
      writes := [];
    }

    method Write(b: bytes)
      modifies this
      ensures writes == old(writes) + [b]
    {
      writes := writes + [b];
    }
  }

  /** Every commit is a run of whole entries. */
  ghost predicate WholeCommits(log: seq<bytes>) {
    forall i :: 0 <= i < |log| ==> Unframe(log[i]).Some?
  }

  lemma {:induction false} UnframeConcat(log: seq<bytes>)
    requires WholeCommits(log)
    ensures Unframe(Concat(log)).Some?
  {
    if log != [] {
      UnframeConcat(log[1..]);
      UnframeAppend(log[0], Concat(log[1..]));
    }
  }

  /** With whole commits, each half of a view is whole entries. */
  lemma HalvesUnframe(s: Ring.State)
    requires Ring.Inv(s) && s.rd.pc.RReading? && WholeCommits(s.h.log)
    ensures Ring.ViewFits(s.rd.pc.view, s.q.buf)
    ensures Unframe(Ring.Part1(s.rd.pc.view, s.q.buf)).Some? && Unframe(Ring.Part2(s.rd.pc.view, s.q.buf)).Some?
  {
    hide Unframe;
    var m := Ring.ViewContents(s.q, s.h, s.rd.readEnd, s.rd.snap);
    UnframeConcat(s.h.log[s.h.rel..m]);
    UnframeConcat(s.h.log[m..s.rd.snap]);
  }

  lemma HalvesFit(s: Ring.State)
    requires Ring.Inv(s) && s.rd.pc.RReading?
    ensures Ring.ViewFits(s.rd.pc.view, s.q.buf)
    ensures WholeCommits(s.h.log) ==>
              Unframe(Ring.Part1(s.rd.pc.view, s.q.buf)).Some? && Unframe(Ring.Part2(s.rd.pc.view, s.q.buf)).Some?
  {
    hide Unframe;
    ghost var _ := Ring.ViewContents(s.q, s.h, s.rd.readEnd, s.rd.snap);
    if WholeCommits(s.h.log) {
      HalvesUnframe(s);
    }
  }

  /** The writer properties fit an entry, whatever their batch size. */
  ghost predicate PropOk(prop: WriterProp) {
    EntryOk(WriterEntry(prop))
  }

  lemma PropSize(prop: WriterProp, n: u64)
    requires PropOk(prop)
    ensures PropOk(prop.(batchSize := n))
  {
  }

  lemma PropId(prop: WriterProp, id: u64)
    requires PropOk(prop)
    ensures PropOk(prop.(id := id))
  {
  }

  /** `open`: some writer shares the channel with the session. */
  class Channel {
    const queue: Queue
    var prop: WriterProp
    var open: bool

    ghost predicate Valid()
      reads this, queue, queue.buffer
    {
      && queue.Linked()
      && (queue.model.rd.pc.RIdle? || queue.model.rd.pc.RReading?)
      && PropOk(prop)
      && queue.buffer.Length < TWO_TO_63
    }

    /** What the reader would find; of a valid channel, `unread` is `queue.Contents()`. */
    ghost function State(): ChannelState
      reads this, queue
    {
      ChannelState(prop, if Ring.IndicesInRange(queue.model.q) then Ring.Unread(queue.model.q) else [], open)
    }

    constructor (capacity: nat, prop: WriterProp)
      requires capacity < TWO_TO_63 && PropOk(prop)
      ensures Valid() && fresh(queue) && fresh(queue.buffer) && queue.buffer.Length == capacity
      ensures Ring.Init(queue.model) && State() == ChannelState(prop, [], true)
    {
      var buffer := new byte[capacity];
      queue := new Queue(buffer);
      this.prop := prop;
      open := true;
    }
  }

  datatype ChannelState = ChannelState(prop: WriterProp, unread: bytes, open: bool)

  // ---------------------------------------------------------------- what one call of consume does

  /** A polled channel is empty; if it had data, its properties tell how much. */
  function Polled(ch: ChannelState): ChannelState
    requires |ch.unread| < TWO_TO_64
  {
    if ch.unread == [] then ch else ch.(prop := ch.prop.(batchSize := |ch.unread|), unread := [])
  }

  ghost function Batch(ch: ChannelState): bytes
    requires |ch.unread| < TWO_TO_64 && PropOk(Polled(ch).prop)
  {
    if ch.unread == [] then [] else Frame(Payload(WriterEntry(Polled(ch).prop))) + ch.unread
  }

  ghost predicate StatesOk(chs: seq<ChannelState>) {
    forall i :: 0 <= i < |chs| ==> |chs[i].unread| < TWO_TO_64 && PropOk(Polled(chs[i]).prop)
  }

  ghost function Batches(chs: seq<ChannelState>): bytes
    requires StatesOk(chs)
  {
    if chs == [] then [] else Batches(chs[..|chs| - 1]) + Batch(chs[|chs| - 1])
  }

  lemma StatesJoin(a: seq<ChannelState>, b: seq<ChannelState>)
    requires StatesOk(a) && StatesOk(b)
    ensures StatesOk(a + b)
  {
    hide PropOk, Polled;
  }

  lemma LastState(chs: seq<ChannelState>, ch: ChannelState)
    requires StatesOk(chs + [ch])
    ensures StatesOk(chs) && |ch.unread| < TWO_TO_64 && PropOk(Polled(ch).prop)
  {
    hide PropOk, Polled;
    assert (chs + [ch])[|chs|] == ch && forall i :: 0 <= i < |chs| ==> (chs + [ch])[i] == chs[i];
  }

  lemma BatchesLast(chs: seq<ChannelState>, ch: ChannelState)
    requires StatesOk(chs + [ch])
    ensures StatesOk(chs) && |ch.unread| < TWO_TO_64 && PropOk(Polled(ch).prop)
    ensures Batches(chs + [ch]) == Batches(chs) + Batch(ch)
  {
    hide Batch, PropOk, Polled, StatesOk;
    LastState(chs, ch);
    assert (chs + [ch])[..|chs + [ch]| - 1] == chs;
  }

  /** Batches stand in the order of the channels. */
  lemma {:induction false} BatchesAppend(a: seq<ChannelState>, b: seq<ChannelState>)
    requires StatesOk(a) && StatesOk(b)
    ensures StatesOk(a + b) && Batches(a + b) == Batches(a) + Batches(b)
    decreases |b|
  {
    hide Batch, PropOk, Polled, StatesOk, Batches;
    StatesJoin(a, b);
    if b == [] {
      NoBatches();
      assert a + b == a;
    } else {
      var front, last := b[..|b| - 1], b[|b| - 1];
      assert b == front + [last] && a + b == a + front + [last];
      BatchesLast(front, last);
      BatchesAppend(a, front);
      BatchesLast(a + front, last);
    }
  }

  /** The channels kept by `consume`: those not closed, all polled. */
  ghost function Kept(chs: seq<ChannelState>): seq<ChannelState>
    requires StatesOk(chs)
  {
    if chs == [] then []
    else Kept(chs[..|chs| - 1]) + (if chs[|chs| - 1].open then [Polled(chs[|chs| - 1])] else [])
  }

  /** A channel is kept if and only if it is open. */
  lemma KeptOne(ch: ChannelState)
    requires StatesOk([ch])
    ensures |ch.unread| < TWO_TO_64 && Kept([ch]) == if ch.open then [Polled(ch)] else []
  {
    hide Polled, PropOk;
    assert [ch][..0] == [] && Kept([]) == [] && [ch][0] == ch;
  }

  lemma KeptLast(chs: seq<ChannelState>, ch: ChannelState)
    requires StatesOk(chs + [ch])
    ensures StatesOk(chs) && |ch.unread| < TWO_TO_64
    ensures Kept(chs + [ch]) == Kept(chs) + if ch.open then [Polled(ch)] else []
  {
    hide PropOk, Polled, StatesOk;
    LastState(chs, ch);
    assert (chs + [ch])[..|chs + [ch]| - 1] == chs;
  }

  lemma NoneKept()
    ensures StatesOk([]) && Kept([]) == []
  {
  }

  /** Those kept stay in their order. */
  lemma {:induction false} KeptAppend(a: seq<ChannelState>, b: seq<ChannelState>)
    requires StatesOk(a) && StatesOk(b)
    ensures StatesOk(a + b) && Kept(a + b) == Kept(a) + Kept(b)
    decreases |b|
  {
    hide PropOk, Polled, StatesOk, Kept;
    StatesJoin(a, b);
    if b == [] {
      NoneKept();
      assert a + b == a;
    } else {
      var front, last := b[..|b| - 1], b[|b| - 1];
      assert b == front + [last] && a + b == a + front + [last];
      KeptLast(front, last);
      KeptAppend(a, front);
      KeptLast(a + front, last);
    }
  }

  /** The batch of a channel is what the protocol's step of the same name writes for the events in it. */
  lemma BatchIsProtocolBatch(ch: ChannelState, events: seq<Entry>, w: nat)
    requires |ch.unread| < TWO_TO_64 && PropOk(ch.prop) && PropOk(Polled(ch).prop)
    requires EntriesOk(events) && ch.unread == FrameAll(Payloads(events))
    ensures Protocol.BatchSize(events) < TWO_TO_64
    ensures var items := Protocol.EntriesOf(Protocol.Batch(ch.prop, events, w));
            EntriesOk(items) && Batch(ch) == FrameAll(Payloads(items))
  {
    hide EntryOk, PayloadBytes, FrameAll, Payloads, Frame, Protocol.BatchSize, Protocol.Batch;
    Protocol.BatchSizeIsLength(events);
    ItemsOfBatch(ch.prop, events, w);
    if events == [] {
      NoEntries();
    } else {
      FramedNotEmpty(events);
      FrameCons(WriterEntry(Polled(ch).prop), events);
    }
  }

  lemma ItemsOfBatch(prop: WriterProp, events: seq<Entry>, w: nat)
    requires Protocol.BatchSize(events) < TWO_TO_64
    ensures Protocol.EntriesOf(Protocol.Batch(prop, events, w))
            == if events == [] then [] else [WriterEntry(prop.(batchSize := Protocol.BatchSize(events)))] + events
  {
    hide Protocol.BatchSize;
  }

  lemma NoEntries()
    ensures FrameAll(Payloads([])) == [] && Unframe([]).Some?
  {
  }

  lemma FramedNotEmpty(events: seq<Entry>)
    requires EntriesOk(events) && events != []
    ensures FrameAll(Payloads(events)) != []
  {
    hide EntryOk, PayloadBytes, LE;
    assert |Frame(Payloads(events)[0])| >= 4;
  }

  lemma FrameCons(e: Entry, events: seq<Entry>)
    requires EntryOk(e) && EntriesOk(events)
    ensures EntriesOk([e] + events)
    ensures FrameAll(Payloads([e] + events)) == Frame(Payload(e)) + FrameAll(Payloads(events))
  {
    hide EntryOk, PayloadBytes, Frame;
    assert Payloads([e] + events) == [Payload(e)] + Payloads(events);
    assert ([Payload(e)] + Payloads(events))[1..] == Payloads(events);
  }

  // ---------------------------------------------------------------- one channel

  lemma UnreadIsShort(s: Ring.State)
    requires Ring.Inv(s) && s.q.Capacity() < TWO_TO_63
    ensures |Ring.Unread(s.q)| < TWO_TO_64
  {
  }

  lemma UnreadIsContents(ch: Channel)
    requires ch.Valid()
    ensures ch.State().unread == ch.queue.Contents()
  {
  }

  lemma StateOpen(ch: Channel)
    ensures ch.State().open == ch.open
  {
  }

  lemma SourceOrWriterFits(e: Entry)
    requires EntryOk(e)
    ensures Unframe(Frame(Payload(e))).Some?
  {
    hide PayloadBytes;
    var p := [Payload(e)];
    assert p[1..] == [] && FrameAll(p) == Frame(Payload(e));
    UnframeOfFrameAll(p);
  }

  /** Bytes of whole entries, given to the output in several writes. */
  ghost predicate WholeWrites(writes: seq<bytes>) {
    forall i :: 0 <= i < |writes| ==> Unframe(writes[i]).Some?
  }

  method ConsumeSpecialEntry(e: Entry, out: OutputStream) returns (n: nat)
    requires EntryOk(e)
    modifies out
    ensures out.writes == old(out.writes) + [Frame(Payload(e))] && n == |Frame(Payload(e))|
  {
    var b := Frame(Payload(e));
    out.Write(b);
    n := |b|;
  }

  /** What a writer relies on is left alone, and every commit is kept. */
  twostate predicate WriterSideUnchanged(q: Queue)
    reads q
  {
    q.model.wr == old(q.model.wr) && q.model.h.log == old(q.model.h.log)
  }

  /** The data of one channel, if any: its properties with the size of the data, and both halves of that. */
  method ConsumeChannel(ch: Channel, out: OutputStream) returns (n: nat, ghost more: seq<bytes>)
    requires ch.Valid()
    modifies ch`prop, ch.queue`readIndex, ch.queue`model, out
    ensures ch.Valid() && |old(ch.State()).unread| < TWO_TO_64 && PropOk(Polled(old(ch.State())).prop)
    ensures ch.State() == Polled(old(ch.State()))
    ensures WriterSideUnchanged(ch.queue)
    ensures out.writes == old(out.writes) + more && (WholeCommits(ch.queue.model.h.log) ==> WholeWrites(more))
    ensures Concat(more) == Batch(old(ch.State())) && n == |Concat(more)|
  {
    hide Unframe, PayloadBytes, EntryOk, Ring.Inv, Ring.Unread, Frame, WholeCommits, WholeWrites, Concat;
    NoBatches();
    UnreadIsShort(ch.queue.model);
    UnreadIsContents(ch);
    ghost var unread := ch.queue.Contents();
    var reader := new QueueReader(ch.queue);
    var view := reader.BeginRead();
    n, more := 0, [];
    if view.Size() != 0 {
      PropSize(ch.prop, view.Size());
      ch.prop := ch.prop.(batchSize := view.Size());
      ghost var e := WriterEntry(ch.prop);
      n := ConsumeSpecialEntry(WriterEntry(ch.prop), out);
      SourceOrWriterFits(e);
      HalvesFit(ch.queue.model);
      var half1 := ch.queue.buffer[view.off1..view.off1 + view.size1];
      var half2 := ch.queue.buffer[view.off2..view.off2 + view.size2];
      ghost var head := Frame(Payload(e));
      assert half1 + half2 == unread;
      out.Write(half1);
      more := [head, half1];
      if view.size2 != 0 {
        out.Write(half2);
        more := [head, half1, half2];
      }
      ConcatThree(head, half1, half2);
      reader.EndRead(view);
      n := n + view.Size();
    }
    UnreadIsContents(ch);
  }

  lemma ConcatThree(a: bytes, b: bytes, c: bytes)
    ensures Concat([a, b, c]) == a + (b + c)
    ensures c == [] ==> Concat([a, b]) == a + (b + c)
    ensures Unframe(a).Some? && Unframe(b).Some? && Unframe(c).Some? ==> WholeWrites([a, b, c]) && WholeWrites([a, b])
  {
    hide Unframe, Concat;
    ConcatPush([a, b], c);
    ConcatPush([a], b);
    ConcatOne(a);
    assert [a, b] + [c] == [a, b, c] && [a] + [b] == [a, b];
    assert a + b + c == a + (b + c);
  }

  // ---------------------------------------------------------------- all channels

  /** No two channels share a queue or the buffer of one. */
  ghost predicate Separate(chs: seq<Channel>) {
    forall i, j :: 0 <= i < j < |chs| ==>
      chs[i] != chs[j] && chs[i].queue != chs[j].queue && chs[i].queue.buffer != chs[j].queue.buffer
  }

  ghost function QueuesOf(chs: seq<Channel>): (r: set<Queue>)
    ensures forall i :: 0 <= i < |chs| ==> chs[i].queue in r
  {
    set c | c in chs :: c.queue
  }

  ghost function BuffersOf(chs: seq<Channel>): (r: set<array<byte>>)
    ensures forall i :: 0 <= i < |chs| ==> chs[i].queue.buffer in r
  {
    set c | c in chs :: c.queue.buffer
  }

  ghost predicate AllValid(chs: seq<Channel>)
    reads chs, QueuesOf(chs), BuffersOf(chs)
  {
    forall i :: 0 <= i < |chs| ==> chs[i].Valid()
  }

  ghost function States(chs: seq<Channel>): (r: seq<ChannelState>)
    reads chs, QueuesOf(chs)
    ensures |r| == |chs| && forall i :: 0 <= i < |chs| ==> r[i] == chs[i].State()
  {
    seq(|chs|, i requires 0 <= i < |chs| reads chs, QueuesOf(chs) => chs[i].State())
  }

  lemma AllStatesOk(chs: seq<Channel>)
    requires AllValid(chs)
    ensures StatesOk(States(chs))
  {
    hide EntryOk, Ring.Inv, Ring.Unread;
    forall i | 0 <= i < |chs|
      ensures |chs[i].State().unread| < TWO_TO_64 && PropOk(Polled(chs[i].State()).prop)
    {
      UnreadIsShort(chs[i].queue.model);
      PropSize(chs[i].prop, |chs[i].State().unread|);
    }
  }

  /** `erase(remove_if(...))` after closed channels were reset. */
  function Remaining(chs: seq<Channel>, closed: seq<bool>): (r: seq<Channel>)
    requires |chs| == |closed|
    ensures |r| <= |chs|
    ensures forall c :: c in r ==> c in chs
  {
    if chs == [] then []
    else
      var n := |chs| - 1;
      Remaining(chs[..n], closed[..n]) + (if closed[n] then [] else [chs[n]])
  }

  lemma {:induction false} RemainingSeparate(chs: seq<Channel>, closed: seq<bool>)
    requires |chs| == |closed| && Separate(chs)
    ensures Separate(Remaining(chs, closed))
  {
    if chs != [] {
      var n := |chs| - 1;
      var r := Remaining(chs[..n], closed[..n]);
      RemainingSeparate(chs[..n], closed[..n]);
      forall k | 0 <= k < |r|
        ensures r[k] != chs[n] && r[k].queue != chs[n].queue && r[k].queue.buffer != chs[n].queue.buffer
      {
        assert r[k] in r;
        var j :| 0 <= j < n && chs[..n][j] == r[k];
      }
    }
  }

  lemma {:induction false} RemainingStates(chs: seq<Channel>, closed: seq<bool>, before: seq<ChannelState>)
    requires AllValid(chs) && |chs| == |closed| == |before| && StatesOk(before)
    requires forall i :: 0 <= i < |chs| ==> States(chs)[i] == Polled(before[i]) && closed[i] == !before[i].open
    ensures AllValid(Remaining(chs, closed)) && States(Remaining(chs, closed)) == Kept(before)
  {
    hide Channel.Valid, Channel.State, PropOk, Polled;
    if chs == [] {
      StatesOfNone();
    } else {
      var n := |chs| - 1;
      StatesSplit(chs);
      hide States, AllValid;
      RemainingStates(chs[..n], closed[..n], before[..n]);
      StatesPush(Remaining(chs[..n], closed[..n]), chs[n]);
    }
  }

  lemma StatesOfNone()
    ensures AllValid([]) && States([]) == []
  {
  }

  lemma StatesSplit(chs: seq<Channel>)
    requires AllValid(chs) && chs != []
    ensures var n := |chs| - 1;
            && AllValid(chs[..n]) && chs[n].Valid() && States(chs)[n] == chs[n].State()
            && forall i :: 0 <= i < n ==> States(chs[..n])[i] == States(chs)[i]
  {
    hide Channel.Valid, Channel.State;
  }

  lemma StatesPush(chs: seq<Channel>, c: Channel)
    requires AllValid(chs) && c.Valid()
    ensures AllValid(chs + [c]) && States(chs + [c]) == States(chs) + [c.State()]
  {
    hide Channel.Valid, Channel.State;
  }

  twostate predicate WriterSidesUnchanged(chs: seq<Channel>)
    reads QueuesOf(chs)
  {
    forall i :: 0 <= i < |chs| ==> WriterSideUnchanged(chs[i].queue)
  }

  /** All commits to all channels are whole entries. */
  ghost predicate AllWhole(chs: seq<Channel>)
    reads QueuesOf(chs)
  {
    forall i :: 0 <= i < |chs| ==> WholeCommits(chs[i].queue.model.h.log)
  }

  /** One round of the loop of `consume` over the channels. */
  method PollChannel(chs: seq<Channel>, i: nat, out: OutputStream) returns (n: nat, isClosed: bool, ghost more: seq<bytes>)
    requires Separate(chs) && AllValid(chs) && i < |chs|
    modifies chs[i], chs[i].queue, out
    ensures AllValid(chs) && WriterSidesUnchanged(chs)
    ensures var ch := old(States(chs))[i];
            && |ch.unread| < TWO_TO_64 && PropOk(Polled(ch).prop)
            && States(chs) == old(States(chs))[i := Polled(ch)]
            && isClosed == !ch.open
            && Concat(more) == Batch(ch)
    ensures out.writes == old(out.writes) + more && n == |Concat(more)|
    ensures WholeCommits(chs[i].queue.model.h.log) ==> WholeWrites(more)
  {
    hide Channel.Valid, Channel.State, PropOk, Unframe, Batch, Polled, WholeCommits;
    StateOpen(chs[i]);
    isClosed := !chs[i].open;
    n, more := ConsumeChannel(chs[i], out);
  }

  /** The first `i` channels were polled. */
  ghost function PolledUpTo(before: seq<ChannelState>, i: nat): (r: seq<ChannelState>)
    requires StatesOk(before)
    ensures |r| == |before|
  {
    seq(|before|, j requires 0 <= j < |before| => if j < i then Polled(before[j]) else before[j])
  }

  ghost function ClosedUpTo(before: seq<ChannelState>, i: nat): (r: seq<bool>)
    requires i <= |before|
    ensures |r| == i && forall j :: 0 <= j < i ==> r[j] == !before[j].open
  {
    seq(i, j requires 0 <= j < |before| => !before[j].open)
  }

  lemma PollNext(before: seq<ChannelState>, i: nat)
    requires StatesOk(before) && i < |before|
    ensures PolledUpTo(before, i)[i] == before[i]
    ensures PolledUpTo(before, i)[i := Polled(before[i])] == PolledUpTo(before, i + 1)
    ensures ClosedUpTo(before, i) + [!before[i].open] == ClosedUpTo(before, i + 1)
  {
    hide Polled, PropOk;
  }

  lemma PollEnds(before: seq<ChannelState>)
    requires StatesOk(before)
    ensures PolledUpTo(before, 0) == before && ClosedUpTo(before, 0) == []
    ensures forall i :: 0 <= i < |before| ==> PolledUpTo(before, |before|)[i] == Polled(before[i])
  {
    hide Polled, PropOk;
  }

  /** The loop of `consume` over the channels. */
  method ConsumeChannels(chs: seq<Channel>, out: OutputStream)
    returns (n: nat, closed: seq<bool>, ghost more: seq<bytes>)
    requires Separate(chs) && AllValid(chs)
    modifies chs, QueuesOf(chs), out
    ensures AllValid(chs) && WriterSidesUnchanged(chs) && StatesOk(old(States(chs))) && |closed| == |chs|
    ensures forall i :: 0 <= i < |chs| ==>
              States(chs)[i] == Polled(old(States(chs))[i]) && closed[i] == !old(States(chs))[i].open
    ensures out.writes == old(out.writes) + more && (old(AllWhole(chs)) ==> WholeWrites(more))
    ensures Concat(more) == Batches(old(States(chs))) && n == |Concat(more)|
  {
    hide Channel.Valid, Channel.State, PropOk, Unframe, Batch, Polled, Separate, AllValid, Batches, Concat;
    hide PolledUpTo, ClosedUpTo, QueuesOf, BuffersOf, WholeCommits, WholeWrites;
    AllStatesOk(chs);
    ghost var before := States(chs);
    n, closed, more := 0, [], [];
    NoBatches();
    PollEnds(before);
    for i := 0 to |chs|
      invariant AllValid(chs) && WriterSidesUnchanged(chs)
      invariant closed == ClosedUpTo(before, i) && States(chs) == PolledUpTo(before, i)
      invariant out.writes == old(out.writes) + more && (old(AllWhole(chs)) ==> WholeWrites(more))
      invariant StatesOk(before[..i]) && Concat(more) == Batches(before[..i]) && n == |Concat(more)|
    {
      ghost var m;
      var k, isClosed;
      PollNext(before, i);
      k, isClosed, m := PollChannel(chs, i, out);
      ConcatAppend(more, m);
      if old(AllWhole(chs)) {
        WholeAppend(more, m);
      }
      n, more, closed := n + k, more + m, closed + [isClosed];
      BatchesPush(before, i);
    }
    assert before[..|chs|] == before;
  }

  lemma NoBatches()
    ensures WholeWrites([]) && StatesOk([]) && Batches([]) == [] && Concat<byte>([]) == []
  {
  }

  lemma BatchesPush(chs: seq<ChannelState>, i: nat)
    requires StatesOk(chs) && i < |chs|
    ensures StatesOk(chs[..i]) && StatesOk(chs[..i + 1])
    ensures |chs[i].unread| < TWO_TO_64 && PropOk(Polled(chs[i]).prop)
    ensures Batches(chs[..i + 1]) == Batches(chs[..i]) + Batch(chs[i])
  {
    hide Batch, PropOk, Polled;
    assert chs[..i + 1][..i] == chs[..i];
  }

  lemma WritesAppend(a: seq<bytes>, b: seq<bytes>)
    ensures Concat(a + b) == Concat(a) + Concat(b)
    ensures WholeWrites(a) && WholeWrites(b) ==> WholeWrites(a + b)
  {
    hide Unframe, Concat;
    ConcatAppend(a, b);
  }

  lemma WholeAppend(a: seq<bytes>, b: seq<bytes>)
    requires WholeWrites(a) && WholeWrites(b)
    ensures WholeWrites(a + b)
  {
  }

  // ---------------------------------------------------------------- the session

  datatype ConsumeResult = ConsumeResult(
    bytesConsumed: nat, totalBytesConsumed: nat, channelsPolled: nat, channelsRemoved: nat)

  /** The clock syncs and sources given to the session so far, and how many sources were consumed. */
  datatype Metadata = Metadata(clocks: seq<ClockSync>, sources: seq<EventSource>, consumed: nat, clockDue: bool)

  ghost predicate MetadataOk(m: Metadata) {
    && m.consumed <= |m.sources|
    && EntriesOk(ClockEntries(m.clocks)) && EntriesOk(SourceEntries(m.sources))
  }

  ghost function ClockBytes(m: Metadata): bytes
    requires MetadataOk(m)
  {
    FrameAll(Payloads(ClockEntries(m.clocks)))
  }

  ghost function SourceBytes(m: Metadata, i: nat, j: nat): bytes
    requires MetadataOk(m) && i <= j <= |m.sources|
  {
    FrameAll(Payloads(SourceEntries(m.sources)[i..j]))
  }

  lemma SourceBytesSplit(m: Metadata, i: nat, j: nat, k: nat)
    requires MetadataOk(m) && i <= j <= k <= |m.sources|
    ensures SourceBytes(m, i, k) == SourceBytes(m, i, j) + SourceBytes(m, j, k)
  {
    hide EntryOk, PayloadBytes;
    var es := SourceEntries(m.sources);
    assert es[i..k] == es[i..j] + es[j..k];
    PayloadsAppend(es[i..j], es[j..k]);
    FrameAllAppend(Payloads(es[i..j]), Payloads(es[j..k]));
  }

  lemma PushFrame(es: seq<Entry>, e: Entry)
    requires EntriesOk(es) && EntryOk(e)
    ensures FrameAll(Payloads(es + [e])) == FrameAll(Payloads(es)) + Frame(Payload(e))
  {
    hide EntryOk, PayloadBytes;
    assert Payloads(es + [e]) == Payloads(es) + [Payload(e)];
    FrameAllAppend(Payloads(es), [Payload(e)]);
    assert [Payload(e)][1..] == [] && FrameAll([Payload(e)]) == Frame(Payload(e));
  }

  lemma FramedIsWhole(es: seq<Entry>)
    requires EntriesOk(es)
    ensures Unframe(FrameAll(Payloads(es))).Some?
  {
    UnframeOfFrameAll(Payloads(es));
  }

  /** One more source: its frame is appended, and what was consumed stays. */
  lemma PushSource(m: Metadata, s: EventSource)
    requires MetadataOk(m) && EntryOk(SourceEntry(s))
    ensures var m' := m.(sources := m.sources + [s]);
            && MetadataOk(m') && ClockBytes(m') == ClockBytes(m)
            && SourceBytes(m', 0, |m'.sources|) == SourceBytes(m, 0, |m.sources|) + Frame(Payload(SourceEntry(s)))
            && SourceBytes(m', 0, m.consumed) == SourceBytes(m, 0, m.consumed)
    ensures Unframe(SourceBytes(m, 0, |m.sources|)).Some?
  {
    hide EntryOk, PayloadBytes, FrameAll, Unframe;
    var es, e := SourceEntries(m.sources), SourceEntry(s);
    assert SourceEntries(m.sources + [s]) == es + [e];
    PushFrame(es, e);
    FramedIsWhole(es);
    assert es[0..|es|] == es && (es + [e])[0..|es| + 1] == es + [e];
    assert (es + [e])[0..m.consumed] == es[0..m.consumed];
  }

  /** One more clock sync, due to be written. */
  lemma PushClock(m: Metadata, clock: ClockSync)
    requires MetadataOk(m) && EntryOk(ClockEntry(clock))
    ensures var m' := m.(clocks := m.clocks + [clock], clockDue := true);
            && MetadataOk(m') && ClockBytes(m') == ClockBytes(m) + Frame(Payload(ClockEntry(clock)))
            && SourceBytes(m', 0, |m'.sources|) == SourceBytes(m, 0, |m.sources|)
            && SourceBytes(m', 0, m.consumed) == SourceBytes(m, 0, m.consumed)
    ensures Unframe(ClockBytes(m)).Some?
  {
    hide EntryOk, PayloadBytes, FrameAll, Unframe;
    var es := ClockEntries(m.clocks);
    assert ClockEntries(m.clocks + [clock]) == es + [ClockEntry(clock)];
    PushFrame(es, ClockEntry(clock));
    FramedIsWhole(es);
  }

  lemma MetadataIsWhole(m: Metadata)
    requires MetadataOk(m)
    ensures Unframe(ClockBytes(m)).Some? && Unframe(SourceBytes(m, m.consumed, |m.sources|)).Some?
    ensures SourceBytes(m, 0, |m.sources|) == SourceBytes(m, 0, m.consumed) + SourceBytes(m, m.consumed, |m.sources|)
  {
    FramedIsWhole(ClockEntries(m.clocks));
    FramedIsWhole(SourceEntries(m.sources)[m.consumed..|m.sources|]);
    SourceBytesSplit(m, 0, m.consumed, |m.sources|);
  }

  lemma MetadataWrites(m: Metadata)
    requires MetadataOk(m)
    ensures var c, s := ClockBytes(m), SourceBytes(m, m.consumed, |m.sources|);
            Concat([c] + [s]) == c + s && Concat([] + [s]) == [] + s
  {
    hide ClockBytes, SourceBytes;
    ConcatPush([ClockBytes(m)], SourceBytes(m, m.consumed, |m.sources|));
    ConcatOne(ClockBytes(m));
    ConcatPush([], SourceBytes(m, m.consumed, |m.sources|));
  }

  class Session {
    var channels: seq<Channel>
    const clockSync: RecoverableVectorOutputStream
    const sources: RecoverableVectorOutputStream
    var sourcesConsumePos: nat
    var nextSourceId: nat
    var totalConsumedBytes: nat
    var consumeClockSync: bool
    ghost var metadata: Metadata

    ghost predicate Valid()
      reads this, clockSync, sources, channels, QueuesOf(channels), BuffersOf(channels)
    {
      Separate(channels) && AllValid(channels) && MetadataValid()
    }

    /** The serialized metadata is that of `metadata`; ids are positions. */
    ghost predicate MetadataValid()
      reads this, clockSync, sources
    {
      && MetadataOk(metadata)
      && clockSync != sources && clockSync.Valid() && sources.Valid()
      && clockSync.Data() == ClockBytes(metadata)
      && sources.Data() == SourceBytes(metadata, 0, |metadata.sources|)
      && sourcesConsumePos == |SourceBytes(metadata, 0, metadata.consumed)|
      && nextSourceId == |metadata.sources| + 1
      && consumeClockSync == metadata.clockDue
    }

    /** `address` is what dumps tell the buffers of different sessions by. */
    constructor (address: u64, system: ClockSync)
      requires EntryOk(ClockEntry(system))
      ensures Valid() && channels == [] && totalConsumedBytes == 0
      ensures fresh(clockSync) && fresh(sources) && clockSync.id == sources.id == address
      ensures metadata == Metadata([system], [], 0, true)
    {
      hide EntryOk, PayloadBytes, Header, FrameAll, Unframe, DumpsTell;
      NoEntries();
      PushFrame([], ClockEntry(system));
      assert [] + [ClockEntry(system)] == ClockEntries([system]);
      var c := new RecoverableVectorOutputStream(address);
      var s := new RecoverableVectorOutputStream(address);
      c.SerializeSizePrefixedTagged(ClockEntry(system));
      channels, clockSync, sources, sourcesConsumePos := [], c, s, 0;
      nextSourceId, totalConsumedBytes, consumeClockSync := 1, 0, true;
      metadata := Metadata([system], [], 0, true);
    }

    method CreateChannel(capacity: nat, prop: WriterProp) returns (ch: Channel)
      requires Valid() && capacity < TWO_TO_63 && PropOk(prop)
      modifies this`channels
      ensures Valid() && fresh(ch) && fresh(ch.queue) && fresh(ch.queue.buffer)
      ensures channels == old(channels) + [ch] && ch.Valid() && ch.queue.Linked()
      ensures ch.queue.buffer.Length == capacity && Ring.Init(ch.queue.model)
      ensures ch.prop == prop && ch.open && ch.queue.Contents() == []
    {
      hide MetadataOk, ClockBytes, SourceBytes, PropOk, Ring.Inv;
      ch := new Channel(capacity, prop);
      channels := channels + [ch];
    }

    /** The name and id of a writer may change at any time; what is unread when they do is shown with them. */
    method SetChannelWriterId(ch: Channel, id: u64)
      requires Valid() && ch in channels
      modifies ch`prop
      ensures Valid() && ch.prop == old(ch.prop).(id := id) && ch.Valid()
    {
      hide MetadataOk, ClockBytes, SourceBytes, Ring.Inv, EntryOk;
      PropId(ch.prop, id);
      ch.prop := ch.prop.(id := id);
    }

    method SetChannelWriterName(ch: Channel, name: text)
      requires Valid() && ch in channels && PropOk(ch.prop.(name := name))
      modifies ch`prop
      ensures Valid() && ch.prop == old(ch.prop).(name := name) && ch.Valid()
    {
      hide MetadataOk, ClockBytes, SourceBytes, Ring.Inv, PropOk;
      ch.prop := ch.prop.(name := name);
    }

    /**
     The id given to a source is its position, starting at one; it is what events refer to. From a dump taken
     meanwhile the old sources can be recovered, or all of them, or, for some dump, none at all.
     */
    method AddEventSource(source: EventSource) returns (id: nat)
      requires Valid() && |metadata.sources| + 1 < TWO_TO_63
      requires EntryOk(SourceEntry(source.(id := |metadata.sources| + 1)))
      modifies this`nextSourceId, this`metadata, sources
      ensures Valid() && id == |old(metadata).sources| + 1
      ensures metadata == old(metadata).(sources := old(metadata).sources + [source.(id := id)])
      ensures var s := source.(id := id);
              sources.Data() == old(sources.Data()) + (LE(8 + |EncodeSource(s)|, 4)
                + ([0xFF, 0xFF, 0xFF, 0xFF, 0xFF, 0xFF, 0xFF, 0xFF] + EncodeSource(s)))
      ensures old(sources.images) < sources.images
      ensures sources.Size() < TWO_TO_64 ==>
                var before := SourceBytes(old(metadata), 0, |old(metadata).sources|);
                var after := SourceBytes(metadata, 0, |metadata.sources|);
                DumpsTell(sources.images[|old(sources.images)|..], before, after)
    {
      hide Channel.Valid, Channel.State, Separate, MetadataOk, ClockBytes, SourceBytes;
      hide EntryOk, PayloadBytes, Unframe, DumpsTell, EncodeSource, EncodeClock, LE, Frame;
      id := nextSourceId;
      var s := source.(id := id);
      PushSource(metadata, s);
      FrameOfSource(s);
      sources.SerializeSizePrefixedTagged(SourceEntry(s));
      nextSourceId := nextSourceId + 1;
      metadata := metadata.(sources := metadata.sources + [s]);
    }

    method SetClockSync(clock: ClockSync)
      requires Valid() && EntryOk(ClockEntry(clock))
      modifies this`consumeClockSync, this`metadata, clockSync
      ensures Valid()
      ensures metadata == old(metadata).(clocks := old(metadata).clocks + [clock], clockDue := true)
      ensures clockSync.Data() == old(clockSync.Data()) + (LE(8 + |EncodeClock(clock)|, 4)
                + ([0xFD, 0xFF, 0xFF, 0xFF, 0xFF, 0xFF, 0xFF, 0xFF] + EncodeClock(clock)))
      ensures old(clockSync.images) < clockSync.images
      ensures clockSync.Size() < TWO_TO_64 ==>
                DumpsTell(clockSync.images[|old(clockSync.images)|..], ClockBytes(old(metadata)), ClockBytes(metadata))
    {
      hide Channel.Valid, Channel.State, Separate, MetadataOk, ClockBytes, SourceBytes;
      hide EntryOk, PayloadBytes, Unframe, DumpsTell, EncodeSource, EncodeClock, LE, Frame;
      PushClock(metadata, clock);
      FrameOfClock(clock);
      clockSync.SerializeSizePrefixedTagged(ClockEntry(clock));
      consumeClockSync := true;
      metadata := metadata.(clocks := metadata.clocks + [clock], clockDue := true);
    }

    /** The first part of `consume`: all clock syncs if one is due, and the sources not yet consumed. */
    method ConsumeMetadata(out: OutputStream) returns (n: nat, ghost more: seq<bytes>)
      requires MetadataValid()
      modifies this`sourcesConsumePos, this`consumeClockSync, this`metadata, out
      ensures MetadataValid()
      ensures metadata == old(metadata).(consumed := |metadata.sources|, clockDue := false)
      ensures out.writes == old(out.writes) + more && WholeWrites(more) && n == |Concat(more)|
      ensures Concat(more) == (if old(metadata).clockDue then ClockBytes(metadata) else [])
                              + SourceBytes(metadata, old(metadata).consumed, |metadata.sources|)
    {
      hide EntryOk, PayloadBytes, FrameAll, Unframe, Header, Payloads, Concat;
      ghost var m := metadata;
      n, more := 0, [];
      MetadataIsWhole(m);
      MetadataWrites(m);
      if consumeClockSync {
        out.Write(clockSync.Data());
        n := clockSync.Size();
        consumeClockSync := false;
        more := [clockSync.Data()];
      }
      var sourceWriteSize := sources.Size() - sourcesConsumePos;
      var fresh_ := sources.Data()[sourcesConsumePos..sourcesConsumePos + sourceWriteSize];
      assert fresh_ == SourceBytes(m, m.consumed, |m.sources|);
      out.Write(fresh_);
      more := more + [fresh_];
      sourcesConsumePos := sourcesConsumePos + sourceWriteSize;
      n := n + sourceWriteSize;
      metadata := m.(consumed := |m.sources|, clockDue := false);
    }

    /** The second part of `consume`: the data of all channels; closed ones are erased after that. */
    method ConsumeEvents(out: OutputStream) returns (n: nat, removed: nat, ghost more: seq<bytes>)
      requires Valid()
      modifies this`channels, channels, QueuesOf(channels), out
      ensures Valid() && StatesOk(old(States(channels)))
      ensures States(channels) == Kept(old(States(channels))) && forall c :: c in channels ==> c in old(channels)
      ensures WriterSidesUnchanged(old(channels)) && removed == |old(channels)| - |channels|
      ensures out.writes == old(out.writes) + more && n == |Concat(more)|
      ensures old(AllWhole(channels)) ==> WholeWrites(more)
      ensures Concat(more) == Batches(old(States(channels)))
    {
      hide Channel.Valid, Channel.State, MetadataOk, ClockBytes, SourceBytes, Unframe, PropOk, Batches, Kept, Polled;
      hide Separate, StatesOk, WholeWrites, Remaining, WholeCommits;
      hide RecoverableVectorOutputStream.Valid, RecoverableVectorOutputStream.Data;
      ghost var before := States(channels);
      var closed;
      n, closed, more := ConsumeChannels(channels, out);
      RemainingStates(channels, closed, before);
      RemainingSeparate(channels, closed);
      var remaining := Remaining(channels, closed);
      removed := |channels| - |remaining|;
      channels := remaining;
    }

    /**
     Moves to the output, in this order: due clock syncs, new sources, and for every channel with data
     its properties and that data. If every commit was of whole entries, so is every write. Closed channels
     are dropped.
     */
    method Consume(out: OutputStream) returns (result: ConsumeResult, ghost more: seq<bytes>)
      requires Valid()
      modifies this, channels, QueuesOf(channels), out
      ensures Valid() && StatesOk(old(States(channels)))
      ensures metadata == old(metadata).(consumed := |metadata.sources|, clockDue := false)
      ensures States(channels) == Kept(old(States(channels))) && forall c :: c in channels ==> c in old(channels)
      ensures WriterSidesUnchanged(old(channels))
      ensures out.writes == old(out.writes) + more && (old(AllWhole(channels)) ==> WholeWrites(more))
      ensures Concat(more) == (if old(metadata).clockDue then ClockBytes(metadata) else [])
                              + SourceBytes(metadata, old(metadata).consumed, |metadata.sources|)
                              + Batches(old(States(channels)))
      ensures result.bytesConsumed == |Concat(more)|
      ensures result.totalBytesConsumed == totalConsumedBytes == old(totalConsumedBytes) + |Concat(more)|
      ensures result.channelsPolled == |old(channels)|
      ensures result.channelsRemoved == |old(channels)| - |channels|
    {
      hide Channel.Valid, Channel.State, MetadataOk, ClockBytes, SourceBytes, Unframe, PropOk, Batches, Kept, Polled;
      hide WholeCommits, WholeWrites, Concat, Separate, StatesOk, RecoverableVectorOutputStream.Valid, RecoverableVectorOutputStream.Data;
      ghost var m1, m2;
      var n1, n2, removed;
      n1, m1 := ConsumeMetadata(out);
      var polled := |channels|;
      n2, removed, m2 := ConsumeEvents(out);
      WritesAppend(m1, m2);
      more := m1 + m2;
      totalConsumedBytes := totalConsumedBytes + n1 + n2;
      result := ConsumeResult(n1 + n2, totalConsumedBytes, polled, removed);
    }

    /** Every clock sync, and just the sources some output has received already. */
    method ReconsumeMetadata(out: OutputStream) returns (result: ConsumeResult)
      requires Valid()
      modifies this`totalConsumedBytes, out
      ensures Valid()
      ensures out.writes == old(out.writes) + [ClockBytes(metadata), SourceBytes(metadata, 0, metadata.consumed)]
      ensures WholeWrites(out.writes[|old(out.writes)|..])
      ensures result.bytesConsumed == |ClockBytes(metadata)| + |SourceBytes(metadata, 0, metadata.consumed)|
      ensures result.totalBytesConsumed == totalConsumedBytes == old(totalConsumedBytes) + result.bytesConsumed
      ensures result.channelsPolled == result.channelsRemoved == 0
    {
      hide Channel.Valid, Channel.State, EntryOk, PayloadBytes, FrameAll, Unframe, Header;
      SourceBytesSplit(metadata, 0, metadata.consumed, |metadata.sources|);
      FramedIsWhole(ClockEntries(metadata.clocks));
      FramedIsWhole(SourceEntries(metadata.sources)[0..metadata.consumed]);
      out.Write(clockSync.Data());
      out.Write(sources.Data()[..sourcesConsumePos]);
      var n := clockSync.Size() + sourcesConsumePos;
      totalConsumedBytes := totalConsumedBytes + n;
      result := ConsumeResult(n, totalConsumedBytes, 0, 0);
    }
  }

  // ---------------------------------------------------------------- writers

  lemma MaximizedKeepsLog(s: Ring.State)
    requires Ring.Inv(s) && s.wr.pc.WIdle?
    ensures Maximized(s).h.log == s.h.log && Maximized(s).rd == s.rd && |Maximized(s).q.buf| == |s.q.buf|
  {
  }

  lemma MaximizedKeepsRoom(s: Ring.State, size: nat)
    requires Ring.Inv(s) && s.wr.pc.WIdle?
    ensures Ring.HasRoom(Maximized(s).q, size) <==> Ring.HasRoom(s.q, size)
  {
    MaximizedIs(s);
    hide Ring.Inv, Maximized;
    Ring.LongestRunIsLongest(s.q, size);
    Ring.LongestRunIsLongest(Maximized(s).q, size);
  }

  /** An event as it lies in the queue. Its size field has 32 bits, however long the arguments are. */
  function EventBytes(sourceId: u64, clock: u64, args: seq<bytes>): bytes {
    LE((16 + |Concat(args)|) % TWO_TO_32, 4) + (LE(sourceId, 8) + (LE(clock, 8) + Concat(args)))
  }

  /** It is one entry if and only if its size fits those 32 bits; then it is the entry a reader will find. */
  lemma EventIsEntry(sourceId: u64, clock: u64, args: seq<bytes>)
    ensures (exists p: text :: EventBytes(sourceId, clock, args) == Frame(p)) <==> 16 + |Concat(args)| < TWO_TO_32
    ensures 16 + |Concat(args)| < TWO_TO_32 && !IsSpecial(sourceId) ==>
              var e := EventEntry(sourceId, clock, Concat(args));
              EntryOk(e) && EventBytes(sourceId, clock, args) == Frame(Payload(e))
    ensures 16 + |Concat(args)| < TWO_TO_32 ==> Unframe(EventBytes(sourceId, clock, args)).Some?
  {
    hide LE, Unframe;
    var payload := LE(sourceId, 8) + (LE(clock, 8) + Concat(args));
    if |payload| < TWO_TO_32 {
      PayloadFits(payload);
    } else {
      LargeEvent(sourceId, clock, args);
      forall p: text ensures EventBytes(sourceId, clock, args) != Frame(p) {
        ReadTextOf(p, []);
        assert EncodeText(p) + [] == EncodeText(p);
      }
    }
  }

  lemma PayloadFits(payload: text)
    ensures Unframe(Frame(payload)).Some?
  {
    hide LE, Unframe;
    var p := [payload];
    assert p[1..] == [] && FrameAll(p) == Frame(payload);
    UnframeOfFrameAll(p);
  }

  /**
   Of any larger event a reader takes just the first bytes for an entry, as many as the size modulo 2^32
   says, and then goes on as if the next entry began in the middle of the event.
   */
  lemma LargeEvent(sourceId: u64, clock: u64, args: seq<bytes>)
    requires 16 + |Concat(args)| >= TWO_TO_32
    ensures var payload := LE(sourceId, 8) + (LE(clock, 8) + Concat(args));
            var size := |payload| % TWO_TO_32;
            && ReadText(EventBytes(sourceId, clock, args)) == Ok(payload[..size], payload[size..])
            && payload[size..] != []
  {
    hide LE, FromLE, Concat;
    Ranges();
    var payload := LE(sourceId, 8) + (LE(clock, 8) + Concat(args));
    ReadUintOf(|payload| % TWO_TO_32, 4, payload);
  }

  /** An event of exactly 2^32 bytes, say, is read as an empty entry. */
  lemma FourGigabytesAreLost(sourceId: u64, clock: u64)
    ensures var args := [seq(TWO_TO_32 - 16, _ => 0)];
            var read := ReadText(EventBytes(sourceId, clock, args));
            && 16 + |Concat(args)| == TWO_TO_32
            && read.Ok? && read.value == [] && |read.rest| == TWO_TO_32
            && !exists p: text :: EventBytes(sourceId, clock, args) == Frame(p)
  {
    hide LE, ReadText, EventBytes;
    var args: seq<bytes> := [seq(TWO_TO_32 - 16, _ => 0)];
    ConcatOne(args[0]);
    LargeEvent(sourceId, clock, args);
    EventIsEntry(sourceId, clock, args);
  }

  /** So small events keep every commit a run of whole entries. */
  lemma WholeAfterEvent(log: seq<bytes>, sourceId: u64, clock: u64, args: seq<bytes>)
    requires WholeCommits(log) && 16 + |Concat(args)| < TWO_TO_32
    ensures WholeCommits(log + [EventBytes(sourceId, clock, args)])
  {
    hide Unframe, EventBytes;
    EventIsEntry(sourceId, clock, args);
  }

  lemma EventBytesJoin(sourceId: u64, clock: u64, args: seq<bytes>)
    ensures EventBytes(sourceId, clock, args)
            == LE((16 + |Concat(args)|) % TWO_TO_32, 4) + (LE(sourceId, 8) + LE(clock, 8)) + Concat(args)
  {
    hide Concat, LE;
  }

  lemma DefaultProp()
    ensures PropOk(WriterProp(0, [], 0))
  {
  }

  class SessionWriter {
    const session: Session
    var channel: Channel
    var qw: QueueWriter

    ghost predicate Valid()
      reads this, channel, channel.queue, channel.queue.buffer, qw
    {
      && channel.Valid() && channel.open
      && qw.queue == channel.queue && qw.Valid() && qw.Pending() == []
    }

    /** The writer belongs to a session that still lists its channel. */
    ghost predicate Attached()
      reads this, channel, channel.queue, channel.queue.buffer, qw
      reads session, session.clockSync, session.sources, session.channels, QueuesOf(session.channels), BuffersOf(session.channels)
    {
      Valid() && session.Valid() && channel in session.channels
    }

    /** The mutex is taken up to three times; a consumer may see the channel before its id and name are set. */
    constructor (session: Session, capacity: nat, id: u64, name: text)
      requires session.Valid() && capacity < TWO_TO_63 && PropOk(WriterProp(id, name, 0))
      modifies session`channels
      ensures Attached() && this.session == session
      ensures fresh(channel) && session.channels == old(session.channels) + [channel]
      ensures channel.prop == WriterProp(id, name, 0)
      ensures channel.queue.buffer.Length == capacity && channel.queue.Contents() == []
    {
      hide Channel.Valid, Queue.Linked, Separate, MetadataOk, ClockBytes, SourceBytes, Ring.Inv, Ring.Unread;
      hide RecoverableVectorOutputStream.Valid, RecoverableVectorOutputStream.Data;
      DefaultProp();
      var ch := session.CreateChannel(capacity, WriterProp(0, [], 0));
      var w := new QueueWriter(ch.queue);
      this.session := session;
      channel, qw := ch, w;
      new;
      hide PropOk;
      if id != 0 {
        SetId(id);
      }
      if name != [] {
        SetName(name);
      }
    }

    /** From now on, also for events that are in the channel already. */
    method SetId(id: u64)
      requires Attached()
      modifies channel`prop
      ensures Attached() && channel.prop == old(channel.prop).(id := id)
    {
      hide Channel.Valid, Queue.Linked, Separate, MetadataOk, ClockBytes, SourceBytes, Ring.Inv, PropOk;
      session.SetChannelWriterId(channel, id);
    }

    method SetName(name: text)
      requires Attached() && PropOk(channel.prop.(name := name))
      modifies channel`prop
      ensures Attached() && channel.prop == old(channel.prop).(name := name)
    {
      hide Channel.Valid, Queue.Linked, Separate, MetadataOk, ClockBytes, SourceBytes, Ring.Inv, PropOk;
      session.SetChannelWriterName(channel, name);
    }

    /** The size, the source and the clock, three writes; and the arguments, one write each. */
    method WriteFields(size: nat, sourceId: u64, clock: u64, args: seq<bytes>)
      requires qw.Valid() && qw.Pending() == [] && qw.queue == channel.queue
      requires size == 16 + |Concat(args)| && size + 4 <= qw.WriteCapacity()
      modifies qw, channel.queue, channel.queue.buffer
      ensures qw.Valid() && qw.Pending() == EventBytes(sourceId, clock, args)
      ensures qw.queue.Contents() == old(qw.queue.Contents())
      ensures qw.queue.model.h == old(qw.queue.model.h) && qw.queue.model.rd == old(qw.queue.model.rd)
    {
      hide Ring.Inv, Ring.Unread, LE;
      EventBytesJoin(sourceId, clock, args);
      hide EventBytes;
      ghost var head := LE(size % TWO_TO_32, 4) + (LE(sourceId, 8) + LE(clock, 8));
      qw.WriteBuffer(LE(size % TWO_TO_32, 4));
      qw.WriteBuffer(LE(sourceId, 8));
      qw.WriteBuffer(LE(clock, 8));
      assert qw.Pending() == head;
      WriteArgs(args);
    }

    method WriteArgs(args: seq<bytes>)
      requires qw.Valid() && qw.queue == channel.queue && |Concat(args)| <= qw.WriteCapacity()
      modifies qw, channel.queue, channel.queue.buffer
      ensures qw.Valid() && qw.Pending() == old(qw.Pending()) + Concat(args)
      ensures qw.queue.Contents() == old(qw.queue.Contents())
      ensures qw.queue.model.h == old(qw.queue.model.h) && qw.queue.model.rd == old(qw.queue.model.rd)
    {
      hide Ring.Inv, Ring.Unread;
      for i := 0 to |args|
        invariant qw.Valid() && qw == old(qw) && channel == old(channel)
        invariant qw.Pending() == old(qw.Pending()) + Concat(args[..i])
        invariant |Concat(args[i..])| <= qw.WriteCapacity()
        invariant qw.queue.Contents() == old(qw.queue.Contents())
        invariant qw.queue.model.h == old(qw.queue.model.h) && qw.queue.model.rd == old(qw.queue.model.rd)
      {
        assert args[i..][0] == args[i] && args[i..][1..] == args[i + 1..];
        qw.WriteBuffer(args[i]);
        assert args[..i + 1] == args[..i] + [args[i]];
        ConcatPush(args[..i], args[i]);
      }
      assert args[..|args|] == args;
    }

    /**
     Serializes the size, the source, the clock and the arguments, and commits all of that at once.
     The queue receives exactly one commit, and nothing else of it changes.
     */
    method WriteEvent(size: nat, sourceId: u64, clock: u64, args: seq<bytes>)
      requires Valid() && size == 16 + |Concat(args)| && size + 4 <= qw.WriteCapacity()
      modifies qw, channel.queue, channel.queue.buffer
      ensures Valid() && qw.queue == old(qw.queue)
      ensures channel.queue.Contents() == old(channel.queue.Contents()) + EventBytes(sourceId, clock, args)
      ensures channel.queue.model.h.log == old(channel.queue.model.h.log) + [EventBytes(sourceId, clock, args)]
    {
      hide Ring.Inv, Ring.Unread, LE, PropOk, EventBytes;
      WriteFields(size, sourceId, clock, args);
      qw.EndWrite();
    }

    /** The queue has `size` bytes for the writer: in its region, or in another free run. */
    ghost predicate Fits(size: nat)
      reads this, channel.queue, qw
    {
      size <= qw.WriteCapacity() || Ring.HasRoom(channel.queue.model.q, size)
    }

    /** Asks the queue for room; whatever the answer, its unread bytes and commits stay. */
    method Reserve(size: nat) returns (ok: bool)
      requires Valid()
      modifies qw, channel.queue`dataEnd, channel.queue`model
      ensures Valid() && qw.queue == old(qw.queue) && ok == (size <= qw.WriteCapacity())
      ensures ok == old(Fits(size)) && Fits(size) == old(Fits(size))
      ensures channel.queue.Contents() == old(channel.queue.Contents())
      ensures channel.queue.model.h.log == old(channel.queue.model.h.log)
      ensures old(channel.queue.Contents()) == [] && 2 * size <= channel.queue.buffer.Length ==> ok
    {
      hide Ring.Inv, Ring.Unread, PropOk, Maximized, Ring.HasRoom;
      MaximizedKeepsLog(channel.queue.model);
      MaximizedKeepsRoom(channel.queue.model, size);
      ok := qw.BeginWrite(size);
    }

    /**
     A new channel with room for at least twice the event, and the old one closed. It fails, and changes
     nothing, when the channel could not be created.
     */
    method ReplaceChannel(minQueueCapacity: nat, allocates: bool) returns (ok: bool)
      requires Attached()
      modifies this, channel`open, session`channels
      ensures Attached() && ok == (allocates && 2 * minQueueCapacity < TWO_TO_63)
      ensures !ok ==> channel == old(channel) && qw == old(qw) && channel.open && session.channels == old(session.channels)
      ensures ok ==>
                && fresh(channel) && fresh(qw) && fresh(channel.queue) && fresh(channel.queue.buffer)
                && session.channels == old(session.channels) + [channel]
                && channel.queue.Contents() == []
                && channel.queue.buffer.Length == Max(old(channel.queue.buffer.Length), 2 * minQueueCapacity)
                && channel.prop == old(channel.prop).(batchSize := 0)
                && old(channel).Valid() && !old(channel).open
    {
      hide Queue.Linked, Separate, MetadataOk, ClockBytes, SourceBytes, PropOk;
      hide RecoverableVectorOutputStream.Valid, RecoverableVectorOutputStream.Data;
      var capacity := channel.queue.buffer.Length;
      var newCapacity := if capacity < 2 * minQueueCapacity then 2 * minQueueCapacity else capacity;
      if !allocates || newCapacity >= TWO_TO_63 {
        return false;
      }
      var prop := channel.prop.(batchSize := 0);
      PropSize(channel.prop, 0);
      var ch := session.CreateChannel(newCapacity, prop);
      var w := new QueueWriter(ch.queue);
      channel.open := false;
      channel, qw := ch, w;
      ok := true;
    }

    /** Working on the own queue leaves the other channels of the session as they were. */
    twostate lemma StaysAttached()
      requires old(Attached()) && Valid() && channel == old(channel)
      requires unchanged(session) && unchanged(session.channels)
      requires unchanged(session.clockSync) && unchanged(session.sources)
      requires forall c :: c in session.channels ==>
                 && (c.queue != channel.queue ==> unchanged(c.queue))
                 && (c.queue.buffer != channel.queue.buffer ==> unchanged(c.queue.buffer))
      ensures Attached()
    {
      hide Channel.Valid, QueueWriter.Valid, MetadataOk, ClockBytes, SourceBytes;
      forall i | 0 <= i < |session.channels|
        ensures session.channels[i].Valid()
      {
        var c := session.channels[i];
        assert c in session.channels && old(c.Valid());
        if c != channel {
          var j :| 0 <= j < |session.channels| && session.channels[j] == channel;
          assert c.queue != channel.queue && c.queue.buffer != channel.queue.buffer by {
            assert if i < j then session.channels[i].queue != session.channels[j].queue
                   else session.channels[j].queue != session.channels[i].queue;
          }
        }
      }
    }

    method SizeOf(args: seq<bytes>) returns (size: nat)
      ensures size == 16 + |Concat(args)|
    {
      size := 16;
      for i := 0 to |args|
        invariant size == 16 + |Concat(args[..i])|
      {
        size := size + |args[i]|;
        assert args[..i + 1] == args[..i] + [args[i]];
        ConcatPush(args[..i], args[i]);
      }
      assert args[..|args|] == args;
    }

    /** Appends the event, as one commit, if and only if the queue has room for it. */
    method TryWrite(size: nat, sourceId: u64, clock: u64, args: seq<bytes>) returns (ok: bool)
      requires Attached() && size == 16 + |Concat(args)|
      modifies qw, channel.queue, channel.queue.buffer
      ensures Attached() && qw.queue == old(qw.queue)
      ensures ok == old(Fits(size + 4)) && (!ok ==> !Fits(size + 4))
      ensures channel.queue.Contents() == old(channel.queue.Contents()) + if ok then EventBytes(sourceId, clock, args) else []
      ensures channel.queue.model.h.log
              == old(channel.queue.model.h.log) + if ok then [EventBytes(sourceId, clock, args)] else []
      ensures old(channel.queue.Contents()) == [] && 2 * (size + 4) <= channel.queue.buffer.Length ==> ok
    {
      hide Channel.Valid, QueueWriter.Valid, Queue.Linked, Separate, MetadataOk, ClockBytes, SourceBytes, EventBytes;
      ok := Reserve(size + 4);
      if ok {
        WriteEvent(size, sourceId, clock, args);
      }
      StaysAttached();
    }

    /**
     Where the queue has room the event is appended, as one commit, to the writer's channel. Otherwise it is
     the first one of a new channel that replaces it, and the old channel keeps what is unread in it, and is
     closed; that fails if and only if the channel cannot be created. A drained queue of twice the size never
     needs replacing. `allocates` tells whether creating a channel would succeed.
     */
    method AddEvent(sourceId: u64, clock: u64, args: seq<bytes>, allocates: bool) returns (ok: bool)
      requires Attached()
      modifies this, qw, channel`open, channel.queue, channel.queue.buffer, session`channels
      ensures Attached()
      ensures ok && channel == old(channel) <==> old(Fits(20 + |Concat(args)|))
      ensures ok <==> old(Fits(20 + |Concat(args)|)) || (allocates && 2 * (20 + |Concat(args)|) < TWO_TO_63)
      ensures !ok ==>
                && channel == old(channel) && session.channels == old(session.channels)
                && channel.queue.Contents() == old(channel.queue.Contents())
                && channel.queue.model.h.log == old(channel.queue.model.h.log)
      ensures ok && channel == old(channel) ==>
                && session.channels == old(session.channels)
                && channel.queue.Contents() == old(channel.queue.Contents()) + EventBytes(sourceId, clock, args)
                && channel.queue.model.h.log == old(channel.queue.model.h.log) + [EventBytes(sourceId, clock, args)]
      ensures channel != old(channel) ==>
                && ok && fresh(channel) && session.channels == old(session.channels) + [channel]
                && channel.queue.Contents() == EventBytes(sourceId, clock, args)
                && channel.prop == old(channel.prop).(batchSize := 0)
                && old(channel).Valid() && !old(channel).open
                && old(channel).queue.Contents() == old(channel.queue.Contents())
                && old(channel).queue.model.h.log == old(channel.queue.model.h.log)
      ensures old(channel.queue.Contents()) == [] && 2 * (20 + |Concat(args)|) <= old(channel.queue.buffer.Length) ==>
                ok && channel == old(channel)
    {
      hide Channel.Valid, QueueWriter.Valid, Queue.Linked, Separate, MetadataOk, ClockBytes, SourceBytes, EventBytes, EntryOk;
      hide Ring.HasRoom;
      var size := SizeOf(args);
      ok := TryWrite(size, sourceId, clock, args);
      if !ok {
        var _ := ReplaceChannel(size + 4, allocates);
        ok := TryWrite(size, sourceId, clock, args);
      }
    }
  }
}
