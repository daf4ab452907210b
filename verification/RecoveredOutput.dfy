/** The order in which recovered buffers are written, and what a reader makes of the result. */
module RecoveredOutput {
  import opened Bytes
  import opened Entries
  import opened EventStreams
  import opened MemoryDumps
  import Protocol = SessionProtocol

  // ---------------------------------------------------------------- sorting

  /** Buffers are grouped by session, metadata first. */
  predicate Before(a: RecoveredBuffer, b: RecoveredBuffer) {
    if a.session == b.session then a.kind.Metadata? && b.kind.Data? else a.session < b.session
  }

  /** What `std::sort` with that comparison promises: nothing more, so equal buffers may come in any order. */
  ghost predicate Ordered(buffers: seq<RecoveredBuffer>) {
    forall i, j :: 0 <= i < j < |buffers| ==> !Before(buffers[j], buffers[i])
  }

  method Insert(sorted: seq<RecoveredBuffer>, b: RecoveredBuffer) returns (r: seq<RecoveredBuffer>)
    requires Ordered(sorted)
    ensures Ordered(r) && multiset(r) == multiset(sorted) + multiset{b}
  {
    var i := |sorted|;
    while i > 0 && Before(b, sorted[i - 1])
      invariant 0 <= i <= |sorted|
      invariant forall j :: i <= j < |sorted| ==> Before(b, sorted[j])
    {
      i := i - 1;
    }
    r := sorted[..i] + [b] + sorted[i..];
    assert sorted == sorted[..i] + sorted[i..];
    InsertedInOrder(sorted, b, i);
  }

  lemma InsertedInOrder(sorted: seq<RecoveredBuffer>, b: RecoveredBuffer, i: nat)
    requires Ordered(sorted) && i <= |sorted|
    requires forall j :: i <= j < |sorted| ==> Before(b, sorted[j])
    requires i > 0 ==> !Before(b, sorted[i - 1])
    ensures Ordered(sorted[..i] + [b] + sorted[i..])
  {
    hide Before;
    forall j | 0 <= j < i
      ensures !Before(b, sorted[j])
    {
      if j < i - 1 {
        BeforeIsTotal(b, sorted[i - 1], sorted[j]);
      }
    }
    forall j | i <= j < |sorted|
      ensures !Before(sorted[j], b)
    {
      BeforeIsTotal(b, sorted[j], b);
    }
  }

  lemma BeforeIsTotal(a: RecoveredBuffer, b: RecoveredBuffer, c: RecoveredBuffer)
    ensures !Before(a, b) && !Before(b, c) ==> !Before(a, c)
    ensures Before(a, b) ==> !Before(b, a)
  {
  }

  method Sort(buffers: seq<RecoveredBuffer>) returns (sorted: seq<RecoveredBuffer>)
    ensures Ordered(sorted) && multiset(sorted) == multiset(buffers)
  {
    sorted := [];
    for i := 0 to |buffers|
      invariant Ordered(sorted) && multiset(sorted) == multiset(buffers[..i])
    {
      sorted := Insert(sorted, buffers[i]);
      assert buffers[..i + 1] == buffers[..i] + [buffers[i]];
    }
    assert buffers[..|buffers|] == buffers;
  }

  // ---------------------------------------------------------------- buffers of whole entries

  datatype SessionBuffer = SessionBuffer(kind: BufferType, session: u64, entries: seq<Entry>)

  ghost predicate EntriesOk(es: seq<Entry>) {
    forall i :: 0 <= i < |es| ==> EntryOk(es[i])
  }

  ghost predicate AllOk(bs: seq<SessionBuffer>) {
    forall i :: 0 <= i < |bs| ==> EntriesOk(bs[i].entries)
  }

  function Encode(b: SessionBuffer): RecoveredBuffer
    requires EntriesOk(b.entries)
  {
    RecoveredBuffer(b.kind, b.session, FrameAll(Payloads(b.entries)))
  }

  function Encoded(bs: seq<SessionBuffer>): (r: seq<RecoveredBuffer>)
    requires AllOk(bs)
    ensures |r| == |bs| && forall i :: 0 <= i < |bs| ==> EntriesOk(bs[i].entries) && r[i] == Encode(bs[i])
  {
    seq(|bs|, i requires 0 <= i < |bs| && EntriesOk(bs[i].entries) => Encode(bs[i]))
  }

  /** All entries, in order. */
  function Flat(bs: seq<SessionBuffer>): seq<Entry> {
    if bs == [] then [] else Flat(bs[..|bs| - 1]) + bs[|bs| - 1].entries
  }

  function Output(buffers: seq<RecoveredBuffer>): bytes {
    if buffers == [] then [] else Output(buffers[..|buffers| - 1]) + buffers[|buffers| - 1].buffer
  }

  method WriteOutput(buffers: seq<RecoveredBuffer>) returns (output: bytes)
    ensures output == Output(buffers)
  {
    output := [];
    for i := 0 to |buffers|
      invariant output == Output(buffers[..i])
    {
      output := output + buffers[i].buffer;
      assert buffers[..i + 1][..i] == buffers[..i];
    }
    assert buffers[..|buffers|] == buffers;
  }

  /** Whole buffers make a whole file. */
  lemma {:induction false} OutputIsWhole(buffers: seq<RecoveredBuffer>)
    requires forall b :: b in buffers ==> Unframe(b.buffer).Some?
    ensures Unframe(Output(buffers)).Some?
  {
    hide Unframe;
    if buffers == [] {
      UnframeOfFrameAll([]);
    } else {
      var n := |buffers| - 1;
      OutputIsWhole(buffers[..n]);
      assert buffers[n] in buffers;
      UnframeAppend(Output(buffers[..n]), buffers[n].buffer);
    }
  }

  lemma PayloadsAppend(a: seq<Entry>, b: seq<Entry>)
    requires EntriesOk(a) && EntriesOk(b)
    ensures Payloads(a + b) == Payloads(a) + Payloads(b)
  {
  }

  lemma {:induction false} FlatOk(bs: seq<SessionBuffer>)
    requires AllOk(bs)
    ensures EntriesOk(Flat(bs))
  {
    if bs != [] {
      FlatOk(bs[..|bs| - 1]);
    }
  }

  /** The output file is the entries of all buffers, framed. */
  lemma {:induction false} OutputIsFramed(bs: seq<SessionBuffer>)
    requires AllOk(bs)
    ensures EntriesOk(Flat(bs))
    ensures Output(Encoded(bs)) == FrameAll(Payloads(Flat(bs)))
  {
    FlatOk(bs);
    hide EntryOk, PayloadBytes;
    if bs != [] {
      var n := |bs| - 1;
      OutputIsFramed(bs[..n]);
      assert Encoded(bs)[..n] == Encoded(bs[..n]);
      PayloadsAppend(Flat(bs[..n]), bs[n].entries);
      FrameAllAppend(Payloads(Flat(bs[..n])), Payloads(bs[n].entries));
    }
  }

  // ---------------------------------------------------------------- sources of the own session

  /**
   `known` tells for a session and an id the source: metadata buffers declare what it tells, data
   buffers hold events only, and each of them has its source in some metadata buffer of its session.
   */
  ghost predicate SelfContained(bs: seq<SessionBuffer>, known: map<(u64, u64), EventSource>) {
    forall b :: b in bs ==> if b.kind.Metadata? then MetadataAgrees(b, known) else EventsDeclared(bs, b)
  }

  ghost predicate MetadataAgrees(b: SessionBuffer, known: map<(u64, u64), EventSource>) {
    forall k :: 0 <= k < |b.entries| ==>
      && !b.entries[k].EventEntry?
      && (b.entries[k].SourceEntry? ==>
            var key := (b.session, b.entries[k].source.id); key in known && known[key] == b.entries[k].source)
  }

  ghost predicate EventsDeclared(bs: seq<SessionBuffer>, b: SessionBuffer) {
    forall k :: 0 <= k < |b.entries| ==>
      && b.entries[k].EventEntry?
      && (exists m :: m in bs && m.kind.Metadata? && m.session == b.session && Declares(m.entries, b.entries[k].sourceId))
  }

  /** `Ordered`, of what was encoded. */
  ghost predicate Grouped(bs: seq<SessionBuffer>) {
    forall i, j :: 0 <= i < j < |bs| ==>
      bs[i].session <= bs[j].session && (bs[i].session == bs[j].session && bs[i].kind.Data? ==> bs[j].kind.Data?)
  }

  lemma OrderedIsGrouped(bs: seq<SessionBuffer>)
    requires AllOk(bs) && Ordered(Encoded(bs))
    ensures Grouped(bs)
  {
    hide EntriesOk;
    forall i, j | 0 <= i < j < |bs|
      ensures bs[i].session <= bs[j].session && (bs[i].session == bs[j].session && bs[i].kind.Data? ==> bs[j].kind.Data?)
    {
      assert !Before(Encoded(bs)[j], Encoded(bs)[i]);
    }
  }

  ghost predicate Declares(es: seq<Entry>, id: nat) {
    exists k :: 0 <= k < |es| && es[k].SourceEntry? && es[k].source.id == id
  }

  /** What is known of session `session` after reading metadata that agrees with `known`. */
  ghost predicate Learnt(st: StreamState, session: u64, known: map<(u64, u64), EventSource>, id: u64) {
    id in st.sources && (session, id) in known && st.sources[id] == known[(session, id)]
  }

  lemma {:induction false} MetadataTeaches(
    st: StreamState, es: seq<Entry>, session: u64, known: map<(u64, u64), EventSource>, id: u64)
    requires forall k :: 0 <= k < |es| && es[k].SourceEntry? ==>
               (session, es[k].source.id) in known && known[(session, es[k].source.id)] == es[k].source
    requires Learnt(st, session, known, id) || Declares(es, id)
    ensures Learnt(StateAfterEntries(st, es), session, known, id)
  {
    if es != [] {
      var n := |es| - 1;
      if !(es[n].SourceEntry? && es[n].source.id == id) {
        if !Learnt(st, session, known, id) {
          var k :| 0 <= k < |es| && es[k].SourceEntry? && es[k].source.id == id;
          assert es[..n][k] == es[k];
        }
        MetadataTeaches(st, es[..n], session, known, id);
      }
    }
  }

  lemma {:induction false} EventsTeachNothing(st: StreamState, es: seq<Entry>)
    requires forall k :: 0 <= k < |es| ==> es[k].EventEntry?
    ensures StateAfterEntries(st, es) == st
  {
    if es != [] {
      EventsTeachNothing(st, es[..|es| - 1]);
    }
  }

  /** Reading buffers `bs[..n]` teaches what the metadata among them says of the session of `bs[n]`. */
  lemma {:induction false} KnownBefore(
    bs: seq<SessionBuffer>, known: map<(u64, u64), EventSource>, n: nat, session: u64, id: u64, m: nat)
    requires Grouped(bs) && SelfContained(bs, known)
    requires m < n <= |bs| && bs[m].kind.Metadata? && bs[m].session == session && Declares(bs[m].entries, id)
    requires bs[n - 1].session == session
    ensures Learnt(StateAfterEntries(FRESH, Flat(bs[..n])), session, known, id)
  {
    hide EntryOk, StateAfterEntries, Learnt, Declares;
    var b, st := bs[n - 1], StateAfterEntries(FRESH, Flat(bs[..n - 1]));
    assert bs[..n][..n - 1] == bs[..n - 1];
    Protocol.StateAfterAppend(FRESH, Flat(bs[..n - 1]), b.entries);
    assert b in bs;
    if m < n - 1 {
      assert bs[m].session <= bs[n - 2].session <= bs[n - 1].session;
      KnownBefore(bs, known, n - 1, session, id, m);
    }
    if b.kind.Data? {
      EventsTeachNothing(st, b.entries);
    } else {
      MetadataTeaches(st, b.entries, session, known, id);
    }
  }

  /**
   In the sorted output, every event finds the source of its own session under its id, even where
   sessions use the same ids for different sources.
   */
  lemma EventsResolveInOwnSession(bs: seq<SessionBuffer>, known: map<(u64, u64), EventSource>, i: nat, k: nat)
    requires AllOk(bs)
    requires Ordered(Encoded(bs)) && SelfContained(bs, known)
    requires i < |bs| && bs[i].kind.Data? && k < |bs[i].entries|
    ensures bs[i].entries[k].EventEntry?
    ensures Learnt(StateAfterEntries(FRESH, Flat(bs[..i]) + bs[i].entries[..k]), bs[i].session, known, bs[i].entries[k].sourceId)
  {
    hide EntryOk, StateAfterEntries, Learnt, Declares, EntriesOk;
    var b, st := bs[i], StateAfterEntries(FRESH, Flat(bs[..i]));
    assert b in bs;
    Protocol.StateAfterAppend(FRESH, Flat(bs[..i]), b.entries[..k]);
    EventsTeachNothing(st, b.entries[..k]);
    var mb :| mb in bs && mb.kind.Metadata? && mb.session == b.session && Declares(mb.entries, b.entries[k].sourceId);
    var m :| 0 <= m < |bs| && bs[m] == mb;
    OrderedIsGrouped(bs);
    assert bs[m].session <= bs[i - 1].session <= bs[i].session;
    KnownBefore(bs, known, i, b.session, b.entries[k].sourceId, m);
  }

  // ---------------------------------------------------------------- dumps of running sessions

  function ClockEntries(clockSyncs: seq<ClockSync>): (r: seq<Entry>)
    ensures |r| == |clockSyncs| && forall i :: 0 <= i < |r| ==> r[i] == ClockEntry(clockSyncs[i])
  {
    seq(|clockSyncs|, i requires 0 <= i < |clockSyncs| => ClockEntry(clockSyncs[i]))
  }

  function SourceEntries(sources: seq<EventSource>): (r: seq<Entry>)
    ensures |r| == |sources| && forall i :: 0 <= i < |r| ==> r[i] == SourceEntry(sources[i])
  {
    seq(|sources|, i requires 0 <= i < |sources| => SourceEntry(sources[i]))
  }

  /** The entries a channel holds for recovery: those not given back by `endRead`, as `Recovery` shows. */
  function Unreleased(ch: Protocol.Channel): seq<Entry> {
    if ch.released <= |ch.log| then ch.log[ch.released..] else []
  }

  ghost predicate IsBufferOf(b: SessionBuffer, s: Protocol.Session) {
    match b.kind
    case Metadata => b.entries == ClockEntries(s.clockSyncs) || b.entries == SourceEntries(s.sources)
    case Data => exists c :: 0 <= c < |s.channels| && b.entries == Unreleased(s.channels[c])
  }

  /** The buffers found in a dump of a program with some sessions, each in the middle of some run. */
  ghost predicate DumpOf(bs: seq<SessionBuffer>, sessions: map<u64, Protocol.Session>) {
    && (forall b :: b in bs ==> b.session in sessions && IsBufferOf(b, sessions[b.session]))
    && (forall p :: p in sessions ==>
          Protocol.Reachable(sessions[p]) && SessionBuffer(Metadata, p, SourceEntries(sessions[p].sources)) in bs)
  }

  lemma ReachableParts(s: Protocol.Session)
    requires Protocol.Inv(s)
    ensures Protocol.ChannelsOk(s.channels, |s.writers|, |s.sources|) && Protocol.SourcesOk(s)
  {
    hide Protocol.ChannelsOk, Protocol.TakenInOrder, Protocol.WritersOk, Protocol.ListedOk, Protocol.ConsumerOk;
    hide Protocol.CountsOk, Protocol.HistoryOk, Protocol.SourcesOk, Protocol.OutputOk, Protocol.MutexOk;
  }

  /** An entry a buffer of that kind may hold, where the session has those sources. */
  predicate BelongsTo(e: Entry, kind: BufferType, sources: seq<EventSource>) {
    match e
    case EventEntry(id, _, _) => kind.Data? && 1 <= id <= |sources|
    case SourceEntry(source) => kind.Metadata? && 1 <= source.id <= |sources| && sources[source.id - 1] == source
    case ClockEntry(_) => kind.Metadata?
    case WriterEntry(_) => false
  }

  lemma BufferOfReachable(b: SessionBuffer, s: Protocol.Session)
    requires Protocol.Reachable(s) && IsBufferOf(b, s)
    ensures EntriesOk(b.entries)
    ensures |s.sources| < TWO_TO_63 && forall k :: 0 <= k < |s.sources| ==> s.sources[k].id == k + 1
    ensures forall k :: 0 <= k < |b.entries| ==> BelongsTo(b.entries[k], b.kind, s.sources)
  {
    hide EntryOk, Protocol.Reachable, Protocol.Inv, Protocol.ChannelsOk, Protocol.ChannelOk;
    Protocol.ReachableInv(s);
    ReachableParts(s);
    if b.kind.Metadata? {
      MetadataEntries(b, s);
    } else {
      hide Protocol.SourcesOk, BelongsTo;
      ReachableSources(s);
      var c :| 0 <= c < |s.channels| && b.entries == Unreleased(s.channels[c]);
      OneChannelOk(s.channels, c, |s.writers|, |s.sources|);
      UnreleasedEntries(s.channels[c], |s.writers|, s.sources);
    }
  }

  lemma ReachableSources(s: Protocol.Session)
    requires Protocol.SourcesOk(s)
    ensures |s.sources| < TWO_TO_63 && forall k :: 0 <= k < |s.sources| ==> s.sources[k].id == k + 1
  {
    hide EntryOk;
  }

  lemma MetadataEntries(b: SessionBuffer, s: Protocol.Session)
    requires Protocol.SourcesOk(s) && b.kind.Metadata? && IsBufferOf(b, s)
    ensures EntriesOk(b.entries) && forall k :: 0 <= k < |b.entries| ==> BelongsTo(b.entries[k], b.kind, s.sources)
  {
    hide EntryOk;
  }

  lemma UnreleasedEntries(ch: Protocol.Channel, nWriters: nat, sources: seq<EventSource>)
    requires Protocol.ChannelOk(ch, nWriters, |sources|)
    ensures var es := Unreleased(ch);
            EntriesOk(es) && forall k :: 0 <= k < |es| ==> BelongsTo(es[k], Data, sources)
  {
    hide EntryOk;
  }

  lemma OneChannelOk(channels: seq<Protocol.Channel>, c: nat, nWriters: nat, nSources: nat)
    requires Protocol.ChannelsOk(channels, nWriters, nSources) && c < |channels|
    ensures Protocol.ChannelOk(channels[c], nWriters, nSources)
  {
  }

  /** What `KnownBefore` needs to know of all sessions together. */
  ghost function KnownSources(sessions: map<u64, Protocol.Session>): map<(u64, u64), EventSource>
    requires forall p :: p in sessions ==> |sessions[p].sources| < TWO_TO_63
  {
    map p: u64, id: u64 | p in sessions && 1 <= id <= |sessions[p].sources| :: (p, id) := sessions[p].sources[id - 1]
  }

  /**
   The recovered file, however equal buffers are ordered in it: no event is refused by a reader, and
   each is read with the source its own session has for it.
   */
  lemma RecoveredFileReadsBack(bs: seq<SessionBuffer>, sessions: map<u64, Protocol.Session>)
    requires DumpOf(bs, sessions)
    ensures AllOk(bs) && EntriesOk(Flat(bs))
    ensures Unframe(Output(Encoded(bs))) == Some(Payloads(Flat(bs)))
    ensures Ordered(Encoded(bs)) ==>
              forall i, k :: 0 <= i < |bs| && 0 <= k < |bs[i].entries| && bs[i].entries[k].EventEntry? ==>
                ResolvesTo(StateAfterEntries(FRESH, Flat(bs[..i]) + bs[i].entries[..k]), bs[i].entries[k].sourceId,
                           sessions[bs[i].session].sources)
  {
    hide EntryOk, Protocol.Reachable, StateAfterEntries, IsBufferOf, Unframe, FrameAll, PayloadBytes, Output, Flat;
    forall i | 0 <= i < |bs|
      ensures EntriesOk(bs[i].entries)
    {
      assert bs[i] in bs;
      BufferOfReachable(bs[i], sessions[bs[i].session]);
    }
    OutputIsFramed(bs);
    UnframeOfFrameAll(Payloads(Flat(bs)));
    if Ordered(Encoded(bs)) {
      var known := ReachableSelfContained(bs, sessions);
      forall i, k | 0 <= i < |bs| && 0 <= k < |bs[i].entries| && bs[i].entries[k].EventEntry?
        ensures ResolvesTo(StateAfterEntries(FRESH, Flat(bs[..i]) + bs[i].entries[..k]), bs[i].entries[k].sourceId,
                           sessions[bs[i].session].sources)
      {
        assert bs[i] in bs;
        BufferOfReachable(bs[i], sessions[bs[i].session]);
        EventsResolveInOwnSession(bs, known, i, k);
      }
    }
  }

  ghost predicate ResolvesTo(st: StreamState, id: nat, sources: seq<EventSource>) {
    1 <= id <= |sources| && id in st.sources && st.sources[id] == sources[id - 1]
  }

  ghost predicate Agrees(known: map<(u64, u64), EventSource>, p: u64, sources: seq<EventSource>) {
    forall id: u64 :: 1 <= id <= |sources| ==> (p, id) in known && known[(p, id)] == sources[id - 1]
  }

  lemma ReachableSelfContained(bs: seq<SessionBuffer>, sessions: map<u64, Protocol.Session>) returns (known: map<(u64, u64), EventSource>)
    requires DumpOf(bs, sessions)
    ensures SelfContained(bs, known)
    ensures forall p :: p in sessions ==> Agrees(known, p, sessions[p].sources)
  {
    hide EntryOk, Protocol.Reachable, IsBufferOf, Declares, MetadataAgrees, EventsDeclared;
    forall p | p in sessions
      ensures |sessions[p].sources| < TWO_TO_63
    {
      SourcesAreABuffer(p, sessions[p]);
    }
    known := KnownSources(sessions);
    forall b | b in bs
      ensures if b.kind.Metadata? then MetadataAgrees(b, known) else EventsDeclared(bs, b)
    {
      BufferOfSession(bs, b, sessions[b.session], known);
    }
  }

  lemma BufferOfSession(bs: seq<SessionBuffer>, b: SessionBuffer, s: Protocol.Session, known: map<(u64, u64), EventSource>)
    requires Protocol.Reachable(s) && IsBufferOf(b, s) && Agrees(known, b.session, s.sources)
    requires SessionBuffer(Metadata, b.session, SourceEntries(s.sources)) in bs
    ensures if b.kind.Metadata? then MetadataAgrees(b, known) else EventsDeclared(bs, b)
  {
    hide EntryOk, Protocol.Reachable, IsBufferOf, Declares;
    BufferOfReachable(b, s);
    if b.kind.Data? {
      var m := SessionBuffer(Metadata, b.session, SourceEntries(s.sources));
      forall k | 0 <= k < |b.entries|
        ensures b.entries[k].EventEntry? && Declares(m.entries, b.entries[k].sourceId)
      {
        SourcesDeclare(s.sources, b.entries[k].sourceId);
      }
    }
  }

  lemma SourcesAreABuffer(p: u64, s: Protocol.Session)
    requires Protocol.Reachable(s)
    ensures |s.sources| < TWO_TO_63
  {
    hide Protocol.Reachable;
    BufferOfReachable(SessionBuffer(Metadata, p, SourceEntries(s.sources)), s);
  }

  lemma SourcesDeclare(sources: seq<EventSource>, id: nat)
    requires 1 <= id <= |sources| && forall k :: 0 <= k < |sources| ==> sources[k].id == k + 1
    ensures Declares(SourceEntries(sources), id)
  {
    assert SourceEntries(sources)[id - 1].source.id == id;
  }
}
