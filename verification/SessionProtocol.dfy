/**
 A session, its writers and its consumer as an interleaved transition system.

 A queue is abstracted to the list of entries committed to it and two counts into that list, as
 justified by module `Ring`: a commit is the store of `writeIndex`, a view shows the commits visible
 at the load of `writeIndex`, and `endRead` releases just those. Steps that need the session's mutex
 are enabled only while no consumer holds it; commits and the closing of channels never wait.
 */
module SessionProtocol {
  import opened Bytes
  import opened Entries
  import opened EventStreams

  /**
    - writer: the writer the channel was created for
    - prop: the writer properties of the channel
    - open: some writer holds the channel (`use_count() > 1`)
    - log: every event committed to the channel's queue
    - taken: how many of them were written to an output
    - released: how many of them were given back by `endRead`
   */
  datatype Channel = Channel(
    writer: nat, prop: WriterProp, open: bool, log: seq<Entry>, taken: nat, released: nat)

  /** A `SessionWriter`: attached to a channel, between creating a new one and switching to it, or gone. */
  datatype WriterPc = Attached(channel: nat) | Switching(channel: nat, next: nat) | Gone

  /** history: every event for which `addEvent` committed, in call order. */
  datatype Writer = Writer(pc: WriterPc, history: seq<Entry>)

  /** What the consumer, if any, is doing. Every case but `NoConsumer` holds the mutex. */
  datatype Consumer =
    | NoConsumer
    | Polling(i: nat, removed: set<nat>)
    | Checked(i: nat, removed: set<nat>, isClosed: bool)
    | Viewed(i: nat, removed: set<nat>, isClosed: bool, visible: nat)
    | Written(i: nat, removed: set<nat>, isClosed: bool, visible: nat)

  /** An entry of an output; events carry the writer that logged them. */
  datatype Item = Item(entry: Entry, writer: Option<nat>)

  /**
   `listed` is `_channels`, as indices into the table of all channels ever created.
   `archive` is what earlier outputs received, `out` what the present one did.
   */
  datatype Session = Session(
    channels: seq<Channel>, listed: seq<nat>, writers: seq<Writer>,
    sources: seq<EventSource>, sourcesConsumed: nat,
    clockSyncs: seq<ClockSync>, consumeClockSync: bool,
    consumer: Consumer, archive: seq<Item>, out: seq<Item>)

  /** The constructor serializes the clock sync of the system clock. */
  ghost predicate Init(s: Session) {
    exists system: ClockSync :: EntryOk(ClockEntry(system)) && s == Session([], [], [], [], 0, [system], true, NoConsumer, [], [])
  }

  datatype Step =
    | AddEventSource(source: EventSource)
    | SetClockSync(clock: ClockSync)
    | NewWriter(prop: WriterProp)
    | SetWriterProp(c: nat, prop: WriterProp)  // setChannelWriterId, setChannelWriterName
    | AddEvent(w: nat, event: Entry)
    | CreateNext(w: nat)                       // replaceChannel: createChannel
    | SwitchChannel(w: nat)                    // replaceChannel: assign _channel and _qw
    | DestroyWriter(w: nat)
    | ConsumeBegin                             // lock, write clock sync and new sources
    | CheckClosed                              // use_count() == 1
    | BeginRead
    | WriteBatch                               // writer properties and both halves of the view
    | EndRead                                  // give the view back, drop the channel if it was closed
    | ConsumeEnd                               // erase dropped channels, unlock
    | Reconsume                                // reconsumeMetadata to the same output
    | Rotate                                   // reconsumeMetadata to a fresh output

  // ---------------------------------------------------------------- outputs

  function Metadata(e: Entry): Item {
    Item(e, None)
  }

  function ClockItems(clockSyncs: seq<ClockSync>): (r: seq<Item>)
    ensures |r| == |clockSyncs|
    ensures forall i :: 0 <= i < |r| ==> r[i] == Metadata(ClockEntry(clockSyncs[i]))
  {
    seq(|clockSyncs|, i requires 0 <= i < |clockSyncs| => Metadata(ClockEntry(clockSyncs[i])))
  }

  function SourceItems(sources: seq<EventSource>): (r: seq<Item>)
    ensures |r| == |sources|
    ensures forall i :: 0 <= i < |r| ==> r[i] == Metadata(SourceEntry(sources[i]))
  {
    seq(|sources|, i requires 0 <= i < |sources| => Metadata(SourceEntry(sources[i])))
  }

  function EventItems(events: seq<Entry>, w: nat): (r: seq<Item>)
    ensures |r| == |events|
    ensures forall i :: 0 <= i < |r| ==> r[i] == Item(events[i], Some(w))
  {
    seq(|events|, i requires 0 <= i < |events| => Item(events[i], Some(w)))
  }

  /** The bytes the events occupy: a size prefix and a payload each. */
  function BatchSize(events: seq<Entry>): nat {
    if events == [] then 0 else BatchSize(events[..|events| - 1]) + 4 + |PayloadBytes(events[|events| - 1])|
  }

  /** A writer properties entry that tells the size of the events behind it, and those events. */
  function Batch(prop: WriterProp, events: seq<Entry>, w: nat): seq<Item>
    requires BatchSize(events) < TWO_TO_64
  {
    if events == [] then []
    else [Metadata(WriterEntry(prop.(batchSize := BatchSize(events))))] + EventItems(events, w)
  }

  // ---------------------------------------------------------------- steps

  ghost predicate MutexFree(s: Session) {
    s.consumer.NoConsumer?
  }

  /** Ids are handed out one after the other, starting with one. */
  function WithNextId(s: Session, source: EventSource): EventSource
    requires |s.sources| + 1 < TWO_TO_63
  {
    source.(id := |s.sources| + 1)
  }

  ghost predicate Enabled(s: Session, step: Step) {
    match step
    case AddEventSource(source) =>
      MutexFree(s) && |s.sources| + 1 < TWO_TO_63 && EntryOk(SourceEntry(WithNextId(s, source)))
    case SetClockSync(clock) => MutexFree(s) && EntryOk(ClockEntry(clock))
    case NewWriter(prop) => MutexFree(s) && EntryOk(WriterEntry(prop))
    case SetWriterProp(c, prop) => MutexFree(s) && c < |s.channels| && EntryOk(WriterEntry(prop))
    case AddEvent(w, event) =>
      && w < |s.writers| && s.writers[w].pc.Attached? && s.writers[w].pc.channel < |s.channels|
      && event.EventEntry? && EntryOk(event)
      && 1 <= event.sourceId <= |s.sources|      // the precondition of addEvent
    case CreateNext(w) =>
      MutexFree(s) && w < |s.writers| && s.writers[w].pc.Attached? && s.writers[w].pc.channel < |s.channels|
    case SwitchChannel(w) => w < |s.writers| && s.writers[w].pc.Switching? && s.writers[w].pc.channel < |s.channels|
    case DestroyWriter(w) => w < |s.writers| && s.writers[w].pc.Attached? && s.writers[w].pc.channel < |s.channels|
    case ConsumeBegin => MutexFree(s) && s.sourcesConsumed <= |s.sources|
    case CheckClosed => s.consumer.Polling? && s.consumer.i < |s.listed| && s.listed[s.consumer.i] < |s.channels|
    case BeginRead => s.consumer.Checked? && s.consumer.i < |s.listed| && s.listed[s.consumer.i] < |s.channels|
    case WriteBatch =>
      && s.consumer.Viewed? && s.consumer.i < |s.listed| && s.listed[s.consumer.i] < |s.channels|
      && var ch := s.channels[s.listed[s.consumer.i]];
         ch.released <= s.consumer.visible <= |ch.log| && BatchSize(ch.log[ch.released..s.consumer.visible]) < TWO_TO_64
    case EndRead => s.consumer.Written? && s.consumer.i < |s.listed| && s.listed[s.consumer.i] < |s.channels|
    case ConsumeEnd => s.consumer.Polling? && s.consumer.i >= |s.listed|
    case Reconsume => MutexFree(s) && s.sourcesConsumed <= |s.sources|
    case Rotate => MutexFree(s) && s.sourcesConsumed <= |s.sources|
  }

  function Without(listed: seq<nat>, removed: set<nat>): (r: seq<nat>)
    ensures forall c :: c in r <==> c in listed && c !in removed
  {
    if listed == [] then []
    else
      var n := |listed| - 1;
      Without(listed[..n], removed) + (if listed[n] in removed then [] else [listed[n]])
  }

  ghost function Apply(s: Session, step: Step): Session
    requires Enabled(s, step)
  {
    match step
    case AddEventSource(source) => s.(sources := s.sources + [WithNextId(s, source)])
    case SetClockSync(clock) => s.(clockSyncs := s.clockSyncs + [clock], consumeClockSync := true)
    case NewWriter(prop) =>
      s.(channels := s.channels + [Channel(|s.writers|, prop, true, [], 0, 0)],
         listed := s.listed + [|s.channels|],
         writers := s.writers + [Writer(Attached(|s.channels|), [])])
    case SetWriterProp(c, prop) => s.(channels := s.channels[c := s.channels[c].(prop := prop)])
    case AddEvent(w, event) =>
      var c := s.writers[w].pc.channel;
      s.(channels := s.channels[c := s.channels[c].(log := s.channels[c].log + [event])],
         writers := s.writers[w := s.writers[w].(history := s.writers[w].history + [event])])
    case CreateNext(w) =>
      var c := s.writers[w].pc.channel;
      s.(channels := s.channels + [Channel(w, s.channels[c].prop.(batchSize := 0), true, [], 0, 0)],
         listed := s.listed + [|s.channels|],
         writers := s.writers[w := s.writers[w].(pc := Switching(c, |s.channels|))])
    case SwitchChannel(w) =>
      var pc := s.writers[w].pc;
      s.(channels := s.channels[pc.channel := s.channels[pc.channel].(open := false)],
         writers := s.writers[w := s.writers[w].(pc := Attached(pc.next))])
    case DestroyWriter(w) =>
      var c := s.writers[w].pc.channel;
      s.(channels := s.channels[c := s.channels[c].(open := false)],
         writers := s.writers[w := s.writers[w].(pc := Gone)])
    case ConsumeBegin =>
      s.(out := s.out + (if s.consumeClockSync then ClockItems(s.clockSyncs) else [])
                      + SourceItems(s.sources[s.sourcesConsumed..]),
         consumeClockSync := false,
         sourcesConsumed := |s.sources|,
         consumer := Polling(0, {}))
    case CheckClosed =>
      s.(consumer := Checked(s.consumer.i, s.consumer.removed, !s.channels[s.listed[s.consumer.i]].open))
    case BeginRead =>
      s.(consumer := Viewed(s.consumer.i, s.consumer.removed, s.consumer.isClosed, |s.channels[s.listed[s.consumer.i]].log|))
    case WriteBatch =>
      var c, visible := s.listed[s.consumer.i], s.consumer.visible;
      var ch := s.channels[c];
      var events := ch.log[ch.released..visible];
      var prop := if events == [] then ch.prop else ch.prop.(batchSize := BatchSize(events));
      s.(out := s.out + Batch(ch.prop, events, ch.writer),
         channels := s.channels[c := ch.(taken := visible, prop := prop)],
         consumer := Written(s.consumer.i, s.consumer.removed, s.consumer.isClosed, visible))
    case EndRead =>
      var c := s.listed[s.consumer.i];
      s.(channels := s.channels[c := s.channels[c].(released := s.consumer.visible)],
         consumer := Polling(s.consumer.i + 1, if s.consumer.isClosed then s.consumer.removed + {c} else s.consumer.removed))
    case ConsumeEnd => s.(listed := Without(s.listed, s.consumer.removed), consumer := NoConsumer)
    case Reconsume => s.(out := s.out + ClockItems(s.clockSyncs) + SourceItems(s.sources[..s.sourcesConsumed]))
    case Rotate =>
      s.(archive := s.archive + s.out, out := ClockItems(s.clockSyncs) + SourceItems(s.sources[..s.sourcesConsumed]))
  }

  ghost predicate Run(states: seq<Session>, steps: seq<Step>) {
    && |states| == |steps| + 1
    && Init(states[0])
    && forall i :: 0 <= i < |steps| ==> Enabled(states[i], steps[i]) && states[i + 1] == Apply(states[i], steps[i])
  }

  // ---------------------------------------------------------------- what the table of channels says about a writer

  datatype Part = All | Taken | Unread

  function PartOf(ch: Channel, part: Part): seq<Entry>
    requires ch.taken <= |ch.log|
  {
    match part
    case All => ch.log
    case Taken => ch.log[..ch.taken]
    case Unread => ch.log[ch.taken..]
  }

  /** One part of the logs of the channels of writer `w`, in order of creation. */
  ghost function Pieces(channels: seq<Channel>, w: nat, part: Part): seq<Entry>
    requires CountsOk(channels)
  {
    if channels == [] then []
    else
      var n := |channels| - 1;
      Pieces(channels[..n], w, part) + (if channels[n].writer == w then PartOf(channels[n], part) else [])
  }

  /** The events of writer `w` in a list of items, in their order there. */
  function EventsOf(items: seq<Item>, w: nat): seq<Entry> {
    if items == [] then []
    else
      var n := |items| - 1;
      EventsOf(items[..n], w) + (if items[n].writer == Some(w) then [items[n].entry] else [])
  }

  function EntriesOf(items: seq<Item>): (r: seq<Entry>)
    ensures |r| == |items| && forall i :: 0 <= i < |r| ==> r[i] == items[i].entry
  {
    seq(|items|, i requires 0 <= i < |items| => items[i].entry)
  }

  // ---------------------------------------------------------------- invariant

  ghost predicate LaterOfSameWriter(channels: seq<Channel>, c: nat)
    requires c < |channels|
  {
    exists b :: c < b < |channels| && channels[b].writer == channels[c].writer
  }

  /** Nothing committed so far is left to take. */
  ghost predicate Finished(ch: Channel) {
    ch.taken == |ch.log|
  }

  ghost predicate ChannelOk(ch: Channel, nWriters: nat, nSources: nat) {
    && ch.writer < nWriters && ch.released <= ch.taken <= |ch.log|
    && EntryOk(WriterEntry(ch.prop))
    && forall k :: 0 <= k < |ch.log| ==> ch.log[k].EventEntry? && EntryOk(ch.log[k]) && 1 <= ch.log[k].sourceId <= nSources
  }

  ghost predicate ChannelsOk(channels: seq<Channel>, nWriters: nat, nSources: nat) {
    forall c :: 0 <= c < |channels| ==> ChannelOk(channels[c], nWriters, nSources)
  }

  /** An earlier channel of a writer is read out before anything is taken from a later one. */
  ghost predicate TakenInOrder(channels: seq<Channel>) {
    forall a, b :: 0 <= a < b < |channels| && channels[a].writer == channels[b].writer && channels[b].taken > 0 ==>
      Finished(channels[a])
  }

  /** A writer holds its last channel, and while switching the one before that, too. */
  ghost predicate WriterOk(channels: seq<Channel>, w: nat, pc: WriterPc) {
    match pc
    case Attached(c) =>
      && c < |channels| && channels[c].writer == w && channels[c].open
      && !LaterOfSameWriter(channels, c)
    case Switching(c, next) =>
      && c < next < |channels| && channels[c].writer == channels[next].writer == w
      && channels[c].open && channels[next].open && channels[next].log == []
      && !LaterOfSameWriter(channels, next)
    case Gone => true
  }

  predicate Holds(pc: WriterPc, c: nat) {
    match pc
    case Attached(d) => c == d
    case Switching(d, next) => c == d || c == next
    case Gone => false
  }

  ghost predicate WritersOk(channels: seq<Channel>, writers: seq<Writer>) {
    && (forall w :: 0 <= w < |writers| ==> WriterOk(channels, w, writers[w].pc))
    && (forall c :: 0 <= c < |channels| && channels[c].open ==>
          channels[c].writer < |writers| && Holds(writers[channels[c].writer].pc, c))
  }

  ghost predicate Increasing(ids: seq<nat>) {
    forall i, j :: 0 <= i < j < |ids| ==> ids[i] < ids[j]
  }

  /** The list holds, in order of creation, every channel but closed ones with nothing unread. */
  ghost predicate ListedOk(channels: seq<Channel>, listed: seq<nat>) {
    && (forall j :: 0 <= j < |listed| ==> listed[j] < |channels|)
    && Increasing(listed)
    && (forall c :: 0 <= c < |channels| && c !in listed ==> !channels[c].open && Finished(channels[c]))
  }

  /** Channels before position `i` were read out, those marked for removal were closed before that. */
  ghost predicate Polled(channels: seq<Channel>, listed: seq<nat>, i: nat, removed: set<nat>)
    requires ListedOk(channels, listed)
  {
    && i <= |listed|
    && (forall j :: 0 <= j < i && LaterOfSameWriter(channels, listed[j]) ==> Finished(channels[listed[j]]))
    && (forall c :: c in removed ==> c in listed && c < |channels| && !channels[c].open && Finished(channels[c]))
  }

  /** What the consumer saw of the channel it is at still holds. */
  ghost predicate SeenOk(ch: Channel, isLast: bool, isClosed: bool, visible: nat) {
    && visible <= |ch.log|
    && (isClosed ==> !ch.open && visible == |ch.log|)
    && (!isLast ==> visible == |ch.log|)
  }

  ghost predicate ConsumerOk(channels: seq<Channel>, listed: seq<nat>, consumer: Consumer)
    requires ListedOk(channels, listed)
  {
    && (forall c :: 0 <= c < |channels| && !(consumer.Written? && consumer.i < |listed| && listed[consumer.i] == c) ==>
          channels[c].taken == channels[c].released)
    && (match consumer
        case NoConsumer => true
        case Polling(i, removed) => Polled(channels, listed, i, removed)
        case Checked(i, removed, isClosed) =>
          && Polled(channels, listed, i, removed) && i < |listed|
          && (isClosed ==> !channels[listed[i]].open)
        case Viewed(i, removed, isClosed, visible) =>
          && Polled(channels, listed, i, removed) && i < |listed|
          && channels[listed[i]].released <= visible
          && SeenOk(channels[listed[i]], !LaterOfSameWriter(channels, listed[i]), isClosed, visible)
        case Written(i, removed, isClosed, visible) =>
          && Polled(channels, listed, i, removed) && i < |listed|
          && channels[listed[i]].taken == visible
          && SeenOk(channels[listed[i]], !LaterOfSameWriter(channels, listed[i]), isClosed, visible))
  }

  /** While the mutex is held nobody adds metadata. */
  ghost predicate MutexOk(s: Session) {
    !s.consumer.NoConsumer? ==> s.sourcesConsumed == |s.sources| && !s.consumeClockSync
  }

  ghost predicate CountsOk(channels: seq<Channel>) {
    forall c :: 0 <= c < |channels| ==> channels[c].taken <= |channels[c].log|
  }

  /** Every writer's history is in its channels, and what was taken of it is in the outputs. */
  ghost predicate HistoryOk(channels: seq<Channel>, writers: seq<Writer>, items: seq<Item>)
    requires CountsOk(channels)
  {
    && (forall w :: 0 <= w < |writers| ==> writers[w].history == Pieces(channels, w, All))
    && (forall w :: 0 <= w < |writers| ==> EventsOf(items, w) == Pieces(channels, w, Taken))
    && (forall i :: 0 <= i < |items| && items[i].writer.Some? ==> items[i].writer.value < |writers|)
    && (forall c :: 0 <= c < |channels| ==> channels[c].writer < |writers|)
  }

  /** Ids are positions. */
  ghost predicate SourcesOk(s: Session) {
    && s.sourcesConsumed <= |s.sources| < TWO_TO_63
    && (forall k :: 0 <= k < |s.sources| ==> s.sources[k].id == k + 1 && EntryOk(SourceEntry(s.sources[k])))
    && s.clockSyncs != []
    && (forall k :: 0 <= k < |s.clockSyncs| ==> EntryOk(ClockEntry(s.clockSyncs[k])))
  }

  /** The sources a reader knows after the first `n` were consumed. */
  ghost function SourceMap(sources: seq<EventSource>): map<nat, EventSource> {
    if sources == [] then map[]
    else
      var n := |sources| - 1;
      SourceMap(sources[..n])[n + 1 := sources[n]]
  }

  /** What a reader of the output has learnt by its end. */
  ghost function Decoded(items: seq<Item>): StreamState {
    StateAfterEntries(FRESH, EntriesOf(items))
  }

  /** Every event of the output finds its own source in what was read before it. */
  ghost predicate Resolved(items: seq<Item>, sources: seq<EventSource>) {
    forall i :: 0 <= i < |items| && items[i].entry.EventEntry? ==>
      var id := items[i].entry.sourceId;
      && 1 <= id <= |sources|
      && id in Decoded(items[..i]).sources && Decoded(items[..i]).sources[id] == sources[id - 1]
  }

  /** Every writer properties entry is followed by events of one writer, of just the size it tells, and no more. */
  ghost predicate Batched(items: seq<Item>) {
    forall i :: 0 <= i < |items| && items[i].entry.WriterEntry? ==> BatchAt(items, i)
  }

  ghost predicate BatchAt(items: seq<Item>, i: nat)
    requires i < |items| && items[i].entry.WriterEntry?
  {
    exists n, w :: IsBatch(items, i, n, w)
  }

  ghost predicate IsBatch(items: seq<Item>, i: nat, n: nat, w: nat)
    requires i < |items| && items[i].entry.WriterEntry?
  {
    var from := i + 1;
    && from + n <= |items|
    && (forall k :: from <= k < from + n ==> items[k].entry.EventEntry? && items[k].writer == Some(w))
    && (from + n < |items| ==> !items[from + n].entry.EventEntry?)
    && items[i].entry.writer.batchSize == BatchSize(EntriesOf(items[from..from + n]))
  }

  ghost predicate OutputOk(s: Session)
    requires SourcesOk(s)
  {
    && (forall i :: 0 <= i < |s.out| ==> EntryOk(s.out[i].entry))
    && Decoded(s.out).sources == SourceMap(s.sources[..s.sourcesConsumed])
    && (!s.consumeClockSync ==> Decoded(s.out).clock == s.clockSyncs[|s.clockSyncs| - 1])
    && Resolved(s.out, s.sources)
    && Batched(s.out)
  }

  ghost predicate Inv(s: Session) {
    && ChannelsOk(s.channels, |s.writers|, |s.sources|)
    && TakenInOrder(s.channels)
    && WritersOk(s.channels, s.writers)
    && ListedOk(s.channels, s.listed)
    && ConsumerOk(s.channels, s.listed, s.consumer)
    && MutexOk(s)
    && CountsOk(s.channels)
    && HistoryOk(s.channels, s.writers, s.archive + s.out)
    && SourcesOk(s)
    && OutputOk(s)
  }

  // ---------------------------------------------------------------- pieces of logs

  lemma PiecesAppend(channels: seq<Channel>, ch: Channel, w: nat, part: Part)
    requires CountsOk(channels)
    requires ch.taken <= |ch.log|
    ensures Pieces(channels + [ch], w, part) == Pieces(channels, w, part) + (if ch.writer == w then PartOf(ch, part) else [])
  {
    assert (channels + [ch])[..|channels|] == channels;
  }

  /** Changing one channel extends the pieces of its writer, if later channels of that writer have none. */
  lemma {:induction false} PiecesUpdate(channels: seq<Channel>, c: nat, ch: Channel, w: nat, part: Part, more: seq<Entry>)
    requires CountsOk(channels)
    requires c < |channels| && ch.taken <= |ch.log| && ch.writer == channels[c].writer
    requires PartOf(ch, part) == PartOf(channels[c], part) + more
    requires more == [] || forall b :: c < b < |channels| && channels[b].writer == ch.writer ==> PartOf(channels[b], part) == []
    ensures Pieces(channels[c := ch], w, part) == Pieces(channels, w, part) + (if ch.writer == w then more else [])
  {
    hide PartOf;
    var n := |channels| - 1;
    var channels' := channels[c := ch];
    if c == n {
      assert channels'[..n] == channels[..n];
    } else {
      assert channels'[..n] == channels[..n][c := ch];
      PiecesUpdate(channels[..n], c, ch, w, part, more);
    }
  }

  /** If each channel but the last with anything taken is finished, the taken events come before the unread ones. */
  lemma {:induction false} PiecesSplit(channels: seq<Channel>, w: nat)
    requires CountsOk(channels)
    requires TakenInOrder(channels)
    ensures Pieces(channels, w, All) == Pieces(channels, w, Taken) + Pieces(channels, w, Unread)
  {
    hide PartOf;
    if channels != [] {
      var n := |channels| - 1;
      PiecesSplit(channels[..n], w);
      if channels[n].writer == w {
        LogSplit(channels[n]);
        if channels[n].taken > 0 {
          NoUnreadPieces(channels[..n], w);
        }
      }
    }
  }

  lemma LogSplit(ch: Channel)
    requires ch.taken <= |ch.log|
    ensures PartOf(ch, All) == PartOf(ch, Taken) + PartOf(ch, Unread)
    ensures ch.taken == 0 ==> PartOf(ch, Taken) == []
    ensures ch.taken == |ch.log| ==> PartOf(ch, Unread) == []
  {
  }

  lemma {:induction false} NoUnreadPieces(channels: seq<Channel>, w: nat)
    requires CountsOk(channels)
    requires forall c :: 0 <= c < |channels| && channels[c].writer == w ==> channels[c].taken == |channels[c].log|
    ensures Pieces(channels, w, Unread) == []
  {
    if channels != [] {
      NoUnreadPieces(channels[..|channels| - 1], w);
    }
  }

  // ---------------------------------------------------------------- appending to an output

  lemma {:induction false} EventsOfAppend(a: seq<Item>, b: seq<Item>, w: nat)
    ensures EventsOf(a + b, w) == EventsOf(a, w) + EventsOf(b, w)
  {
    if b == [] {
      assert a + b == a;
    } else {
      var n := |b| - 1;
      assert (a + b)[..|a| + n] == a + b[..n];
      EventsOfAppend(a, b[..n], w);
    }
  }

  lemma {:induction false} EventsOfMetadata(items: seq<Item>, w: nat)
    requires forall i :: 0 <= i < |items| ==> items[i].writer == None
    ensures EventsOf(items, w) == []
  {
    if items != [] {
      EventsOfMetadata(items[..|items| - 1], w);
    }
  }

  lemma {:induction false} EventsOfEvents(events: seq<Entry>, v: nat, w: nat)
    ensures EventsOf(EventItems(events, v), w) == if v == w then events else []
  {
    if events != [] {
      var n := |events| - 1;
      assert EventItems(events, v)[..n] == EventItems(events[..n], v);
      EventsOfEvents(events[..n], v, w);
    }
  }

  lemma EventsOfBatch(prop: WriterProp, events: seq<Entry>, v: nat, w: nat)
    requires BatchSize(events) < TWO_TO_64
    ensures EventsOf(Batch(prop, events, v), w) == if v == w then events else []
  {
    if events != [] {
      var head := [Metadata(WriterEntry(prop.(batchSize := BatchSize(events))))];
      EventsOfAppend(head, EventItems(events, v), w);
      EventsOfMetadata(head, w);
      EventsOfEvents(events, v, w);
    }
  }

  lemma {:induction false} StateAfterAppend(st: StreamState, a: seq<Entry>, b: seq<Entry>)
    ensures StateAfterEntries(st, a + b) == StateAfterEntries(StateAfterEntries(st, a), b)
  {
    if b == [] {
      assert a + b == a;
    } else {
      var n := |b| - 1;
      assert (a + b)[..|a| + n] == a + b[..n];
      StateAfterAppend(st, a, b[..n]);
    }
  }

  lemma DecodedAppend(a: seq<Item>, b: seq<Item>)
    ensures Decoded(a + b) == StateAfterEntries(Decoded(a), EntriesOf(b))
  {
    assert EntriesOf(a + b) == EntriesOf(a) + EntriesOf(b);
    StateAfterAppend(FRESH, EntriesOf(a), EntriesOf(b));
  }

  lemma {:induction false} AfterEvents(st: StreamState, es: seq<Entry>)
    requires forall i :: 0 <= i < |es| ==> es[i].EventEntry?
    ensures StateAfterEntries(st, es) == st
  {
    if es != [] {
      AfterEvents(st, es[..|es| - 1]);
    }
  }

  lemma {:induction false} AfterClocks(st: StreamState, clockSyncs: seq<ClockSync>)
    requires clockSyncs != []
    ensures StateAfterEntries(st, EntriesOf(ClockItems(clockSyncs))) == st.(clock := clockSyncs[|clockSyncs| - 1])
  {
    var n := |clockSyncs| - 1;
    var es := EntriesOf(ClockItems(clockSyncs));
    assert es[..n] == EntriesOf(ClockItems(clockSyncs[..n]));
    if n > 0 {
      AfterClocks(st, clockSyncs[..n]);
    }
  }

  /** Reading the next sources after the first `n` is knowing them all. */
  lemma {:induction false} AfterSources(st: StreamState, sources: seq<EventSource>, n: nat, m: nat)
    requires n <= m <= |sources|
    requires forall k :: 0 <= k < |sources| ==> sources[k].id == k + 1
    requires st.sources == SourceMap(sources[..n])
    ensures StateAfterEntries(st, EntriesOf(SourceItems(sources[n..m]))) == st.(sources := SourceMap(sources[..m]))
  {
    if n == m {
      assert EntriesOf(SourceItems(sources[n..m])) == [];
    } else {
      AfterSources(st, sources, n, m - 1);
      OneMoreSource(st, sources, n, m);
    }
  }

  lemma OneMoreSource(st: StreamState, sources: seq<EventSource>, n: nat, m: nat)
    requires n < m <= |sources| && sources[m - 1].id == m
    ensures StateAfterEntries(st, EntriesOf(SourceItems(sources[n..m])))
            == StepEntry(StateAfterEntries(st, EntriesOf(SourceItems(sources[n..m - 1]))), SourceEntry(sources[m - 1]))
    ensures SourceMap(sources[..m]) == SourceMap(sources[..m - 1])[m := sources[m - 1]]
  {
    hide StepEntry;
    var es := EntriesOf(SourceItems(sources[n..m]));
    assert es[..|es| - 1] == EntriesOf(SourceItems(sources[n..m - 1]));
    assert es[|es| - 1] == SourceEntry(sources[m - 1]);
    assert sources[..m][..m - 1] == sources[..m - 1];
  }

  lemma {:induction false} SourceMapHas(sources: seq<EventSource>, id: nat)
    ensures id in SourceMap(sources) <==> 1 <= id <= |sources|
    ensures 1 <= id <= |sources| ==> SourceMap(sources)[id] == sources[id - 1]
  {
    if sources != [] {
      SourceMapHas(sources[..|sources| - 1], id);
    }
  }

  lemma ResolvedAppend(a: seq<Item>, b: seq<Item>, sources: seq<EventSource>)
    requires Resolved(a, sources)
    requires forall i :: 0 <= i < |b| && b[i].entry.EventEntry? ==>
               var id := b[i].entry.sourceId;
               && 1 <= id <= |sources|
               && id in Decoded(a + b[..i]).sources && Decoded(a + b[..i]).sources[id] == sources[id - 1]
    ensures Resolved(a + b, sources)
  {
    forall i | 0 <= i < |a + b|
      ensures (a + b)[..i] == if i < |a| then a[..i] else a + b[..i - |a|]
    {
    }
  }

  /** Whether a batch is in order depends on its own stretch of the items and on what comes right after. */
  lemma BatchMoves(a: seq<Item>, i: nat, n: nat, w: nat, b: seq<Item>, j: nat)
    requires i < |a| && a[i].entry.WriterEntry? && IsBatch(a, i, n, w)
    requires j + 1 + n <= |b| && b[j..j + 1 + n] == a[i..i + 1 + n]
    requires j + 1 + n < |b| ==> !b[j + 1 + n].entry.EventEntry?
    ensures b[j] == a[i] && IsBatch(b, j, n, w)
  {
    hide BatchSize;
    var x := a[i..i + 1 + n];
    assert b[j] == x[0] == a[i];
    forall k | j + 1 <= k < j + 1 + n
      ensures b[k].entry.EventEntry? && b[k].writer == Some(w)
    {
      assert b[k] == x[k - j] == a[i + (k - j)];
    }
    assert b[j + 1..j + 1 + n] == x[1..] == a[i + 1..i + 1 + n];
  }

  lemma BatchedAppend(a: seq<Item>, b: seq<Item>)
    requires Batched(a) && Batched(b)
    requires b == [] || !b[0].entry.EventEntry?
    ensures Batched(a + b)
  {
    hide IsBatch;
    var all := a + b;
    forall i | 0 <= i < |all| && all[i].entry.WriterEntry?
      ensures BatchAt(all, i)
    {
      BatchedAppendAt(a, b, i);
    }
  }

  lemma BatchedAppendAt(a: seq<Item>, b: seq<Item>, i: nat)
    requires Batched(a) && Batched(b)
    requires b == [] || !b[0].entry.EventEntry?
    requires i < |a + b| && (a + b)[i].entry.WriterEntry?
    ensures BatchAt(a + b, i)
  {
    hide BatchSize;
    var all := a + b;
    if i < |a| {
      assert BatchAt(a, i);
      var n: nat, w: nat :| IsBatch(a, i, n, w);
      assert all[i..i + 1 + n] == a[i..i + 1 + n];
      BatchMoves(a, i, n, w, all, i);
    } else {
      var j: nat := i - |a|;
      assert all[i] == b[j];
      assert BatchAt(b, j);
      var n: nat, w: nat :| IsBatch(b, j, n, w);
      assert all[i..i + 1 + n] == b[j..j + 1 + n];
      BatchMoves(b, j, n, w, all, i);
    }
  }

  lemma BatchIsBatched(prop: WriterProp, events: seq<Entry>, w: nat)
    requires BatchSize(events) < TWO_TO_64
    requires forall i :: 0 <= i < |events| ==> events[i].EventEntry?
    ensures Batched(Batch(prop, events, w))
  {
    hide BatchSize;
    var items := Batch(prop, events, w);
    if events != [] {
      var n := |events|;
      assert items[1..1 + n] == EventItems(events, w);
      assert EntriesOf(EventItems(events, w)) == events;
      assert IsBatch(items, 0, n, w);
      assert forall i :: 1 <= i < |items| ==> items[i] == EventItems(events, w)[i - 1];
      assert BatchAt(items, 0);
    }
  }

  // ---------------------------------------------------------------- every step keeps the invariant

  /** The parts of the invariant about channels, writers and the consumer. */
  ghost predicate ProtocolOk(s: Session) {
    && ChannelsOk(s.channels, |s.writers|, |s.sources|)
    && TakenInOrder(s.channels)
    && WritersOk(s.channels, s.writers)
    && ListedOk(s.channels, s.listed)
    && ConsumerOk(s.channels, s.listed, s.consumer)
  }

  lemma MetadataStepProtocol(s: Session, step: Step)
    requires ProtocolOk(s) && Enabled(s, step)
    requires step.AddEventSource? || step.SetClockSync? || step.ConsumeBegin? || step.Reconsume? || step.Rotate?
    ensures ProtocolOk(Apply(s, step))
  {
    hide PayloadBytes, TakenInOrder, WritersOk, BatchSize;
  }

  lemma CheckProtocol(s: Session)
    requires ProtocolOk(s) && Enabled(s, CheckClosed)
    ensures ProtocolOk(Apply(s, CheckClosed))
  {
    hide PayloadBytes, ChannelsOk, TakenInOrder, WritersOk, BatchSize, ListedOk;
  }

  lemma ViewProtocol(s: Session)
    requires ProtocolOk(s) && Enabled(s, BeginRead)
    ensures ProtocolOk(Apply(s, BeginRead))
  {
    hide PayloadBytes, TakenInOrder, WritersOk, BatchSize, ListedOk;
  }

  lemma LaterSet(channels: seq<Channel>, c: nat, ch: Channel)
    requires c < |channels| && ch.writer == channels[c].writer
    ensures forall d :: 0 <= d < |channels| ==> (LaterOfSameWriter(channels[c := ch], d) <==> LaterOfSameWriter(channels, d))
  {
    var all := channels[c := ch];
    forall d | 0 <= d < |channels|
      ensures LaterOfSameWriter(all, d) <==> LaterOfSameWriter(channels, d)
    {
      assert forall b :: 0 <= b < |channels| ==> all[b].writer == channels[b].writer;
    }
  }

  lemma LaterPush(channels: seq<Channel>, ch: Channel)
    ensures !LaterOfSameWriter(channels + [ch], |channels|)
    ensures forall d :: 0 <= d < |channels| ==>
              (LaterOfSameWriter(channels + [ch], d) <==> LaterOfSameWriter(channels, d) || channels[d].writer == ch.writer)
  {
    var all := channels + [ch];
    forall d | 0 <= d < |channels|
      ensures LaterOfSameWriter(all, d) <==> LaterOfSameWriter(channels, d) || channels[d].writer == ch.writer
    {
      if channels[d].writer == ch.writer {
        assert all[|channels|].writer == all[d].writer;
      }
      if LaterOfSameWriter(channels, d) {
        var b :| d < b < |channels| && channels[b].writer == channels[d].writer;
        assert all[b].writer == all[d].writer;
      }
    }
  }

  /** Writers do not see the consumer's counts, nor writer properties. */
  lemma SameForWriters(channels: seq<Channel>, writers: seq<Writer>, c: nat, ch: Channel)
    requires WritersOk(channels, writers) && c < |channels|
    requires ch.writer == channels[c].writer && ch.open == channels[c].open && ch.log == channels[c].log
    ensures WritersOk(channels[c := ch], writers)
  {
    LaterSet(channels, c, ch);
    forall w | 0 <= w < |writers|
      ensures WriterOk(channels[c := ch], w, writers[w].pc)
    {
      assert WriterOk(channels, w, writers[w].pc);
    }
  }

  lemma SetPropProtocol(s: Session, step: Step)
    requires ProtocolOk(s) && Enabled(s, step) && step.SetWriterProp?
    ensures ProtocolOk(Apply(s, step))
  {
    hide PayloadBytes, BatchSize, EntryOk;
    var ch := s.channels[step.c].(prop := step.prop);
    SameForWriters(s.channels, s.writers, step.c, ch);
    hide WritersOk;
  }

  /** A writer's channel gets an event: nobody relied on it being read out. */
  lemma AddEventProtocol(s: Session, step: Step)
    requires ProtocolOk(s) && Enabled(s, step) && step.AddEvent?
    ensures ProtocolOk(Apply(s, step))
  {
    hide PayloadBytes, BatchSize, EntryOk;
    var c := s.writers[step.w].pc.channel;
    var ch := s.channels[c].(log := s.channels[c].log + [step.event]);
    assert WriterOk(s.channels, step.w, s.writers[step.w].pc);
    LaterSet(s.channels, c, ch);
    GrowLog(s.channels, s.listed, s.consumer, c, ch);
    hide ConsumerOk, ListedOk;
    assert forall b :: c < b < |s.channels| ==> s.channels[b].writer != ch.writer;
  }

  lemma GrowLog(channels: seq<Channel>, listed: seq<nat>, consumer: Consumer, c: nat, ch: Channel)
    requires ListedOk(channels, listed) && ConsumerOk(channels, listed, consumer)
    requires c < |channels| && channels[c].open && !LaterOfSameWriter(channels, c)
    requires ch == channels[c].(log := ch.log) && |ch.log| >= |channels[c].log|
    ensures ListedOk(channels[c := ch], listed) && ConsumerOk(channels[c := ch], listed, consumer)
  {
    LaterSet(channels, c, ch);
    assert c in listed;
  }

  lemma CloseProtocol(s: Session, step: Step)
    requires ProtocolOk(s) && Enabled(s, step) && (step.SwitchChannel? || step.DestroyWriter?)
    ensures ProtocolOk(Apply(s, step))
  {
    hide PayloadBytes, BatchSize, EntryOk;
    var c := s.writers[step.w].pc.channel;
    var ch := s.channels[c].(open := false);
    CloseWriters(s.channels, s.writers, step.w, Apply(s, step).writers[step.w]);
    CloseChannel(s.channels, s.listed, s.consumer, c, ch);
    hide ConsumerOk, ListedOk, WritersOk;
  }

  lemma CloseWriters(channels: seq<Channel>, writers: seq<Writer>, w: nat, next: Writer)
    requires WritersOk(channels, writers)
    requires w < |writers| && !writers[w].pc.Gone? && writers[w].pc.channel < |channels|
    requires next.pc == if writers[w].pc.Switching? then Attached(writers[w].pc.next) else Gone
    ensures var c := writers[w].pc.channel;
            WritersOk(channels[c := channels[c].(open := false)], writers[w := next])
  {
    var c := writers[w].pc.channel;
    assert WriterOk(channels, w, writers[w].pc);
    var channels', writers' := channels[c := channels[c].(open := false)], writers[w := next];
    LaterSet(channels, c, channels[c].(open := false));
    forall v | 0 <= v < |writers'|
      ensures WriterOk(channels', v, writers'[v].pc)
    {
      assert WriterOk(channels, v, writers[v].pc);
    }
  }

  lemma CloseChannel(channels: seq<Channel>, listed: seq<nat>, consumer: Consumer, c: nat, ch: Channel)
    requires ListedOk(channels, listed) && ConsumerOk(channels, listed, consumer)
    requires c < |channels| && channels[c].open && ch == channels[c].(open := false)
    ensures ListedOk(channels[c := ch], listed) && ConsumerOk(channels[c := ch], listed, consumer)
  {
    LaterSet(channels, c, ch);
    assert c in listed;
  }

  lemma EndReadProtocol(s: Session)
    requires ProtocolOk(s) && Enabled(s, EndRead)
    ensures ProtocolOk(Apply(s, EndRead))
  {
    var c := s.listed[s.consumer.i];
    var ch := s.channels[c].(released := s.consumer.visible);
    SameForWriters(s.channels, s.writers, c, ch);
    ReleaseListed(s.channels, s.listed, s.consumer, ch);
    ReleaseChannels(s.channels, c, ch, |s.writers|, |s.sources|);
    hide ConsumerOk, ListedOk, WritersOk, EntryOk, BatchSize, ChannelsOk, TakenInOrder;
  }

  lemma ReleaseChannels(channels: seq<Channel>, c: nat, ch: Channel, nWriters: nat, nSources: nat)
    requires ChannelsOk(channels, nWriters, nSources) && TakenInOrder(channels) && c < |channels|
    requires ch == channels[c].(released := channels[c].taken)
    ensures ChannelsOk(channels[c := ch], nWriters, nSources) && TakenInOrder(channels[c := ch])
  {
    hide EntryOk;
    assert ChannelOk(channels[c], nWriters, nSources);
  }

  /** A closed channel is marked for removal only after everything committed to it was read out. */
  lemma ReleaseListed(channels: seq<Channel>, listed: seq<nat>, consumer: Consumer, ch: Channel)
    requires ListedOk(channels, listed) && ConsumerOk(channels, listed, consumer)
    requires consumer.Written? && consumer.i < |listed|
    requires ch == channels[listed[consumer.i]].(released := consumer.visible)
    ensures ListedOk(channels[listed[consumer.i] := ch], listed)
    ensures ConsumerOk(channels[listed[consumer.i] := ch], listed,
                       Polling(consumer.i + 1, if consumer.isClosed then consumer.removed + {listed[consumer.i]} else consumer.removed))
  {
    LaterSet(channels, listed[consumer.i], ch);
  }

  lemma {:induction false} WithoutKeepsOrder(listed: seq<nat>, removed: set<nat>)
    requires Increasing(listed)
    ensures Increasing(Without(listed, removed))
  {
    if listed != [] {
      var n := |listed| - 1;
      var r := Without(listed[..n], removed);
      WithoutKeepsOrder(listed[..n], removed);
      if listed[n] in removed {
        assert Without(listed, removed) == r;
      } else {
        assert Without(listed, removed) == r + [listed[n]];
        forall i | 0 <= i < |r|
          ensures r[i] < listed[n]
        {
          assert r[i] in listed[..n];
        }
      }
    }
  }

  /** Only closed channels with nothing unread leave the list. */
  lemma RemoveListed(channels: seq<Channel>, listed: seq<nat>, removed: set<nat>)
    requires ListedOk(channels, listed) && Polled(channels, listed, |listed|, removed)
    ensures ListedOk(channels, Without(listed, removed))
  {
    WithoutKeepsOrder(listed, removed);
    var listed' := Without(listed, removed);
    forall j | 0 <= j < |listed'|
      ensures listed'[j] < |channels|
    {
      assert listed'[j] in listed';
    }
  }

  lemma ConsumeEndProtocol(s: Session)
    requires ProtocolOk(s) && Enabled(s, ConsumeEnd)
    ensures ProtocolOk(Apply(s, ConsumeEnd))
  {
    hide PayloadBytes, BatchSize, EntryOk, ChannelsOk, TakenInOrder, WritersOk;
    RemoveListed(s.channels, s.listed, s.consumer.removed);
  }

  lemma PushChannel(channels: seq<Channel>, listed: seq<nat>, consumer: Consumer, ch: Channel)
    requires ListedOk(channels, listed) && ConsumerOk(channels, listed, consumer) && consumer.NoConsumer?
    requires ch.taken == ch.released
    ensures ListedOk(channels + [ch], listed + [|channels|]) && ConsumerOk(channels + [ch], listed + [|channels|], consumer)
  {
    var listed' := listed + [|channels|];
    assert forall c :: c in listed ==> c in listed';
    assert listed'[|listed|] == |channels|;
  }

  lemma NewWriterProtocol(s: Session, step: Step)
    requires ProtocolOk(s) && Enabled(s, step) && step.NewWriter?
    ensures ProtocolOk(Apply(s, step))
  {
    hide PayloadBytes, BatchSize, EntryOk;
    var ch := Channel(|s.writers|, step.prop, true, [], 0, 0);
    NewWriterWriters(s.channels, s.writers, ch);
    PushChannel(s.channels, s.listed, s.consumer, ch);
    hide ConsumerOk, ListedOk, WritersOk;
  }

  lemma NewWriterWriters(channels: seq<Channel>, writers: seq<Writer>, ch: Channel)
    requires WritersOk(channels, writers) && ch.writer == |writers| && ch.open
    requires forall c :: 0 <= c < |channels| ==> channels[c].writer < |writers|
    ensures WritersOk(channels + [ch], writers + [Writer(Attached(|channels|), [])])
  {
    LaterPush(channels, ch);
  }

  lemma CreateNextProtocol(s: Session, step: Step)
    requires ProtocolOk(s) && Enabled(s, step) && step.CreateNext?
    ensures ProtocolOk(Apply(s, step))
  {
    hide BatchSize, EntryOk, PayloadBytes;
    var c := s.writers[step.w].pc.channel;
    var ch := Channel(step.w, s.channels[c].prop.(batchSize := 0), true, [], 0, 0);
    assert ChannelOk(s.channels[c], |s.writers|, |s.sources|);
    SizeKeepsOk(s.channels[c].prop, 0);
    CreateNextWriters(s.channels, s.writers, step.w, ch);
    PushChannel(s.channels, s.listed, s.consumer, ch);
    hide ConsumerOk, ListedOk, WritersOk;
  }

  lemma SizeKeepsOk(prop: WriterProp, n: u64)
    requires EntryOk(WriterEntry(prop))
    ensures EntryOk(WriterEntry(prop.(batchSize := n)))
  {
    hide LE;
  }

  lemma CreateNextWriters(channels: seq<Channel>, writers: seq<Writer>, w: nat, ch: Channel)
    requires WritersOk(channels, writers) && w < |writers| && writers[w].pc.Attached?
    requires ch.writer == w && ch.open && ch.log == []
    ensures var pc := Switching(writers[w].pc.channel, |channels|);
            WritersOk(channels + [ch], writers[w := writers[w].(pc := pc)])
  {
    var channels' := channels + [ch];
    var writers' := writers[w := writers[w].(pc := Switching(writers[w].pc.channel, |channels|))];
    LaterPush(channels, ch);
    forall v | 0 <= v < |writers'|
      ensures WriterOk(channels', v, writers'[v].pc)
    {
      assert WriterOk(channels, v, writers[v].pc);
    }
  }

  lemma WriteBatchProtocol(s: Session)
    requires ProtocolOk(s) && Enabled(s, WriteBatch)
    ensures ProtocolOk(Apply(s, WriteBatch))
  {
    hide BatchSize, EntryOk, PayloadBytes, Batch;
    var c, visible := s.listed[s.consumer.i], s.consumer.visible;
    var ch := Apply(s, WriteBatch).channels[c];
    TakeChannel(s.channels[c], ch, |s.writers|, |s.sources|, visible);
    TakeInOrder(s.channels, s.listed, s.consumer, ch);
    TakeListed(s.channels, s.listed, s.consumer, ch);
    SameForWriters(s.channels, s.writers, c, ch);
    hide ConsumerOk, ListedOk, TakenInOrder, BatchSize, EntryOk, PayloadBytes, ChannelOk, WritersOk;
  }

  lemma TakeChannel(ch: Channel, ch': Channel, nWriters: nat, nSources: nat, visible: nat)
    requires ChannelOk(ch, nWriters, nSources) && ch.released <= visible <= |ch.log|
    requires ch' == ch.(taken := visible, prop := ch'.prop)
    requires ch'.prop == ch.prop.(batchSize := ch'.prop.batchSize)
    ensures ChannelOk(ch', nWriters, nSources)
  {
  }

  /** When it is a channel's turn, all earlier channels of its writer are read out. */
  lemma TakeInOrder(channels: seq<Channel>, listed: seq<nat>, consumer: Consumer, ch: Channel)
    requires ListedOk(channels, listed) && ConsumerOk(channels, listed, consumer) && TakenInOrder(channels)
    requires consumer.Viewed?
    requires ch == channels[listed[consumer.i]].(taken := consumer.visible, prop := ch.prop)
    ensures TakenInOrder(channels[listed[consumer.i] := ch])
  {
    var c := listed[consumer.i];
    forall a | 0 <= a < c && channels[a].writer == ch.writer
      ensures Finished(channels[a])
    {
      if a in listed {
        var j :| 0 <= j < |listed| && listed[j] == a;
        assert j < consumer.i;
        assert LaterOfSameWriter(channels, a);
      }
    }
    if exists b :: c < b < |channels| && channels[b].writer == ch.writer && channels[b].taken > 0 {
      assert LaterOfSameWriter(channels, c);
    }
  }

  lemma TakeListed(channels: seq<Channel>, listed: seq<nat>, consumer: Consumer, ch: Channel)
    requires ListedOk(channels, listed) && ConsumerOk(channels, listed, consumer)
    requires consumer.Viewed? && consumer.i < |listed|
    requires ch == channels[listed[consumer.i]].(taken := consumer.visible, prop := ch.prop)
    ensures ListedOk(channels[listed[consumer.i] := ch], listed)
    ensures ConsumerOk(channels[listed[consumer.i] := ch], listed,
                       Written(consumer.i, consumer.removed, consumer.isClosed, consumer.visible))
  {
    LaterSet(channels, listed[consumer.i], ch);
  }

  lemma StepProtocol(s: Session, step: Step)
    requires ProtocolOk(s) && Enabled(s, step)
    ensures ProtocolOk(Apply(s, step))
  {
    hide ProtocolOk, Enabled, Apply;
    match step
    case NewWriter(_) => NewWriterProtocol(s, step);
    case SetWriterProp(_, _) => SetPropProtocol(s, step);
    case AddEvent(_, _) => AddEventProtocol(s, step);
    case CreateNext(_) => CreateNextProtocol(s, step);
    case SwitchChannel(_) => CloseProtocol(s, step);
    case DestroyWriter(_) => CloseProtocol(s, step);
    case CheckClosed => CheckProtocol(s);
    case BeginRead => ViewProtocol(s);
    case WriteBatch => WriteBatchProtocol(s);
    case EndRead => EndReadProtocol(s);
    case ConsumeEnd => ConsumeEndProtocol(s);
    case _ => MetadataStepProtocol(s, step);
  }

  // ---------------------------------------------------------------- histories

  lemma {:induction false} PiecesOfNobody(channels: seq<Channel>, w: nat, part: Part)
    requires CountsOk(channels)
    requires forall c :: 0 <= c < |channels| ==> channels[c].writer != w
    ensures Pieces(channels, w, part) == []
  {
    if channels != [] {
      PiecesOfNobody(channels[..|channels| - 1], w, part);
    }
  }

  lemma {:induction false} EventsOfNobody(items: seq<Item>, w: nat)
    requires forall i :: 0 <= i < |items| ==> items[i].writer != Some(w)
    ensures EventsOf(items, w) == []
  {
    if items != [] {
      EventsOfNobody(items[..|items| - 1], w);
    }
  }

  lemma MetadataHistory(channels: seq<Channel>, writers: seq<Writer>, items: seq<Item>, more: seq<Item>)
    requires CountsOk(channels) && HistoryOk(channels, writers, items)
    requires forall i :: 0 <= i < |more| ==> more[i].writer == None
    ensures HistoryOk(channels, writers, items + more)
  {
    forall w | 0 <= w < |writers|
      ensures EventsOf(items + more, w) == Pieces(channels, w, Taken)
    {
      EventsOfAppend(items, more, w);
      EventsOfMetadata(more, w);
    }
  }

  lemma NewWriterHistory(channels: seq<Channel>, writers: seq<Writer>, items: seq<Item>, ch: Channel, wr: Writer)
    requires CountsOk(channels) && HistoryOk(channels, writers, items)
    requires ch.writer == |writers| && ch.taken == 0 && ch.log == [] && wr.history == []
    ensures CountsOk(channels + [ch]) && HistoryOk(channels + [ch], writers + [wr], items)
  {
    hide Pieces, EventsOf;
    forall w, part | 0 <= w <= |writers|
      ensures Pieces(channels + [ch], w, part) == Pieces(channels, w, part)
    {
      PiecesAppend(channels, ch, w, part);
    }
    PiecesOfNobody(channels, |writers|, All);
    PiecesOfNobody(channels, |writers|, Taken);
    EventsOfNobody(items, |writers|);
  }

  lemma CreateNextHistory(channels: seq<Channel>, writers: seq<Writer>, items: seq<Item>, ch: Channel, writers': seq<Writer>)
    requires CountsOk(channels) && HistoryOk(channels, writers, items)
    requires ch.writer < |writers| && ch.taken == 0 && ch.log == []
    requires |writers'| == |writers| && forall w :: 0 <= w < |writers| ==> writers'[w].history == writers[w].history
    ensures CountsOk(channels + [ch]) && HistoryOk(channels + [ch], writers', items)
  {
    forall w, part | 0 <= w <= |writers|
      ensures Pieces(channels + [ch], w, part) == Pieces(channels, w, part)
    {
      PiecesAppend(channels, ch, w, part);
    }
  }

  /** Neither properties, nor closing, nor releasing show in the logs. */
  lemma SameHistory(channels: seq<Channel>, writers: seq<Writer>, items: seq<Item>, c: nat, ch: Channel, writers': seq<Writer>)
    requires CountsOk(channels) && HistoryOk(channels, writers, items) && c < |channels|
    requires ch == channels[c].(prop := ch.prop, open := ch.open, released := ch.released)
    requires |writers'| == |writers| && forall w :: 0 <= w < |writers| ==> writers'[w].history == writers[w].history
    ensures CountsOk(channels[c := ch]) && HistoryOk(channels[c := ch], writers', items)
  {
    forall w, part | 0 <= w < |writers|
      ensures Pieces(channels[c := ch], w, part) == Pieces(channels, w, part)
    {
      assert PartOf(ch, part) == PartOf(channels[c], part) + [];
      PiecesUpdate(channels, c, ch, w, part, []);
    }
  }

  lemma AddEventHistory(channels: seq<Channel>, writers: seq<Writer>, items: seq<Item>, c: nat, event: Entry)
    requires CountsOk(channels) && HistoryOk(channels, writers, items) && c < |channels|
    requires !LaterOfSameWriter(channels, c)
    ensures var ch := channels[c].(log := channels[c].log + [event]);
            var w := ch.writer;
            && CountsOk(channels[c := ch])
            && HistoryOk(channels[c := ch], writers[w := writers[w].(history := writers[w].history + [event])], items)
  {
    var ch := channels[c].(log := channels[c].log + [event]);
    forall w | 0 <= w < |writers|
      ensures Pieces(channels[c := ch], w, All) == Pieces(channels, w, All) + (if w == ch.writer then [event] else [])
      ensures Pieces(channels[c := ch], w, Taken) == Pieces(channels, w, Taken)
    {
      PiecesUpdate(channels, c, ch, w, All, [event]);
      assert PartOf(ch, Taken) == PartOf(channels[c], Taken) + [];
      PiecesUpdate(channels, c, ch, w, Taken, []);
    }
  }

  /** Writing a batch moves just the taken part of its writer's history to the output. */
  lemma WriteBatchHistory(channels: seq<Channel>, writers: seq<Writer>, items: seq<Item>, c: nat, ch: Channel, more: seq<Item>)
    requires CountsOk(channels) && HistoryOk(channels, writers, items) && c < |channels|
    requires TakenInOrder(channels)
    requires channels[c].taken <= ch.taken <= |channels[c].log| && ch == channels[c].(taken := ch.taken, prop := ch.prop)
    requires var events := ch.log[channels[c].taken..ch.taken];
             BatchSize(events) < TWO_TO_64 && more == Batch(channels[c].prop, events, ch.writer)
    ensures CountsOk(channels[c := ch]) && HistoryOk(channels[c := ch], writers, items + more)
  {
    hide BatchSize;
    var events := ch.log[channels[c].taken..ch.taken];
    forall w | 0 <= w < |writers|
      ensures Pieces(channels[c := ch], w, All) == Pieces(channels, w, All)
      ensures EventsOf(items + more, w) == Pieces(channels[c := ch], w, Taken)
    {
      assert PartOf(ch, All) == PartOf(channels[c], All) + [];
      PiecesUpdate(channels, c, ch, w, All, []);
      assert PartOf(ch, Taken) == PartOf(channels[c], Taken) + events;
      forall b | events != [] && c < b < |channels| && channels[b].writer == ch.writer
        ensures PartOf(channels[b], Taken) == []
      {
        assert !Finished(channels[c]);
      }
      PiecesUpdate(channels, c, ch, w, Taken, events);
      EventsOfAppend(items, more, w);
      EventsOfBatch(channels[c].prop, events, ch.writer, w);
    }
  }

  ghost predicate HistoryAndCountsOk(s: Session) {
    CountsOk(s.channels) && HistoryOk(s.channels, s.writers, s.archive + s.out)
  }

  lemma MetadataStepHistory(s: Session, step: Step)
    requires HistoryAndCountsOk(s) && Enabled(s, step)
    requires step.ConsumeBegin? || step.Reconsume? || step.Rotate?
    ensures HistoryAndCountsOk(Apply(s, step))
  {
    hide HistoryOk, EntryOk, CountsOk;
    var more :=
      if step.ConsumeBegin? then (if s.consumeClockSync then ClockItems(s.clockSyncs) else []) + SourceItems(s.sources[s.sourcesConsumed..])
      else ClockItems(s.clockSyncs) + SourceItems(s.sources[..s.sourcesConsumed]);
    var s' := Apply(s, step);
    assert s'.archive + s'.out == s.archive + s.out + more;
    MetadataHistory(s.channels, s.writers, s.archive + s.out, more);
  }

  lemma WriterStepHistory(s: Session, step: Step)
    requires HistoryAndCountsOk(s) && WritersOk(s.channels, s.writers) && Enabled(s, step)
    requires step.AddEvent? || step.CreateNext? || step.NewWriter?
    ensures HistoryAndCountsOk(Apply(s, step))
  {
    hide HistoryOk, EntryOk, CountsOk, WritersOk;
    var s', items := Apply(s, step), s.archive + s.out;
    match step
    case NewWriter(prop) =>
      NewWriterHistory(s.channels, s.writers, items, s'.channels[|s.channels|], s'.writers[|s.writers|]);
    case CreateNext(w) =>
      AttachedIsLast(s.channels, s.writers, w);
      assert w < |s.writers|;
      CreateNextHistory(s.channels, s.writers, items, s'.channels[|s.channels|], s'.writers);
    case AddEvent(w, event) =>
      AttachedIsLast(s.channels, s.writers, w);
      AddEventHistory(s.channels, s.writers, items, s.writers[w].pc.channel, event);
  }

  lemma QuietStepHistory(s: Session, step: Step)
    requires HistoryAndCountsOk(s) && Enabled(s, step)
    requires step.SetWriterProp? || step.SwitchChannel? || step.DestroyWriter? || step.EndRead?
    ensures HistoryAndCountsOk(Apply(s, step))
  {
    hide HistoryOk, EntryOk, CountsOk;
    var s' := Apply(s, step);
    var c :=
      if step.SetWriterProp? then step.c
      else if step.EndRead? then s.listed[s.consumer.i]
      else s.writers[step.w].pc.channel;
    SameHistory(s.channels, s.writers, s.archive + s.out, c, s'.channels[c], s'.writers);
  }

  lemma BatchStepHistory(s: Session)
    requires HistoryAndCountsOk(s) && ProtocolOk(s) && Enabled(s, WriteBatch)
    ensures HistoryAndCountsOk(Apply(s, WriteBatch))
  {
    ViewedIsReleased(s);
    var c := s.listed[s.consumer.i];
    var events := s.channels[c].log[s.channels[c].taken..s.consumer.visible];
    var more := Batch(s.channels[c].prop, events, s.channels[c].writer);
    WriteBatchEffect(s, more);
    hide Apply, Enabled, HistoryOk, ListedOk, ConsumerOk, ChannelsOk, TakenInOrder, WritersOk, CountsOk, Batch, BatchSize;
    WriteBatchHistory(s.channels, s.writers, s.archive + s.out, c, Apply(s, WriteBatch).channels[c], more);
  }

  lemma WriteBatchEffect(s: Session, more: seq<Item>)
    requires Enabled(s, WriteBatch)
    requires var ch := s.channels[s.listed[s.consumer.i]];
             more == Batch(ch.prop, ch.log[ch.released..s.consumer.visible], ch.writer)
    ensures var s', c := Apply(s, WriteBatch), s.listed[s.consumer.i];
            && |s'.channels| == |s.channels| && s'.writers == s.writers
            && s'.channels == s.channels[c := s'.channels[c]]
            && s'.channels[c] == s.channels[c].(taken := s.consumer.visible, prop := s'.channels[c].prop)
            && s'.out == s.out + more
            && s'.archive + s'.out == s.archive + s.out + more
  {
  }

  lemma StepHistory(s: Session, step: Step)
    requires HistoryAndCountsOk(s) && ProtocolOk(s) && Enabled(s, step)
    ensures HistoryAndCountsOk(Apply(s, step))
  {
    hide HistoryOk, CountsOk, ListedOk, ConsumerOk, ChannelsOk, TakenInOrder, WritersOk, EntryOk, BatchSize;
    if step.ConsumeBegin? || step.Reconsume? || step.Rotate? {
      MetadataStepHistory(s, step);
    } else if step.AddEvent? || step.CreateNext? || step.NewWriter? {
      WriterStepHistory(s, step);
    } else if step.SetWriterProp? || step.SwitchChannel? || step.DestroyWriter? || step.EndRead? {
      QuietStepHistory(s, step);
    } else if step.WriteBatch? {
      BatchStepHistory(s);
    }
  }

  lemma AttachedIsLast(channels: seq<Channel>, writers: seq<Writer>, w: nat)
    requires WritersOk(channels, writers) && w < |writers| && writers[w].pc.Attached?
    ensures var c := writers[w].pc.channel;
            c < |channels| && channels[c].writer == w && !LaterOfSameWriter(channels, c)
  {
    assert WriterOk(channels, w, writers[w].pc);
  }

  lemma ViewedIsReleased(s: Session)
    requires ListedOk(s.channels, s.listed) && ConsumerOk(s.channels, s.listed, s.consumer) && s.consumer.Viewed?
    ensures s.consumer.i < |s.listed| && s.listed[s.consumer.i] < |s.channels|
    ensures var ch := s.channels[s.listed[s.consumer.i]];
            ch.taken == ch.released <= s.consumer.visible <= |ch.log|
  {
  }

  // ---------------------------------------------------------------- outputs

  /** Metadata, of which nothing is a writer properties entry, can be appended to any output. */
  lemma AppendMetadata(out: seq<Item>, more: seq<Item>, sources: seq<EventSource>)
    requires Resolved(out, sources) && Batched(out)
    requires forall i :: 0 <= i < |more| ==> more[i].entry.ClockEntry? || more[i].entry.SourceEntry?
    ensures Resolved(out + more, sources) && Batched(out + more)
  {
    ResolvedAppend(out, more, sources);
    BatchedAppend(out, more);
  }

  /** Clock syncs, if any are written, and the next sources. */
  lemma MetadataIsDecoded(out: seq<Item>, clocks: seq<ClockSync>, sources: seq<EventSource>, n: nat, m: nat)
    requires n <= m <= |sources|
    requires forall k :: 0 <= k < |sources| ==> sources[k].id == k + 1
    requires Decoded(out).sources == SourceMap(sources[..n])
    ensures var d := Decoded(out + ClockItems(clocks) + SourceItems(sources[n..m]));
            && d.sources == SourceMap(sources[..m])
            && d.clock == if clocks == [] then Decoded(out).clock else clocks[|clocks| - 1]
  {
    DecodedAppend(out, ClockItems(clocks));
    if clocks == [] {
      assert out + ClockItems(clocks) == out;
    } else {
      AfterClocks(Decoded(out), clocks);
    }
    DecodedAppend(out + ClockItems(clocks), SourceItems(sources[n..m]));
    AfterSources(Decoded(out + ClockItems(clocks)), sources, n, m);
  }

  lemma ConsumeBeginEffect(s: Session)
    requires SourcesOk(s) && Enabled(s, ConsumeBegin)
    ensures var s' := Apply(s, ConsumeBegin);
            var clocks := if s.consumeClockSync then s.clockSyncs else [];
            && s'.out == s.out + ClockItems(clocks) + SourceItems(s.sources[s.sourcesConsumed..|s.sources|])
            && s'.sources == s.sources && s'.sourcesConsumed == |s.sources|
            && s'.clockSyncs == s.clockSyncs && !s'.consumeClockSync
  {
    hide SourcesOk, EntryOk;
    assert s.sources[s.sourcesConsumed..|s.sources|] == s.sources[s.sourcesConsumed..];
    if !s.consumeClockSync {
      assert ClockItems([]) == [];
    }
  }

  lemma ConsumeBeginOutput(s: Session)
    requires SourcesOk(s) && OutputOk(s) && Enabled(s, ConsumeBegin)
    ensures SourcesOk(Apply(s, ConsumeBegin)) && OutputOk(Apply(s, ConsumeBegin))
  {
    hide Decoded, Resolved, Batched, EntryOk, PayloadBytes, Apply, Enabled, ClockItems, SourceItems, SourceMap;
    ConsumeBeginEffect(s);
    var clocks := if s.consumeClockSync then s.clockSyncs else [];
    var fresh_ := s.sources[s.sourcesConsumed..|s.sources|];
    var s' := Apply(s, ConsumeBegin);
    assert s'.out == s.out + (ClockItems(clocks) + SourceItems(fresh_));
    MetadataIsDecoded(s.out, clocks, s.sources, s.sourcesConsumed, |s.sources|);
    MetadataOk(s.out, clocks, fresh_);
    assert s'.sources[..s'.sourcesConsumed] == s.sources[..|s.sources|];
    AppendMetadata(s.out, ClockItems(clocks) + SourceItems(fresh_), s.sources);
  }

  lemma MetadataOk(out: seq<Item>, clocks: seq<ClockSync>, sources: seq<EventSource>)
    requires forall i :: 0 <= i < |out| ==> EntryOk(out[i].entry)
    requires forall i :: 0 <= i < |clocks| ==> EntryOk(ClockEntry(clocks[i]))
    requires forall i :: 0 <= i < |sources| ==> EntryOk(SourceEntry(sources[i]))
    ensures var all := out + (ClockItems(clocks) + SourceItems(sources));
            forall i :: 0 <= i < |all| ==> EntryOk(all[i].entry)
  {
    hide EntryOk;
  }

  lemma ReconsumeOutput(s: Session)
    requires SourcesOk(s) && OutputOk(s) && Enabled(s, Reconsume)
    ensures SourcesOk(Apply(s, Reconsume)) && OutputOk(Apply(s, Reconsume))
  {
    hide Resolved, Batched, PayloadBytes, EntryOk, Decoded;
    var n := s.sourcesConsumed;
    var more := ClockItems(s.clockSyncs) + SourceItems(s.sources[..n]);
    var s' := Apply(s, Reconsume);
    assert s'.out == s.out + more;
    MetadataOk(s.out, s.clockSyncs, s.sources[..n]);
    RereadSources(s.out, s.clockSyncs, s.sources, n);
    AppendMetadata(s.out, more, s.sources);
  }

  /** Reading all consumed sources again changes nothing. */
  lemma RereadSources(out: seq<Item>, clocks: seq<ClockSync>, sources: seq<EventSource>, n: nat)
    requires n <= |sources| && clocks != []
    requires forall k :: 0 <= k < |sources| ==> sources[k].id == k + 1
    requires Decoded(out).sources == SourceMap(sources[..n])
    ensures var d := Decoded(out + (ClockItems(clocks) + SourceItems(sources[..n])));
            d.sources == SourceMap(sources[..n]) && d.clock == clocks[|clocks| - 1]
  {
    assert out + (ClockItems(clocks) + SourceItems(sources[..n])) == out + ClockItems(clocks) + SourceItems(sources[..n]);
    DecodedAppend(out, ClockItems(clocks));
    AfterClocks(Decoded(out), clocks);
    DecodedAppend(out + ClockItems(clocks), SourceItems(sources[..n]));
    assert sources[..n][..n] == sources[..n];
    AfterKnownSources(Decoded(out + ClockItems(clocks)), sources[..n], n);
  }

  lemma {:induction false} AfterKnownSources(st: StreamState, sources: seq<EventSource>, n: nat)
    requires n <= |sources|
    requires forall k :: 0 <= k < |sources| ==> sources[k].id == k + 1
    requires st.sources == SourceMap(sources)
    ensures StateAfterEntries(st, EntriesOf(SourceItems(sources[..n]))) == st
  {
    var es := EntriesOf(SourceItems(sources[..n]));
    if n > 0 {
      AfterKnownSources(st, sources, n - 1);
      assert es[..n - 1] == EntriesOf(SourceItems(sources[..n - 1]));
      SourceMapHas(sources, n);
      assert st.sources[n := sources[n - 1]] == st.sources;
    }
  }

  lemma RotateOutput(s: Session)
    requires SourcesOk(s) && OutputOk(s) && Enabled(s, Rotate)
    ensures SourcesOk(Apply(s, Rotate)) && OutputOk(Apply(s, Rotate))
  {
    hide Resolved, Batched, PayloadBytes, Decoded, EntryOk, ClockItems, SourceItems;
    var n := s.sourcesConsumed;
    var none: seq<Item> := [];
    var more := ClockItems(s.clockSyncs) + SourceItems(s.sources[0..n]);
    var s' := Apply(s, Rotate);
    assert s.sources[0..n] == s.sources[..n];
    assert s'.out == none + ClockItems(s.clockSyncs) + SourceItems(s.sources[0..n]) == none + more;
    EmptyOutput(s.sources);
    MetadataIsDecoded(none, s.clockSyncs, s.sources, 0, n);
    AppendMetadata(none, more, s.sources);
  }

  lemma EmptyOutput(sources: seq<EventSource>)
    ensures var none: seq<Item> := [];
            Decoded(none) == FRESH && Resolved(none, sources) && Batched(none) && Decoded(none).sources == SourceMap(sources[..0])
  {
  }

  lemma AddSourceOutput(s: Session, step: Step)
    requires SourcesOk(s) && OutputOk(s) && Enabled(s, step) && step.AddEventSource?
    ensures SourcesOk(Apply(s, step)) && OutputOk(Apply(s, step))
  {
    hide Decoded, Batched, PayloadBytes;
    var s' := Apply(s, step);
    assert s'.sources[..s.sourcesConsumed] == s.sources[..s.sourcesConsumed];
  }

  lemma SetClockOutput(s: Session, step: Step)
    requires SourcesOk(s) && OutputOk(s) && Enabled(s, step) && step.SetClockSync?
    ensures SourcesOk(Apply(s, step)) && OutputOk(Apply(s, step))
  {
    hide Decoded, Batched, PayloadBytes, Resolved;
  }

  lemma BatchKeepsMetadata(out: seq<Item>, prop: WriterProp, events: seq<Entry>, w: nat, i: nat)
    requires BatchSize(events) < TWO_TO_64 && forall i :: 0 <= i < |events| ==> events[i].EventEntry?
    requires i <= |Batch(prop, events, w)|
    ensures var d := Decoded(out + Batch(prop, events, w)[..i]);
            d.sources == Decoded(out).sources && d.clock == Decoded(out).clock
  {
    hide BatchSize;
    var more := Batch(prop, events, w);
    DecodedAppend(out, more[..i]);
    BatchChangesWriterOnly(Decoded(out), more, i);
  }

  lemma BatchResolved(out: seq<Item>, prop: WriterProp, events: seq<Entry>, w: nat, sources: seq<EventSource>)
    requires BatchSize(events) < TWO_TO_64 && Resolved(out, sources)
    requires Decoded(out).sources == SourceMap(sources)
    requires forall i :: 0 <= i < |events| ==> events[i].EventEntry? && 1 <= events[i].sourceId <= |sources|
    ensures Resolved(out + Batch(prop, events, w), sources)
  {
    hide BatchSize, Decoded, Resolved;
    var more := Batch(prop, events, w);
    forall i | 0 <= i < |more| && more[i].entry.EventEntry?
      ensures var id := more[i].entry.sourceId;
              && 1 <= id <= |sources|
              && id in Decoded(out + more[..i]).sources && Decoded(out + more[..i]).sources[id] == sources[id - 1]
    {
      assert more[i].entry == events[i - 1];
      BatchKeepsMetadata(out, prop, events, w, i);
      SourceMapHas(sources, more[i].entry.sourceId);
    }
    ResolvedAppend(out, more, sources);
  }

  /** A batch may be appended when the sources of its events were read. */
  lemma AppendBatch(out: seq<Item>, prop: WriterProp, events: seq<Entry>, w: nat, sources: seq<EventSource>)
    requires BatchSize(events) < TWO_TO_64 && Resolved(out, sources) && Batched(out)
    requires Decoded(out).sources == SourceMap(sources)
    requires forall i :: 0 <= i < |events| ==> events[i].EventEntry? && 1 <= events[i].sourceId <= |sources|
    ensures var out' := out + Batch(prop, events, w);
            && Resolved(out', sources) && Batched(out')
            && Decoded(out').sources == Decoded(out).sources && Decoded(out').clock == Decoded(out).clock
  {
    hide Batched, BatchSize, Decoded, Resolved;
    var more := Batch(prop, events, w);
    BatchResolved(out, prop, events, w, sources);
    BatchKeepsMetadata(out, prop, events, w, |more|);
    assert more[..|more|] == more;
    BatchIsBatched(prop, events, w);
    BatchedAppend(out, more);
  }

  lemma {:induction false} BatchChangesWriterOnly(st: StreamState, more: seq<Item>, i: nat)
    requires i <= |more|
    requires forall k :: 0 <= k < |more| ==> more[k].entry.EventEntry? || more[k].entry.WriterEntry?
    ensures var d := StateAfterEntries(st, EntriesOf(more[..i])); d.sources == st.sources && d.clock == st.clock
  {
    if i > 0 {
      assert EntriesOf(more[..i])[..i - 1] == EntriesOf(more[..i - 1]);
      BatchChangesWriterOnly(st, more, i - 1);
    }
  }

  lemma BatchOk(prop: WriterProp, events: seq<Entry>, w: nat)
    requires BatchSize(events) < TWO_TO_64
    requires EntryOk(WriterEntry(prop)) && forall i :: 0 <= i < |events| ==> EntryOk(events[i])
    ensures var more := Batch(prop, events, w); forall i :: 0 <= i < |more| ==> EntryOk(more[i].entry)
  {
    var more := Batch(prop, events, w);
    forall i | 0 <= i < |more|
      ensures EntryOk(more[i].entry)
    {
      if i > 0 {
        assert more[i].entry == events[i - 1];
      }
    }
  }

  lemma EventsOk(ch: Channel, nWriters: nat, nSources: nat, visible: nat)
    requires ChannelOk(ch, nWriters, nSources) && ch.released <= visible <= |ch.log|
    ensures EntryOk(WriterEntry(ch.prop))
    ensures var events := ch.log[ch.released..visible];
            forall i :: 0 <= i < |events| ==>
              EntryOk(events[i]) && events[i].EventEntry? && 1 <= events[i].sourceId <= nSources
  {
    hide EntryOk;
  }

  lemma WriteBatchOutput(s: Session)
    requires SourcesOk(s) && OutputOk(s) && ProtocolOk(s) && MutexOk(s) && Enabled(s, WriteBatch)
    ensures SourcesOk(Apply(s, WriteBatch)) && OutputOk(Apply(s, WriteBatch))
  {
    hide Decoded, Resolved, Batched, Batch, BatchSize, EntryOk, ChannelOk;
    var ch := s.channels[s.listed[s.consumer.i]];
    EventsOk(ch, |s.writers|, |s.sources|, s.consumer.visible);
    var events := ch.log[ch.released..s.consumer.visible];
    var more := Batch(ch.prop, events, ch.writer);
    assert s.sources[..s.sourcesConsumed] == s.sources;
    WriteBatchEffect(s, more);
    KeepsMetadata(s);
    hide Apply, Enabled, ProtocolOk;
    BatchOk(ch.prop, events, ch.writer);
    AppendBatch(s.out, ch.prop, events, ch.writer, s.sources);
  }

  lemma KeepsMetadata(s: Session)
    requires Enabled(s, WriteBatch)
    ensures var s' := Apply(s, WriteBatch);
            && s'.sources == s.sources && s'.sourcesConsumed == s.sourcesConsumed
            && s'.clockSyncs == s.clockSyncs && s'.consumeClockSync == s.consumeClockSync
  {
  }

  lemma StepOutput(s: Session, step: Step)
    requires SourcesOk(s) && OutputOk(s) && ProtocolOk(s) && MutexOk(s) && Enabled(s, step)
    ensures SourcesOk(Apply(s, step)) && OutputOk(Apply(s, step)) && MutexOk(Apply(s, step))
  {
    hide ProtocolOk, Decoded, Resolved, Batched, EntryOk, BatchSize;
    match step
    case ConsumeBegin => ConsumeBeginOutput(s);
    case Reconsume => ReconsumeOutput(s);
    case Rotate => RotateOutput(s);
    case AddEventSource(_) => AddSourceOutput(s, step);
    case SetClockSync(_) => SetClockOutput(s, step);
    case WriteBatch => WriteBatchOutput(s);
    case _ =>
  }

  // ---------------------------------------------------------------- every run

  lemma StepInv(s: Session, step: Step)
    requires Inv(s) && Enabled(s, step)
    ensures Inv(Apply(s, step))
  {
    StepProtocol(s, step);
    StepHistory(s, step);
    StepOutput(s, step);
    hide Enabled, Apply, ChannelsOk, TakenInOrder, WritersOk, ListedOk, ConsumerOk, CountsOk, HistoryOk, SourcesOk, OutputOk, MutexOk;
  }

  lemma InitInv(s: Session)
    requires Init(s)
    ensures Inv(s)
  {
  }

  lemma {:induction false} RunInv(states: seq<Session>, steps: seq<Step>, i: nat)
    requires Run(states, steps) && i <= |steps|
    ensures Inv(states[i])
  {
    hide Enabled, Apply, Inv;
    if i == 0 {
      InitInv(states[0]);
    } else {
      RunInv(states, steps, i - 1);
      StepInv(states[i - 1], steps[i - 1]);
    }
  }

  /** `s` is the state after some run. */
  ghost predicate Reachable(s: Session) {
    exists states, steps :: Run(states, steps) && states[|steps|] == s
  }

  lemma ReachableInv(s: Session)
    requires Reachable(s)
    ensures Inv(s)
  {
    hide Inv;
    var states, steps :| Run(states, steps) && states[|steps|] == s;
    RunInv(states, steps, |steps|);
  }

  // ---------------------------------------------------------------- who waits for whom

  /** Logging never waits: whatever the consumer is doing, a writer can commit, switch over and be destroyed. */
  lemma WritersNeverWait(s: Session, w: nat)
    requires Inv(s) && w < |s.writers|
    ensures s.writers[w].pc.Attached? ==>
              && Enabled(s, DestroyWriter(w))
              && forall id: u64, clock: u64, args: bytes | 1 <= id <= |s.sources| && 16 + |args| < TWO_TO_32 ::
                   Enabled(s, AddEvent(w, EventEntry(id, clock, args)))
    ensures s.writers[w].pc.Switching? ==> Enabled(s, SwitchChannel(w))
  {
    hide Inv, PayloadBytes;
    WriterPcOk(s, w);
    IdsAreNotSpecial(s);
    forall id: u64, clock: u64, args: bytes | 1 <= id <= |s.sources| && 16 + |args| < TWO_TO_32
      ensures EntryOk(EventEntry(id, clock, args))
    {
      EventSize(id, clock, args);
    }
  }

  lemma EventSize(id: u64, clock: u64, args: bytes)
    ensures |PayloadBytes(EventEntry(id, clock, args))| == 16 + |args|
  {
  }

  lemma WriterPcOk(s: Session, w: nat)
    requires Inv(s) && w < |s.writers|
    ensures WriterOk(s.channels, w, s.writers[w].pc) && |s.sources| < TWO_TO_63
  {
    hide ChannelsOk, TakenInOrder, ListedOk, ConsumerOk, HistoryOk, OutputOk, MutexOk, CountsOk, WriterOk;
  }

  lemma IdsAreNotSpecial(s: Session)
    requires |s.sources| < TWO_TO_63
    ensures forall id: u64 | id <= |s.sources| :: !IsSpecial(id)
  {
  }

  /** Everything else waits for the consumer, and for nothing but that. */
  lemma OthersWaitForConsumer(s: Session, w: nat, source: EventSource, clock: ClockSync, prop: WriterProp)
    requires Inv(s) && EntryOk(ClockEntry(clock)) && EntryOk(WriterEntry(prop))
    requires |s.sources| + 1 < TWO_TO_63 && EntryOk(SourceEntry(WithNextId(s, source)))
    ensures Enabled(s, AddEventSource(source)) <==> s.consumer.NoConsumer?
    ensures Enabled(s, SetClockSync(clock)) <==> s.consumer.NoConsumer?
    ensures Enabled(s, NewWriter(prop)) <==> s.consumer.NoConsumer?
    ensures w < |s.writers| && s.writers[w].pc.Attached? ==> (Enabled(s, CreateNext(w)) <==> s.consumer.NoConsumer?)
    ensures Enabled(s, ConsumeBegin) <==> s.consumer.NoConsumer?
    ensures Enabled(s, Reconsume) <==> s.consumer.NoConsumer?
    ensures Enabled(s, Rotate) <==> s.consumer.NoConsumer?
  {
    hide Inv, EntryOk;
    ConsumedOk(s);
    if w < |s.writers| {
      WriterPcOk(s, w);
    }
  }

  lemma ConsumedOk(s: Session)
    requires Inv(s)
    ensures s.sourcesConsumed <= |s.sources|
  {
    hide ChannelsOk, TakenInOrder, ListedOk, ConsumerOk, HistoryOk, OutputOk, MutexOk, CountsOk, WritersOk;
  }

  /** And the consumer goes on without anybody, up to the end, as long as batch sizes fit their 64 bits. */
  lemma ConsumerNeverWaits(s: Session)
    requires Inv(s) && forall c :: 0 <= c < |s.channels| ==> BatchSizesFit(s.channels[c])
    ensures match s.consumer
            case NoConsumer => Enabled(s, ConsumeBegin)
            case Polling(i, _) => if i < |s.listed| then Enabled(s, CheckClosed) else Enabled(s, ConsumeEnd)
            case Checked(_, _, _) => Enabled(s, BeginRead)
            case Viewed(_, _, _, _) => Enabled(s, WriteBatch)
            case Written(_, _, _, _) => Enabled(s, EndRead)
  {
    hide Inv, BatchSize, Polled, LaterOfSameWriter;
    ConsumedOk(s);
    ConsumerPcOk(s);
  }

  ghost predicate BatchSizesFit(ch: Channel) {
    forall i, j :: 0 <= i <= j <= |ch.log| ==> BatchSize(ch.log[i..j]) < TWO_TO_64
  }

  lemma ConsumerPcOk(s: Session)
    requires Inv(s)
    ensures ConsumerOk(s.channels, s.listed, s.consumer) && ListedOk(s.channels, s.listed)
    ensures forall c :: 0 <= c < |s.channels| ==> s.channels[c].released <= s.channels[c].taken <= |s.channels[c].log|
  {
    hide TakenInOrder, HistoryOk, OutputOk, MutexOk, WritersOk, ConsumerOk, ListedOk, EntryOk;
  }

  /**
   Every event whose `addEvent` succeeded is exactly once in the outputs or still unread, and the
   events of one writer are in the outputs in `addEvent` order, however often its channel was replaced.
   */
  lemma EveryEventOnceInOrder(s: Session, w: nat)
    requires Reachable(s) && w < |s.writers|
    ensures CountsOk(s.channels)
    ensures s.writers[w].history == EventsOf(s.archive + s.out, w) + Pieces(s.channels, w, Unread)
  {
    hide Reachable;
    ReachableInv(s);
    PiecesSplit(s.channels, w);
  }

  /** A channel the session no longer lists has no writer any more, and everything in it was written out. */
  lemma NothingLostInDroppedChannels(s: Session, c: nat)
    requires Reachable(s) && c < |s.channels| && c !in s.listed
    ensures Finished(s.channels[c])
    ensures forall w :: 0 <= w < |s.writers| ==> !Holds(s.writers[w].pc, c)
  {
    hide Reachable;
    ReachableInv(s);
    forall w | 0 <= w < |s.writers|
      ensures !Holds(s.writers[w].pc, c)
    {
      assert WriterOk(s.channels, w, s.writers[w].pc);
    }
  }

  lemma ReachableOutput(s: Session)
    requires Reachable(s)
    ensures SourcesOk(s) && OutputOk(s)
  {
    hide Reachable, ChannelsOk, TakenInOrder, WritersOk, ListedOk, ConsumerOk, CountsOk, HistoryOk, SourcesOk, OutputOk, MutexOk;
    ReachableInv(s);
  }

  /**
   Every output - the first, and any later one that starts with `reconsumeMetadata` - reads back with
   no event refused, each event with the source it was logged with.
   */
  lemma OutputsReadBack(s: Session)
    requires Reachable(s)
    ensures forall k :: 0 <= k < |s.out| ==> EntryOk(s.out[k].entry)
    ensures NothingRefused(FRESH, Payloads(EntriesOf(s.out)))
    ensures forall k :: 0 <= k < |s.out| && s.out[k].entry.EventEntry? ==>
              var id, st := s.out[k].entry.sourceId, StateAfter(FRESH, Payloads(EntriesOf(s.out))[..k]);
              1 <= id <= |s.sources| && id in st.sources && st.sources[id] == s.sources[id - 1]
  {
    hide Reachable, EntryOk, React, StateAfter, PayloadBytes, Decoded, Batched, Resolved, NothingRefused, SourcesOk;
    ReachableOutput(s);
    ResolvedReadsBack(s.out, s.sources);
  }

  lemma ResolvedReadsBack(out: seq<Item>, sources: seq<EventSource>)
    requires Resolved(out, sources) && forall k :: 0 <= k < |out| ==> EntryOk(out[k].entry)
    ensures var es := EntriesOf(out);
            && NothingRefused(FRESH, Payloads(es))
            && (forall k :: 0 <= k < |es| && es[k].EventEntry? ==>
                  var id, st := es[k].sourceId, StateAfter(FRESH, Payloads(es)[..k]);
                  1 <= id <= |sources| && id in st.sources && st.sources[id] == sources[id - 1])
  {
    hide EntryOk, PayloadBytes, React, StateAfter, Decoded, Payloads;
    var es := EntriesOf(out);
    forall k | 0 <= k < |es|
      ensures StateAfter(FRESH, Payloads(es)[..k]) == Decoded(out[..k])
      ensures React(StateAfter(FRESH, Payloads(es)[..k]), Payloads(es)[k]) != Refuse
    {
      PrefixDecodes(out, k);
      ReactToPayload(Decoded(out[..k]), es[k]);
    }
  }

  lemma PrefixDecodes(out: seq<Item>, k: nat)
    requires k <= |out| && forall i :: 0 <= i < |out| ==> EntryOk(out[i].entry)
    ensures StateAfter(FRESH, Payloads(EntriesOf(out))[..k]) == Decoded(out[..k])
  {
    hide EntryOk, PayloadBytes, StateAfter, StateAfterEntries, Payloads, Payload;
    var es := EntriesOf(out);
    assert EntriesOf(out[..k]) == es[..k];
    assert Payloads(es[..k]) == Payloads(es)[..k];
    StateAfterPayloads(FRESH, es[..k]);
  }

  /** Once consumed, the clock sync in force at the end of the output is the last one that was set. */
  lemma LastClockSyncInForce(s: Session)
    requires Reachable(s) && !s.consumeClockSync
    ensures s.clockSyncs != []
    ensures (forall k :: 0 <= k < |s.out| ==> EntryOk(s.out[k].entry))
    ensures StateAfter(FRESH, Payloads(EntriesOf(s.out))).clock == s.clockSyncs[|s.clockSyncs| - 1]
  {
    hide Reachable, EntryOk, StateAfter, PayloadBytes, Batched, Resolved;
    ReachableOutput(s);
    StateAfterPayloads(FRESH, EntriesOf(s.out));
  }

  /** The batch size of every writer properties entry is the length in bytes of the events right behind it. */
  lemma BatchSizesAreExact(s: Session, k: nat) returns (n: nat, w: nat)
    requires Reachable(s)
    requires k < |s.out| && s.out[k].entry.WriterEntry?
    ensures k + 1 + n <= |s.out|
    ensures forall j :: k < j < k + 1 + n ==> s.out[j].entry.EventEntry? && EntryOk(s.out[j].entry) && s.out[j].writer == Some(w)
    ensures s.out[k].entry.writer.batchSize == |FrameAll(Payloads(EntriesOf(s.out[k + 1..k + 1 + n])))|
    ensures k + 1 + n < |s.out| ==> !s.out[k + 1 + n].entry.EventEntry?
  {
    hide Reachable, EntryOk, PayloadBytes, Decoded, Resolved, BatchSize, SourcesOk;
    ReachableOutput(s);
    assert BatchAt(s.out, k);
    n, w :| IsBatch(s.out, k, n, w);
    BatchSizeIsLength(EntriesOf(s.out[k + 1..k + 1 + n]));
  }

  lemma PushLength(es: seq<Entry>, e: Entry)
    requires (forall i :: 0 <= i < |es| ==> EntryOk(es[i])) && EntryOk(e)
    ensures |FrameAll(Payloads(es + [e]))| == |FrameAll(Payloads(es))| + 4 + |PayloadBytes(e)|
  {
    hide PayloadBytes, EntryOk, Payloads, LE;
    assert Payloads(es + [e]) == Payloads(es) + [Payload(e)];
    FrameAllAppend(Payloads(es), [Payload(e)]);
    assert [Payload(e)][1..] == [] && FrameAll([Payload(e)]) == Frame(Payload(e));
  }

  lemma {:induction false} BatchSizeIsLength(es: seq<Entry>)
    requires forall i :: 0 <= i < |es| ==> EntryOk(es[i])
    ensures BatchSize(es) == |FrameAll(Payloads(es))|
  {
    hide PayloadBytes, EntryOk;
    if es != [] {
      hide FrameAll, Payloads;
      var n := |es| - 1;
      BatchSizeIsLength(es[..n]);
      PushLength(es[..n], es[n]);
      assert es[..n] + [es[n]] == es;
    }
  }

  // ---------------------------------------------------------------- runs there are

  lemma InitReachable(s: Session)
    requires Init(s)
    ensures Reachable(s)
  {
    hide Init;
    var states, steps: seq<Step> := [s], [];
    assert Run(states, steps) && states[|steps|] == s;
  }

  lemma StepReachable(s: Session, step: Step)
    requires Reachable(s) && Enabled(s, step)
    ensures Reachable(Apply(s, step))
  {
    hide Enabled, Apply, Init;
    var states, steps :| Run(states, steps) && states[|steps|] == s;
    var states', steps' := states + [Apply(s, step)], steps + [step];
    assert Run(states', steps') && states'[|steps'|] == Apply(s, step);
  }

  /** One step of a run that is written down. */
  lemma Go(s: Session, step: Step) returns (s': Session)
    requires Reachable(s) && Enabled(s, step)
    ensures Reachable(s') && s' == Apply(s, step)
  {
    hide Reachable, Enabled, Apply;
    StepReachable(s, step);
    s' := Apply(s, step);
  }

  /** A writer adds a source and an event, and changes its channel. */
  lemma LoggedAndReplaced(system: ClockSync, source: EventSource, prop: WriterProp, event: Entry) returns (s: Session)
    requires EntryOk(ClockEntry(system)) && EntryOk(SourceEntry(source)) && source.id == 1
    requires EntryOk(WriterEntry(prop)) && EntryOk(event) && event.EventEntry? && event.sourceId == 1
    ensures Reachable(s)
    ensures s == Session(
                   [Channel(0, prop, false, [event], 0, 0), Channel(0, prop.(batchSize := 0), true, [], 0, 0)], [0, 1],
                   [Writer(Attached(1), [event])], [source], 0, [system], true, NoConsumer, [], [])
  {
    hide EntryOk, Reachable;
    s := Session([], [], [], [], 0, [system], true, NoConsumer, [], []);
    InitReachable(s);
    var s1 := Go(s, AddEventSource(source));
    assert s1.sources == [source] && s1.channels == [] && s1.writers == [] && s1.listed == [];
    var s2 := Go(s1, NewWriter(prop));
    assert s2.channels == [Channel(0, prop, true, [], 0, 0)] && s2.writers == [Writer(Attached(0), [])] && s2.listed == [0];
    var s3 := Go(s2, AddEvent(0, event));
    assert [] + [event] == [event];
    assert s3.channels == [Channel(0, prop, true, [event], 0, 0)] && s3.writers == [Writer(Attached(0), [event])];
    var s4 := Go(s3, CreateNext(0));
    assert s4.channels == [Channel(0, prop, true, [event], 0, 0), Channel(0, prop.(batchSize := 0), true, [], 0, 0)];
    assert s4.writers == [Writer(Switching(0, 1), [event])] && s4.listed == [0, 1];
    s := Go(s4, SwitchChannel(0));
    assert s.channels == [Channel(0, prop, false, [event], 0, 0), Channel(0, prop.(batchSize := 0), true, [], 0, 0)];
    assert s.writers == [Writer(Attached(1), [event])];
  }

  /** A consumer polls one channel, undisturbed. */
  lemma GoPoll(s: Session) returns (s': Session)
    requires Reachable(s) && s.consumer.Polling? && s.consumer.i < |s.listed| && s.listed[s.consumer.i] < |s.channels|
    requires var ch := s.channels[s.listed[s.consumer.i]];
             ch.released <= |ch.log| && BatchSize(ch.log[ch.released..|ch.log|]) < TWO_TO_64
    ensures Reachable(s')
    ensures var c := s.listed[s.consumer.i];
            var ch := s.channels[c];
            var more := Batch(ch.prop, ch.log[ch.released..|ch.log|], ch.writer);
            && |s'.channels| == |s.channels| && (forall d :: 0 <= d < |s.channels| && d != c ==> s'.channels[d] == s.channels[d])
            && s'.out == s.out + more && s'.listed == s.listed && |s'.writers| == |s.writers|
            && s'.consumer == Polling(s.consumer.i + 1, if ch.open then s.consumer.removed else s.consumer.removed + {c})
  {
    hide Reachable, Batch, BatchSize, EntryOk;
    var s1 := Go(s, CheckClosed);
    var s2 := Go(s1, BeginRead);
    var s3 := Go(s2, WriteBatch);
    s' := Go(s3, EndRead);
  }

  /** Channels are dropped in some runs: here is one where what was logged before a replacement has been consumed. */
  lemma DroppedChannelsHappen(system: ClockSync, source: EventSource, prop: WriterProp, event: Entry) returns (s: Session)
    requires EntryOk(ClockEntry(system)) && EntryOk(SourceEntry(source)) && source.id == 1
    requires EntryOk(WriterEntry(prop)) && EntryOk(event) && event.EventEntry? && event.sourceId == 1
    ensures Reachable(s) && s.consumer.NoConsumer?
    ensures |s.channels| == 2 && s.listed == [1] && EventsOf(s.out, 0) == [event]
  {
    s := LoggedAndReplaced(system, source, prop, event);
    SmallBatch(event);
    hide EntryOk, Reachable, BatchSize, PayloadBytes, Batch, EventsOf, Without;
    var next := prop.(batchSize := 0);
    hide Apply, Enabled;
    var s1 := GoBegin(s);
    assert s1.channels[0].log[0..1] == [event] && s1.channels[1].log[0..0] == [];
    var s2 := GoPoll(s1);
    var s3 := GoPoll(s2);
    s := GoEnd(s3);
    OnlyLast(s3.listed);
    PolledOutput(s1.out, prop, next, event);
  }

  lemma GoBegin(s: Session) returns (s': Session)
    requires Reachable(s) && MutexFree(s) && s.sourcesConsumed <= |s.sources| && s.out == []
    ensures Reachable(s') && s'.channels == s.channels && s'.listed == s.listed && s'.writers == s.writers
    ensures s'.consumer == Polling(0, {}) && forall i :: 0 <= i < |s'.out| ==> s'.out[i].writer == None
  {
    hide Reachable;
    s' := Go(s, ConsumeBegin);
  }

  lemma GoEnd(s: Session) returns (s': Session)
    requires Reachable(s) && s.consumer.Polling? && s.consumer.i >= |s.listed|
    ensures Reachable(s') && s'.channels == s.channels && s'.out == s.out
    ensures s'.consumer == NoConsumer && s'.listed == Without(s.listed, s.consumer.removed)
  {
    hide Reachable;
    s' := Go(s, ConsumeEnd);
  }

  lemma OnlyLast(listed: seq<nat>)
    requires listed == [0, 1]
    ensures Without(listed, {0}) == [1] && Without(listed, {} + {0}) == [1]
  {
    var removed: set<nat> := {};
    assert removed + {0} == {0};
    assert listed[..1] == [0] && [0][..0] == [];
  }

  lemma PolledOutput(before: seq<Item>, prop: WriterProp, next: WriterProp, event: Entry)
    requires forall i :: 0 <= i < |before| ==> before[i].writer == None
    requires BatchSize([event]) < TWO_TO_64 && BatchSize([]) < TWO_TO_64
    ensures EventsOf(before + Batch(prop, [event], 0) + Batch(next, [], 0), 0) == [event]
  {
    hide Batch, BatchSize, EventsOf;
    EventsOfMetadata(before, 0);
    EventsOfAppend(before, Batch(prop, [event], 0), 0);
    EventsOfAppend(before + Batch(prop, [event], 0), Batch(next, [], 0), 0);
    EventsOfBatch(prop, [event], 0, 0);
    EventsOfBatch(next, [], 0, 0);
  }

  lemma SmallBatch(event: Entry)
    requires EntryOk(event)
    ensures BatchSize([event]) < TWO_TO_64 && BatchSize([]) == 0
  {
    hide PayloadBytes;
    assert [event][..0] == [];
  }
}
