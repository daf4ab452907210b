/** Input ranges, the two entry streams, and the conversion of entries to events. */
module EventStreams {
  import opened Bytes
  import opened Entries
  import opened SegmentedMaps

  // ---------------------------------------------------------------- ranges

  /** A view of bytes that shrinks from the front. A read that does not fit changes nothing. */
  class Range {
    var data: bytes

    constructor (data: bytes)
      ensures this.data == data
    {
      this.data := data;
    }

    method View(size: nat) returns (r: Option<bytes>)
      modifies this
      ensures size <= |old(data)| ==> r == Some(old(data)[..size]) && data == old(data)[size..]
      ensures size > |old(data)| ==> r == None && data == old(data)
    {
      if size > |data| {
        return None;
      }
      r := Some(data[..size]);
      data := data[size..];
    }

    /** Reads a `k`-byte little-endian integer. */
    method Read(k: nat) returns (r: Option<nat>)
      modifies this
      ensures match ReadUint(old(data), k)
              case Fail => r == None && data == old(data)
              case Ok(value, rest) => r == Some(value) && data == rest
    {
      var raw := View(k);
      match raw {
        case None => r := None;
        case Some(b) =>
          FromLEBound(b);
          r := Some(FromLE(b));
      }
    }

    /** Reads a length-prefixed string; on failure the length may have been dropped. */
    method ReadString() returns (r: Option<text>)
      modifies this
      ensures match ReadText(old(data))
              case Fail => r == None
              case Ok(value, rest) => r == Some(value) && data == rest
    {
      Ranges();
      var size := Read(4);
      if size.None? {
        return None;
      }
      r := View(size.value);
    }
  }

  /** The deserializers fill their object field by field and stop at the first read that does not fit. */
  method DeserializeSource(range: Range) returns (r: Option<EventSource>)
    modifies range
    ensures match DecodeSource(old(range.data))
            case Fail => r == None
            case Ok(source, rest) => r == Some(source) && range.data == rest
  {
    Ranges();
    var id := range.Read(8);
    if id.None? { return None; }
    var severity := range.Read(2);
    if severity.None? { return None; }
    var category := range.ReadString();
    if category.None? { return None; }
    var function_ := range.ReadString();
    if function_.None? { return None; }
    var file := range.ReadString();
    if file.None? { return None; }
    var line := range.Read(8);
    if line.None? { return None; }
    var formatString := range.ReadString();
    if formatString.None? { return None; }
    var argumentTags := range.ReadString();
    if argumentTags.None? { return None; }
    r := Some(EventSource(id.value, severity.value, category.value, function_.value, file.value, line.value,
                          formatString.value, argumentTags.value));
  }

  method DeserializeWriter(range: Range) returns (r: Option<WriterProp>)
    modifies range
    ensures match DecodeWriter(old(range.data))
            case Fail => r == None
            case Ok(writer, rest) => r == Some(writer) && range.data == rest
  {
    Ranges();
    var id := range.Read(8);
    if id.None? { return None; }
    var name := range.ReadString();
    if name.None? { return None; }
    var batchSize := range.Read(8);
    if batchSize.None? { return None; }
    r := Some(WriterProp(id.value, name.value, batchSize.value));
  }

  method DeserializeClock(range: Range) returns (r: Option<ClockSync>)
    modifies range
    ensures match DecodeClock(old(range.data))
            case Fail => r == None
            case Ok(clock, rest) => r == Some(clock) && range.data == rest
  {
    Ranges();
    var clockValue := range.Read(8);
    if clockValue.None? { return None; }
    var clockFrequency := range.Read(8);
    if clockFrequency.None? { return None; }
    var nsSinceEpoch := range.Read(8);
    if nsSinceEpoch.None? { return None; }
    var tzOffset := range.Read(4);
    if tzOffset.None? { return None; }
    var tzName := range.ReadString();
    if tzName.None? { return None; }
    r := Some(ClockSync(clockValue.value, clockFrequency.value, nsSinceEpoch.value, tzOffset.value, tzName.value));
  }

  // ---------------------------------------------------------------- entry streams

  /**
   What an entry stream finds at the head of its remaining bytes. If the payload is truncated, a
   range has already given up the size before it.
   */
  datatype Next = End | Broken(rest: bytes) | Found(payload: text, rest: bytes)

  function NextPayload(b: bytes): (r: Next)
    ensures r.Found? ==> |r.rest| < |b|
    ensures r.Broken? ==> |r.rest| <= |b|
    ensures r == End <==> b == []
  {
    if b == [] then End
    else match ReadText(b)
      case Fail => Broken(if |b| < 4 then b else b[4..])
      case Ok(payload, rest) => Found(payload, rest)
  }

  /** What is left of a truncated entry: all of it if not even its size is whole, else what follows the size. */
  lemma TruncatedEntry(size: bytes, part: bytes)
    requires |size| == 4 && |part| < FromLE(size)
    ensures NextPayload(size + part) == Broken(part)
    ensures forall n :: 1 <= n < 4 ==> NextPayload(size[..n]) == Broken(size[..n])
  {
    assert (size + part)[..4] == size && (size + part)[4..] == part;
  }

  datatype Fetched = Got(payload: text) | Eof | Threw

  class RangeEntryStream {
    const input: Range

    constructor (input: Range)
      ensures this.input == input
    {
      this.input := input;
    }

    method NextEntryPayload() returns (r: Fetched)
      modifies input
      ensures match NextPayload(old(input.data))
              case End => r == Eof && input.data == []
              case Broken(rest) => r == Threw && input.data == rest
              case Found(payload, rest) => r == Got(payload) && input.data == rest
    {
      Ranges();
      if input.data == [] {
        return Eof;
      }
      var size := input.Read(4);
      if size.None? {
        return Threw;
      }
      var payload := input.View(size.value);
      r := if payload.None? then Threw else Got(payload.value);
    }
  }

  /** An input file: a short read takes what is there, counts it and leaves the stream failed. */
  class Istream {
    const data: bytes
    var pos: nat
    var failed: bool
    var gcount: nat

    ghost predicate Valid()
      reads this
    {
      pos <= |data|
    }

    function Rest(): bytes
      reads this
      requires Valid()
    {
      data[pos..]
    }

    constructor (data: bytes)
      ensures Valid() && this.data == data && pos == 0 && !failed
    {
      this.data := data;
      pos, failed, gcount := 0, false, 0;
    }

    method Read(n: nat) returns (b: bytes)
      requires Valid()
      modifies this
      ensures Valid() && gcount == |b| && pos == old(pos) + |b|
      ensures old(failed) ==> b == [] && failed
      ensures !old(failed) ==> b == old(Rest())[..|b|] && |b| == if n <= |old(Rest())| then n else |old(Rest())|
      ensures !old(failed) ==> failed == (|b| < n)
    {
      if failed {
        gcount := 0;
        return [];
      }
      var count := if n <= |data| - pos then n else |data| - pos;
      b := data[pos..pos + count];
      pos, gcount, failed := pos + count, count, count < n;
    }

    method Rewind(size: nat)
      requires Valid() && size <= pos
      modifies this`pos, this`failed
      ensures Valid() && pos == old(pos) - size && !failed
    {
      failed := false;
      pos := pos - size;
    }
  }

  class IstreamEntryStream {
    const input: Istream
    var buffer: bytes

    constructor (input: Istream)
      ensures this.input == input
    {
      this.input := input;
      buffer := [];
    }

    /**
     A truncated size or payload leaves the position where it was and the stream readable; at the
     end of the input, and only there, the stream stays failed, and so at its end.
     */
    method NextEntryPayload() returns (r: Fetched)
      requires input.Valid()
      modifies this`buffer, input
      ensures input.Valid()
      ensures old(input.failed) ==> r == Eof && input.pos == old(input.pos) && input.failed
      ensures !old(input.failed) ==>
              match NextPayload(old(input.Rest()))
              case End => r == Eof && input.pos == old(input.pos) && input.failed
              case Broken(_) => r == Threw && input.pos == old(input.pos) && !input.failed
              case Found(payload, rest) => r == Got(payload) && input.Rest() == rest && !input.failed
    {
      Ranges();
      ghost var b := input.Rest();
      var raw := input.Read(4);
      if input.gcount == 0 {
        return Eof;
      }
      if input.failed {
        input.Rewind(input.gcount);
        return Threw;
      }
      FromLEBound(raw);
      var size: u32 := FromLE(raw);
      assert raw == b[..4] && input.Rest() == b[4..];
      buffer := input.Read(size);
      if input.failed {
        input.Rewind(4 + input.gcount);
        return Threw;
      }
      assert ReadText(b) == Ok(buffer, input.Rest());
      r := Got(buffer);
    }
  }

  // ---------------------------------------------------------------- entries to events

  datatype StreamState = StreamState(sources: map<nat, EventSource>, writer: WriterProp, clock: ClockSync)

  const FRESH := StreamState(map[], WriterProp(0, [], 0), ClockSync(0, 0, 0, 0, []))

  datatype Event = Event(source: EventSource, clockValue: u64, arguments: bytes)

  /** What one payload does to an event stream: it changes the state, is an event, or is refused. */
  datatype Reaction = Quiet(state: StreamState) | Emit(sourceId: u64, event: Event) | Refuse

  function React(st: StreamState, payload: bytes): Reaction {
    Ranges();
    match ReadUint(payload, 8)
    case Fail => Refuse
    case Ok(tag, rest) =>
      if tag == SOURCE_TAG then
        match DecodeSource(rest)
        case Fail => Refuse
        case Ok(source, _) => Quiet(st.(sources := st.sources[source.id := source]))
      else if tag == WRITER_TAG then
        match DecodeWriter(rest)
        case Fail => Refuse
        case Ok(writer, _) => Quiet(st.(writer := writer))
      else if tag == CLOCK_TAG then
        match DecodeClock(rest)
        case Fail => Refuse
        case Ok(clock, _) => Quiet(st.(clock := clock))
      else if IsSpecial(tag) then Quiet(st)
      else if tag !in st.sources then Refuse
      else match ReadUint(rest, 8)
        case Fail => Refuse
        case Ok(clockValue, arguments) => Emit(tag, Event(st.sources[tag], clockValue, arguments))
  }

  datatype Answer = NextIs(event: Event) | Null | Thrown

  /** What one call of `nextEvent` gives: the answer, the state and the input afterwards. */
  function Advance(st: StreamState, input: bytes): (r: (Answer, StreamState, bytes))
    decreases |input|
  {
    match NextPayload(input)
    case End => (Null, st, [])
    case Broken(rest) => (Thrown, st, rest)
    case Found(payload, rest) =>
      if payload == [] then (Null, st, rest)
      else match React(st, payload)
        case Refuse => (Thrown, st, rest)
        case Emit(_, event) => (NextIs(event), st, rest)
        case Quiet(st') => Advance(st', rest)
  }

  /** The entry is an event of a known source, but ends before the clock value does. */
  predicate CutShort(st: StreamState, payload: bytes) {
    8 <= |payload| < 16 && !IsSpecial(TagOf(payload)) && TagOf(payload) in st.sources
  }

  function TagOf(payload: bytes): u64
    requires 8 <= |payload|
  {
    Ranges();
    FromLEBound(payload[..8]);
    FromLE(payload[..8])
  }

  /** The event object after one payload. No object means the one an event stream starts with. */
  function ObjectAfter(held: Option<Event>, st: StreamState, payload: bytes): Option<Event> {
    if CutShort(st, payload) then
      var source := st.sources[TagOf(payload)];
      Some(if held.Some? then held.value.(source := source) else Event(source, 0, []))
    else match React(st, payload)
      case Emit(_, event) => Some(event)
      case _ => held
  }

  /** The event object after one call of `nextEvent`. */
  function AdvanceObject(held: Option<Event>, st: StreamState, input: bytes): Option<Event>
    decreases |input|
  {
    match NextPayload(input)
    case End => held
    case Broken(_) => held
    case Found(payload, rest) =>
      if payload == [] then held
      else match React(st, payload)
        case Quiet(st') => AdvanceObject(held, st', rest)
        case _ => ObjectAfter(held, st, payload)
  }

  /** The state and the input when a call of `nextEvent` comes to the entry that ends it. */
  function Ending(st: StreamState, input: bytes): (StreamState, bytes)
    decreases |input|
  {
    match NextPayload(input)
    case Found(payload, rest) =>
      if payload == [] then (st, input)
      else (match React(st, payload)
        case Quiet(st') => Ending(st', rest)
        case _ => (st, input))
    case _ => (st, input)
  }

  class EventStream {
    const eventSources: SegmentedMap<EventSource>
    var writerProp: WriterProp
    var clockSync: ClockSync
    var event: Option<Event>

    ghost predicate Valid()
      reads this, eventSources
    {
      eventSources.Valid()
    }

    ghost function State(): StreamState
      reads this, eventSources
      requires Valid()
    {
      StreamState(eventSources.Map(), writerProp, clockSync)
    }

    constructor ()
      ensures Valid() && State() == FRESH && fresh(eventSources)
    {
      eventSources := new SegmentedMap<EventSource>();
      writerProp, clockSync, event := FRESH.writer, FRESH.clock, None;
    }

    method ReadEventSource(range: Range) returns (ok: bool)
      requires Valid()
      modifies eventSources, range
      ensures Valid()
      ensures match DecodeSource(old(range.data))
              case Fail => !ok && State() == old(State())
              case Ok(source, _) => ok && State() == old(State()).(sources := old(State()).sources[source.id := source])
    {
      var source := DeserializeSource(range);
      ok := source.Some?;
      if ok {
        eventSources.Emplace(source.value.id, source.value);
      }
    }

    method ReadWriterProp(range: Range) returns (ok: bool)
      requires Valid()
      modifies this`writerProp, range
      ensures Valid()
      ensures match DecodeWriter(old(range.data))
              case Fail => !ok && State() == old(State())
              case Ok(writer, _) => ok && State() == old(State()).(writer := writer)
    {
      var writer := DeserializeWriter(range);
      ok := writer.Some?;
      if ok {
        writerProp := writer.value;
      }
    }

    method ReadClockSync(range: Range) returns (ok: bool)
      requires Valid()
      modifies this`clockSync, range
      ensures Valid()
      ensures match DecodeClock(old(range.data))
              case Fail => !ok && State() == old(State())
              case Ok(clock, _) => ok && State() == old(State()).(clock := clock)
    {
      var clock := DeserializeClock(range);
      ok := clock.Some?;
      if ok {
        clockSync := clock.value;
      }
    }

    /** The source of `event` is replaced even when the clock value is missing and the entry is refused. */
    method ReadEvent(eventSourceId: u64, range: Range) returns (ok: bool)
      requires Valid()
      modifies this`event, range
      ensures Valid() && State() == old(State())
      ensures if eventSourceId !in State().sources then !ok && event == old(event)
              else match ReadUint(old(range.data), 8)
                case Fail =>
                  var source := State().sources[eventSourceId];
                  !ok && event == Some(if old(event).Some? then old(event).value.(source := source) else Event(source, 0, []))
                case Ok(clockValue, arguments) =>
                  ok && event == Some(Event(State().sources[eventSourceId], clockValue, arguments))
    {
      Ranges();
      var it := eventSources.Find(eventSourceId);
      if it.None? {
        return false;
      }
      event := Some(if event.Some? then event.value.(source := it.value) else Event(it.value, 0, []));
      var clockValue := range.Read(8);
      if clockValue.None? {
        return false;
      }
      event := Some(Event(it.value, clockValue.value, range.data));
      ok := true;
    }

    /**
     One payload. A refused one leaves sources, writer and clock as they were, and the event object too,
     unless it is an event of a known source that is cut short: that source is in the object then.
     */
    method ReadPayload(payload: bytes) returns (ok: bool, isEvent: bool)
      requires Valid()
      modifies this, eventSources
      ensures Valid()
      ensures match React(old(State()), payload)
              case Refuse =>
                && !ok && State() == old(State())
                && (if CutShort(old(State()), payload) then
                      var source := old(State()).sources[TagOf(payload)];
                      event == Some(if old(event).Some? then old(event).value.(source := source) else Event(source, 0, []))
                    else event == old(event))
              case Emit(_, e) => ok && isEvent && event == Some(e) && State() == old(State())
              case Quiet(st) => ok && !isEvent && State() == st && event == old(event)
      ensures event == ObjectAfter(old(event), old(State()), payload)
    {
      Ranges();
      var range := new Range(payload);
      var tag := range.Read(8);
      isEvent := false;
      if tag.None? {
        return false, false;
      }
      if IsSpecial(tag.value) {
        if tag.value == SOURCE_TAG {
          ok := ReadEventSource(range);
        } else if tag.value == WRITER_TAG {
          ok := ReadWriterProp(range);
        } else if tag.value == CLOCK_TAG {
          ok := ReadClockSync(range);
        } else {
          ok := true;
        }
      } else {
        ok := ReadEvent(tag.value, range);
        isEvent := true;
      }
    }

    method NextEvent(input: RangeEntryStream) returns (r: Answer)
      requires Valid()
      modifies this, eventSources, input.input
      ensures Valid()
      ensures var (answer, st, rest) := Advance(old(State()), old(input.input.data));
              r == answer && State() == st && input.input.data == rest
      ensures event == AdvanceObject(old(event), old(State()), old(input.input.data))
    {
      hide React, ObjectAfter, CutShort, SegmentedMap.Valid, SegmentedMap.Map, ReadText;
      ghost var start := Advance(State(), input.input.data);
      ghost var held := AdvanceObject(event, State(), input.input.data);
      while true
        invariant Valid()
        invariant Advance(State(), input.input.data) == start
        invariant AdvanceObject(event, State(), input.input.data) == held
        decreases |input.input.data|
      {
        var fetched := input.NextEntryPayload();
        match fetched {
          case Eof => return Null;
          case Threw => return Thrown;
          case Got(payload) =>
            if payload == [] {
              return Null;
            }
            var ok, isEvent := ReadPayload(payload);
            if !ok {
              return Thrown;
            }
            if isEvent {
              return NextIs(event.value);
            }
        }
      }
    }

    /**
     Over a file the same answers and effects, but an entry that is not whole stays to be read again; a file
     that was at its end is still there.
     */
    method NextEventOfFile(input: IstreamEntryStream) returns (r: Answer)
      requires Valid() && input.input.Valid()
      modifies this, eventSources, input, input.input
      ensures Valid() && input.input.Valid()
      ensures old(input.input.failed) ==>
                && r == Null && State() == old(State()) && event == old(event)
                && input.input.pos == old(input.input.pos) && input.input.failed
      ensures !old(input.input.failed) ==>
                var (answer, st, rest) := Advance(old(State()), old(input.input.Rest()));
                var (_, last) := Ending(old(State()), old(input.input.Rest()));
                && r == answer && State() == st
                && input.input.Rest() == (if NextPayload(last).Broken? then last else rest)
                && input.input.failed == (last == [])
                && event == AdvanceObject(old(event), old(State()), old(input.input.Rest()))
    {
      hide React, ObjectAfter, CutShort, SegmentedMap.Valid, SegmentedMap.Map, ReadText;
      ghost var start := Advance(State(), input.input.Rest());
      ghost var held := AdvanceObject(event, State(), input.input.Rest());
      ghost var ending := Ending(State(), input.input.Rest());
      while true
        invariant Valid() && input.input.Valid() && input.input.failed == old(input.input.failed)
        invariant old(input.input.failed) ==>
                    State() == old(State()) && event == old(event) && input.input.pos == old(input.input.pos)
        invariant Advance(State(), input.input.Rest()) == start
        invariant AdvanceObject(event, State(), input.input.Rest()) == held
        invariant Ending(State(), input.input.Rest()) == ending
        decreases |input.input.Rest()|
      {
        var fetched := input.NextEntryPayload();
        match fetched {
          case Eof => return Null;
          case Threw => return Thrown;
          case Got(payload) =>
            if payload == [] {
              return Null;
            }
            var ok, isEvent := ReadPayload(payload);
            if !ok {
              return Thrown;
            }
            if isEvent {
              return NextIs(event.value);
            }
        }
      }
    }
  }

  // ---------------------------------------------------------------- the event object after an exception

  /** A call answers by the entry it ends at, and just that entry may change the event held. */
  lemma {:induction false} CallEnds(held: Option<Event>, st: StreamState, input: bytes)
    ensures var (st', last) := Ending(st, input);
            && Advance(st, input) == Advance(st', last)
            && (NextPayload(last).Found? && NextPayload(last).payload != [] ==>
                  && !React(st', NextPayload(last).payload).Quiet?
                  && AdvanceObject(held, st, input) == ObjectAfter(held, st', NextPayload(last).payload))
            && (!(NextPayload(last).Found? && NextPayload(last).payload != []) ==> AdvanceObject(held, st, input) == held)
    decreases |input|
  {
    hide React;
    var next := NextPayload(input);
    if next.Found? && next.payload != [] && React(st, next.payload).Quiet? {
      CallEnds(held, React(st, next.payload).state, next.rest);
    }
  }

  /**
   The promise that an exception leaves the event stream as the offending entry found it: sources, writer and
   clock sync always are; the event object is if and only if the entry is not an event of a known source cut
   short, or the object has that source anyway.
   */
  lemma ThrownKeepsObject(held: Option<Event>, st: StreamState, input: bytes)
    requires Advance(st, input).0 == Thrown
    ensures var (st', last) := Ending(st, input);
            && Advance(st, input).1 == st'
            && (AdvanceObject(held, st, input) == held <==>
                  match NextPayload(last)
                  case Found(payload, _) =>
                    CutShort(st', payload) ==> held.Some? && held.value.source == st'.sources[TagOf(payload)]
                  case _ => true)
  {
    hide React;
    CallEnds(held, st, input);
    var (st', last) := Ending(st, input);
    if NextPayload(last).Found? && CutShort(st', NextPayload(last).payload) {
      CutShortIsRefused(st', NextPayload(last).payload);
    }
  }

  lemma CutShortIsRefused(st: StreamState, payload: bytes)
    requires CutShort(st, payload)
    ensures React(st, payload) == Refuse
  {
  }

  /** An entry that holds nothing but a known source id throws, and mixes that source with an older event. */
  lemma SourceOfRefusedEvent(old_: Event, st: StreamState, id: u64)
    requires !IsSpecial(id) && id in st.sources
    ensures Advance(st, Frame(LE(id, 8))) == (Thrown, st, [])
    ensures AdvanceObject(Some(old_), st, Frame(LE(id, 8))) == Some(old_.(source := st.sources[id]))
  {
    hide React, LE, FromLE;
    Ranges();
    var payload: text := LE(id, 8);
    ReadTextOf(payload, []);
    assert EncodeText(payload) + [] == Frame(payload);
    assert NextPayload(Frame(payload)) == Found(payload, []);
    FromLEOfLE(id, 8);
    assert payload[..8] == payload;
    CutShortIsRefused(st, payload);
  }

  // ---------------------------------------------------------------- whole streams

  /** What a client sees with an event: the event, and the writer and clock sync in force. */
  datatype Observation = Observation(event: Event, writer: WriterProp, clock: ClockSync)

  /** The observations of a client that carries on after every exception. */
  function ReadAll(st: StreamState, payloads: seq<text>): seq<Observation>
    decreases |payloads|
  {
    if payloads == [] then []
    else match React(st, payloads[0])
      case Refuse => ReadAll(st, payloads[1..])
      case Emit(_, event) => [Observation(event, st.writer, st.clock)] + ReadAll(st, payloads[1..])
      case Quiet(st') => ReadAll(st', payloads[1..])
  }

  function StateAfter(st: StreamState, payloads: seq<text>): StreamState
    decreases |payloads|
  {
    if payloads == [] then st
    else match React(st, payloads[0])
      case Quiet(st') => StateAfter(st', payloads[1..])
      case _ => StateAfter(st, payloads[1..])
  }

  /** The client's loop: call `nextEvent`, carry on after exceptions, stop at the first null. */
  function Drain(st: StreamState, input: bytes): seq<Observation>
    decreases |input|
  {
    var (answer, st', rest) := Advance(st, input);
    match answer
    case Null => []
    case Thrown => if |rest| < |input| then Drain(st', rest) else []  // one to three stray bytes never go away
    case NextIs(event) =>
      AdvanceShrinks(st, input);
      [Observation(event, st'.writer, st'.clock)] + Drain(st', rest)
  }

  lemma {:induction false} AdvanceShrinks(st: StreamState, input: bytes)
    ensures var (answer, _, rest) := Advance(st, input);
            |rest| <= |input| && (answer.NextIs? ==> |rest| < |input|)
    decreases |input|
  {
    var next := NextPayload(input);
    if next.Found? && next.payload != [] && React(st, next.payload).Quiet? {
      AdvanceShrinks(React(st, next.payload).state, next.rest);
    }
  }

  /** Driving `nextEvent` over the bytes of a framed stream is reading its payloads one by one. */
  lemma {:induction false} DrainReadsAll(st: StreamState, payloads: seq<text>)
    requires forall i :: 0 <= i < |payloads| ==> payloads[i] != []
    ensures Drain(st, FrameAll(payloads)) == ReadAll(st, payloads)
    decreases |payloads|
  {
    var input := FrameAll(payloads);
    if payloads != [] {
      var rest := FrameAll(payloads[1..]);
      ReadTextOf(payloads[0], rest);
      assert NextPayload(input) == Found(payloads[0], rest);
      match React(st, payloads[0])
      case Refuse => DrainReadsAll(st, payloads[1..]);
      case Emit(_, _) => DrainReadsAll(st, payloads[1..]);
      case Quiet(st') =>
        DrainReadsAll(st', payloads[1..]);
        assert Advance(st, input) == Advance(st', rest);
        DrainSkipsQuiet(st, input, st', rest);
    }
  }

  lemma {:induction false} StuckIsBroken(st: StreamState, input: bytes)
    requires var (answer, _, rest) := Advance(st, input); answer.Thrown? && |rest| == |input|
    ensures Advance(st, input) == (Thrown, st, input)
  {
    var next := NextPayload(input);
    if next.Found? && next.payload != [] && React(st, next.payload).Quiet? {
      AdvanceShrinks(React(st, next.payload).state, next.rest);
    }
  }

  lemma DrainSkipsQuiet(st: StreamState, input: bytes, st': StreamState, rest: bytes)
    requires Advance(st, input) == Advance(st', rest) && |rest| < |input|
    ensures Drain(st, input) == Drain(st', rest)
  {
    AdvanceShrinks(st', rest);
    var (answer, st'', rest') := Advance(st', rest);
    if answer.Thrown? && |rest'| == |rest| {
      StuckIsBroken(st', rest);
    }
  }

  lemma {:induction false} ReadAllAppend(st: StreamState, a: seq<text>, b: seq<text>)
    ensures ReadAll(st, a + b) == ReadAll(st, a) + ReadAll(StateAfter(st, a), b)
    ensures StateAfter(st, a + b) == StateAfter(StateAfter(st, a), b)
    decreases |a|
  {
    if a == [] {
      assert a + b == b;
    } else {
      assert (a + b)[0] == a[0] && (a + b)[1..] == a[1..] + b;
      var st' := match React(st, a[0]) case Quiet(st') => st' case _ => st;
      ReadAllAppend(st', a[1..], b);
    }
  }

  /** The stream with every payload deleted that is refused when its turn comes. */
  function WithoutRefused(st: StreamState, payloads: seq<text>): seq<text>
    decreases |payloads|
  {
    if payloads == [] then []
    else match React(st, payloads[0])
      case Refuse => WithoutRefused(st, payloads[1..])
      case Emit(_, _) => [payloads[0]] + WithoutRefused(st, payloads[1..])
      case Quiet(st') => [payloads[0]] + WithoutRefused(st', payloads[1..])
  }

  /** No payload is refused when its turn comes. */
  ghost predicate NothingRefused(st: StreamState, payloads: seq<text>) {
    forall i :: 0 <= i < |payloads| ==> React(StateAfter(st, payloads[..i]), payloads[i]) != Refuse
  }

  lemma NothingRefusedCons(st: StreamState, payload: text, more: seq<text>)
    requires React(st, payload) != Refuse
    requires NothingRefused(match React(st, payload) case Quiet(st') => st' case _ => st, more)
    ensures NothingRefused(st, [payload] + more)
  {
    var all := [payload] + more;
    forall i | 0 <= i < |all|
      ensures React(StateAfter(st, all[..i]), all[i]) != Refuse
    {
      if i > 0 {
        assert all[..i][1..] == more[..i - 1] && all[..i][0] == payload;
      }
    }
  }

  /**
   Carrying on after exceptions gives the same events, with the same writers and clock syncs, and ends
   in the same state, as reading the stream with the offending entries deleted - which throws nothing.
   */
  lemma {:induction false} RetryIsDeletion(st: StreamState, payloads: seq<text>)
    ensures ReadAll(st, payloads) == ReadAll(st, WithoutRefused(st, payloads))
    ensures StateAfter(st, payloads) == StateAfter(st, WithoutRefused(st, payloads))
    ensures NothingRefused(st, WithoutRefused(st, payloads))
    decreases |payloads|
  {
    if payloads != [] {
      match React(st, payloads[0])
      case Refuse => RetryIsDeletion(st, payloads[1..]);
      case Emit(_, _) =>
        RetryIsDeletion(st, payloads[1..]);
        NothingRefusedCons(st, payloads[0], WithoutRefused(st, payloads[1..]));
      case Quiet(st') =>
        RetryIsDeletion(st', payloads[1..]);
        NothingRefusedCons(st, payloads[0], WithoutRefused(st', payloads[1..]));
    }
  }

  /** Special entries with a tag nobody knows are read without complaint, and can be added to a stream or taken away. */
  lemma UnknownSpecialHasNoEffect(st: StreamState, before: seq<text>, payload: text, after: seq<text>)
    requires var tag := ReadUint(payload, 8);
             tag.Ok? && TWO_TO_63 <= tag.value < CLOCK_TAG
    ensures forall st' :: React(st', payload) == Quiet(st')
    ensures ReadAll(st, before + [payload] + after) == ReadAll(st, before + after)
    ensures StateAfter(st, before + [payload] + after) == StateAfter(st, before + after)
  {
    ReadAllAppend(st, before, after);
    assert before + [payload] + after == before + ([payload] + after);
    ReadAllAppend(st, before, [payload] + after);
    assert ([payload] + after)[1..] == after;
  }

  // ---------------------------------------------------------------- streams written by this library

  /** What a whole entry does to an event stream, without going through its bytes. */
  function ReactEntry(st: StreamState, e: Entry): Reaction
    requires e.EventEntry? ==> !IsSpecial(e.sourceId)
  {
    match e
    case SourceEntry(source) => Quiet(st.(sources := st.sources[source.id := source]))
    case WriterEntry(writer) => Quiet(st.(writer := writer))
    case ClockEntry(clock) => Quiet(st.(clock := clock))
    case EventEntry(id, clockValue, arguments) =>
      if id in st.sources then Emit(id, Event(st.sources[id], clockValue, arguments)) else Refuse
  }

  /** The bytes of an entry do just what the entry says. */
  lemma ReactToPayload(st: StreamState, e: Entry)
    requires EntryOk(e)
    ensures React(st, Payload(e)) == ReactEntry(st, e)
  {
    hide EncodeSource, EncodeWriter, EncodeClock, DecodeSource, DecodeWriter, DecodeClock, ReadUint, LE;
    Ranges();
    match e
    case SourceEntry(s) =>
      ReadUintOf(SOURCE_TAG, 8, EncodeSource(s));
      SourceRoundTrip(s, []);
      assert EncodeSource(s) + [] == EncodeSource(s);
    case WriterEntry(w) =>
      ReadUintOf(WRITER_TAG, 8, EncodeWriter(w));
      WriterRoundTrip(w, []);
      assert EncodeWriter(w) + [] == EncodeWriter(w);
    case ClockEntry(c) =>
      ReadUintOf(CLOCK_TAG, 8, EncodeClock(c));
      ClockRoundTrip(c, []);
      assert EncodeClock(c) + [] == EncodeClock(c);
    case EventEntry(id, clockValue, arguments) =>
      ReadUintOf(id, 8, LE(clockValue, 8) + arguments);
      ReadUintOf(clockValue, 8, arguments);
  }

  /** The eight bytes that tell event sources, writer properties and clock syncs in a stream, and what each does. */
  lemma ReactToTagBytes(st: StreamState, s: EventSource, w: WriterProp, c: ClockSync)
    ensures React(st, [0xFF, 0xFF, 0xFF, 0xFF, 0xFF, 0xFF, 0xFF, 0xFF] + EncodeSource(s))
            == Quiet(st.(sources := st.sources[s.id := s]))
    ensures React(st, [0xFE, 0xFF, 0xFF, 0xFF, 0xFF, 0xFF, 0xFF, 0xFF] + EncodeWriter(w)) == Quiet(st.(writer := w))
    ensures React(st, [0xFD, 0xFF, 0xFF, 0xFF, 0xFF, 0xFF, 0xFF, 0xFF] + EncodeClock(c)) == Quiet(st.(clock := c))
  {
    hide EncodeSource, EncodeWriter, EncodeClock, DecodeSource, DecodeWriter, DecodeClock, ReadUint, LE;
    Ranges();
    TagBytes();
    ReadUintOf(SOURCE_TAG, 8, EncodeSource(s));
    ReadUintOf(WRITER_TAG, 8, EncodeWriter(w));
    ReadUintOf(CLOCK_TAG, 8, EncodeClock(c));
    SourceRoundTrip(s, []);
    WriterRoundTrip(w, []);
    ClockRoundTrip(c, []);
    assert EncodeSource(s) + [] == EncodeSource(s) && EncodeWriter(w) + [] == EncodeWriter(w);
    assert EncodeClock(c) + [] == EncodeClock(c);
  }

  /** What throws: special entries that are cut short, however little, and events without a known source or clock. */
  lemma CutEntriesAreRefused(st: StreamState, s: EventSource, w: WriterProp, c: ClockSync, n: nat)
    ensures n < |EncodeSource(s)| ==>
              React(st, [0xFF, 0xFF, 0xFF, 0xFF, 0xFF, 0xFF, 0xFF, 0xFF] + EncodeSource(s)[..n]) == Refuse
    ensures n < |EncodeWriter(w)| ==>
              React(st, [0xFE, 0xFF, 0xFF, 0xFF, 0xFF, 0xFF, 0xFF, 0xFF] + EncodeWriter(w)[..n]) == Refuse
    ensures n < |EncodeClock(c)| ==>
              React(st, [0xFD, 0xFF, 0xFF, 0xFF, 0xFF, 0xFF, 0xFF, 0xFF] + EncodeClock(c)[..n]) == Refuse
  {
    hide EncodeSource, EncodeWriter, EncodeClock, DecodeSource, DecodeWriter, DecodeClock, ReadUint, LE;
    Ranges();
    TagBytes();
    if n < |EncodeSource(s)| {
      ReadUintOf(SOURCE_TAG, 8, EncodeSource(s)[..n]);
      CutSourceFails(s, n);
    }
    if n < |EncodeWriter(w)| {
      ReadUintOf(WRITER_TAG, 8, EncodeWriter(w)[..n]);
      CutWriterFails(w, n);
    }
    if n < |EncodeClock(c)| {
      ReadUintOf(CLOCK_TAG, 8, EncodeClock(c)[..n]);
      CutClockFails(c, n);
    }
  }

  lemma StrayEventsAreRefused(st: StreamState, id: u64, rest: bytes, short: bytes)
    requires !IsSpecial(id) && |short| < 8
    ensures id !in st.sources || |rest| < 8 ==> React(st, LE(id, 8) + rest) == Refuse
    ensures React(st, short) == Refuse
  {
    hide LE;
    Ranges();
    ReadUintOf(id, 8, rest);
  }

  /** An input that ends inside an entry throws. */
  lemma TruncatedThrows(st: StreamState, payload: text, n: nat)
    requires 0 < n < |Frame(payload)|
    ensures Advance(st, Frame(payload)[..n]).0 == Thrown
  {
    Ranges();
    FromLEOfLE(|payload|, 4);
    var b := Frame(payload)[..n];
    if n >= 4 {
      assert b[..4] == LE(|payload|, 4);
    }
  }

  /** Tags are special if and only if their last byte has its top bit set. */
  lemma SpecialIsTopBit(b: bytes)
    requires |b| == 8
    ensures FromLE(b) < TWO_TO_64 && (IsSpecial(FromLE(b)) <==> b[7] >= 0x80)
  {
    Ranges();
    Range256Of7();
    FromLEBound(b);
    FromLEBound(b[..7]);
    FromLESplit(b, 7);
    assert b[7..] == [b[7]] && FromLE([b[7]]) == b[7] + 256 * FromLE([b[7]][1..]);
  }

  lemma {:induction false} FromLESplit(b: bytes, k: nat)
    requires k <= |b|
    ensures FromLE(b) == FromLE(b[..k]) + Range256(k) * FromLE(b[k..])
  {
    if k > 0 {
      FromLESplit(b[1..], k - 1);
      assert b[1..][..k - 1] == b[..k][1..] && b[1..][k - 1..] == b[k..];
      assert 256 * (Range256(k - 1) * FromLE(b[k..])) == Range256(k) * FromLE(b[k..]);
    }
  }

  /** An empty entry is the end of what a call reads, as the end of the input is. */
  lemma EmptyEntryIsEnd(st: StreamState, rest: bytes)
    ensures Advance(st, [0, 0, 0, 0] + rest) == (Null, st, rest)
    ensures Advance(st, []) == (Null, st, [])
  {
    SmallLE(0);
    ReadTextOf([], rest);
    assert EncodeText([]) + rest == [0, 0, 0, 0] + rest;
  }

  /** The state after an entry of which at most the event is refused. */
  function StepEntry(st: StreamState, e: Entry): StreamState {
    match e
    case SourceEntry(source) => st.(sources := st.sources[source.id := source])
    case WriterEntry(writer) => st.(writer := writer)
    case ClockEntry(clock) => st.(clock := clock)
    case EventEntry(_, _, _) => st
  }

  function StateAfterEntries(st: StreamState, es: seq<Entry>): StreamState {
    if es == [] then st
    else StepEntry(StateAfterEntries(st, es[..|es| - 1]), es[|es| - 1])
  }

  lemma StateAfterOne(st: StreamState, e: Entry)
    requires EntryOk(e)
    ensures StateAfter(st, [Payload(e)]) == StepEntry(st, e)
  {
    ReactToPayload(st, e);
    hide React, PayloadBytes;
    assert [Payload(e)][1..] == [];
  }

  lemma {:induction false} StateAfterPayloads(st: StreamState, es: seq<Entry>)
    requires forall i :: 0 <= i < |es| ==> EntryOk(es[i])
    ensures StateAfter(st, Payloads(es)) == StateAfterEntries(st, es)
  {
    hide React, PayloadBytes, StepEntry;
    if es != [] {
      var n := |es| - 1;
      StateAfterPayloads(st, es[..n]);
      assert Payloads(es) == Payloads(es[..n]) + [Payload(es[n])];
      ReadAllAppend(st, Payloads(es[..n]), [Payload(es[n])]);
      StateAfterOne(StateAfterEntries(st, es[..n]), es[n]);
    }
  }

  /** No event of `es` is refused: each names a source declared before it. */
  ghost predicate EventsHaveSources(es: seq<Entry>) {
    forall i :: 0 <= i < |es| && es[i].EventEntry? ==>
      exists j :: 0 <= j < i && es[j].SourceEntry? && es[j].source.id == es[i].sourceId
  }

  lemma {:induction false} DeclaredIsKnown(st: StreamState, es: seq<Entry>, j: nat)
    requires j < |es| && es[j].SourceEntry?
    ensures es[j].source.id in StateAfterEntries(st, es).sources
  {
    if j < |es| - 1 {
      DeclaredIsKnown(st, es[..|es| - 1], j);
    }
  }

  lemma NotRefusedAt(es: seq<Entry>, i: nat)
    requires forall k :: 0 <= k < |es| ==> EntryOk(es[k])
    requires i < |es| && EventsHaveSources(es)
    ensures React(StateAfter(FRESH, Payloads(es)[..i]), Payloads(es)[i]) != Refuse
  {
    hide React, StateAfter, StepEntry, PayloadBytes, StateAfterEntries, EntryOk, Payload;
    assert Payloads(es[..i]) == Payloads(es)[..i] by { hide Payloads; }
    hide Payloads;
    StateAfterPayloads(FRESH, es[..i]);
    ReactToPayload(StateAfter(FRESH, Payloads(es)[..i]), es[i]);
    if es[i].EventEntry? {
      var j :| 0 <= j < i && es[j].SourceEntry? && es[j].source.id == es[i].sourceId;
      DeclaredIsKnown(FRESH, es[..i], j);
    }
  }

  /** A stream where every event is preceded by its source reads back with nothing refused. */
  lemma SourcesFirstReadsBack(es: seq<Entry>)
    requires forall i :: 0 <= i < |es| ==> EntryOk(es[i])
    requires EventsHaveSources(es)
    ensures NothingRefused(FRESH, Payloads(es))
  {
    hide React, StateAfter, EntryOk, EventsHaveSources;
    forall i | 0 <= i < |Payloads(es)|
      ensures React(StateAfter(FRESH, Payloads(es)[..i]), Payloads(es)[i]) != Refuse
    {
      NotRefusedAt(es, i);
    }
  }
}
