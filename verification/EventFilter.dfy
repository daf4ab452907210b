/** The event filter, and why reading its output is reading its input and keeping the allowed events. */
module EventFilters {
  import opened Bytes
  import opened Entries
  import opened EventStreams

  /** An output that appends what it is given. */
  class VectorOutputStream {
    var vector: bytes

    constructor ()
      ensures vector == []
    {
      vector := [];
    }

    method Write(b: bytes)
      modifies this
      ensures vector == old(vector) + b
    {
      vector := vector + b;
    }

    method Clear()
      modifies this
      ensures vector == []
    {
      vector := [];
    }
  }

  type Predicate = EventSource -> bool

  // ---------------------------------------------------------------- one payload

  /** What the filter does with one payload: pass it on or not, and the allowed ids from then on. */
  datatype Verdict = Pass(allowed: set<nat>) | Drop | Reject

  function Judge(isAllowed: Predicate, allowed: set<nat>, payload: bytes): Verdict {
    match ReadUint(payload, 8)
    case Fail => Reject
    case Ok(tag, rest) =>
      if tag >= TWO_TO_63 then
        if tag == SOURCE_TAG then
          match DecodeSource(rest)
          case Fail => Reject
          case Ok(source, _) => Pass(if isAllowed(source) then allowed + {source.id} else allowed)
        else Pass(allowed)
      else if tag in allowed then Pass(allowed)
      else Drop
  }

  /** What `writeAllowed` leaves behind. */
  datatype Filtered = Filtered(ok: bool, out: bytes, allowed: set<nat>)

  /** One turn of `writeAllowed`: whether the entry is valid, what is written for it, and what follows it. */
  datatype Turn = Turn(ok: bool, written: bytes, allowed: set<nat>, rest: bytes)

  function FilterOne(isAllowed: Predicate, allowed: set<nat>, buffer: bytes): (t: Turn)
    ensures if t.ok then |t.rest| < |buffer| else t.written == [] && t.allowed == allowed
  {
    match NextPayload(buffer)
    case End => Turn(false, [], allowed, [])
    case Broken(rest) => Turn(false, [], allowed, rest)
    case Found(payload, rest) =>
      match Judge(isAllowed, allowed, payload)
      case Reject => Turn(false, [], allowed, rest)
      case Drop => Turn(true, [], allowed, rest)
      case Pass(allowed') => Turn(true, Frame(payload), allowed', rest)
  }

  /** `writeAllowed` on a buffer: what is written before the end, or before it throws. */
  function FilterBytes(isAllowed: Predicate, allowed: set<nat>, buffer: bytes): Filtered
    decreases |buffer|
  {
    if buffer == [] then Filtered(true, [], allowed)
    else
      var t := FilterOne(isAllowed, allowed, buffer);
      if !t.ok then Filtered(false, [], allowed)
      else
        var more := FilterBytes(isAllowed, t.allowed, t.rest);
        Filtered(more.ok, t.written + more.out, more.allowed)
  }

  class EventFilter {
    const isAllowed: Predicate
    var allowedSourceIds: set<nat>

    constructor (isAllowed: Predicate)
      ensures this.isAllowed == isAllowed && allowedSourceIds == {}
    {
      this.isAllowed := isAllowed;
      allowedSourceIds := {};
    }

    /** Looks at the tag of an entry, and inspects it further if it is an event source. */
    method JudgePayload(view: bytes) returns (ok: bool, write: bool)
      modifies this
      ensures match Judge(isAllowed, old(allowedSourceIds), view)
              case Reject => !ok && allowedSourceIds == old(allowedSourceIds)
              case Drop => ok && !write && allowedSourceIds == old(allowedSourceIds)
              case Pass(allowed) => ok && write && allowedSourceIds == allowed
    {
      Ranges();
      ok, write := true, true;
      var payload := new Range(view);
      var tag := payload.Read(8);
      if tag.None? {
        return false, false;
      }
      if IsSpecial(tag.value) {
        if tag.value == SOURCE_TAG {
          var source := DeserializeSource(payload);
          if source.None? {
            return false, false;
          }
          if isAllowed(source.value) {
            allowedSourceIds := allowedSourceIds + {source.value.id};
          }
        }
      } else if tag.value !in allowedSourceIds {
        write := false;
      }
    }

    /** Reads the size and the payload of the next entry, and the bytes of both together. */
    static method NextEntry(entries: Range) returns (payload: Option<bytes>, whole: bytes)
      modifies entries
      ensures match NextPayload(old(entries.data))
              case Found(p, rest) => payload == Some(p) && whole == Frame(p) && entries.data == rest
              case _ => payload == None
    {
      Ranges();
      whole := [];
      var entry := new Range(entries.data);
      var size := entries.Read(4);
      if size.None? {
        return None, [];
      }
      payload := entries.View(size.value);
      if payload.Some? {
        ReadTextOnly(old(entries.data));
        var both := entry.View(size.value + 4);
        whole := both.value;
      }
    }

    /** One turn of the loop: the entry is written, left out, or found invalid. */
    method FilterEntry(entries: Range, out: VectorOutputStream) returns (ok: bool, written: bytes)
      modifies this, out, entries
      ensures var t := FilterOne(isAllowed, old(allowedSourceIds), old(entries.data));
              && ok == t.ok && written == t.written && allowedSourceIds == t.allowed
              && out.vector == old(out.vector) + t.written
              && (ok ==> entries.data == t.rest)
    {
      var payload, entry := NextEntry(entries);
      if payload.None? {
        return false, [];
      }
      var valid, write := JudgePayload(payload.value);
      if !valid {
        return false, [];
      }
      if write {
        out.Write(entry);
      }
      return true, if write then entry else [];
    }

    method WriteAllowed(buffer: bytes, out: VectorOutputStream) returns (ok: bool, totalWriteSize: nat)
      modifies this, out
      ensures var f := FilterBytes(isAllowed, old(allowedSourceIds), buffer);
              && ok == f.ok
              && out.vector == old(out.vector) + f.out
              && totalWriteSize == |f.out|
              && allowedSourceIds == f.allowed
    {
      hide FilterOne;
      ghost var whole := FilterBytes(isAllowed, allowedSourceIds, buffer);
      ghost var written := [];
      totalWriteSize := 0;
      var entries := new Range(buffer);
      while entries.data != []
        invariant fresh(entries)
        invariant out.vector == old(out.vector) + written && totalWriteSize == |written|
        invariant var f := FilterBytes(isAllowed, allowedSourceIds, entries.data);
                  whole.ok == f.ok && whole.allowed == f.allowed && whole.out == written + f.out
        decreases |entries.data|
      {
        var valid, written' := FilterEntry(entries, out);
        if !valid {
          return false, totalWriteSize;
        }
        totalWriteSize := totalWriteSize + |written'|;
        written := written + written';
      }
      return true, totalWriteSize;
    }
  }

  // ---------------------------------------------------------------- whole payload lists

  /** The filter on a list of payloads none of which it rejects. */
  function FilterPayloads(isAllowed: Predicate, allowed: set<nat>, payloads: seq<text>): seq<text>
    decreases |payloads|
  {
    if payloads == [] then []
    else match Judge(isAllowed, allowed, payloads[0])
      case Pass(allowed') => [payloads[0]] + FilterPayloads(isAllowed, allowed', payloads[1..])
      case _ => FilterPayloads(isAllowed, allowed, payloads[1..])
  }

  function AllowedAfter(isAllowed: Predicate, allowed: set<nat>, payloads: seq<text>): set<nat>
    decreases |payloads|
  {
    if payloads == [] then allowed
    else match Judge(isAllowed, allowed, payloads[0])
      case Pass(allowed') => AllowedAfter(isAllowed, allowed', payloads[1..])
      case _ => AllowedAfter(isAllowed, allowed, payloads[1..])
  }

  /** Every payload has a tag, and every event source among them is readable. */
  predicate Filterable(payload: bytes) {
    var tag := ReadUint(payload, 8);
    tag.Ok? && (tag.value == SOURCE_TAG ==> DecodeSource(tag.rest).Ok?)
  }

  /** On whole entries `writeAllowed` succeeds just when all are filterable, and then writes whole entries. */
  lemma {:induction false} FilterBytesIsFilterPayloads(isAllowed: Predicate, allowed: set<nat>, payloads: seq<text>)
    ensures var f := FilterBytes(isAllowed, allowed, FrameAll(payloads));
            && (f.ok <==> forall i :: 0 <= i < |payloads| ==> Filterable(payloads[i]))
            && (f.ok ==> f.out == FrameAll(FilterPayloads(isAllowed, allowed, payloads)))
            && (f.ok ==> f.allowed == AllowedAfter(isAllowed, allowed, payloads))
    decreases |payloads|
  {
    if payloads != [] {
      ReadTextOf(payloads[0], FrameAll(payloads[1..]));
      var allowed' := match Judge(isAllowed, allowed, payloads[0]) case Pass(a) => a case _ => allowed;
      FilterBytesIsFilterPayloads(isAllowed, allowed', payloads[1..]);
    }
  }

  lemma FilterOneOfWhole(isAllowed: Predicate, allowed: set<nat>, a: bytes, b: bytes)
    requires a != [] && Unframe(a).Some?
    ensures var t := FilterOne(isAllowed, allowed, a);
            FilterOne(isAllowed, allowed, a + b) == t.(rest := t.rest + b) && Unframe(t.rest).Some?
  {
    var payload, rest := ReadText(a).value, ReadText(a).rest;
    ReadTextOnly(a);
    assert a + b == Frame(payload) + (rest + b);
    ReadTextOf(payload, rest + b);
    assert NextPayload(a + b) == Found(payload, rest + b);
  }

  /** Cutting the input at an entry boundary into two calls changes nothing. */
  lemma {:induction false} FilterInTwoCalls(isAllowed: Predicate, allowed: set<nat>, a: bytes, b: bytes)
    requires Unframe(a).Some?
    ensures var whole, first := FilterBytes(isAllowed, allowed, a + b), FilterBytes(isAllowed, allowed, a);
            if first.ok then
              var second := FilterBytes(isAllowed, first.allowed, b);
              whole == Filtered(second.ok, first.out + second.out, second.allowed)
            else whole == first
    decreases |a|
  {
    hide FilterOne;
    if a == [] {
      assert a + b == b;
    } else {
      FilterOneOfWhole(isAllowed, allowed, a, b);
      var t := FilterOne(isAllowed, allowed, a);
      if t.ok {
        FilterInTwoCalls(isAllowed, t.allowed, t.rest, b);
      }
    }
  }

  /** An input that ends inside an entry throws, with all whole entries before it dealt with. */
  lemma TruncatedInput(isAllowed: Predicate, allowed: set<nat>, payloads: seq<text>, last: text, n: nat)
    requires 0 < n < |Frame(last)|
    ensures var f := FilterBytes(isAllowed, allowed, FrameAll(payloads) + Frame(last)[..n]);
            var whole := FilterBytes(isAllowed, allowed, FrameAll(payloads));
            !f.ok && f.out == whole.out && f.allowed == whole.allowed
  {
    Ranges();
    var part := Frame(last)[..n];
    FromLEOfLE(|last|, 4);
    if n >= 4 {
      assert part[..4] == LE(|last|, 4);
    }
    EndsAtPart(isAllowed, part);
    hide FilterBytes, FrameAll, Frame;
    UnframeOfFrameAll(payloads);
    FilterInTwoCalls(isAllowed, allowed, FrameAll(payloads), part);
    EndsAtPart(isAllowed, part);
  }

  lemma EndsAtPart(isAllowed: Predicate, part: bytes)
    requires NextPayload(part).Broken?
    ensures forall allowed :: FilterBytes(isAllowed, allowed, part) == Filtered(false, [], allowed)
  {
  }

  /** One call of `writeAllowed` for each of `chunks`, until one throws. */
  function FilterCalls(isAllowed: Predicate, allowed: set<nat>, chunks: seq<bytes>): Filtered
    decreases |chunks|
  {
    if chunks == [] then Filtered(true, [], allowed)
    else
      var first := FilterBytes(isAllowed, allowed, chunks[0]);
      if !first.ok then first
      else
        var more := FilterCalls(isAllowed, first.allowed, chunks[1..]);
        Filtered(more.ok, first.out + more.out, more.allowed)
  }

  /** Any number of calls, cut at entry boundaries, do what one call on the whole input does. */
  lemma {:induction false} FilterInManyCalls(isAllowed: Predicate, allowed: set<nat>, chunks: seq<bytes>)
    requires forall i :: 0 <= i < |chunks| - 1 ==> Unframe(chunks[i]).Some?
    ensures FilterCalls(isAllowed, allowed, chunks) == FilterBytes(isAllowed, allowed, Concat(chunks))
    decreases |chunks|
  {
    hide FilterBytes, Unframe;
    if chunks == [] {
      FilterNothing(isAllowed, allowed);
    } else if |chunks| == 1 {
      assert chunks == [chunks[0]];
      ConcatOne(chunks[0]);
      var first := FilterBytes(isAllowed, allowed, chunks[0]);
      assert first.out + [] == first.out;
    } else {
      FilterInTwoCalls(isAllowed, allowed, chunks[0], Concat(chunks[1..]));
      var first := FilterBytes(isAllowed, allowed, chunks[0]);
      if first.ok {
        FilterInManyCalls(isAllowed, first.allowed, chunks[1..]);
      }
    }
  }

  lemma FilterNothing(isAllowed: Predicate, allowed: set<nat>)
    ensures FilterBytes(isAllowed, allowed, []) == Filtered(true, [], allowed)
  {
  }

  // ---------------------------------------------------------------- filtering commutes with reading

  /** The observations whose event source the predicate allows. */
  function AllowedOnly(isAllowed: Predicate, observations: seq<Observation>): seq<Observation> {
    if observations == [] then []
    else (if isAllowed(observations[0].event.source) then [observations[0]] else []) + AllowedOnly(isAllowed, observations[1..])
  }

  /** The filter knows of every declared source the predicate allows, and of declared sources only. */
  ghost predicate Knows(isAllowed: Predicate, sources: map<nat, EventSource>, allowed: set<nat>) {
    && (forall id :: id in allowed ==> id in sources)
    && (forall id :: id in sources && isAllowed(sources[id]) ==> id in allowed)
  }

  /**
   The number of events that follow a declaration of their source the predicate disallows, although
   an earlier declaration of the same id was allowed.
   */
  function Leaks(isAllowed: Predicate, st: StreamState, allowed: set<nat>, payloads: seq<text>): nat
    decreases |payloads|
  {
    if payloads == [] then 0
    else
      var allowed' := match Judge(isAllowed, allowed, payloads[0]) case Pass(a) => a case _ => allowed;
      match React(st, payloads[0])
      case Refuse => Leaks(isAllowed, st, allowed', payloads[1..])
      case Quiet(st') => Leaks(isAllowed, st', allowed', payloads[1..])
      case Emit(id, event) =>
        (if id in allowed && !isAllowed(event.source) then 1 else 0) + Leaks(isAllowed, st, allowed', payloads[1..])
  }

  /** What the filter and the reader do with the same payload fit together. */
  lemma JudgeMeetsReact(isAllowed: Predicate, st: StreamState, allowed: set<nat>, payload: bytes)
    requires Knows(isAllowed, st.sources, allowed) && Filterable(payload)
    ensures match React(st, payload)
            case Quiet(st') =>
              var v := Judge(isAllowed, allowed, payload);
              v.Pass? && Knows(isAllowed, st'.sources, v.allowed)
            case Emit(id, event) =>
              && Judge(isAllowed, allowed, payload) == (if id in allowed then Pass(allowed) else Drop)
              && id in st.sources && event.source == st.sources[id]
            case Refuse =>
              var v := Judge(isAllowed, allowed, payload);
              v == Pass(allowed) || v == Drop
  {
    Ranges();
  }

  /**
   Decoding the filter's output against decoding its input and dropping the disallowed events: the
   former is longer by the number of leaks, and the two are equal - events, sources, writers and
   clock syncs - if and only if there are none.
   */
  lemma {:induction false} FilterCommutesWithReading(isAllowed: Predicate, st: StreamState, allowed: set<nat>, payloads: seq<text>)
    requires Knows(isAllowed, st.sources, allowed)
    requires forall i :: 0 <= i < |payloads| ==> Filterable(payloads[i])
    ensures var filtered := ReadAll(st, FilterPayloads(isAllowed, allowed, payloads));
            var expected := AllowedOnly(isAllowed, ReadAll(st, payloads));
            var leaks := Leaks(isAllowed, st, allowed, payloads);
            && |filtered| == |expected| + leaks
            && (filtered == expected <==> leaks == 0)
    ensures StateAfter(st, FilterPayloads(isAllowed, allowed, payloads)) == StateAfter(st, payloads)
    decreases |payloads|
  {
    if payloads != [] {
      var p, more := payloads[0], payloads[1..];
      assert Filterable(p);
      JudgeMeetsReact(isAllowed, st, allowed, p);
      match React(st, p)
      case Quiet(st') =>
        FilterCommutesWithReading(isAllowed, st', Judge(isAllowed, allowed, p).allowed, more);
      case Refuse =>
        FilterCommutesWithReading(isAllowed, st, allowed, more);
      case Emit(id, event) =>
        FilterCommutesWithReading(isAllowed, st, allowed, more);
        var seen := Observation(event, st.writer, st.clock);
        assert ReadAll(st, payloads) == [seen] + ReadAll(st, more);
        assert ([seen] + ReadAll(st, more))[1..] == ReadAll(st, more);
        if id in allowed {
          var kept := FilterPayloads(isAllowed, allowed, more);
          assert ([p] + kept)[1..] == kept;
          assert ReadAll(st, [p] + kept) == [seen] + ReadAll(st, kept);
          if isAllowed(event.source) {
            assert ([seen] + ReadAll(st, kept))[1..] == ReadAll(st, kept);
          }
        }
    }
  }

  /** No source id is declared with a verdict other than its earlier one. */
  ghost predicate VerdictsStay(isAllowed: Predicate, st: StreamState, payloads: seq<text>)
    decreases |payloads|
  {
    payloads == [] ||
    match React(st, payloads[0])
    case Quiet(st') =>
      && (forall id :: id in st.sources && id in st'.sources ==> isAllowed(st.sources[id]) == isAllowed(st'.sources[id]))
      && VerdictsStay(isAllowed, st', payloads[1..])
    case _ => VerdictsStay(isAllowed, st, payloads[1..])
  }

  lemma {:induction false} SteadyVerdictsDoNotLeak(isAllowed: Predicate, st: StreamState, allowed: set<nat>, payloads: seq<text>)
    requires Knows(isAllowed, st.sources, allowed)
    requires forall id :: id in allowed ==> isAllowed(st.sources[id])
    requires forall i :: 0 <= i < |payloads| ==> Filterable(payloads[i])
    requires VerdictsStay(isAllowed, st, payloads)
    ensures Leaks(isAllowed, st, allowed, payloads) == 0
    decreases |payloads|
  {
    if payloads != [] {
      var p := payloads[0];
      assert Filterable(p);
      JudgeMeetsReact(isAllowed, st, allowed, p);
      match React(st, p)
      case Quiet(st') =>
        var allowed' := Judge(isAllowed, allowed, p).allowed;
        SteadyVerdictsDoNotLeak(isAllowed, st', allowed', payloads[1..]);
      case Refuse => SteadyVerdictsDoNotLeak(isAllowed, st, allowed, payloads[1..]);
      case Emit(_, _) => SteadyVerdictsDoNotLeak(isAllowed, st, allowed, payloads[1..]);
    }
  }

  /**
   From fresh, on bytes of whole filterable entries where no id changes its verdict: reading what
   `writeAllowed` wrote gives exactly the allowed events of the input.
   */
  lemma FilteredStreamReadsAsAllowedEvents(isAllowed: Predicate, payloads: seq<text>)
    requires forall i :: 0 <= i < |payloads| ==> Filterable(payloads[i])
    requires VerdictsStay(isAllowed, FRESH, payloads)
    ensures var f := FilterBytes(isAllowed, {}, FrameAll(payloads));
            f.ok && Drain(FRESH, f.out) == AllowedOnly(isAllowed, Drain(FRESH, FrameAll(payloads)))
  {
    Ranges();
    FilterBytesIsFilterPayloads(isAllowed, {}, payloads);
    FilterCommutesWithReading(isAllowed, FRESH, {}, payloads);
    SteadyVerdictsDoNotLeak(isAllowed, FRESH, {}, payloads);
    forall i | 0 <= i < |payloads|
      ensures payloads[i] != []
    {
      assert Filterable(payloads[i]);
    }
    DrainReadsAll(FRESH, payloads);
    FilteredAreInput(isAllowed, {}, payloads);
    DrainReadsAll(FRESH, FilterPayloads(isAllowed, {}, payloads));
  }

  /** So for an input that reaches the filter in any number of chunks of whole entries. */
  lemma FilteredChunksReadAsAllowedEvents(isAllowed: Predicate, chunks: seq<bytes>, payloads: seq<text>)
    requires (forall i :: 0 <= i < |chunks| ==> Unframe(chunks[i]).Some?) && Concat(chunks) == FrameAll(payloads)
    requires forall i :: 0 <= i < |payloads| ==> Filterable(payloads[i])
    requires VerdictsStay(isAllowed, FRESH, payloads)
    ensures var f := FilterCalls(isAllowed, {}, chunks);
            f.ok && Drain(FRESH, f.out) == AllowedOnly(isAllowed, Drain(FRESH, Concat(chunks)))
  {
    hide FilterBytes, FilterCalls, Unframe, Concat, FrameAll, Filterable, VerdictsStay, Drain, AllowedOnly;
    FilterInManyCalls(isAllowed, {}, chunks);
    FilteredStreamReadsAsAllowedEvents(isAllowed, payloads);
  }

  lemma {:induction false} FilteredAreInput(isAllowed: Predicate, allowed: set<nat>, payloads: seq<text>)
    requires forall i :: 0 <= i < |payloads| ==> payloads[i] != []
    ensures forall i :: 0 <= i < |FilterPayloads(isAllowed, allowed, payloads)| ==> FilterPayloads(isAllowed, allowed, payloads)[i] != []
    decreases |payloads|
  {
    if payloads != [] {
      var allowed' := match Judge(isAllowed, allowed, payloads[0]) case Pass(a) => a case _ => allowed;
      FilteredAreInput(isAllowed, allowed', payloads[1..]);
    }
  }

  /**
   The condition is needed: declare an id with an allowed source, then with a disallowed one, and an
   event of the latter stays in the output.
   */
  lemma RedeclaredSourceLeaks(isAllowed: Predicate, s: EventSource, s': EventSource, clockValue: u64, arguments: bytes)
    requires s.id == s'.id && isAllowed(s) && !isAllowed(s')
    requires var es := [SourceEntry(s), SourceEntry(s'), EventEntry(s.id, clockValue, arguments)];
             forall i :: 0 <= i < |es| ==> EntryOk(es[i])
    ensures var es := [SourceEntry(s), SourceEntry(s'), EventEntry(s.id, clockValue, arguments)];
            && Leaks(isAllowed, FRESH, {}, Payloads(es)) == 1
            && AllowedOnly(isAllowed, ReadAll(FRESH, Payloads(es))) == []
  {
    hide React, Judge, PayloadBytes;
    var es := [SourceEntry(s), SourceEntry(s'), EventEntry(s.id, clockValue, arguments)];
    var p0, p1, p2 := Payload(es[0]), Payload(es[1]), Payload(es[2]);
    assert Payloads(es) == [p0, p1, p2];
    var st1 := FRESH.(sources := map[s.id := s]);
    var st2 := FRESH.(sources := map[s.id := s']);
    ReactToPayload(FRESH, es[0]);
    ReactToPayload(st1, es[1]);
    ReactToPayload(st2, es[2]);
    JudgeSource(isAllowed, {}, s);
    JudgeSource(isAllowed, {s.id}, s');
    JudgeEvent(isAllowed, {s.id}, s.id, clockValue, arguments);
    assert {} + {s.id} == {s.id} && st1.sources[s.id := s'] == st2.sources;
    var seen := Observation(Event(s', clockValue, arguments), FRESH.writer, FRESH.clock);
    assert [p0, p1, p2][1..] == [p1, p2] && [p1, p2][1..] == [p2] && [p2][1..] == [];
    assert Leaks(isAllowed, st2, {s.id}, [p2]) == 1;
    assert Leaks(isAllowed, st1, {s.id}, [p1, p2]) == 1;
    assert ReadAll(st2, [p2]) == [seen];
    assert ReadAll(st1, [p1, p2]) == [seen];
    assert [seen][1..] == [];
  }

  lemma JudgeEvent(isAllowed: Predicate, allowed: set<nat>, id: u64, clockValue: u64, arguments: bytes)
    requires id in allowed && EntryOk(EventEntry(id, clockValue, arguments))
    ensures Judge(isAllowed, allowed, Payload(EventEntry(id, clockValue, arguments))) == Pass(allowed)
  {
    Ranges();
    ReadUintOf(id, 8, LE(clockValue, 8) + arguments);
  }

  lemma JudgeSource(isAllowed: Predicate, allowed: set<nat>, s: EventSource)
    requires EntryOk(SourceEntry(s))
    ensures Judge(isAllowed, allowed, Payload(SourceEntry(s))) == Pass(if isAllowed(s) then allowed + {s.id} else allowed)
  {
    Ranges();
    ReadUintOf(SOURCE_TAG, 8, EncodeSource(s));
    SourceRoundTrip(s, []);
    assert EncodeSource(s) + [] == EncodeSource(s);
  }
}
