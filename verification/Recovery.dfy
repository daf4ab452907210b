/**
 Crash recovery: finding queues and metadata in a memory dump, taking the unread entries out of them,
 and writing them in an order that reads back.
 */
module Recovery {
  import opened Bytes
  import opened Entries
  import opened Ring
  import opened EventStreams

  // ---------------------------------------------------------------- commits that are whole entries

  /** Every commit is one entry: `addEvent` commits once, after its last field. */
  ghost predicate CommitsAreEntries(log: seq<bytes>, payloads: seq<text>) {
    |log| == |payloads| && forall i :: 0 <= i < |log| ==> log[i] == Frame(payloads[i])
  }

  lemma {:induction false} ConcatOfEntries(log: seq<bytes>, payloads: seq<text>, i: nat, j: nat)
    requires CommitsAreEntries(log, payloads) && i <= j <= |log|
    ensures Concat(log[i..j]) == FrameAll(payloads[i..j])
    decreases j - i
  {
    if i < j {
      ConcatOfEntries(log, payloads, i + 1, j);
      assert log[i..j][1..] == log[i + 1..j] && payloads[i..j][1..] == payloads[i + 1..j];
    }
  }

  /** Both halves of every view are, separately, whole entries, however often the ring wrapped. */
  lemma HalvesAreWholeEntries(s: State, payloads: seq<text>) returns (m: nat)
    requires Reachable(s) && s.rd.pc.RReading? && CommitsAreEntries(s.h.log, payloads)
    ensures ViewFits(s.rd.pc.view, s.q.buf)
    ensures s.h.rel <= m <= s.rd.snap <= |payloads|
    ensures Unframe(Part1(s.rd.pc.view, s.q.buf)) == Some(payloads[s.h.rel..m])
    ensures Unframe(Part2(s.rd.pc.view, s.q.buf)) == Some(payloads[m..s.rd.snap])
  {
    ReachableInv(s);
    m := ViewContents(s.q, s.h, s.rd.readEnd, s.rd.snap);
    ConcatOfEntries(s.h.log, payloads, s.h.rel, m);
    ConcatOfEntries(s.h.log, payloads, m, s.rd.snap);
    UnframeOfFrameAll(payloads[s.h.rel..m]);
    UnframeOfFrameAll(payloads[m..s.rd.snap]);
  }

  // ---------------------------------------------------------------- one queue

  /** Whether the buffer is a run of whole entries. */
  method CheckEntryBuffer(buffer: bytes) returns (ok: bool)
    ensures ok <==> Unframe(buffer).Some?
  {
    Ranges();
    var range := new Range(buffer);
    while range.data != []
      invariant Unframe(buffer).Some? <==> Unframe(range.data).Some?
      decreases |range.data|
    {
      var size := range.Read(4);
      if size.None? {
        return false;
      }
      var view := range.View(size.value);
      if view.None? {
        return false;
      }
    }
    return true;
  }

  method CheckQueueInvariants(queue: Shared) returns (ok: bool)
    ensures ok <==> IndicesInRange(queue)
    ensures ok <==> queue.w <= |queue.buf| && queue.e <= |queue.buf| && queue.r <= |queue.buf|
  {
    if queue.w > queue.Capacity() {
      return false;
    }
    if queue.e > queue.Capacity() {
      return false;
    }
    if queue.r > queue.Capacity() {
      return false;
    }
    return true;
  }

  /** The unread bytes of a dumped queue, if its indices are sane and the bytes are whole entries. */
  function RecoverQueue(queue: Shared): Option<bytes> {
    if !IndicesInRange(queue) || !ViewFits(MakeView(queue.r, queue.w, queue.e), queue.buf) then None
    else
      var data := ViewBytes(MakeView(queue.r, queue.w, queue.e), queue.buf);
      if Unframe(data).Some? then Some(data) else None
  }

  /** The part of `readData` after the queue and its buffer were read from the input. */
  method ReadQueue(queue: Shared) returns (r: Option<bytes>)
    ensures r == RecoverQueue(queue)
  {
    var sane := CheckQueueInvariants(queue);
    if !sane {
      return None;
    }
    var view := MakeView(queue.r, queue.w, queue.e);
    var data := queue.buf[view.off1..view.off1 + view.size1];
    data := data + queue.buf[view.off2..view.off2 + view.size2];
    var whole := CheckEntryBuffer(data);
    r := if whole then Some(data) else None;
  }

  /**
   A dump taken at any step of the queue protocol is accepted, and yields exactly the entries
   committed and not yet released.
   */
  lemma DumpYieldsUnreadEntries(states: seq<State>, steps: seq<Step>, i: nat, payloads: seq<text>)
    requires Run(states, steps) && i <= |steps| && CommitsAreEntries(states[i].h.log, payloads)
    ensures states[i].h.rel <= |payloads|
    ensures RecoverQueue(states[i].q) == Some(FrameAll(payloads[states[i].h.rel..]))
  {
    var m := DumpIsRecoverable(states, steps, i);
    RunInv(states, steps, i);
    var s := states[i];
    UnreadIsLog(s);
    ConcatOfEntries(s.h.log, payloads, s.h.rel, |s.h.log|);
    assert s.h.log[s.h.rel..|s.h.log|] == s.h.log[s.h.rel..];
    assert payloads[s.h.rel..|payloads|] == payloads[s.h.rel..];
    UnframeOfFrameAll(payloads[s.h.rel..]);
  }
}
