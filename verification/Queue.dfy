/**
 The queue, its writer and its reader as the mutable objects they are.

 The queue carries a ghost state of the transition system in module `Ring`. Every method below walks
 that state along enabled steps, so whatever holds of all runs holds of these objects.
 */
module Queues {
  import opened Bytes
  import opened Ring

  class Queue {
    var writeIndex: nat
    var dataEnd: nat
    var readIndex: nat
    const buffer: array<byte>
    ghost var model: State

    /** The real fields are those of the ghost state, and that state satisfies the ring's invariant. */
    ghost predicate Linked()
      reads this, buffer
    {
      && model.q == Shared(writeIndex, dataEnd, readIndex, buffer[..])
      && Inv(model)
    }

    /** The bytes committed and not yet released. */
    ghost function Contents(): bytes
      reads this, buffer
      requires Linked()
    {
      Unread(model.q)
    }

    constructor (buffer: array<byte>)
      ensures this.buffer == buffer
      ensures Linked() && Init(model) && Contents() == []
    {
      this.buffer := buffer;
      writeIndex, dataEnd, readIndex := 0, 0, 0;
      model := State(Shared(0, 0, 0, buffer[..]), Writer(0, 0, WIdle, [], false), Reader(0, RIdle, 0), History([], 0, 0, []));
    }
  }

  /** The three steps of `maximizeWriteCapacity`, with no step of the reader in between. */
  ghost function Maximized(s: State): State
    requires Inv(s) && s.wr.pc.WIdle?
  {
    Apply(Apply(Apply(s, WLoadW), WLoadR), WSelect)
  }

  lemma MaximizedInv(s: State)
    requires Inv(s) && s.wr.pc.WIdle?
    ensures Inv(Maximized(s)) && Unread(Maximized(s).q) == Unread(s.q)
  {
    var s1 := Apply(s, WLoadW);
    StepInv(s, WLoadW);
    var s2 := Apply(s1, WLoadR);
    StepInv(s1, WLoadR);
    StepInv(s2, WSelect);
    WriterStepUnread(s2, WSelect);
  }

  lemma MaximizedIs(s: State)
    requires Inv(s) && s.wr.pc.WIdle?
    ensures IndicesInRange(s.q)
    ensures var region := SelectRegion(s.q.w, s.q.r, s.q.Capacity());
            Maximized(s) == s.(q := if region.wrap then s.q.(e := s.q.w) else s.q,
                               wr := Writer(region.pos, region.end, WIdle, [], region.wrap))
  {
    hide Visible, ReaderOk, WriterOk, WrapIsFar;
  }

  function Max(a: int, b: int): int {
    if a >= b then a else b
  }

  lemma RoomUpTo(q: Shared, start: nat, max: nat, size: nat)
    requires FreeRun(q, start, max)
    requires forall start: nat, n: nat :: FreeRun(q, start, n) ==> n <= max
    ensures HasRoom(q, size) <==> size <= max
  {
    if size <= max {
      assert FreeRun(q, start, size);
    }
  }

  lemma DrainedHasHalf(s: State, size: nat)
    requires Inv(s) && s.wr.pc.WIdle?
    ensures IndicesInRange(s.q) && Inv(Maximized(s))
    ensures Unread(s.q) == [] && 2 * size <= s.q.Capacity() ==> size <= Maximized(s).wr.end - Maximized(s).wr.pos
  {
    MaximizedInv(s);
  }

  /** The three steps of `beginRead`, with no step of the writer in between. */
  ghost function Begun(s: State): State
    requires s.rd.pc.RIdle? || s.rd.pc.RReading?
  {
    Apply(Apply(Apply(s, RLoadW), RLoadR), RMakeView)
  }

  lemma BegunIs(s: State)
    requires s.rd.pc.RIdle? || s.rd.pc.RReading?
    ensures Begun(s) == s.(rd := Reader(s.q.w, RReading(MakeView(s.q.r, s.q.w, s.q.e), []), |s.h.log|))
  {
    hide MakeView;
  }

  lemma BegunKeepsInv(s: State)
    requires Inv(s) && (s.rd.pc.RIdle? || s.rd.pc.RReading?)
    ensures Inv(Begun(s))
  {
    hide Inv;
    var s1 := Apply(s, RLoadW);
    StepInv(s, RLoadW);
    StepInv(s1, RLoadR);
    StepInv(Apply(s1, RLoadR), RMakeView);
  }

  lemma BegunView(s: State)
    requires Inv(s) && (s.rd.pc.RIdle? || s.rd.pc.RReading?)
    ensures Inv(Begun(s)) && IndicesInRange(s.q)
    ensures Begun(s) == s.(rd := Reader(s.q.w, RReading(MakeView(s.q.r, s.q.w, s.q.e), []), |s.h.log|))
    ensures var v := MakeView(s.q.r, s.q.w, s.q.e); ViewFits(v, s.q.buf) && ViewBytes(v, s.q.buf) == Unread(s.q)
  {
    BegunIs(s);
    BegunKeepsInv(s);
    BegunInv(s);
    UnreadIsLog(s);
    hide Inv, Begun, MakeView, ViewBytes, ViewFits, Unread, Visible, Contents, Concat;
    var _ := ViewContents(s.q, s.h, s.q.w, |s.h.log|);
    assert s.h.log[s.h.rel..|s.h.log|] == s.h.log[s.h.rel..];
  }

  lemma SizeZero(v: View, buf: bytes)
    requires ViewFits(v, buf)
    ensures v.Size() == 0 <==> ViewBytes(v, buf) == []
  {
  }

  lemma BegunInv(s: State)
    requires Inv(s) && (s.rd.pc.RIdle? || s.rd.pc.RReading?) && Inv(Begun(s))
    ensures Contents(s.q, s.h) && Visible(s.q, s.h, s.q.w, |s.h.log|)
  {
    hide Contents, WrapIsFar, WriterOk, Visible, MakeView;
  }

  class QueueWriter {
    const queue: Queue
    var writePos: nat
    var writeEnd: nat

    ghost predicate Valid()
      reads this, queue, queue.buffer
    {
      && queue.Linked()
      && queue.model.wr.pc == WIdle
      && queue.model.wr.pos == writePos
      && queue.model.wr.end == writeEnd
    }

    /** The bytes written since the last commit or change of region. */
    ghost function Pending(): bytes
      reads queue
    {
      queue.model.wr.pending
    }

    constructor (q: Queue)
      requires q.Linked() && Init(q.model)
      ensures queue == q && Valid() && Pending() == [] && writePos == writeEnd == 0
    {
      queue := q;
      writePos, writeEnd := 0, 0;
    }

    function WriteCapacity(): int
      reads this
    {
      writeEnd - writePos
    }

    method UnreadWriteSize() returns (n: nat)
      requires Valid()
      ensures n == |queue.Contents()|
    {
      var w, r := queue.writeIndex, queue.readIndex;
      if r <= w {
        n := w - r;
      } else {
        n := queue.dataEnd - r + w;
      }
    }

    method MaximizeWriteCapacity() returns (size: nat)
      requires Valid()
      modifies this`writePos, this`writeEnd, queue`dataEnd, queue`model
      ensures Valid() && size == WriteCapacity()
      ensures size == if queue.writeIndex < queue.readIndex then queue.readIndex - 1 - queue.writeIndex
                      else Max(queue.buffer.Length - queue.writeIndex, queue.readIndex - 1)
      ensures FreeRun(old(queue.model.q), writePos, size)
      ensures forall start: nat, n: nat :: FreeRun(old(queue.model.q), start, n) ==> n <= size
      ensures queue.model == Maximized(old(queue.model))
      ensures queue.Contents() == old(queue.Contents()) && Pending() == []
    {
      MaximizedInv(queue.model);
      MaximizedIs(queue.model);
      SelectsLongestRun(queue.model.q);
      hide Inv, Unread, Maximized, FreeRun;
      var w := queue.writeIndex;
      var r := queue.readIndex;
      var capacity := queue.buffer.Length;
      if w < r {
        writePos, writeEnd := w, r - 1;
      } else {
        var rightSize: int := capacity - w;
        var leftSize: int := r - 1;
        if rightSize >= leftSize {
          writePos, writeEnd := w, w + rightSize;
        } else {
          queue.dataEnd := w;
          writePos, writeEnd := 0, leftSize;
        }
      }
      queue.model := Maximized(queue.model);
      size := writeEnd - writePos;
    }

    /**
     Grants `size` contiguous bytes if and only if the region has them or there is a free run of that
     length. A refused or enlarging call loses uncommitted bytes, never committed ones. With nothing unread,
     any request up to half of the capacity, rounded down, is granted.
     */
    method BeginWrite(size: nat) returns (ok: bool)
      requires Valid()
      modifies this`writePos, this`writeEnd, queue`dataEnd, queue`model
      ensures Valid() && ok == (size <= WriteCapacity())
      ensures ok <==> size <= old(WriteCapacity()) || HasRoom(old(queue.model.q), size)
      ensures queue.model == if size <= old(WriteCapacity()) then old(queue.model) else Maximized(old(queue.model))
      ensures queue.Contents() == old(queue.Contents())
      ensures Pending() == if size <= old(WriteCapacity()) then old(Pending()) else []
      ensures old(queue.Contents()) == [] && 2 * size <= queue.buffer.Length ==> ok
    {
      if size <= writeEnd - writePos {
        return true;
      }
      DrainedHasHalf(queue.model, size);
      ghost var q := queue.model.q;
      hide Inv, Unread, Maximized;
      var max := MaximizeWriteCapacity();
      RoomUpTo(q, writePos, max, size);
      ok := size <= max;
    }

    /** One byte of memcpy. */
    method CopyByte(src: bytes, k: nat)
      requires queue.Linked() && writePos == queue.model.wr.pos
      requires k < |src| && queue.model.wr.pc == WCopying(src, k)
      modifies queue.buffer, queue`model
      ensures queue.Linked() && queue.model == Apply(old(queue.model), WCopyByte)
    {
      CopyByteInv(queue.model);
      queue.buffer[writePos + k] := src[k];
      queue.model := Apply(queue.model, WCopyByte);
      assert queue.buffer[..] == queue.model.q.buf;
    }

    /** memcpy, one byte at a time. */
    method CopyBytes(src: bytes)
      requires queue.Linked() && writePos == queue.model.wr.pos
      requires queue.model.wr.pc == WCopying(src, 0)
      modifies queue.buffer, queue`model
      ensures queue.Linked()
      ensures queue.model.wr == old(queue.model.wr).(pc := WCopying(src, |src|))
      ensures queue.model.h == old(queue.model.h) && queue.model.rd == old(queue.model.rd)
    {
      var k := 0;
      while k < |src|
        invariant k <= |src|
        invariant queue.Linked()
        invariant queue.model.wr == old(queue.model.wr).(pc := WCopying(src, k))
        invariant queue.model.h == old(queue.model.h) && queue.model.rd == old(queue.model.rd)
      {
        CopyByte(src, k);
        k := k + 1;
      }
    }

    /** Bytes handed over become pending; the reader sees nothing of them yet. */
    method WriteBuffer(src: bytes)
      requires Valid() && |src| <= WriteCapacity()
      modifies this`writePos, queue.buffer, queue`model
      ensures Valid() && WriteCapacity() == old(WriteCapacity()) - |src|
      ensures Pending() == old(Pending()) + src
      ensures queue.Contents() == old(queue.Contents())
      ensures queue.model.h == old(queue.model.h) && queue.model.rd == old(queue.model.rd)
    {
      hide Inv, Unread, Concat;
      UnreadIsLog(queue.model);
      WriterLocalInv(queue.model, WStartCopy(src));
      queue.model := Apply(queue.model, WStartCopy(src));
      CopyBytes(src);
      WriterLocalInv(queue.model, WEndCopy);
      queue.model := Apply(queue.model, WEndCopy);
      UnreadIsLog(queue.model);
      writePos := writePos + |src|;
    }

    /** The pending bytes are appended to what the reader can see, as one commit. */
    method EndWrite()
      requires Valid()
      modifies queue`writeIndex, queue`model
      ensures Valid() && Pending() == []
      ensures queue.Contents() == old(queue.Contents()) + old(Pending())
      ensures queue.model == Apply(old(queue.model), WCommit)
    {
      StepInv(queue.model, WCommit);
      CommitUnread(queue.model);
      queue.writeIndex := writePos;
      queue.model := Apply(queue.model, WCommit);
    }
  }

  class QueueReader {
    const queue: Queue
    var readEnd: nat

    /** Valid between `BeginRead` and `EndRead`: `view` is what was handed out. */
    ghost predicate Reading(view: View)
      reads this, queue, queue.buffer
    {
      && queue.Linked()
      && queue.model.rd.pc.RReading?
      && queue.model.rd.pc.view == view
      && queue.model.rd.readEnd == readEnd
    }

    constructor (q: Queue)
      ensures queue == q && readEnd == 0
    {
      queue := q;
      readEnd := 0;
    }

    /** The two parts of the result, one after the other, are all unread bytes. */
    method BeginRead() returns (view: View)
      requires queue.Linked() && (queue.model.rd.pc.RIdle? || queue.model.rd.pc.RReading?)
      modifies this`readEnd, queue`model
      ensures Reading(view)
      ensures ViewFits(view, queue.buffer[..]) && ViewBytes(view, queue.buffer[..]) == queue.Contents()
      ensures view.Size() == 0 <==> queue.Contents() == []
      ensures queue.model.q == old(queue.model.q) && queue.model.wr == old(queue.model.wr)
      ensures queue.model.h == old(queue.model.h)
      ensures queue.model.rd.snap == |queue.model.h.log|
    {
      hide Inv, Unread, ViewBytes;
      BegunView(queue.model);
      ghost var s3 := Begun(queue.model);
      var w, r := queue.writeIndex, queue.readIndex;
      readEnd := w;
      queue.model := s3;
      SizeZero(queue.model.rd.pc.view, queue.buffer[..]);
      if r <= w {
        return View(r, w - r, 0, 0);
      }
      if r < queue.dataEnd {
        return View(r, queue.dataEnd - r, 0, w);
      }
      return View(0, w, 0, 0);
    }

    /** Exactly the bytes of the view are released. */
    method EndRead(ghost view: View)
      requires Reading(view)
      modifies queue`readIndex, queue`model
      ensures queue.Linked() && queue.model == Apply(old(queue.model), REndRead)
      ensures old(ViewFits(view, queue.buffer[..]))
      ensures old(queue.Contents()) == old(ViewBytes(view, queue.buffer[..])) + queue.Contents()
    {
      ghost var s := queue.model;
      ghost var _ := ViewContents(s.q, s.h, s.rd.readEnd, s.rd.snap);
      StepInv(s, REndRead);
      EndReadUnread(s);
      queue.readIndex := readEnd;
      queue.model := Apply(s, REndRead);
    }
  }
}
