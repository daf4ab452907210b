/**
 The single-producer, single-consumer byte ring as an interleaved transition system.

 One step is one load or store of a shared index, the plain store of `dataEnd`, or the copy of
 one byte into or out of the shared buffer. Steps are sequentially consistent: the store of `w`
 in `WCommit` is the release that publishes the bytes below it, the store of `r` in `REndRead`
 is the release that gives the bytes back.
 */
module Ring {
  import opened Bytes

  /** The members of `Queue`; the capacity is the length of the buffer. */
  datatype Shared = Shared(w: nat, e: nat, r: nat, buf: bytes) {
    function Capacity(): nat { |buf| }
  }

  /** Where the producer is inside `maximizeWriteCapacity` or `writeBuffer`. */
  datatype WriterPc =
    | WIdle
    | WLoadedW(w: nat)
    | WLoadedR(w: nat, r: nat)
    | WCopying(src: bytes, copied: nat)

  /**
   `_writePos` and `_writeEnd` as offsets into the buffer, and two history variables:
    - pending: bytes given to `writeBuffer` since the last commit or region change
    - wrapped: the writer moved to the start of the buffer and has not committed since
   */
  datatype Writer = Writer(pos: nat, end: nat, pc: WriterPc, pending: bytes, wrapped: bool)

  /** The two-buffer view returned by `beginRead`, as offsets. */
  datatype View = View(off1: nat, size1: nat, off2: nat, size2: nat) {
    function Size(): nat { size1 + size2 }
  }

  /** Where the consumer is inside `beginRead`, or reading through a view. */
  datatype ReaderPc =
    | RIdle
    | RLoadedW
    | RLoadedR(r: nat)
    | RReading(view: View, got: bytes)

  /** `_readEnd`, and a history variable: how many commits the last load of `w` made visible. */
  datatype Reader = Reader(readEnd: nat, pc: ReaderPc, snap: nat)

  /**
   More history variables; no step's guard or effect on the other components looks at them.
    - log: the bytes of every commit, in order
    - rel: how many commits were released by `endRead`
    - mid: how many commits lie before the last wrap
    - released: the bytes that stood in the views given back by `endRead`
   */
  datatype History = History(log: seq<bytes>, rel: nat, mid: nat, released: bytes)

  datatype State = State(q: Shared, wr: Writer, rd: Reader, h: History)

  /** A fresh queue with its writer and a reader that has not read yet. */
  ghost predicate Init(s: State) {
    && s.q.w == 0 && s.q.e == 0 && s.q.r == 0
    && s.wr == Writer(0, 0, WIdle, [], false)
    && s.rd == Reader(0, RIdle, 0)
    && s.h == History([], 0, 0, [])
  }

  // ---------------------------------------------------------------- the code's decisions

  /** What `maximizeWriteCapacity` selects from the indices it loaded. */
  datatype Region = Region(pos: nat, end: nat, wrap: bool)

  function SelectRegion(w: nat, r: nat, capacity: nat): Region
    requires w <= capacity
  {
    if w < r then
      Region(w, r - 1, false)
    else
      var rightSize := capacity - w;
      var leftSize := r - 1;
      if rightSize >= leftSize then Region(w, w + rightSize, false)
      else Region(0, leftSize, true)
  }

  /** The view `beginRead` makes of the indices it loaded. */
  function MakeView(r: nat, w: nat, e: nat): View {
    if r <= w then View(r, w - r, 0, 0)
    else if r < e then View(r, e - r, 0, w)
    else View(0, w, 0, 0)
  }

  predicate ViewFits(v: View, buf: bytes) {
    v.off1 + v.size1 <= |buf| && v.off2 + v.size2 <= |buf|
  }

  function Part1(v: View, buf: bytes): bytes
    requires ViewFits(v, buf)
  {
    buf[v.off1..v.off1 + v.size1]
  }

  function Part2(v: View, buf: bytes): bytes
    requires ViewFits(v, buf)
  {
    buf[v.off2..v.off2 + v.size2]
  }

  function ViewBytes(v: View, buf: bytes): bytes
    requires ViewFits(v, buf)
  {
    Part1(v, buf) + Part2(v, buf)
  }

  // ---------------------------------------------------------------- steps

  datatype Step =
    | WLoadW                    // maximizeWriteCapacity: load writeIndex
    | WLoadR                    // maximizeWriteCapacity: load readIndex
    | WSelect                   // maximizeWriteCapacity: store dataEnd if wrapping, set the region
    | WStartCopy(src: bytes)    // writeBuffer is called
    | WCopyByte                 // one byte of memcpy
    | WEndCopy                  // advance _writePos
    | WCommit                   // endWrite: store writeIndex
    | RLoadW                    // beginRead: load writeIndex, remember it in _readEnd
    | RLoadR                    // beginRead: load readIndex
    | RMakeView                 // beginRead: read dataEnd if needed, build the result
    | RReadByte                 // the caller reads one byte through the view
    | REndRead                  // endRead: store readIndex

  ghost predicate Enabled(s: State, step: Step) {
    match step
    case WLoadW => s.wr.pc.WIdle?
    case WLoadR => s.wr.pc.WLoadedW?
    case WSelect => s.wr.pc.WLoadedR? && s.wr.pc.w <= s.q.Capacity()
    case WStartCopy(src) => s.wr.pc.WIdle? && s.wr.pos + |src| <= s.wr.end
    case WCopyByte => s.wr.pc.WCopying? && s.wr.pc.copied < |s.wr.pc.src| && s.wr.pos + s.wr.pc.copied < |s.q.buf|
    case WEndCopy => s.wr.pc.WCopying? && s.wr.pc.copied == |s.wr.pc.src|
    case WCommit => s.wr.pc.WIdle?
    case RLoadW => s.rd.pc.RIdle? || s.rd.pc.RReading?
    case RLoadR => s.rd.pc.RLoadedW?
    case RMakeView => s.rd.pc.RLoadedR?
    case RReadByte =>
      && s.rd.pc.RReading? && ViewFits(s.rd.pc.view, s.q.buf)
      && |s.rd.pc.got| < s.rd.pc.view.Size()
    case REndRead => s.rd.pc.RReading? && ViewFits(s.rd.pc.view, s.q.buf)
  }

  ghost function Apply(s: State, step: Step): State
    requires Enabled(s, step)
  {
    match step
    case WLoadW => s.(wr := s.wr.(pc := WLoadedW(s.q.w)))
    case WLoadR => s.(wr := s.wr.(pc := WLoadedR(s.wr.pc.w, s.q.r)))
    case WSelect =>
      var region := SelectRegion(s.wr.pc.w, s.wr.pc.r, s.q.Capacity());
      s.(q := if region.wrap then s.q.(e := s.wr.pc.w) else s.q,
         wr := Writer(region.pos, region.end, WIdle, [], region.wrap))
    case WStartCopy(src) => s.(wr := s.wr.(pc := WCopying(src, 0)))
    case WCopyByte =>
      var k := s.wr.pc.copied;
      s.(q := s.q.(buf := s.q.buf[s.wr.pos + k := s.wr.pc.src[k]]),
         wr := s.wr.(pc := s.wr.pc.(copied := k + 1)))
    case WEndCopy =>
      var src := s.wr.pc.src;
      s.(wr := s.wr.(pos := s.wr.pos + |src|, pc := WIdle, pending := s.wr.pending + src))
    case WCommit =>
      s.(q := s.q.(w := s.wr.pos),
         wr := s.wr.(pending := [], wrapped := false),
         h := s.h.(log := s.h.log + [s.wr.pending], mid := if s.wr.wrapped then |s.h.log| else s.h.mid))
    case RLoadW => s.(rd := Reader(s.q.w, RLoadedW, |s.h.log|))
    case RLoadR => s.(rd := s.rd.(pc := RLoadedR(s.q.r)))
    case RMakeView => s.(rd := s.rd.(pc := RReading(MakeView(s.rd.pc.r, s.rd.readEnd, s.q.e), [])))
    case RReadByte =>
      var v, k := s.rd.pc.view, |s.rd.pc.got|;
      var b := if k < v.size1 then s.q.buf[v.off1 + k] else s.q.buf[v.off2 + (k - v.size1)];
      s.(rd := s.rd.(pc := RReading(v, s.rd.pc.got + [b])))
    case REndRead =>
      s.(q := s.q.(r := s.rd.readEnd),
         rd := s.rd.(pc := RIdle),
         h := s.h.(rel := s.rd.snap, released := s.h.released + ViewBytes(s.rd.pc.view, s.q.buf)))
  }

  /** Every interleaving: a start state and the states after each of a list of steps. */
  ghost predicate Run(states: seq<State>, steps: seq<Step>) {
    && |states| == |steps| + 1
    && Init(states[0])
    && forall i :: 0 <= i < |steps| ==> Enabled(states[i], steps[i]) && states[i + 1] == Apply(states[i], steps[i])
  }

  ghost predicate Reachable(s: State) {
    exists states, steps :: Run(states, steps) && states[|steps|] == s
  }

  // ---------------------------------------------------------------- invariant

  /** The readable bytes, as the two stretches of the buffer they occupy. */
  ghost predicate Contents(q: Shared, h: History) {
    && q.w <= |q.buf| && q.e <= |q.buf| && q.r <= |q.buf|
    && h.rel <= |h.log|
    && (if q.r <= q.w then
          q.buf[q.r..q.w] == Concat(h.log[h.rel..])
        else
          && q.r <= q.e
          && h.rel <= h.mid <= |h.log|
          && q.buf[q.r..q.e] == Concat(h.log[h.rel..h.mid])
          && q.buf[..q.w] == Concat(h.log[h.mid..]))
    && h.released == Concat(h.log[..h.rel])
  }

  /** A wrap happens only when the left side is larger than the right one. */
  ghost predicate WrapIsFar(q: Shared, wr: Writer) {
    q.w < q.r || wr.wrapped ==> q.Capacity() + 1 < 2 * q.e
  }

  /** The writer's private region is free space, however stale its copy of `r`. */
  ghost predicate WriterOk(q: Shared, wr: Writer) {
    && wr.pos <= wr.end <= |q.buf|
    && (if wr.wrapped then
          && q.r <= q.w && q.e == q.w && wr.end < q.r
          && q.buf[..wr.pos] == wr.pending
        else
          && q.w <= wr.pos
          && (q.w < q.r ==> wr.end < q.r)
          && q.buf[q.w..wr.pos] == wr.pending)
    && (match wr.pc
        case WIdle => true
        case WLoadedW(w) => w == q.w
        case WLoadedR(w, r) =>
          && w == q.w
          && r <= |q.buf|
          && (if r <= w then r <= q.r <= w else q.r <= w || r <= q.r)
        case WCopying(src, k) =>
          && k <= |src| && wr.pos + |src| <= wr.end
          && q.buf[wr.pos..wr.pos + k] == src[..k])
  }

  /** The bytes visible at the consumer's last load of `w`, which found it at `n`, are still in place. */
  ghost predicate Visible(q: Shared, h: History, n: nat, snap: nat)
    requires Contents(q, h)
  {
    && h.rel <= snap <= |h.log|
    && n <= |q.buf|
    && (if q.r <= n then
          && q.buf[q.r..n] == Concat(h.log[h.rel..snap])
          && (if q.r <= q.w then
                n <= q.w && q.buf[n..q.w] == Concat(h.log[snap..])
              else
                n <= q.e && snap <= h.mid && q.buf[n..q.e] == Concat(h.log[snap..h.mid]))
        else
          && n <= q.w < q.r
          && h.mid <= snap
          && q.buf[..n] == Concat(h.log[h.mid..snap])
          && q.buf[n..q.w] == Concat(h.log[snap..]))
  }

  ghost predicate ReaderOk(q: Shared, rd: Reader, h: History)
    requires Contents(q, h)
  {
    match rd.pc
    case RIdle => true
    case RLoadedW => Visible(q, h, rd.readEnd, rd.snap)
    case RLoadedR(r) => Visible(q, h, rd.readEnd, rd.snap) && r == q.r
    case RReading(v, got) =>
      && Visible(q, h, rd.readEnd, rd.snap)
      && v == MakeView(q.r, rd.readEnd, q.e)
      && got <= Concat(h.log[h.rel..rd.snap])
  }

  ghost predicate Inv(s: State) {
    Contents(s.q, s.h) && WrapIsFar(s.q, s.wr) && WriterOk(s.q, s.wr) && ReaderOk(s.q, s.rd, s.h)
  }

  lemma InitInv(s: State)
    requires Init(s)
    ensures Inv(s)
  {
  }

  // ---------------------------------------------------------------- every step keeps the invariant

  lemma WriterLocalInv(s: State, step: Step)
    requires Inv(s) && Enabled(s, step)
    requires step.WLoadW? || step.WLoadR? || step.WStartCopy? || step.WEndCopy?
    ensures Inv(Apply(s, step))
  {
    hide Visible, ReaderOk, Concat, MakeView;
    var s' := Apply(s, step);
    if step.WEndCopy? {
      var base := if s.wr.wrapped then 0 else s.q.w;
      assert s.q.buf[base..s'.wr.pos] == s.q.buf[base..s.wr.pos] + s.q.buf[s.wr.pos..s'.wr.pos];
    }
    assert WriterOk(s'.q, s'.wr);
  }

  lemma SelectInv(s: State)
    requires Inv(s) && Enabled(s, WSelect)
    ensures Inv(Apply(s, WSelect))
  {
  }

  /** The byte written is outside of what is readable. */
  lemma CopyByteContents(s: State)
    requires Inv(s) && Enabled(s, WCopyByte)
    ensures Contents(Apply(s, WCopyByte).q, s.h)
  {
    hide Visible, ReaderOk, Concat, MakeView;
  }

  lemma CopyByteWriter(s: State)
    requires Inv(s) && Enabled(s, WCopyByte)
    ensures var s' := Apply(s, WCopyByte); WriterOk(s'.q, s'.wr) && WrapIsFar(s'.q, s'.wr)
  {
    hide Visible, ReaderOk, Concat, MakeView;
  }

  lemma CopyByteReader(s: State)
    requires Inv(s) && Enabled(s, WCopyByte) && Contents(Apply(s, WCopyByte).q, s.h)
    ensures ReaderOk(Apply(s, WCopyByte).q, s.rd, s.h)
  {
    hide WrapIsFar, Concat;
  }

  lemma CopyByteInv(s: State)
    requires Inv(s) && Enabled(s, WCopyByte)
    ensures Inv(Apply(s, WCopyByte))
  {
    CopyByteContents(s);
    CopyByteWriter(s);
    CopyByteReader(s);
    hide Contents, WriterOk, WrapIsFar, ReaderOk;
  }

  lemma CommitContents(s: State)
    requires Inv(s) && Enabled(s, WCommit)
    ensures var s' := Apply(s, WCommit); Contents(s'.q, s'.h)
  {
    var s', h, pending := Apply(s, WCommit), s.h, s.wr.pending;
    var q, log' := s.q, s'.h.log;
    assert log'[..h.rel] == h.log[..h.rel];
    if s.wr.wrapped {
      assert log'[h.rel..|h.log|] == h.log[h.rel..];
      assert log'[|h.log|..] == [pending];
      ConcatOne(pending);
    } else {
      var m := if q.r <= q.w then h.rel else h.mid;
      var from := if q.r <= q.w then q.r else 0;
      SliceJoin(q.buf, from, q.w, s.wr.pos);
      assert log'[m..] == h.log[m..] + [pending];
      ConcatPush(h.log[m..], pending);
      if q.w < q.r {
        assert log'[h.rel..h.mid] == h.log[h.rel..h.mid];
      }
    }
  }

  lemma CommitVisible(s: State)
    requires Inv(s) && Enabled(s, WCommit) && !s.rd.pc.RIdle?
    requires var s' := Apply(s, WCommit); Contents(s'.q, s'.h)
    ensures var s' := Apply(s, WCommit); Visible(s'.q, s'.h, s'.rd.readEnd, s'.rd.snap)
  {
    var q, h, n, snap := s.q, s.h, s.rd.readEnd, s.rd.snap;
    var q', h' := Apply(s, WCommit).q, Apply(s, WCommit).h;
    assert Visible(q, h, n, snap);
    assert forall i, j :: 0 <= i <= j <= |h.log| ==> h'.log[i..j] == h.log[i..j];
    if s.wr.wrapped {
      assert h'.log[snap..|h.log|] == h.log[snap..];
    } else {
      if n <= q.w {
        SliceJoin(q.buf, n, q.w, s.wr.pos);
      }
      assert h'.log[snap..] == h.log[snap..] + [s.wr.pending];
      ConcatPush(h.log[snap..], s.wr.pending);
    }
  }

  lemma CommitInv(s: State)
    requires Inv(s) && Enabled(s, WCommit)
    ensures Inv(Apply(s, WCommit))
  {
    var s' := Apply(s, WCommit);
    CommitContents(s);
    if !s.rd.pc.RIdle? {
      CommitVisible(s);
      assert s'.h.log[s.h.rel..s.rd.snap] == s.h.log[s.h.rel..s.rd.snap];
    }
    assert s'.q.buf[s'.q.w..s'.wr.pos] == [];
  }

  lemma LoadWInv(s: State)
    requires Inv(s) && Enabled(s, RLoadW)
    ensures Inv(Apply(s, RLoadW))
  {
    var h := s.h;
    assert h.log[h.rel..|h.log|] == h.log[h.rel..];
    if h.mid <= |h.log| {
      assert h.log[h.mid..|h.log|] == h.log[h.mid..];
    }
    assert h.log[|h.log|..] == [];
  }

  /** A view holds exactly the commits that were unread at its load of `w`, split at a commit boundary. */
  lemma ViewContents(q: Shared, h: History, n: nat, snap: nat) returns (m: nat)
    requires Contents(q, h) && Visible(q, h, n, snap)
    ensures h.rel <= m <= snap <= |h.log|
    ensures var v := MakeView(q.r, n, q.e);
            && ViewFits(v, q.buf)
            && Part1(v, q.buf) == Concat(h.log[h.rel..m])
            && Part2(v, q.buf) == Concat(h.log[m..snap])
            && ViewBytes(v, q.buf) == Concat(h.log[h.rel..snap])
  {
    m := if n < q.r < q.e then h.mid else snap;
    if n < q.r {
      ConcatSplit(h.log, h.rel, h.mid, snap);
    }
    assert h.log[snap..snap] == [];
  }

  lemma ReadByteInv(s: State)
    requires Inv(s) && Enabled(s, RReadByte)
    ensures Inv(Apply(s, RReadByte))
  {
    hide Contents, WrapIsFar, WriterOk, Visible, MakeView, ViewBytes, ViewFits, Concat;
    var _ := ViewContents(s.q, s.h, s.rd.readEnd, s.rd.snap);
    ReadByteGets(s);
  }

  /** The byte read continues what was read of the view. */
  lemma ReadByteGets(s: State)
    requires Enabled(s, RReadByte) && s.rd.pc.got <= ViewBytes(s.rd.pc.view, s.q.buf)
    ensures var s' := Apply(s, RReadByte);
            && s' == s.(rd := s.rd.(pc := RReading(s.rd.pc.view, s'.rd.pc.got)))
            && s'.rd.pc.got <= ViewBytes(s.rd.pc.view, s.q.buf)
  {
    var s', all, k := Apply(s, RReadByte), ViewBytes(s.rd.pc.view, s.q.buf), |s.rd.pc.got|;
    assert s'.rd.pc.got == s.rd.pc.got + [all[k]];
  }

  lemma EndReadInv(s: State)
    requires Inv(s) && Enabled(s, REndRead)
    ensures Inv(Apply(s, REndRead))
  {
    var _ := ViewContents(s.q, s.h, s.rd.readEnd, s.rd.snap);
    var h := s.h;
    ConcatSplit(h.log, 0, h.rel, s.rd.snap);
    assert h.log[0..h.rel] == h.log[..h.rel] && h.log[0..s.rd.snap] == h.log[..s.rd.snap];
    assert h.log[s.rd.snap..|h.log|] == h.log[s.rd.snap..];
  }

  lemma StepInv(s: State, step: Step)
    requires Inv(s) && Enabled(s, step)
    ensures Inv(Apply(s, step))
  {
    match step
    case WSelect => SelectInv(s);
    case WCopyByte => CopyByteInv(s);
    case WCommit => CommitInv(s);
    case RLoadW => LoadWInv(s);
    case RReadByte => ReadByteInv(s);
    case REndRead => EndReadInv(s);
    case RLoadR =>
    case RMakeView =>
    case _ => WriterLocalInv(s, step);
  }

  lemma {:induction false} RunInv(states: seq<State>, steps: seq<Step>, i: nat)
    requires Run(states, steps) && i <= |steps|
    ensures Inv(states[i])
  {
    if i == 0 {
      InitInv(states[0]);
    } else {
      RunInv(states, steps, i - 1);
      StepInv(states[i - 1], steps[i - 1]);
    }
  }

  lemma ReachableInv(s: State)
    requires Reachable(s)
    ensures Inv(s)
  {
    var states, steps :| Run(states, steps) && states[|steps|] == s;
    RunInv(states, steps, |steps|);
  }

  // ---------------------------------------------------------------- what a run guarantees

  /** The indices `checkQueueInvariants` looks at are in range. */
  predicate IndicesInRange(q: Shared) {
    q.w <= q.Capacity() && q.e <= q.Capacity() && q.r <= q.Capacity()
  }

  /** The bytes between the read and the write index, going around the end of data if need be. */
  ghost function Unread(q: Shared): bytes
    requires IndicesInRange(q)
  {
    if q.r <= q.w then q.buf[q.r..q.w]
    else (if q.r <= q.e then q.buf[q.r..q.e] else []) + q.buf[..q.w]
  }

  lemma UnreadIsLog(s: State)
    requires Inv(s)
    ensures Unread(s.q) == Concat(s.h.log[s.h.rel..])
  {
    if s.q.w < s.q.r {
      ConcatSplit(s.h.log, s.h.rel, s.h.mid, |s.h.log|);
      assert s.h.log[s.h.rel..] == s.h.log[s.h.rel..|s.h.log|];
      assert s.h.log[s.h.mid..] == s.h.log[s.h.mid..|s.h.log|];
    }
  }

  /** In every interleaving the released bytes followed by the ring's unread ones are all commits, in order. */
  lemma NothingLostOrReordered(states: seq<State>, steps: seq<Step>, i: nat)
    requires Run(states, steps) && i <= |steps|
    ensures IndicesInRange(states[i].q)
    ensures states[i].h.released + Unread(states[i].q) == Concat(states[i].h.log)
  {
    RunInv(states, steps, i);
    var s := states[i];
    UnreadIsLog(s);
    assert s.h.log == s.h.log[..s.h.rel] + s.h.log[s.h.rel..];
    ConcatAppend(s.h.log[..s.h.rel], s.h.log[s.h.rel..]);
  }

  /** No step between a load of `w` and the state after step `j - 1` starts or ends a read. */
  ghost predicate ReadGoesOn(steps: seq<Step>, i: nat, j: nat)
    requires i < j <= |steps|
  {
    steps[i].RLoadW? && forall k :: i < k < j ==> !steps[k].RLoadW? && !steps[k].REndRead?
  }

  lemma {:induction false} ReadKeepsSnapshot(states: seq<State>, steps: seq<Step>, i: nat, j: nat)
    requires Run(states, steps) && i < j <= |steps| && ReadGoesOn(steps, i, j)
    ensures states[j].h.rel == states[i].h.rel
    ensures states[j].rd.snap == |states[i].h.log|
    ensures states[i].h.log <= states[j].h.log
    ensures !states[j].rd.pc.RIdle?
  {
    if j > i + 1 {
      ReadKeepsSnapshot(states, steps, i, j - 1);
    }
  }

  /**
   A view is exactly the bytes that were unread when `beginRead` loaded `w`, and stays that until
   `endRead` whatever the producer does meanwhile. The bytes the consumer has copied one at a time,
   between any steps of the producer, are a prefix of it.
   */
  lemma ViewIsStable(states: seq<State>, steps: seq<Step>, i: nat, j: nat)
    requires Run(states, steps) && i < j <= |steps| && ReadGoesOn(steps, i, j)
    requires states[j].rd.pc.RReading?
    ensures IndicesInRange(states[i].q)
    ensures ViewFits(states[j].rd.pc.view, states[j].q.buf)
    ensures ViewBytes(states[j].rd.pc.view, states[j].q.buf) == Unread(states[i].q)
    ensures states[j].rd.pc.got <= Unread(states[i].q)
  {
    RunInv(states, steps, i);
    RunInv(states, steps, j);
    ReadKeepsSnapshot(states, steps, i, j);
    UnreadIsLog(states[i]);
    var s, h := states[j], states[i].h;
    var _ := ViewContents(s.q, s.h, s.rd.readEnd, s.rd.snap);
    assert s.h.log[s.h.rel..s.rd.snap] == h.log[h.rel..];
  }

  /**
   A dump of the shared part at any moment is recoverable: its indices are in range, and the view a
   fresh reader makes of it is exactly the committed bytes not yet released. Both halves of that view
   begin and end at commit boundaries.
   */
  lemma DumpIsRecoverable(states: seq<State>, steps: seq<Step>, i: nat) returns (m: nat)
    requires Run(states, steps) && i <= |steps|
    ensures var s := states[i];
            var v := MakeView(s.q.r, s.q.w, s.q.e);
            && IndicesInRange(s.q)
            && ViewFits(v, s.q.buf)
            && ViewBytes(v, s.q.buf) == Unread(s.q)
            && s.h.released + ViewBytes(v, s.q.buf) == Concat(s.h.log)
            && s.h.rel <= m <= |s.h.log|
            && Part1(v, s.q.buf) == Concat(s.h.log[s.h.rel..m])
            && Part2(v, s.q.buf) == Concat(s.h.log[m..])
  {
    hide Contents, WrapIsFar, WriterOk, Visible, MakeView, Unread;
    NothingLostOrReordered(states, steps, i);
    RunInv(states, steps, i);
    var s := states[i].(rd := states[i].rd.(pc := RIdle));
    LoadWInv(s);
    var s' := Apply(s, RLoadW);
    m := ViewContents(s'.q, s'.h, s'.rd.readEnd, s'.rd.snap);
    assert s.h.log[s.h.rel..|s.h.log|] == s.h.log[s.h.rel..];
    assert s.h.log[m..|s.h.log|] == s.h.log[m..];
    UnreadIsLog(s);
  }

  /**
   Whenever all commits were released, wherever the indices stand, `maximizeWriteCapacity` finds a
   contiguous half: at least the capacity less one, divided by two and rounded up.
   */
  lemma DrainedGrantsHalf(states: seq<State>, steps: seq<Step>, i: nat)
    requires Run(states, steps) && i <= |steps|
    requires IndicesInRange(states[i].q) && Unread(states[i].q) == []
    ensures var q := states[i].q;
            var region := SelectRegion(q.w, q.r, q.Capacity());
            2 * (region.end - region.pos) >= q.Capacity() - 1
  {
    RunInv(states, steps, i);
  }

  // ---------------------------------------------------------------- nobody waits

  /** Wherever the reader is, the writer can go on: with what it is doing, or with any write that fits its region. */
  lemma WriterNeverWaits(s: State)
    requires Inv(s)
    ensures match s.wr.pc
            case WIdle =>
              && Enabled(s, WLoadW) && Enabled(s, WCommit)
              && forall src: bytes :: |src| <= s.wr.end - s.wr.pos ==> Enabled(s, WStartCopy(src))
            case WLoadedW(_) => Enabled(s, WLoadR)
            case WLoadedR(_, _) => Enabled(s, WSelect)
            case WCopying(src, copied) => if copied < |src| then Enabled(s, WCopyByte) else Enabled(s, WEndCopy)
  {
    hide Visible, ReaderOk, WrapIsFar, MakeView, Concat;
  }

  /** Wherever the writer is, the reader can go on; of a view it can read any byte, release it, or begin another one. */
  lemma ReaderNeverWaits(s: State)
    requires Inv(s)
    ensures match s.rd.pc
            case RIdle => Enabled(s, RLoadW)
            case RLoadedW => Enabled(s, RLoadR)
            case RLoadedR(_) => Enabled(s, RMakeView)
            case RReading(view, got) =>
              && Enabled(s, RLoadW) && Enabled(s, REndRead)
              && (|got| < view.Size() ==> Enabled(s, RReadByte))
  {
    if s.rd.pc.RReading? {
      var _ := ViewContents(s.q, s.h, s.rd.readEnd, s.rd.snap);
    }
  }

  // ---------------------------------------------------------------- how much room there is

  /** Cell `i` holds a byte committed and not released. */
  predicate HoldsUnread(q: Shared, i: nat) {
    if q.r <= q.w then q.r <= i < q.w else i < q.w || q.r <= i < q.e
  }

  /**
   `n` bytes can be written in one piece from `start` on, where the last commit ended or at the start of the
   buffer: they are in the buffer, overwrite nothing unread, and if the read index is further on, end before the
   cell in front of it, as a full queue would look empty otherwise.
   */
  ghost predicate FreeRun(q: Shared, start: nat, n: nat) {
    && (start == q.w || start == 0)
    && start + n <= q.Capacity()
    && (start < q.r ==> start + n < q.r)
    && forall i :: start <= i < start + n ==> !HoldsUnread(q, i)
  }

  /** There is a free run of that length. */
  ghost predicate HasRoom(q: Shared, n: nat) {
    exists start: nat :: FreeRun(q, start, n)
  }

  /** The length of the longest free run. */
  function LongestRun(q: Shared): int {
    if q.w < q.r then q.r - 1 - q.w
    else if q.Capacity() - q.w >= q.r - 1 then q.Capacity() - q.w
    else q.r - 1
  }

  lemma LongestRunIsLongest(q: Shared, n: nat)
    requires IndicesInRange(q)
    ensures HasRoom(q, n) <==> n <= LongestRun(q)
  {
    if n <= LongestRun(q) {
      assert FreeRun(q, if q.w < q.r || n <= q.Capacity() - q.w then q.w else 0, n);
    }
    forall start: nat | FreeRun(q, start, n)
      ensures n <= LongestRun(q)
    {
      assert n > 0 ==> !HoldsUnread(q, start);
    }
  }

  /** The region selected is a free run, and none is longer. */
  lemma SelectsLongestRun(q: Shared)
    requires IndicesInRange(q)
    ensures var region := SelectRegion(q.w, q.r, q.Capacity());
            && 0 <= region.pos <= region.end
            && FreeRun(q, region.pos, region.end - region.pos)
            && region.end - region.pos == LongestRun(q)
            && forall start: nat, n: nat :: FreeRun(q, start, n) ==> n <= region.end - region.pos
  {
    forall start: nat, n: nat | FreeRun(q, start, n)
      ensures n <= LongestRun(q)
    {
      assert HasRoom(q, n);
      LongestRunIsLongest(q, n);
    }
  }

  // ---------------------------------------------------------------- what one step does to the unread bytes

  lemma WriterStepUnread(s: State, step: Step)
    requires Inv(s) && Enabled(s, step)
    requires step.WSelect? || step.WCopyByte?
    ensures IndicesInRange(Apply(s, step).q)
    ensures Unread(Apply(s, step).q) == Unread(s.q)
  {
    StepInv(s, step);
    UnreadIsLog(s);
    UnreadIsLog(Apply(s, step));
  }

  lemma CommitUnread(s: State)
    requires Inv(s) && Enabled(s, WCommit)
    ensures IndicesInRange(Apply(s, WCommit).q)
    ensures Unread(Apply(s, WCommit).q) == Unread(s.q) + s.wr.pending
  {
    var s' := Apply(s, WCommit);
    CommitInv(s);
    UnreadIsLog(s);
    UnreadIsLog(s');
    assert s'.h.log[s.h.rel..] == s.h.log[s.h.rel..] + [s.wr.pending];
    ConcatPush(s.h.log[s.h.rel..], s.wr.pending);
  }

  lemma EndReadUnread(s: State)
    requires Inv(s) && Enabled(s, REndRead)
    ensures IndicesInRange(Apply(s, REndRead).q)
    ensures Unread(s.q) == ViewBytes(s.rd.pc.view, s.q.buf) + Unread(Apply(s, REndRead).q)
  {
    var h := s.h;
    EndReadInv(s);
    UnreadIsLog(s);
    UnreadIsLog(Apply(s, REndRead));
    var _ := ViewContents(s.q, s.h, s.rd.readEnd, s.rd.snap);
    ConcatSplit(h.log, h.rel, s.rd.snap, |h.log|);
    assert h.log[h.rel..] == h.log[h.rel..|h.log|] && h.log[s.rd.snap..] == h.log[s.rd.snap..|h.log|];
  }

  // ---------------------------------------------------------------- runs there are

  lemma InitReachable(s: State)
    requires Init(s)
    ensures Reachable(s)
  {
    var states, steps: seq<Step> := [s], [];
    assert Run(states, steps);
  }

  lemma StepReachable(s: State, step: Step)
    requires Reachable(s) && Enabled(s, step)
    ensures Reachable(Apply(s, step))
  {
    hide Enabled, Apply, Init;
    var states, steps :| Run(states, steps) && states[|steps|] == s;
    var states', steps' := states + [Apply(s, step)], steps + [step];
    assert Run(states', steps') && states'[|steps'|] == Apply(s, step);
  }

  /** `maximizeWriteCapacity`, undisturbed. */
  lemma GoSelect(s: State) returns (s': State)
    requires Reachable(s) && s.wr.pc.WIdle? && s.q.w <= s.q.Capacity()
    ensures Reachable(s')
    ensures var region := SelectRegion(s.q.w, s.q.r, s.q.Capacity());
            s' == s.(q := if region.wrap then s.q.(e := s.q.w) else s.q,
                     wr := Writer(region.pos, region.end, WIdle, [], region.wrap))
  {
    hide Reachable;
    StepReachable(s, WLoadW);
    var s1 := Apply(s, WLoadW);
    StepReachable(s1, WLoadR);
    var s2 := Apply(s1, WLoadR);
    StepReachable(s2, WSelect);
    s' := Apply(s2, WSelect);
  }

  /** A write and a commit of one byte, undisturbed. */
  lemma GoCommit(s: State, b: byte) returns (s': State)
    requires Reachable(s) && s.wr.pc.WIdle? && s.wr.pos < s.wr.end <= |s.q.buf|
    ensures Reachable(s')
    ensures s'.q == s.q.(buf := s.q.buf[s.wr.pos := b], w := s.wr.pos + 1) && s'.rd == s.rd
    ensures s'.wr == Writer(s.wr.pos + 1, s.wr.end, WIdle, [], false)
  {
    hide Reachable;
    StepReachable(s, WStartCopy([b]));
    var s1 := Apply(s, WStartCopy([b]));
    StepReachable(s1, WCopyByte);
    var s2 := Apply(s1, WCopyByte);
    StepReachable(s2, WEndCopy);
    var s3 := Apply(s2, WEndCopy);
    StepReachable(s3, WCommit);
    s' := Apply(s3, WCommit);
  }

  /** `beginRead`, undisturbed. */
  lemma GoBeginRead(s: State) returns (s': State)
    requires Reachable(s) && s.rd.pc.RIdle?
    ensures Reachable(s') && s'.q == s.q && s'.wr == s.wr
    ensures s'.rd == Reader(s.q.w, RReading(MakeView(s.q.r, s.q.w, s.q.e), []), |s.h.log|)
  {
    hide Reachable;
    StepReachable(s, RLoadW);
    var s1 := Apply(s, RLoadW);
    StepReachable(s1, RLoadR);
    var s2 := Apply(s1, RLoadR);
    StepReachable(s2, RMakeView);
    s' := Apply(s2, RMakeView);
  }

  lemma GoEndRead(s: State) returns (s': State)
    requires Reachable(s) && s.rd.pc.RReading?
    ensures Reachable(s') && s'.q == s.q.(r := s.rd.readEnd) && s'.wr == s.wr && s'.rd.pc.RIdle?
  {
    ReachableInv(s);
    hide Reachable;
    var _ := ViewContents(s.q, s.h, s.rd.readEnd, s.rd.snap);
    StepReachable(s, REndRead);
    s' := Apply(s, REndRead);
  }

  /** Reads across the end of the buffer do happen: here is a run with a view of two parts. */
  lemma TwoPartViewsHappen(a: byte, b: byte) returns (s: State)
    ensures Reachable(s) && s.rd.pc.RReading? && s.rd.pc.view == View(3, 1, 0, 1)
    ensures s.q.buf == [b, 0, 0, a]
  {
    hide Reachable, Inv;
    s := State(Shared(0, 0, 0, [0, 0, 0, 0]), Writer(0, 0, WIdle, [], false), Reader(0, RIdle, 0), History([], 0, 0, []));
    InitReachable(s);
    s := GoSelect(s);
    s := GoCommit(s, 0);
    s := GoCommit(s, 0);
    s := GoCommit(s, 0);
    s := GoBeginRead(s);
    s := GoEndRead(s);
    s := GoCommit(s, a);
    s := GoSelect(s);
    s := GoCommit(s, b);
    s := GoBeginRead(s);
  }
}
