/** What the calls of a visit determine: the bytes consumed, and the value. */
module VisitDetermines {
  import opened Bytes
  import opened Entries
  import opened Tags
  import opened Hex
  import opened Visits
  import opened Serialization

  // ---------------------------------------------------------------- every byte is accounted for

  /** The bytes taken from the input for a call. */
  function SizeOfCallback(cb: Callback): nat {
    match cb
    case Value(_, bits) => |bits|
    case SequenceBegin(_, _) => 4
    case VariantBegin(_, _) => 1
    case EnumValue(_, _, underlying, _) => SizeOfKind(underlying)
    case Skipped(text) => |text|
    case _ => 0
  }

  function Consumed(trace: seq<Callback>): nat {
    if trace == [] then 0 else SizeOfCallback(trace[0]) + Consumed(trace[1..])
  }

  lemma {:induction false} ConsumedAppend(a: seq<Callback>, b: seq<Callback>)
    ensures Consumed(a + b) == Consumed(a) + Consumed(b)
  {
    if a == [] {
      assert a + b == b;
    } else {
      assert (a + b)[1..] == a[1..] + b;
      ConsumedAppend(a[1..], b);
    }
  }

  lemma ConsumedOne(cb: Callback)
    ensures Consumed([cb]) == SizeOfCallback(cb)
  {
    assert [cb][1..] == [];
  }

  /** What is left is a tail of the input, and the calls account for all before it. */
  ghost predicate Conserves(b: bytes, o: Outcome) {
    |o.rest| <= |b| && b[|b| - |o.rest|..] == o.rest && |b| == Consumed(o.trace) + |o.rest|
  }

  lemma ConservesNothing(b: bytes)
    ensures Conserves(b, Done([], b)) && Conserves(b, Threw([], b))
  {
  }

  lemma ConservesWrap(b: bytes, first: Callback, mid: bytes, o: Outcome, last: Callback)
    requires |mid| <= |b| && b[|b| - |mid|..] == mid && |b| == SizeOfCallback(first) + |mid|
    requires Conserves(mid, o) && SizeOfCallback(last) == 0
    ensures Conserves(b, Wrap([first], o, [last]))
  {
    ConsumedOne(first);
    ConsumedOne(last);
    ConsumedAppend([first], o.trace);
    ConsumedAppend([first] + o.trace, [last]);
    assert b[|b| - |o.rest|..] == mid[|mid| - |o.rest|..];
  }

  lemma ConservesThen(b: bytes, o: Outcome, p: Outcome)
    requires Conserves(b, o) && Conserves(o.rest, p)
    ensures Conserves(b, Prepend(o.trace, p))
  {
    ConsumedAppend(o.trace, p.trace);
    assert b[|b| - |p.rest|..] == o.rest[|o.rest| - |p.rest|..];
  }

  lemma ConservesTake(b: bytes, n: nat, cb: Callback)
    requires n <= |b| && SizeOfCallback(cb) == n
    ensures Conserves(b, Done([cb], b[n..]))
  {
    ConsumedOne(cb);
  }

  /**
   Visiting any tag, well-formed or not, over any input: whatever is consumed was handed to the visitor,
   nothing is read twice or dropped, also when an exception ends the visit.
   */
  lemma {:induction false} VisitConserves(full: tag, t: tag, mode: Mode, b: bytes, fuel: nat)
    ensures Conserves(b, Visit(full, t, mode, b, fuel))
    decreases fuel, 0, 0
  {
    hide Conserves, VisitSequence, VisitTuple, VisitVariant, VisitStruct, VisitEnum, VisitArithmetic, SizeOfKind;
    ConservesNothing(b);
    if fuel > 0 && t != "" {
      if t[0] == '[' {
        SequenceConserves(full, t, mode, b, fuel - 1);
      } else if t[0] == '(' {
        TupleConserves(full, t, mode, b, fuel - 1);
      } else if t[0] == '<' {
        VariantConserves(full, t, mode, b, fuel - 1);
      } else if t[0] == '{' {
        StructConserves(full, t, mode, b, fuel - 1);
      } else if t[0] == '/' {
        EnumConserves(t, b);
      } else {
        ArithmeticConserves(t[0], b);
      }
    }
  }

  lemma ArithmeticConserves(kind: char, b: bytes)
    ensures Conserves(b, VisitArithmetic(kind, b))
  {
    hide Conserves, SizeOfKind;
    ConservesNothing(b);
    if 0 < SizeOfKind(kind) <= |b| {
      ConservesTake(b, SizeOfKind(kind), Value(kind, b[..SizeOfKind(kind)]));
    }
  }

  lemma EnumConserves(t: tag, b: bytes)
    ensures Conserves(b, VisitEnum(t, b))
  {
    hide Conserves, SizeOfKind, EnumCall, Drop, DropLast;
    ConservesNothing(b);
    var s := DropLast(Drop(t, 1));
    if s != "" && 0 < SizeOfKind(s[0]) <= |b| {
      EnumCallSize(s, b[..SizeOfKind(s[0])]);
      ConservesTake(b, SizeOfKind(s[0]), EnumCall(s, b[..SizeOfKind(s[0])]));
    }
  }

  lemma EnumCallSize(s: tag, bits: bytes)
    requires s != ""
    ensures SizeOfCallback(EnumCall(s, bits)) == SizeOfKind(s[0])
  {
  }

  lemma {:induction false} SequenceConserves(full: tag, t: tag, mode: Mode, b: bytes, fuel: nat)
    ensures Conserves(b, VisitSequence(full, t, mode, b, fuel))
    decreases fuel, 3, 0
  {
    hide Conserves, Pop, VisitElements, Wrap, FromLE, SkipText;
    ConservesNothing(b);
    var elem := Pop(Drop(t, 1)).0;
    if |b| >= 4 {
      var size, rest := ReadUint(b, 4).value, b[4..];
      SkipConserves(size, elem, b);
      ElementsConserve(full, elem, mode, rest, fuel, size);
      ConservesWrap(b, SequenceBegin(size, elem), rest, VisitElements(full, elem, mode, rest, fuel, size), SequenceEnd);
    }
  }

  lemma {:induction false} ElementsConserve(full: tag, elem: tag, mode: Mode, b: bytes, fuel: nat, size: nat)
    ensures Conserves(b, VisitElements(full, elem, mode, b, fuel, size))
    decreases fuel, 1, size + 1
  {
    hide Conserves, Visit, VisitTimes, Singular, Wrap;
    ConservesNothing(b);
    VisitConserves(full, elem, mode, b, fuel);
    ConservesWrap(b, RepeatBegin(size, elem), b, Visit(full, elem, mode, b, fuel), RepeatEnd(size, elem));
    TimesConserves(full, elem, mode, b, fuel, size);
  }

  lemma SkipConserves(size: nat, elem: tag, b: bytes)
    requires |b| >= 4
    ensures Conserves(b, SkipText(size, elem, b[4..]))
  {
    ConsumedOne(SequenceBegin(size, elem));
    if size <= |b[4..]| {
      ConsumedOne(Skipped(b[4..][..size]));
      ConsumedAppend([SequenceBegin(size, elem)], [Skipped(b[4..][..size])]);
      assert [SequenceBegin(size, elem)] + [Skipped(b[4..][..size])] == [SequenceBegin(size, elem), Skipped(b[4..][..size])];
      assert b[4..][size..] == b[4 + size..];
    }
  }

  lemma {:induction false} TimesConserves(full: tag, elem: tag, mode: Mode, b: bytes, fuel: nat, n: nat)
    ensures Conserves(b, VisitTimes(full, elem, mode, b, fuel, n))
    decreases fuel, 1, n
  {
    hide Conserves, Visit;
    ConservesNothing(b);
    if n > 0 {
      var o := Visit(full, elem, mode, b, fuel);
      VisitConserves(full, elem, mode, b, fuel);
      TimesConserves(full, elem, mode, o.rest, fuel, n - 1);
      ConservesThen(b, o, VisitTimes(full, elem, mode, o.rest, fuel, n - 1));
    }
  }

  lemma {:induction false} TupleConserves(full: tag, t: tag, mode: Mode, b: bytes, fuel: nat)
    ensures Conserves(b, VisitTuple(full, t, mode, b, fuel))
    decreases fuel, 3, 0
  {
    hide Conserves, VisitAll, Wrap;
    var tags := DropLast(Drop(t, 1));
    AllConserves(full, tags, mode, b, fuel);
    ConservesWrap(b, TupleBegin(tags), b, VisitAll(full, tags, mode, b, fuel), TupleEnd);
  }

  lemma {:induction false} AllConserves(full: tag, tags: tag, mode: Mode, b: bytes, fuel: nat)
    ensures Conserves(b, VisitAll(full, tags, mode, b, fuel))
    decreases fuel, 1, |tags|
  {
    hide Conserves, Visit, FirstSize;
    ConservesNothing(b);
    if tags != "" {
      var o := Visit(full, Pop(tags).0, mode, b, fuel);
      VisitConserves(full, Pop(tags).0, mode, b, fuel);
      AllConserves(full, Pop(tags).1, mode, o.rest, fuel);
      ConservesThen(b, o, VisitAll(full, Pop(tags).1, mode, o.rest, fuel));
    }
  }

  lemma {:induction false} VariantConserves(full: tag, t: tag, mode: Mode, b: bytes, fuel: nat)
    ensures Conserves(b, VisitVariant(full, t, mode, b, fuel))
    decreases fuel, 3, 0
  {
    hide Conserves, Pop, PopTimes, Visit, Wrap, FromLE;
    ConservesNothing(b);
    if |b| >= 1 {
      var d, rest := ReadUint(b, 1).value, b[1..];
      var option := Pop(PopTimes(DropLast(Drop(t, 1)), d)).0;
      VisitConserves(full, option, mode, rest, fuel);
      NullConserves(rest);
      ConservesWrap(b, VariantBegin(d, option), rest, Visit(full, option, mode, rest, fuel), VariantEnd);
      ConservesWrap(b, VariantBegin(d, option), rest, Done([NullValue], rest), VariantEnd);
    }
  }

  lemma NullConserves(b: bytes)
    ensures Conserves(b, Done([NullValue], b))
  {
    ConsumedOne(NullValue);
  }

  lemma {:induction false} StructConserves(full: tag, t: tag, mode: Mode, b: bytes, fuel: nat)
    ensures Conserves(b, VisitStruct(full, t, mode, b, fuel))
    decreases fuel, 3, 0
  {
    hide Conserves, VisitFields, Wrap, StructFields, Intro;
    var fields := StructFields(full, t);
    FieldsConserve(full, fields, mode, b, fuel);
    ConservesWrap(b, StructBegin(Drop(Intro(t), 1), fields), b, VisitFields(full, fields, mode, b, fuel), StructEnd);
  }

  lemma {:induction false} FieldsConserve(full: tag, fields: tag, mode: Mode, b: bytes, fuel: nat)
    ensures Conserves(b, VisitFields(full, fields, mode, b, fuel))
    decreases fuel, 1, |fields|
  {
    hide Conserves, Visit, FirstSize, Wrap;
    ConservesNothing(b);
    if fields != "" {
      var (name, tags) := PopLabel(fields);
      var (fieldTag, more) := Pop(tags);
      VisitConserves(full, fieldTag, mode, b, fuel);
      ConservesWrap(b, FieldBegin(name, fieldTag), b, Visit(full, fieldTag, mode, b, fuel), FieldEnd);
      var o := Wrap([FieldBegin(name, fieldTag)], Visit(full, fieldTag, mode, b, fuel), [FieldEnd]);
      FieldsConserve(full, more, mode, o.rest, fuel);
      ConservesThen(b, o, VisitFields(full, more, mode, o.rest, fuel));
    }
  }

  // ---------------------------------------------------------------- bytes determine the value

  lemma {:induction false} LEPrefix(m: nat, n: nat, k: nat, a: bytes, b: bytes)
    requires m < Range256(k) && n < Range256(k) && LE(m, k) + a == LE(n, k) + b
    ensures m == n && a == b
  {
    assert (LE(m, k) + a)[..k] == LE(m, k) && (LE(n, k) + b)[..k] == LE(n, k);
    assert (LE(m, k) + a)[k..] == a && (LE(n, k) + b)[k..] == b;
    FromLEOfLE(m, k);
    FromLEOfLE(n, k);
  }

  /** No serialized value is a proper prefix of another of its type, and no two are the same. */
  lemma {:induction false} SerializedDeterminesValue(full: Type, t: Type, v: Value, w: Value, a: bytes, b: bytes)
    requires HasType(full, t, v) && HasType(full, t, w) && Ser(v) + a == Ser(w) + b
    ensures v == w && a == b
    decreases v, 1
  {
    Ranges();
    hide LE, Resolved;
    match t
    case Arithmetic(_) => SamePrefix(v.bits, w.bits, a, b);
    case Enum(_, _, _) => SamePrefix(v.bits, w.bits, a, b);
    case Sequence(elem) =>
      assert Ser(v) + a == LE(Count(v.elems), 4) + (SerAll(v.elems) + a);
      assert Ser(w) + b == LE(Count(w.elems), 4) + (SerAll(w.elems) + b);
      LEPrefix(Count(v.elems), Count(w.elems), 4, SerAll(v.elems) + a, SerAll(w.elems) + b);
      ElemsDetermined(full, elem, v.elems, w.elems, a, b);
    case Tuple(elems) => RowDetermined(full, elems, v.members, w.members, a, b);
    case Struct(name, fields) => FieldsDetermined(full, Resolved(full, name, fields), v.members, w.members, a, b);
    case Variant(options) => VariantDetermined(full, options, v, w, a, b);
  }

  lemma SamePrefix(x: bytes, y: bytes, a: bytes, b: bytes)
    requires |x| == |y| && x + a == y + b
    ensures x == y && a == b
  {
    assert (x + a)[..|x|] == x && (y + b)[..|x|] == y && (x + a)[|x|..] == a && (y + b)[|x|..] == b;
  }

  lemma {:induction false} VariantDetermined(full: Type, options: Types, v: Value, w: Value, a: bytes, b: bytes)
    requires HasType(full, Variant(options), v) && HasType(full, Variant(options), w) && Ser(v) + a == Ser(w) + b
    ensures v == w && a == b
    decreases v, 0
  {
    Ranges();
    hide LE;
    var x := if v.Chosen? then Ser(v.value) + a else a;
    var y := if w.Chosen? then Ser(w.value) + b else b;
    assert Ser(v) + a == LE(v.index, 1) + x && Ser(w) + b == LE(w.index, 1) + y;
    LEPrefix(v.index, w.index, 1, x, y);
    if v.Chosen? {
      SerializedDeterminesValue(full, Nth(options, v.index).value, v.value, w.value, a, b);
    }
  }

  lemma {:induction false} ElemsDetermined(full: Type, elem: Type, vs: Values, ws: Values, a: bytes, b: bytes)
    requires AllHaveType(full, elem, vs) && AllHaveType(full, elem, ws) && Count(vs) == Count(ws)
    requires SerAll(vs) + a == SerAll(ws) + b
    ensures vs == ws && a == b
    decreases vs, 0
  {
    hide HasType, Ser;
    if vs.NoValues? {
      assert SerAll(vs) + a == a && SerAll(ws) + b == b;
    } else {
      assert SerAll(vs) + a == Ser(vs.head) + (SerAll(vs.tail) + a);
      assert SerAll(ws) + b == Ser(ws.head) + (SerAll(ws.tail) + b);
      SerializedDeterminesValue(full, elem, vs.head, ws.head, SerAll(vs.tail) + a, SerAll(ws.tail) + b);
      ElemsDetermined(full, elem, vs.tail, ws.tail, a, b);
    }
  }

  lemma {:induction false} RowDetermined(full: Type, ts: Types, vs: Values, ws: Values, a: bytes, b: bytes)
    requires RowHasType(full, ts, vs) && RowHasType(full, ts, ws) && SerAll(vs) + a == SerAll(ws) + b
    ensures vs == ws && a == b
    decreases vs, 0
  {
    hide HasType, Ser;
    if ts.Nil? {
      assert SerAll(vs) + a == a && SerAll(ws) + b == b;
    } else {
      assert SerAll(vs) + a == Ser(vs.head) + (SerAll(vs.tail) + a);
      assert SerAll(ws) + b == Ser(ws.head) + (SerAll(ws.tail) + b);
      SerializedDeterminesValue(full, ts.head, vs.head, ws.head, SerAll(vs.tail) + a, SerAll(ws.tail) + b);
      RowDetermined(full, ts.tail, vs.tail, ws.tail, a, b);
    }
  }

  lemma {:induction false} FieldsDetermined(full: Type, fs: Fields, vs: Values, ws: Values, a: bytes, b: bytes)
    requires FieldsHaveType(full, fs, vs) && FieldsHaveType(full, fs, ws) && SerAll(vs) + a == SerAll(ws) + b
    ensures vs == ws && a == b
    decreases vs, 0
  {
    hide HasType, Ser;
    if fs.NoFields? {
      assert SerAll(vs) + a == a && SerAll(ws) + b == b;
    } else {
      assert SerAll(vs) + a == Ser(vs.head) + (SerAll(vs.tail) + a);
      assert SerAll(ws) + b == Ser(ws.head) + (SerAll(ws.tail) + b);
      SerializedDeterminesValue(full, fs.ty, vs.head, ws.head, SerAll(vs.tail) + a, SerAll(ws.tail) + b);
      FieldsDetermined(full, fs.rest, vs.tail, ws.tail, a, b);
    }
  }

  // ---------------------------------------------------------------- calls determine the bytes

  /** The bytes a call tells of. */
  function BytesOfCallback(cb: Callback): bytes {
    match cb
    case Value(_, bits) => bits
    case SequenceBegin(size, _) => LE(size, 4)
    case VariantBegin(d, _) => LE(d, 1)
    case EnumValue(_, _, underlying, value) =>
      LE(HexValue(value) % Range256(SizeOfKind(underlying)), SizeOfKind(underlying))
    case Skipped(text) => text
    case _ => []
  }

  function BytesOf(trace: seq<Callback>): bytes {
    if trace == [] then [] else BytesOfCallback(trace[0]) + BytesOf(trace[1..])
  }

  lemma {:induction false} BytesOfAppend(a: seq<Callback>, b: seq<Callback>)
    ensures BytesOf(a + b) == BytesOf(a) + BytesOf(b)
  {
    if a == [] {
      assert a + b == b;
    } else {
      assert (a + b)[1..] == a[1..] + b;
      BytesOfAppend(a[1..], b);
    }
  }

  lemma BytesOfNothing()
    ensures BytesOf([]) == []
  {
  }

  lemma BytesOfOne(cb: Callback)
    ensures BytesOf([cb]) == BytesOfCallback(cb)
  {
    assert [cb][1..] == [];
  }

  lemma BytesOfThree(first: Callback, trace: seq<Callback>, last: Callback)
    requires BytesOfCallback(last) == []
    ensures BytesOf([first] + trace + [last]) == BytesOfCallback(first) + BytesOf(trace)
  {
    BytesOfOne(first);
    BytesOfOne(last);
    BytesOfAppend([first], trace);
    BytesOfAppend([first] + trace, [last]);
  }

  lemma EnumBytes(kind: char, bits: bytes)
    requires IsInteger(kind) && |bits| == SizeOfKind(kind) && (kind == 'y' ==> bits[0] <= 1)
    ensures LE(HexValue(HexOf(kind, bits)) % Range256(SizeOfKind(kind)), SizeOfKind(kind)) == bits
  {
    hide HexValue, HexString, LE, Range256, FromLE;
    var v, r := IntegerOf(kind, bits), Range256(|bits|);
    HexRoundTrip(v);
    FromLEBound(bits);
    LEOfFromLE(bits);
    if kind == 'y' {
      BoolBits(bits);
    }
    Modulo(v, FromLE(bits), r);
  }

  lemma BoolBits(bits: bytes)
    requires |bits| == 1
    ensures FromLE(bits) == bits[0]
  {
    assert bits[1..] == [];
  }

  lemma Modulo(v: int, n: nat, r: nat)
    requires n < r && (v == n || v == n - r)
    ensures v % r == n
  {
    if v == n - r {
      assert v == (-1) * r + n;
    }
  }

  /** The calls for a value tell its serialized bytes. */
  lemma {:induction false} BytesOfTrace(full: Type, t: Type, v: Value, mode: Mode)
    requires HasType(full, t, v)
    ensures BytesOf(TraceOf(full, t, v, mode)) == Ser(v)
    decreases v, 1
  {
    hide BytesOf, LE, HexOf, HexValue, EnumeratorWith, TraceOfElems, TraceOfFirst, TraceOfRow, TraceOfFields, Resolved;
    match t
    case Arithmetic(kind) => BytesOfOne(Value(kind, v.bits));
    case Enum(underlying, _, _) =>
      BytesOfOne(TraceOf(full, t, v, mode)[0]);
      EnumBytes(underlying, v.bits);
    case Sequence(elem) => BytesOfSequence(full, elem, v, mode);
    case Tuple(elems) =>
      BytesOfThree(TupleBegin(TagAll(elems)), TraceOfRow(full, elems, v.members, mode), TupleEnd);
      BytesOfRow(full, elems, v.members, mode);
    case Variant(options) => BytesOfVariant(full, options, v, mode);
    case Struct(name, fields) =>
      var fs := Resolved(full, name, fields);
      BytesOfThree(StructBegin(name, TagFields(fs)), TraceOfFields(full, fs, v.members, mode), StructEnd);
      BytesOfFields(full, fs, v.members, mode);
  }

  lemma {:induction false} BytesOfVariant(full: Type, options: Types, v: Value, mode: Mode)
    requires HasType(full, Variant(options), v)
    ensures BytesOf(TraceOf(full, Variant(options), v, mode)) == Ser(v)
    decreases v, 0
  {
    hide BytesOf, LE;
    if v.Chosen? {
      var option := Nth(options, v.index).value;
      BytesOfThree(VariantBegin(v.index, Tag(option)), TraceOf(full, option, v.value, mode), VariantEnd);
      BytesOfTrace(full, option, v.value, mode);
    } else {
      BytesOfThree(VariantBegin(v.index, "0"), [NullValue], VariantEnd);
      BytesOfOne(NullValue);
    }
  }

  lemma {:induction false} BytesOfSequence(full: Type, elem: Type, v: Value, mode: Mode)
    requires HasType(full, Sequence(elem), v)
    ensures BytesOf(TraceOf(full, Sequence(elem), v, mode)) == Ser(v)
    decreases v, 0
  {
    hide BytesOf, LE, TraceOfBody;
    SequenceHasElems(full, elem, v);
    var n := Count(v.elems);
    if mode.skipStrings && elem == Arithmetic('c') {
      BytesOfOne(SequenceBegin(n, "c"));
      BytesOfOne(Skipped(SerAll(v.elems)));
      BytesOfAppend([SequenceBegin(n, "c")], [Skipped(SerAll(v.elems))]);
      assert [SequenceBegin(n, "c")] + [Skipped(SerAll(v.elems))] == [SequenceBegin(n, "c"), Skipped(SerAll(v.elems))];
    } else {
      BytesOfThree(SequenceBegin(n, Tag(elem)), TraceOfBody(full, elem, v.elems, mode), SequenceEnd);
      BytesOfBody(full, elem, v.elems, mode);
    }
  }

  lemma {:induction false} BytesOfBody(full: Type, elem: Type, vs: Values, mode: Mode)
    requires AllHaveType(full, elem, vs)
    ensures BytesOf(TraceOfBody(full, elem, vs, mode)) == SerAll(vs)
    decreases vs, 1
  {
    hide BytesOf, IsSingular, TraceOf, Ser, TraceOfElems;
    if mode.collapse && Count(vs) > 32 && IsSingular(full, elem) {
      BytesOfThree(RepeatBegin(Count(vs), Tag(elem)), TraceOf(full, elem, vs.head, mode), RepeatEnd(Count(vs), Tag(elem)));
      BytesOfTrace(full, elem, vs.head, mode);
      SingularElemsAreEmpty(full, elem, vs);
      SingularIsEmpty(full, elem, vs.head);
    } else {
      BytesOfElems(full, elem, vs, mode);
    }
  }

  lemma {:induction false} BytesOfElems(full: Type, elem: Type, vs: Values, mode: Mode)
    requires AllHaveType(full, elem, vs)
    ensures BytesOf(TraceOfElems(full, elem, vs, mode)) == SerAll(vs)
    decreases vs, 0
  {
    hide TraceOf, Ser;
    if vs.More? {
      BytesOfTrace(full, elem, vs.head, mode);
      BytesOfElems(full, elem, vs.tail, mode);
      BytesOfAppend(TraceOf(full, elem, vs.head, mode), TraceOfElems(full, elem, vs.tail, mode));
    }
  }

  lemma {:induction false} BytesOfRow(full: Type, ts: Types, vs: Values, mode: Mode)
    requires RowHasType(full, ts, vs)
    ensures BytesOf(TraceOfRow(full, ts, vs, mode)) == SerAll(vs)
    decreases vs, 0
  {
    hide TraceOf, Ser;
    if ts.Cons? {
      BytesOfTrace(full, ts.head, vs.head, mode);
      BytesOfRow(full, ts.tail, vs.tail, mode);
      BytesOfAppend(TraceOf(full, ts.head, vs.head, mode), TraceOfRow(full, ts.tail, vs.tail, mode));
    }
  }

  lemma {:induction false} BytesOfFields(full: Type, fs: Fields, vs: Values, mode: Mode)
    requires FieldsHaveType(full, fs, vs)
    ensures BytesOf(TraceOfFields(full, fs, vs, mode)) == SerAll(vs)
    decreases vs, 0
  {
    hide TraceOf, Ser, BytesOf, HasType;
    if fs.NoFields? {
      BytesOfNothing();
    } else {
      var head := [FieldBegin(fs.name, Tag(fs.ty))] + TraceOf(full, fs.ty, vs.head, mode) + [FieldEnd];
      BytesOfThree(FieldBegin(fs.name, Tag(fs.ty)), TraceOf(full, fs.ty, vs.head, mode), FieldEnd);
      BytesOfTrace(full, fs.ty, vs.head, mode);
      BytesOfFields(full, fs.rest, vs.tail, mode);
      BytesOfAppend(head, TraceOfFields(full, fs.rest, vs.tail, mode));
    }
  }

  /** Two values of a type that make a visitor see the same calls are the same. */
  lemma TraceDeterminesValue(full: Type, t: Type, v: Value, w: Value, mode: Mode)
    requires HasType(full, t, v) && HasType(full, t, w)
    requires TraceOf(full, t, v, mode) == TraceOf(full, t, w, mode)
    ensures v == w
  {
    BytesOfTrace(full, t, v, mode);
    BytesOfTrace(full, t, w, mode);
    SerializedDeterminesValue(full, t, v, w, [], []);
  }
}
