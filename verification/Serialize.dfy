/** Values, their serialized form, and what visiting that form must tell. */
module Serialization {
  import opened Bytes
  import opened Entries
  import opened Tags
  import opened Hex
  import opened Visits

  /**
   Values of the types of module `Tags`: the bytes of a number or enumerator, the elements of a sequence,
   the members of a tuple or structure, the alternative a variant holds, or the empty alternative.
   */
  datatype Value =
    | Scalar(bits: bytes)
    | Many(elems: Values)
    | Row(members: Values)
    | Chosen(index: nat, value: Value)
    | Nothing(index: nat)

  datatype Values = NoValues | More(head: Value, tail: Values)

  function Count(vs: Values): nat {
    if vs.NoValues? then 0 else 1 + Count(vs.tail)
  }

  /** `v` is a value of type `t`, where references are to structures in `full`. */
  predicate HasType(full: Type, t: Type, v: Value)
    decreases v
  {
    match t
    case Arithmetic(kind) => v.Scalar? && SizeOfKind(kind) > 0 && |v.bits| == SizeOfKind(kind)
    case Null => false
    case Sequence(elem) => v.Many? && Count(v.elems) < TWO_TO_32 && AllHaveType(full, elem, v.elems)
    case Tuple(elems) => v.Row? && RowHasType(full, elems, v.members)
    case Variant(options) =>
      (match v
       case Chosen(index, value) =>
         index < 256 && Nth(options, index).Some? && !Nth(options, index).value.Null?
         && HasType(full, Nth(options, index).value, value)
       case Nothing(index) => index < 256 && Nth(options, index) == Some(Null)
       case _ => false)
    case Struct(name, fields) => v.Row? && FieldsHaveType(full, Resolved(full, name, fields), v.members)
    case Enum(underlying, _, _) =>
      v.Scalar? && IsInteger(underlying) && |v.bits| == SizeOfKind(underlying) && (underlying == 'y' ==> v.bits[0] <= 1)
  }

  predicate AllHaveType(full: Type, elem: Type, vs: Values)
    decreases vs
  {
    vs.More? ==> HasType(full, elem, vs.head) && AllHaveType(full, elem, vs.tail)
  }

  predicate RowHasType(full: Type, ts: Types, vs: Values)
    decreases vs
  {
    if ts.Nil? then vs.NoValues? else vs.More? && HasType(full, ts.head, vs.head) && RowHasType(full, ts.tail, vs.tail)
  }

  predicate FieldsHaveType(full: Type, fs: Fields, vs: Values)
    decreases vs
  {
    if fs.NoFields? then vs.NoValues?
    else vs.More? && HasType(full, fs.ty, vs.head) && FieldsHaveType(full, fs.rest, vs.tail)
  }

  // ---------------------------------------------------------------- serialized form

  function Ser(v: Value): bytes
    decreases v
  {
    match v
    case Scalar(bits) => bits
    case Many(elems) => LE(Count(elems), 4) + SerAll(elems)
    case Row(members) => SerAll(members)
    case Chosen(index, value) => LE(index, 1) + Ser(value)
    case Nothing(index) => LE(index, 1)
  }

  function SerAll(vs: Values): bytes
    decreases vs
  {
    if vs.NoValues? then [] else Ser(vs.head) + SerAll(vs.tail)
  }

  /** How deep visiting the value recurses. */
  function Depth(v: Value): (n: nat)
    ensures n > 0
    decreases v
  {
    match v
    case Scalar(_) => 1
    case Many(elems) => 1 + DepthOfAll(elems)
    case Row(members) => 1 + DepthOfAll(members)
    case Chosen(_, value) => 1 + Depth(value)
    case Nothing(_) => 1
  }

  function DepthOfAll(vs: Values): nat
    decreases vs
  {
    if vs.NoValues? then 0
    else if Depth(vs.head) > DepthOfAll(vs.tail) then Depth(vs.head) else DepthOfAll(vs.tail)
  }

  // ---------------------------------------------------------------- zero-byte types

  /** Every value is serialized to nothing. A structure given without fields counts if it really has none. */
  predicate IsSingular(full: Type, t: Type)
    decreases t
  {
    match t
    case Tuple(elems) => AllSingular(full, elems)
    case Struct(name, fields) =>
      if fields.NoFields? then FieldsOf(full, name).NoFields? else SingularMembers(full, fields)
    case _ => false
  }

  predicate AllSingular(full: Type, ts: Types)
    decreases ts
  {
    ts.Cons? ==> IsSingular(full, ts.head) && AllSingular(full, ts.tail)
  }

  predicate SingularMembers(full: Type, fs: Fields)
    decreases fs
  {
    fs.Field? ==> IsSingular(full, fs.ty) && SingularMembers(full, fs.rest)
  }

  /** The check by text answers just that, unless it gives up. */
  lemma {:induction false} SingularIsExact(full: Type, t: Type, fuel: nat)
    ensures TypeSingular(full, t, fuel).Some? ==> TypeSingular(full, t, fuel).value == IsSingular(full, t)
    decreases t
  {
    if fuel > 0 {
      match t
      case Tuple(elems) => AllSingularIsExact(full, elems, fuel - 1);
      case Struct(_, fields) => SingularMembersIsExact(full, fields, fuel - 1);
      case _ =>
    }
  }

  lemma {:induction false} AllSingularIsExact(full: Type, ts: Types, fuel: nat)
    ensures TypesSingular(full, ts, fuel).Some? ==> TypesSingular(full, ts, fuel).value == AllSingular(full, ts)
    decreases ts
  {
    if ts.Cons? {
      SingularIsExact(full, ts.head, fuel);
      AllSingularIsExact(full, ts.tail, fuel);
    }
  }

  lemma {:induction false} SingularMembersIsExact(full: Type, fs: Fields, fuel: nat)
    ensures FieldsSingular(full, fs, fuel).Some? ==> FieldsSingular(full, fs, fuel).value == SingularMembers(full, fs)
    decreases fs
  {
    if fs.Field? {
      SingularIsExact(full, fs.ty, fuel);
      SingularMembersIsExact(full, fs.rest, fuel);
    }
  }

  /** It does not give up where there is a value that could be visited. */
  lemma {:induction false} SingularAnswers(full: Type, t: Type, v: Value, fuel: nat)
    requires HasType(full, t, v) && Depth(v) <= fuel
    ensures TypeSingular(full, t, fuel).Some?
    decreases t
  {
    match t
    case Tuple(elems) => AllSingularAnswers(full, elems, v.members, fuel - 1);
    case Struct(_, fields) =>
      if fields.Field? {
        MembersSingularAnswers(full, fields, v.members, fuel - 1);
      }
    case _ =>
  }

  lemma {:induction false} AllSingularAnswers(full: Type, ts: Types, vs: Values, fuel: nat)
    requires RowHasType(full, ts, vs) && DepthOfAll(vs) <= fuel
    ensures TypesSingular(full, ts, fuel).Some?
    decreases ts
  {
    if ts.Cons? {
      SingularAnswers(full, ts.head, vs.head, fuel);
      AllSingularAnswers(full, ts.tail, vs.tail, fuel);
    }
  }

  lemma {:induction false} MembersSingularAnswers(full: Type, fs: Fields, vs: Values, fuel: nat)
    requires FieldsHaveType(full, fs, vs) && DepthOfAll(vs) <= fuel
    ensures FieldsSingular(full, fs, fuel).Some?
    decreases fs
  {
    if fs.Field? {
      SingularAnswers(full, fs.ty, vs.head, fuel);
      MembersSingularAnswers(full, fs.rest, vs.tail, fuel);
    }
  }

  // ---------------------------------------------------------------- the calls a value is told by

  function TraceOf(full: Type, t: Type, v: Value, mode: Mode): seq<Callback>
    requires HasType(full, t, v)
    decreases v
  {
    match t
    case Arithmetic(kind) => [Value(kind, v.bits)]
    case Sequence(elem) =>
      var n := Count(v.elems);
      assert AllHaveType(full, elem, v.elems);
      if mode.skipStrings && elem == Arithmetic('c') then [SequenceBegin(n, "c"), Skipped(SerAll(v.elems))]
      else
        [SequenceBegin(n, Tag(elem))] + TraceOfBody(full, elem, v.elems, mode) + [SequenceEnd]
    case Tuple(elems) => [TupleBegin(TagAll(elems))] + TraceOfRow(full, elems, v.members, mode) + [TupleEnd]
    case Variant(options) =>
      (match v
       case Chosen(index, value) =>
         var option := Nth(options, index).value;
         [VariantBegin(index, Tag(option))] + TraceOf(full, option, value, mode) + [VariantEnd]
       case Nothing(index) => [VariantBegin(index, "0")] + [NullValue] + [VariantEnd])
    case Struct(name, fields) =>
      var fs := Resolved(full, name, fields);
      [StructBegin(name, TagFields(fs))] + TraceOfFields(full, fs, v.members, mode) + [StructEnd]
    case Enum(underlying, name, es) =>
      var value := HexOf(underlying, v.bits);
      [EnumValue(name, EnumeratorWith(es, value), underlying, value)]
  }

  function TraceOfBody(full: Type, elem: Type, vs: Values, mode: Mode): seq<Callback>
    requires AllHaveType(full, elem, vs)
    decreases vs, 1
  {
    if mode.collapse && Count(vs) > 32 && IsSingular(full, elem) then TraceOfFirst(full, elem, vs, mode)
    else TraceOfElems(full, elem, vs, mode)
  }

  /** One element stands for all. */
  function TraceOfFirst(full: Type, elem: Type, vs: Values, mode: Mode): seq<Callback>
    requires AllHaveType(full, elem, vs) && vs.More?
    decreases vs, 0
  {
    [RepeatBegin(Count(vs), Tag(elem))] + TraceOf(full, elem, vs.head, mode) + [RepeatEnd(Count(vs), Tag(elem))]
  }

  function TraceOfElems(full: Type, elem: Type, vs: Values, mode: Mode): seq<Callback>
    requires AllHaveType(full, elem, vs)
    decreases vs, 0
  {
    if vs.NoValues? then [] else TraceOf(full, elem, vs.head, mode) + TraceOfElems(full, elem, vs.tail, mode)
  }

  function TraceOfRow(full: Type, ts: Types, vs: Values, mode: Mode): seq<Callback>
    requires RowHasType(full, ts, vs)
    decreases vs
  {
    if ts.Nil? then [] else TraceOf(full, ts.head, vs.head, mode) + TraceOfRow(full, ts.tail, vs.tail, mode)
  }

  function TraceOfFields(full: Type, fs: Fields, vs: Values, mode: Mode): seq<Callback>
    requires FieldsHaveType(full, fs, vs)
    decreases vs
  {
    if fs.NoFields? then []
    else
      [FieldBegin(fs.name, Tag(fs.ty))] + TraceOf(full, fs.ty, vs.head, mode) + [FieldEnd]
      + TraceOfFields(full, fs.rest, vs.tail, mode)
  }

  // ---------------------------------------------------------------- visiting what was serialized

  lemma {:induction false} SingularIsEmpty(full: Type, t: Type, v: Value)
    requires HasType(full, t, v) && IsSingular(full, t)
    ensures Ser(v) == []
    decreases v
  {
    match t
    case Tuple(elems) => SingularRowIsEmpty(full, elems, v.members);
    case Struct(name, fields) =>
      if fields.Field? {
        SingularFieldsAreEmpty(full, fields, v.members);
      }
  }

  lemma {:induction false} SingularRowIsEmpty(full: Type, ts: Types, vs: Values)
    requires RowHasType(full, ts, vs) && AllSingular(full, ts)
    ensures SerAll(vs) == []
    decreases vs
  {
    if ts.Cons? {
      SingularIsEmpty(full, ts.head, vs.head);
      SingularRowIsEmpty(full, ts.tail, vs.tail);
    }
  }

  lemma {:induction false} SingularFieldsAreEmpty(full: Type, fs: Fields, vs: Values)
    requires FieldsHaveType(full, fs, vs) && SingularMembers(full, fs)
    ensures SerAll(vs) == []
    decreases vs
  {
    if fs.Field? {
      SingularIsEmpty(full, fs.ty, vs.head);
      SingularFieldsAreEmpty(full, fs.rest, vs.tail);
    }
  }

  lemma {:induction false} SingularElemsAreEmpty(full: Type, elem: Type, vs: Values)
    requires AllHaveType(full, elem, vs) && IsSingular(full, elem)
    ensures SerAll(vs) == []
    decreases vs
  {
    if vs.More? {
      SingularIsEmpty(full, elem, vs.head);
      SingularElemsAreEmpty(full, elem, vs.tail);
    }
  }

  lemma {:induction false} CharsAreBytes(full: Type, vs: Values)
    requires AllHaveType(full, Arithmetic('c'), vs)
    ensures |SerAll(vs)| == Count(vs)
    decreases vs
  {
    if vs.More? {
      CharsAreBytes(full, vs.tail);
    }
  }

  lemma ReadSize(n: nat, rest: bytes)
    ensures n < TWO_TO_32 ==> ReadUint(LE(n, 4) + rest, 4) == Ok(n, rest)
    ensures n < 256 ==> ReadUint(LE(n, 1) + rest, 1) == Ok(n, rest)
  {
    Ranges();
    if n < TWO_TO_32 {
      ReadUintOf(n, 4, rest);
    }
    if n < 256 {
      ReadUintOf(n, 1, rest);
    }
  }

  lemma TakeExactly(b: bytes, rest: bytes)
    ensures Take(b + rest, |b|) == Ok(b, rest)
  {
  }

  /**
   Visiting a serialized value, whatever follows it in the input, makes the calls that tell the value,
   throws nothing, and leaves what follows. Only the nesting must stay within the limit.
   */
  lemma {:induction false} VisitOfSerialized(full: Type, t: Type, v: Value, mode: Mode, rest: bytes, fuel: nat)
    requires HasType(full, t, v) && Depth(v) <= fuel
    ensures TypeVisit(full, t, mode, Ser(v) + rest, fuel) == Done(TraceOf(full, t, v, mode), rest)
    decreases v, 1
  {
    hide ReadUint, LE, HexOf, EnumeratorWith, TypeVisit, TraceOf, TypesVisit, FieldsVisit, Resolved;
    match t
    case Arithmetic(kind) => VisitOfScalar(full, t, v, mode, rest, fuel);
    case Sequence(elem) => VisitOfSequence(full, elem, v, mode, rest, fuel);
    case Tuple(elems) => VisitOfTuple(full, elems, v, mode, rest, fuel);
    case Variant(options) => VisitOfVariant(full, options, v, mode, rest, fuel);
    case Struct(name, fields) => VisitOfStruct(full, name, fields, v, mode, rest, fuel);
    case Enum(_, _, _) => VisitOfScalar(full, t, v, mode, rest, fuel);
  }

  lemma VisitOfScalar(full: Type, t: Type, v: Value, mode: Mode, rest: bytes, fuel: nat)
    requires HasType(full, t, v) && fuel > 0 && (t.Arithmetic? || t.Enum?)
    ensures TypeVisit(full, t, mode, Ser(v) + rest, fuel) == Done(TraceOf(full, t, v, mode), rest)
  {
    hide HexOf, EnumeratorWith;
    TakeExactly(v.bits, rest);
  }

  lemma {:induction false} VisitOfSequence(full: Type, elem: Type, v: Value, mode: Mode, rest: bytes, fuel: nat)
    requires HasType(full, Sequence(elem), v) && Depth(v) <= fuel
    ensures TypeVisit(full, Sequence(elem), mode, Ser(v) + rest, fuel) == Done(TraceOf(full, Sequence(elem), v, mode), rest)
    decreases v, 0
  {
    hide ReadUint, LE, SequenceVisit, TraceOf;
    var vs, n := v.elems, Count(v.elems);
    assert Ser(v) + rest == LE(n, 4) + (SerAll(vs) + rest);
    ReadSize(n, SerAll(vs) + rest);
    VisitOfSized(full, elem, v, mode, rest, fuel - 1);
  }

  /** Behind the size. */
  lemma {:induction false} VisitOfSized(full: Type, elem: Type, v: Value, mode: Mode, rest: bytes, fuel: nat)
    requires HasType(full, Sequence(elem), v) && Depth(v) <= fuel + 1
    ensures SequenceVisit(full, elem, mode, SerAll(v.elems) + rest, fuel, Count(v.elems))
            == Done(TraceOf(full, Sequence(elem), v, mode), rest)
    decreases v, 0, 0
  {
    hide HasType, ElementsVisit, TraceOfBody;
    SequenceHasElems(full, elem, v);
    var vs := v.elems;
    if mode.skipStrings && elem == Arithmetic('c') {
      CharsAreBytes(full, vs);
      TakeExactly(SerAll(vs), rest);
    } else {
      VisitOfBody(full, elem, vs, mode, rest, fuel);
    }
  }

  lemma {:induction false} VisitOfBody(full: Type, elem: Type, vs: Values, mode: Mode, rest: bytes, fuel: nat)
    requires AllHaveType(full, elem, vs) && DepthOfAll(vs) <= fuel
    ensures ElementsVisit(full, elem, mode, SerAll(vs) + rest, fuel, Count(vs))
            == Done(TraceOfBody(full, elem, vs, mode), rest)
    decreases vs, 2
  {
    hide IsSingular, TypeVisit, TimesVisit, TraceOfElems, TraceOf, HasType;
    if Count(vs) > 32 {
      SingularAnswers(full, elem, vs.head, fuel);
      SingularIsExact(full, elem, fuel);
    }
    if mode.collapse && Count(vs) > 32 && IsSingular(full, elem) {
      SingularElemsAreEmpty(full, elem, vs);
      SingularIsEmpty(full, elem, vs.head);
      VisitOfSerialized(full, elem, vs.head, mode, rest, fuel);
      assert [] + rest == rest;
    } else {
      VisitOfElems(full, elem, vs, mode, rest, fuel);
    }
  }

  lemma SequenceHasElems(full: Type, elem: Type, v: Value)
    requires HasType(full, Sequence(elem), v)
    ensures v.Many? && Count(v.elems) < TWO_TO_32 && AllHaveType(full, elem, v.elems)
    ensures v.elems.More? ==> HasType(full, elem, v.elems.head)
  {
  }

  lemma {:induction false} VisitOfElems(full: Type, elem: Type, vs: Values, mode: Mode, rest: bytes, fuel: nat)
    requires AllHaveType(full, elem, vs) && DepthOfAll(vs) <= fuel
    ensures TimesVisit(full, elem, mode, SerAll(vs) + rest, fuel, Count(vs)) == Done(TraceOfElems(full, elem, vs, mode), rest)
    decreases vs, 1
  {
    hide TypeVisit, TraceOf, Ser, HasType, Depth;
    if vs.NoValues? {
      assert SerAll(vs) + rest == rest;
    } else {
      assert SerAll(vs) + rest == Ser(vs.head) + (SerAll(vs.tail) + rest);
      VisitOfSerialized(full, elem, vs.head, mode, SerAll(vs.tail) + rest, fuel);
      VisitOfElems(full, elem, vs.tail, mode, rest, fuel);
    }
  }

  lemma {:induction false} VisitOfTuple(full: Type, elems: Types, v: Value, mode: Mode, rest: bytes, fuel: nat)
    requires HasType(full, Tuple(elems), v) && Depth(v) <= fuel
    ensures TypeVisit(full, Tuple(elems), mode, Ser(v) + rest, fuel) == Done(TraceOf(full, Tuple(elems), v, mode), rest)
    decreases v, 0
  {
    VisitOfRow(full, elems, v.members, mode, rest, fuel - 1);
  }

  lemma {:induction false} VisitOfRow(full: Type, ts: Types, vs: Values, mode: Mode, rest: bytes, fuel: nat)
    requires RowHasType(full, ts, vs) && DepthOfAll(vs) <= fuel
    ensures TypesVisit(full, ts, mode, SerAll(vs) + rest, fuel) == Done(TraceOfRow(full, ts, vs, mode), rest)
    decreases vs, 1
  {
    hide TypeVisit, TraceOf, Ser, HasType, Depth;
    if ts.Nil? {
      assert SerAll(vs) + rest == rest;
    } else {
      assert SerAll(vs) + rest == Ser(vs.head) + (SerAll(vs.tail) + rest);
      VisitOfSerialized(full, ts.head, vs.head, mode, SerAll(vs.tail) + rest, fuel);
      VisitOfRow(full, ts.tail, vs.tail, mode, rest, fuel);
    }
  }

  lemma {:induction false} VisitOfVariant(full: Type, options: Types, v: Value, mode: Mode, rest: bytes, fuel: nat)
    requires HasType(full, Variant(options), v) && Depth(v) <= fuel
    ensures TypeVisit(full, Variant(options), mode, Ser(v) + rest, fuel)
            == Done(TraceOf(full, Variant(options), v, mode), rest)
    decreases v, 0
  {
    hide ReadUint, LE;
    if v.Chosen? {
      assert Ser(v) + rest == LE(v.index, 1) + (Ser(v.value) + rest);
      ReadSize(v.index, Ser(v.value) + rest);
      VisitOfSerialized(full, Nth(options, v.index).value, v.value, mode, rest, fuel - 1);
    } else {
      ReadSize(v.index, rest);
    }
  }

  lemma {:induction false} VisitOfStruct(full: Type, name: string, fields: Fields, v: Value, mode: Mode, rest: bytes, fuel: nat)
    requires HasType(full, Struct(name, fields), v) && Depth(v) <= fuel
    ensures TypeVisit(full, Struct(name, fields), mode, Ser(v) + rest, fuel)
            == Done(TraceOf(full, Struct(name, fields), v, mode), rest)
    decreases v, 0
  {
    hide Resolved;
    VisitOfFields(full, Resolved(full, name, fields), v.members, mode, rest, fuel - 1);
  }

  lemma {:induction false} VisitOfFields(full: Type, fs: Fields, vs: Values, mode: Mode, rest: bytes, fuel: nat)
    requires FieldsHaveType(full, fs, vs) && DepthOfAll(vs) <= fuel
    ensures FieldsVisit(full, fs, mode, SerAll(vs) + rest, fuel) == Done(TraceOfFields(full, fs, vs, mode), rest)
    decreases vs, 1
  {
    hide TypeVisit, TraceOf, Ser, HasType, Depth;
    if fs.NoFields? {
      assert SerAll(vs) + rest == rest;
    } else {
      assert SerAll(vs) + rest == Ser(vs.head) + (SerAll(vs.tail) + rest);
      VisitOfSerialized(full, fs.ty, vs.head, mode, SerAll(vs.tail) + rest, fuel);
      VisitOfFields(full, fs.rest, vs.tail, mode, rest, fuel);
    }
  }

  /** The same by tag: `visit(tag(T), serialize(v) + rest)`. */
  lemma VisitByTagOfSerialized(t: Type, v: Value, mode: Mode, rest: bytes)
    requires WellFormed(t) && HasType(t, t, v) && Depth(v) <= MAX_RECURSION
    ensures Visit(Tag(t), Tag(t), mode, Ser(v) + rest, MAX_RECURSION) == Done(TraceOf(t, t, v, mode), rest)
  {
    VisitRefines(t, t, mode, Ser(v) + rest, MAX_RECURSION);
    VisitOfSerialized(t, t, v, mode, rest, MAX_RECURSION);
  }

  // ---------------------------------------------------------------- the bytes themselves

  /** A sequence starts with its size in four bytes, a variant with its index in one; a row has nothing around it. */
  lemma SerExamples(a: bytes, b: bytes, index: byte)
    ensures Ser(Many(More(Scalar(a), More(Scalar(b), NoValues)))) == [2, 0, 0, 0] + (a + b)
    ensures Ser(Row(More(Scalar(a), More(Scalar(b), NoValues)))) == a + b
    ensures Ser(Chosen(index, Scalar(a))) == [index] + a && Ser(Nothing(index)) == [index]
  {
    var last := More(Scalar(b), NoValues);
    assert Count(last) == 1 && Count(More(Scalar(a), last)) == 2;
    assert SerAll(last) == b + [] && b + [] == b;
    assert SerAll(More(Scalar(a), last)) == a + b;
    LEStep(index, 1);
    hide LE;
    SmallLE(2);
  }
}
