/** Writing values to a stream, and computing beforehand how many bytes that takes. */
module Serializers {
  import opened Bytes
  import opened Entries
  import opened EventFilters
  import opened Tags
  import opened Hex
  import opened Visits
  import opened Serialization

  method Serialize(v: Value, out: VectorOutputStream)
    modifies out
    ensures out.vector == old(out.vector) + Ser(v)
    decreases v, 1
  {
    hide LE;
    match v {
      case Scalar(bits) => out.Write(bits);
      case Many(elems) =>
        var size := CountElems(elems);
        out.Write(LE(size, 4));
        SerializeElems(elems, out);
      case Row(members) => SerializeElems(members, out);
      case Chosen(index, value) =>
        out.Write(LE(index, 1));
        Serialize(value, out);
      case Nothing(index) => out.Write(LE(index, 1));
    }
  }

  method CountElems(vs: Values) returns (n: nat)
    ensures n == Count(vs)
  {
    n := 0;
    var rest := vs;
    while rest.More?
      invariant n + Count(rest) == Count(vs)
      decreases rest
    {
      n, rest := n + 1, rest.tail;
    }
  }

  method SerializeElems(vs: Values, out: VectorOutputStream)
    modifies out
    ensures out.vector == old(out.vector) + SerAll(vs)
    decreases vs, 0
  {
    hide Ser;
    var rest := vs;
    ghost var start, done: bytes := out.vector, [];
    while rest.More?
      invariant rest == vs || rest < vs
      invariant out.vector == start + done && done + SerAll(rest) == SerAll(vs)
      decreases rest
    {
      ghost var head, tail := Ser(rest.head), SerAll(rest.tail);
      Regroup(start, done, head, tail);
      Serialize(rest.head, out);
      done := done + head;
      rest := rest.tail;
    }
    assert done + [] == done;
  }

  lemma Regroup(start: bytes, done: bytes, head: bytes, tail: bytes)
    ensures start + done + head == start + (done + head)
    ensures done + (head + tail) == (done + head) + tail
  {
  }

  /** Elements of a fixed size are not visited for it, and the answer is still right. */
  method SerializedSize(full: Type, t: Type, v: Value) returns (n: nat)
    requires HasType(full, t, v)
    ensures n == |Ser(v)|
    decreases v, 1
  {
    match t {
      case Arithmetic(kind) => n := SizeOfKind(kind);
      case Enum(underlying, _, _) => n := SizeOfKind(underlying);
      case Sequence(elem) =>
        if elem.Arithmetic? {
          var count := CountElems(v.elems);
          FixedSizes(full, elem.kind, v.elems);
          n := 4 + count * SizeOfKind(elem.kind);
        } else {
          var size := SizeOfElems(full, elem, v.elems);
          n := 4 + size;
        }
      case Tuple(elems) => n := SizeOfRow(full, elems, v.members);
      case Variant(options) =>
        n := 1;
        if v.Chosen? {
          var size := SerializedSize(full, Nth(options, v.index).value, v.value);
          n := 1 + size;
        }
      case Struct(name, fields) => n := SizeOfFields(full, Resolved(full, name, fields), v.members);
    }
  }

  lemma {:induction false} FixedSizes(full: Type, kind: char, vs: Values)
    requires AllHaveType(full, Arithmetic(kind), vs)
    ensures |SerAll(vs)| == Count(vs) * SizeOfKind(kind)
    decreases vs
  {
    if vs.More? {
      FixedSizes(full, kind, vs.tail);
      assert Count(vs) * SizeOfKind(kind) == SizeOfKind(kind) + Count(vs.tail) * SizeOfKind(kind);
    }
  }

  method SizeOfElems(full: Type, elem: Type, vs: Values) returns (n: nat)
    requires AllHaveType(full, elem, vs)
    ensures n == |SerAll(vs)|
    decreases vs, 0
  {
    n := 0;
    var rest := vs;
    while rest.More?
      invariant rest == vs || rest < vs
      invariant AllHaveType(full, elem, rest) && n + |SerAll(rest)| == |SerAll(vs)|
      decreases rest
    {
      var size := SerializedSize(full, elem, rest.head);
      n, rest := n + size, rest.tail;
    }
  }

  method SizeOfRow(full: Type, types: Types, vs: Values) returns (n: nat)
    requires RowHasType(full, types, vs)
    ensures n == |SerAll(vs)|
    decreases vs, 0
  {
    n := 0;
    var ts, rest := types, vs;
    while ts.Cons?
      invariant rest == vs || rest < vs
      invariant RowHasType(full, ts, rest) && n + |SerAll(rest)| == |SerAll(vs)|
      decreases ts
    {
      var size := SerializedSize(full, ts.head, rest.head);
      n, ts, rest := n + size, ts.tail, rest.tail;
    }
  }

  method SizeOfFields(full: Type, fields: Fields, vs: Values) returns (n: nat)
    requires FieldsHaveType(full, fields, vs)
    ensures n == |SerAll(vs)|
    decreases vs, 0
  {
    n := 0;
    var fs, rest := fields, vs;
    while fs.Field?
      invariant rest == vs || rest < vs
      invariant FieldsHaveType(full, fs, rest) && n + |SerAll(rest)| == |SerAll(vs)|
      decreases fs
    {
      var size := SerializedSize(full, fs.ty, rest.head);
      n, fs, rest := n + size, fs.rest, rest.tail;
    }
  }
}
