/**
 Which sequences cost calls without bytes to pay for them: exactly those of elements that take no bytes once
 references are followed, but that `singular`, which does not follow them, takes for others.
 */
module VisitByteless {
  import opened Bytes
  import opened Entries
  import opened Tags
  import opened Hex
  import opened Visits
  import opened Serialization
  import opened VisitSingular
  import opened VisitBound

  // ---------------------------------------------------------------- types without bytes

  /** No value of `t` has bytes, references followed, and visiting one needs no more than `fuel` levels. */
  predicate Byteless(full: Type, t: Type, fuel: nat)
    decreases fuel, t
  {
    fuel > 0 &&
    match t
    case Tuple(elems) => AllByteless(full, elems, fuel - 1)
    case Struct(name, fields) => MembersByteless(full, Resolved(full, name, fields), fuel - 1)
    case _ => false
  }

  predicate AllByteless(full: Type, ts: Types, fuel: nat)
    decreases fuel, ts
  {
    ts.Cons? ==> Byteless(full, ts.head, fuel) && AllByteless(full, ts.tail, fuel)
  }

  predicate MembersByteless(full: Type, fs: Fields, fuel: nat)
    decreases fuel, fs
  {
    fs.Field? ==> Byteless(full, fs.ty, fuel) && MembersByteless(full, fs.rest, fuel)
  }

  /** Visiting such a type always works, takes no byte and makes some call. */
  ghost predicate Idle(b: bytes, o: Outcome) {
    o.ok && o.rest == b && |o.trace| > 0
  }

  lemma {:induction false} BytelessVisit(full: Type, t: Type, mode: Mode, b: bytes, fuel: nat)
    requires Byteless(full, t, fuel)
    ensures Idle(b, TypeVisit(full, t, mode, b, fuel))
    decreases fuel, t
  {
    hide FieldsVisit, TypesVisit, Resolved;
    match t
    case Tuple(elems) => BytelessRowVisit(full, elems, mode, b, fuel - 1);
    case Struct(name, fields) => BytelessFieldsVisit(full, Resolved(full, name, fields), mode, b, fuel - 1);
  }

  lemma {:induction false} BytelessRowVisit(full: Type, ts: Types, mode: Mode, b: bytes, fuel: nat)
    requires AllByteless(full, ts, fuel)
    ensures TypesVisit(full, ts, mode, b, fuel).ok && TypesVisit(full, ts, mode, b, fuel).rest == b
    decreases fuel, ts
  {
    hide TypeVisit;
    if ts.Cons? {
      BytelessVisit(full, ts.head, mode, b, fuel);
      BytelessRowVisit(full, ts.tail, mode, b, fuel);
    }
  }

  lemma {:induction false} BytelessFieldsVisit(full: Type, fs: Fields, mode: Mode, b: bytes, fuel: nat)
    requires MembersByteless(full, fs, fuel)
    ensures FieldsVisit(full, fs, mode, b, fuel).ok && FieldsVisit(full, fs, mode, b, fuel).rest == b
    decreases fuel, fs
  {
    hide TypeVisit;
    if fs.Field? {
      BytelessVisit(full, fs.ty, mode, b, fuel);
      BytelessFieldsVisit(full, fs.rest, mode, b, fuel);
    }
  }

  lemma {:induction false} BytelessElements(full: Type, elem: Type, mode: Mode, b: bytes, fuel: nat, n: nat)
    requires Byteless(full, elem, fuel)
    ensures var o := TimesVisit(full, elem, mode, b, fuel, n); o.ok && o.rest == b && |o.trace| >= n
    decreases n
  {
    hide TypeVisit;
    if n > 0 {
      BytelessVisit(full, elem, mode, b, fuel);
      BytelessElements(full, elem, mode, b, fuel, n - 1);
    }
  }

  // ---------------------------------------------------------------- hollow structures

  /** What `singular` recognizes takes no bytes, given enough levels. */
  function Levels(t: Type): (n: nat)
    ensures n > 0
    decreases t
  {
    match t
    case Tuple(elems) => 1 + LevelsOfAll(elems)
    case Struct(_, fields) => 1 + LevelsOfFields(fields)
    case _ => 1
  }

  function LevelsOfAll(ts: Types): nat
    decreases ts
  {
    if ts.Nil? then 0 else Levels(ts.head) + LevelsOfAll(ts.tail)
  }

  function LevelsOfFields(fs: Fields): nat
    decreases fs
  {
    if fs.NoFields? then 0 else Levels(fs.ty) + LevelsOfFields(fs.rest)
  }

  lemma {:induction false} SingularIsByteless(full: Type, t: Type, fuel: nat)
    requires IsSingular(full, t) && Levels(t) <= fuel
    ensures Byteless(full, t, fuel)
    decreases t
  {
    match t
    case Tuple(elems) => SingularRowIsByteless(full, elems, fuel - 1);
    case Struct(_, fields) => SingularMembersAreByteless(full, fields, fuel - 1);
  }

  lemma {:induction false} SingularRowIsByteless(full: Type, ts: Types, fuel: nat)
    requires AllSingular(full, ts) && LevelsOfAll(ts) <= fuel
    ensures AllByteless(full, ts, fuel)
    decreases ts
  {
    hide Byteless, IsSingular;
    if ts.Cons? {
      SingularIsByteless(full, ts.head, fuel);
      SingularRowIsByteless(full, ts.tail, fuel);
    }
  }

  lemma {:induction false} SingularMembersAreByteless(full: Type, fs: Fields, fuel: nat)
    requires SingularMembers(full, fs) && LevelsOfFields(fs) <= fuel
    ensures MembersByteless(full, fs, fuel)
    decreases fs
  {
    hide Byteless, IsSingular;
    if fs.Field? {
      SingularIsByteless(full, fs.ty, fuel);
      SingularMembersAreByteless(full, fs.rest, fuel);
    }
  }

  /** A reference to a hollow structure is byteless, and `singular` does not see it. */
  lemma HollowIsByteless(full: Type, name: string, fuel: nat)
    requires Hollow(full, name) && LevelsOfFields(FieldsOf(full, name)) < fuel
    ensures Byteless(full, Struct(name, NoFields), fuel) && !IsSingular(full, Struct(name, NoFields))
  {
    SingularMembersAreByteless(full, FieldsOf(full, name), fuel - 1);
  }

  /** Where `singular` is wrong about a byteless type, some hollow structure is referred to. */
  lemma {:induction false} BytelessRefersToHollow(full: Type, t: Type, fuel: nat) returns (name: string)
    requires Byteless(full, t, fuel) && !IsSingular(full, t)
    ensures name in References(t) + References(full) && Hollow(full, name)
    decreases fuel, t
  {
    match t
    case Tuple(elems) => name := RowRefersToHollow(full, elems, fuel - 1);
    case Struct(n, fields) =>
      if fields.Field? {
        name := MembersReferToHollow(full, fields, fuel - 1);
      } else if Hollow(full, n) {
        name := n;
      } else {
        name := MembersReferToHollow(full, FieldsOf(full, n), fuel - 1);
        FirstIsPart(full, n);
      }
  }

  lemma {:induction false} RowRefersToHollow(full: Type, ts: Types, fuel: nat) returns (name: string)
    requires AllByteless(full, ts, fuel) && !AllSingular(full, ts)
    ensures name in ReferencesOfAll(ts) + References(full) && Hollow(full, name)
    decreases fuel, ts
  {
    hide Hollow, Byteless, IsSingular, References;
    if IsSingular(full, ts.head) {
      name := RowRefersToHollow(full, ts.tail, fuel);
    } else {
      name := BytelessRefersToHollow(full, ts.head, fuel);
    }
  }

  lemma {:induction false} MembersReferToHollow(full: Type, fs: Fields, fuel: nat) returns (name: string)
    requires MembersByteless(full, fs, fuel) && !SingularMembers(full, fs)
    ensures name in ReferencesOfFields(fs) + References(full) && Hollow(full, name)
    decreases fuel, fs
  {
    hide Hollow, Byteless, IsSingular, References;
    if IsSingular(full, fs.ty) {
      name := MembersReferToHollow(full, fs.rest, fuel);
    } else {
      name := BytelessRefersToHollow(full, fs.ty, fuel);
    }
  }

  // ---------------------------------------------------------------- values without bytes

  /** A value is serialized to nothing if and only if its type is byteless: one value tells it of all. */
  lemma {:induction false} NoBytesIffByteless(full: Type, t: Type, v: Value, fuel: nat)
    requires HasType(full, t, v) && Depth(v) <= fuel
    ensures Ser(v) == [] <==> Byteless(full, t, fuel)
    decreases v
  {
    hide LE;
    match t
    case Tuple(elems) => NoBytesIffRowByteless(full, elems, v.members, fuel - 1);
    case Struct(name, fields) => NoBytesIffMembersByteless(full, Resolved(full, name, fields), v.members, fuel - 1);
    case _ =>
  }

  lemma {:induction false} NoBytesIffRowByteless(full: Type, ts: Types, vs: Values, fuel: nat)
    requires RowHasType(full, ts, vs) && DepthOfAll(vs) <= fuel
    ensures SerAll(vs) == [] <==> AllByteless(full, ts, fuel)
    decreases vs
  {
    hide HasType, Ser, Byteless, Depth;
    if ts.Cons? {
      NoBytesIffByteless(full, ts.head, vs.head, fuel);
      NoBytesIffRowByteless(full, ts.tail, vs.tail, fuel);
    }
  }

  lemma {:induction false} NoBytesIffMembersByteless(full: Type, fs: Fields, vs: Values, fuel: nat)
    requires FieldsHaveType(full, fs, vs) && DepthOfAll(vs) <= fuel
    ensures SerAll(vs) == [] <==> MembersByteless(full, fs, fuel)
    decreases vs
  {
    hide HasType, Ser, Byteless, Depth;
    if fs.Field? {
      NoBytesIffByteless(full, fs.ty, vs.head, fuel);
      NoBytesIffMembersByteless(full, fs.rest, vs.tail, fuel);
    }
  }

  /**
   Hence, where no hollow structure is referred to, `singular` says of any value's tag whether the value is
   serialized to nothing.
   */
  lemma SingularIffNoBytes(full: Type, t: Type, v: Value, fuel: nat)
    requires WellFormed(full) && WellFormed(t) && HasType(full, t, v) && Depth(v) <= fuel
    requires forall name :: name in References(t) + References(full) ==> !Hollow(full, name)
    ensures Singular(Tag(full), Tag(t), fuel) == Some(Ser(v) == [])
    ensures IsSingular(full, t) <==> Ser(v) == []
  {
    hide Byteless, IsSingular, HasType, Hollow, References, Tag;
    SingularRefines(full, t, fuel);
    SingularAnswers(full, t, v, fuel);
    SingularIsExact(full, t, fuel);
    NoBytesIffByteless(full, t, v, fuel);
    if IsSingular(full, t) {
      SingularIsEmpty(full, t, v);
    } else if Ser(v) == [] {
      var name := BytelessRefersToHollow(full, t, fuel);
    }
  }

  // ---------------------------------------------------------------- every visit is bounded somehow

  /** No visit makes more calls, whatever the input: sizes have 32 bits and the levels are limited. */
  function Crude(width: nat, fuel: nat): nat {
    if fuel == 0 then 0 else 4 + Product(width, Crude(width, fuel - 1) + 2)
  }

  /** `width` bounds the sizes of sequences and the numbers of members. */
  ghost predicate Fits(full: Type, width: nat) {
    TWO_TO_32 <= width && Weight(full) <= width
  }

  /** The calls are bounded, bytes are only taken, and success without bytes is of a byteless type. */
  ghost predicate Tame(b: bytes, o: Outcome, calls: nat, byteless: bool) {
    |o.rest| <= |b| && |o.trace| <= calls && (o.ok && |o.rest| == |b| ==> byteless)
  }

  lemma AtLeastOne(width: nat, fuel: nat)
    requires width > 0 && fuel > 0
    ensures Crude(width, fuel) >= Crude(width, fuel - 1) + 6
  {
    var c := Crude(width, fuel - 1) + 2;
    assert Product(width, c) >= c by { hide Crude; assert width * c >= 1 * c; }
  }

  lemma {:induction false} VisitIsTame(full: Type, t: Type, mode: Mode, b: bytes, fuel: nat, width: nat)
    requires Fits(full, width) && Weight(t) <= width
    ensures Tame(b, TypeVisit(full, t, mode, b, fuel), Crude(width, fuel), Byteless(full, t, fuel))
    decreases fuel, 0, 0, t
  {
    hide Product, TypesVisit, FieldsVisit, OptionVisit, SequenceVisit, ReadUint, Resolved, Crude, Fits, Wrap;
    if fuel > 0 {
      WidthPositive(full, width);
      AtLeastOne(width, fuel);
      match t
      case Arithmetic(kind) =>
      case Null =>
      case Enum(underlying, name, es) => EnumIsTame(full, underlying, name, es, b, fuel, width);
      case Sequence(elem) => SequenceIsTame(full, elem, mode, b, fuel, width);
      case Tuple(elems) => TupleIsTame(full, elems, mode, b, fuel, width);
      case Variant(options) => VariantIsTame(full, options, mode, b, fuel, width);
      case Struct(name, fields) => StructIsTame(full, name, fields, mode, b, fuel, width);
    }
  }

  lemma WidthPositive(full: Type, width: nat)
    requires Fits(full, width)
    ensures width >= TWO_TO_32 > 0
  {
  }

  lemma EnumIsTame(full: Type, underlying: char, name: string, es: seq<Enumerator>, b: bytes, fuel: nat, width: nat)
    requires fuel > 0 && width > 0
    ensures Tame(b, TypeVisit(full, Enum(underlying, name, es), Mode(false, false), b, fuel), Crude(width, fuel), false)
    ensures forall mode :: TypeVisit(full, Enum(underlying, name, es), mode, b, fuel)
                           == TypeVisit(full, Enum(underlying, name, es), Mode(false, false), b, fuel)
  {
    hide HexOf, EnumeratorWith;
    AtLeastOne(width, fuel);
    hide Crude;
  }

  lemma {:induction false} SequenceIsTame(full: Type, elem: Type, mode: Mode, b: bytes, fuel: nat, width: nat)
    requires fuel > 0 && Fits(full, width) && Weight(Sequence(elem)) <= width
    ensures Tame(b, TypeVisit(full, Sequence(elem), mode, b, fuel), Crude(width, fuel), false)
    decreases fuel, 0, 0, elem
  {
    hide Product, SequenceVisit, ReadUint, Fits;
    ReadShrinks(b, 4);
    ElementWeight(elem);
    if ReadUint(b, 4).Ok? {
      Ranges();
      WidthPositive(full, width);
      var n, rest := ReadUint(b, 4).value, ReadUint(b, 4).rest;
      SizedIsTame(full, elem, mode, rest, fuel - 1, n, width);
      Monotone(Crude(width, fuel - 1) + 2, n, width);
      Commutes(Crude(width, fuel - 1) + 2, n);
      Commutes(Crude(width, fuel - 1) + 2, width);
    }
  }

  lemma Commutes(a: nat, b: nat)
    ensures Product(a, b) == Product(b, a)
  {
  }

  lemma ElementWeight(elem: Type)
    ensures Weight(elem) <= Weight(Sequence(elem))
  {
  }

  lemma {:induction false} SizedIsTame(full: Type, elem: Type, mode: Mode, b: bytes, fuel: nat, n: nat, width: nat)
    requires Fits(full, width) && Weight(elem) <= width
    ensures Tame(b, SequenceVisit(full, elem, mode, b, fuel, n), 4 + Product(n, Crude(width, fuel) + 2), true)
    decreases fuel, 2, 0, elem
  {
    hide Product, TypeVisit, TimesVisit, Fits, Byteless, Crude;
    TimesAreTame(full, elem, mode, b, fuel, n, width);
    if n > 0 {
      VisitIsTame(full, elem, mode, b, fuel, width);
      Commutes(Crude(width, fuel) + 2, n);
      Monotone(Crude(width, fuel) + 2, 1, n);
      Distributes(Crude(width, fuel) + 2, 0, 0);
    }
  }

  lemma {:induction false} TimesAreTame(full: Type, elem: Type, mode: Mode, b: bytes, fuel: nat, n: nat, width: nat)
    requires Fits(full, width) && Weight(elem) <= width
    ensures Tame(b, TimesVisit(full, elem, mode, b, fuel, n), Product(n, Crude(width, fuel) + 2), true)
    decreases fuel, 1, n, elem
  {
    hide Product, TypeVisit, Fits, Byteless, Crude;
    var c := Crude(width, fuel) + 2;
    if n == 0 {
      Commutes(0, c);
      Distributes(c, 0, 0);
    } else {
      VisitIsTame(full, elem, mode, b, fuel, width);
      var o := TypeVisit(full, elem, mode, b, fuel);
      TimesAreTame(full, elem, mode, o.rest, fuel, n - 1, width);
      OneMore(n, c);
    }
  }

  lemma OneMore(n: nat, c: nat)
    requires n > 0
    ensures Product(n, c) == c + Product(n - 1, c)
  {
    assert n * c == c + (n - 1) * c;
  }

  lemma {:induction false} TupleIsTame(full: Type, elems: Types, mode: Mode, b: bytes, fuel: nat, width: nat)
    requires fuel > 0 && Fits(full, width) && Weight(Tuple(elems)) <= width
    ensures Tame(b, TypeVisit(full, Tuple(elems), mode, b, fuel), Crude(width, fuel), Byteless(full, Tuple(elems), fuel))
    decreases fuel, 0, 0, elems
  {
    hide Product, TypesVisit, Fits, AllByteless;
    RowIsTame(full, elems, mode, b, fuel - 1, width);
    Monotone(Crude(width, fuel - 1) + 2, WeightOfAll(elems), width);
    Commutes(Crude(width, fuel - 1) + 2, WeightOfAll(elems));
    Commutes(Crude(width, fuel - 1) + 2, width);
  }

  lemma MoreMembers(weight: nat, more: nat, c: nat)
    requires weight > 0
    ensures c + Product(more, c) <= Product(weight + more, c)
  {
    Monotone(c, 1 + more, weight + more);
    Commutes(c, 1 + more);
    Commutes(c, weight + more);
    Commutes(c, more);
    Distributes(c, 1, more);
  }

  lemma {:induction false} RowIsTame(full: Type, ts: Types, mode: Mode, b: bytes, fuel: nat, width: nat)
    requires Fits(full, width) && WeightOfAll(ts) <= width
    ensures Tame(b, TypesVisit(full, ts, mode, b, fuel), Product(WeightOfAll(ts), Crude(width, fuel) + 2),
                 AllByteless(full, ts, fuel))
    decreases fuel, 1, 0, ts
  {
    hide Product, TypeVisit, Fits, Byteless, Crude, Weight;
    var c := Crude(width, fuel) + 2;
    if ts.Cons? {
      VisitIsTame(full, ts.head, mode, b, fuel, width);
      var o := TypeVisit(full, ts.head, mode, b, fuel);
      RowIsTame(full, ts.tail, mode, o.rest, fuel, width);
      MoreMembers(Weight(ts.head), WeightOfAll(ts.tail), c);
    }
  }

  lemma {:induction false} VariantIsTame(full: Type, options: Types, mode: Mode, b: bytes, fuel: nat, width: nat)
    requires fuel > 0 && Fits(full, width) && Weight(Variant(options)) <= width
    ensures Tame(b, TypeVisit(full, Variant(options), mode, b, fuel), Crude(width, fuel), false)
    decreases fuel, 0, 0, options
  {
    hide Product, ReadUint, Fits, Crude, Byteless;
    ReadShrinks(b, 1);
    WidthPositive(full, width);
    AtLeastOne(width, fuel);
    if ReadUint(b, 1).Ok? {
      var d, rest := ReadUint(b, 1).value, ReadUint(b, 1).rest;
      if Nth(options, d).Some? {
        NthWeight(options, d);
        VisitIsTame(full, Nth(options, d).value, mode, rest, fuel - 1, width);
      }
    }
  }

  lemma {:induction false} NthWeight(ts: Types, d: nat)
    requires Nth(ts, d).Some?
    ensures Weight(Nth(ts, d).value) <= WeightOfAll(ts)
  {
    if d > 0 {
      NthWeight(ts.tail, d - 1);
    }
  }

  lemma {:induction false} StructIsTame(full: Type, name: string, fields: Fields, mode: Mode, b: bytes, fuel: nat, width: nat)
    requires fuel > 0 && Fits(full, width) && Weight(Struct(name, fields)) <= width
    ensures Tame(b, TypeVisit(full, Struct(name, fields), mode, b, fuel), Crude(width, fuel),
                 Byteless(full, Struct(name, fields), fuel))
    decreases fuel, 0, 0, fields
  {
    hide Product, FieldsVisit, MembersByteless;
    var fs := Resolved(full, name, fields);
    FirstIsPart(full, name);
    assert WeightOfFields(fs) <= width;
    hide Fits, Resolved, Weight;
    FieldsAreTame(full, fs, mode, b, fuel - 1, width);
    Monotone(Crude(width, fuel - 1) + 2, WeightOfFields(fs), width);
    Commutes(Crude(width, fuel - 1) + 2, WeightOfFields(fs));
    Commutes(Crude(width, fuel - 1) + 2, width);
  }

  lemma {:induction false} FieldsAreTame(full: Type, fs: Fields, mode: Mode, b: bytes, fuel: nat, width: nat)
    requires Fits(full, width) && WeightOfFields(fs) <= width
    ensures Tame(b, FieldsVisit(full, fs, mode, b, fuel), Product(WeightOfFields(fs), Crude(width, fuel) + 2),
                 MembersByteless(full, fs, fuel))
    decreases fuel, 1, 0, fs
  {
    hide Product, TypeVisit, Fits, Byteless, Crude, Weight;
    var c := Crude(width, fuel) + 2;
    if fs.Field? {
      VisitIsTame(full, fs.ty, mode, b, fuel, width);
      var o := TypeVisit(full, fs.ty, mode, b, fuel);
      FieldsAreTame(full, fs.rest, mode, o.rest, fuel, width);
      MoreMembers(2 + Weight(fs.ty), WeightOfFields(fs.rest), c);
    }
  }

  /** Success without bytes is exactly what byteless types have, on every input. */
  lemma BytelessIsExact(full: Type, t: Type, mode: Mode, b: bytes, fuel: nat)
    ensures var o := TypeVisit(full, t, mode, b, fuel);
            o.ok && o.rest == b <==> Byteless(full, t, fuel)
  {
    var width := TWO_TO_32 + Weight(full) + Weight(t);
    VisitIsTame(full, t, mode, b, fuel, width);
    if Byteless(full, t, fuel) {
      BytelessVisit(full, t, mode, b, fuel);
    }
  }

  // ---------------------------------------------------------------- which sequences cost nothing

  /** Some sequence of such elements makes more calls than `factor` times the bytes it takes, and one more. */
  ghost predicate Exceeds(full: Type, elem: Type, mode: Mode, fuel: nat, factor: nat) {
    exists b: bytes, size: nat ::
      var o := SequenceVisit(full, elem, mode, b, fuel, size);
      |o.trace| > factor * (|b| - |o.rest| + 1)
  }

  /** If elements take bytes, those pay for the calls. */
  lemma {:induction false} BytesPay(full: Type, elem: Type, mode: Mode, b: bytes, fuel: nat, n: nat, width: nat)
    requires Fits(full, width) && Weight(elem) <= width && !Byteless(full, elem, fuel)
    ensures var o := TimesVisit(full, elem, mode, b, fuel, n);
            |o.rest| <= |b| && |o.trace| <= Product(Crude(width, fuel), |b| - |o.rest| + 1)
    decreases n
  {
    hide Product, TypeVisit, Fits, Byteless, Crude;
    var c := Crude(width, fuel);
    if n > 0 {
      VisitIsTame(full, elem, mode, b, fuel, width);
      var o := TypeVisit(full, elem, mode, b, fuel);
      if o.ok {
        BytesPay(full, elem, mode, o.rest, fuel, n - 1, width);
        var p := TimesVisit(full, elem, mode, o.rest, fuel, n - 1);
        Distributes(c, 1, |o.rest| - |p.rest| + 1);
        Monotone(c, |o.rest| - |p.rest| + 2, |b| - |p.rest| + 1);
      } else {
        Distributes(c, 0, 0);
        Monotone(c, 1, |b| - |o.rest| + 1);
      }
    }
  }

  /** A factor that is enough unless elements are byteless and `singular` does not know. */
  function Enough(c: nat): nat {
    Product(33, c + 2) + 4
  }

  lemma {:induction false} ElementsArePaid(full: Type, elem: Type, mode: Mode, b: bytes, fuel: nat, n: nat, width: nat)
    requires Fits(full, width) && Weight(elem) <= width && mode.collapse
    requires !Byteless(full, elem, fuel) || IsSingular(full, elem)
    ensures var o := ElementsVisit(full, elem, mode, b, fuel, n);
            |o.rest| <= |b| && |o.trace| + 2 <= Product(Enough(Crude(width, fuel)), |b| - |o.rest| + 1)
  {
    hide Product, TypeVisit, TimesVisit, Fits, Byteless, Crude, IsSingular;
    var c := Crude(width, fuel);
    var o := ElementsVisit(full, elem, mode, b, fuel, n);
    VisitIsTame(full, elem, mode, b, fuel, width);
    SingularIsExact(full, elem, fuel);
    TimesAreTame(full, elem, mode, b, fuel, n, width);
    EnoughFor(c, |b| - |o.rest|);
    if !Byteless(full, elem, fuel) {
      BytesPay(full, elem, mode, b, fuel, n, width);
    } else if n <= 32 {
      Commutes(n, c + 2);
      Commutes(33, c + 2);
      Monotone(c + 2, n, 33);
    }
  }

  lemma EnoughFor(c: nat, used: nat)
    ensures Product(c, used + 1) + 2 <= Product(Enough(c), used + 1)
    ensures c + 4 <= Enough(c) <= Product(Enough(c), used + 1)
  {
    hide Product;
    OneMore(33, c + 2);
    Commutes(c, used + 1);
    Commutes(Enough(c), used + 1);
    Monotone(used + 1, c + 2, Enough(c));
    Distributes(used + 1, c, 2);
    Commutes(used + 1, 2);
    Monotone(2, 1, used + 1);
    Monotone(Enough(c), 1, used + 1);
    Distributes(2, 0, 0);
    Distributes(Enough(c), 0, 0);
  }

  lemma SequenceIsPaid(full: Type, elem: Type, mode: Mode, b: bytes, fuel: nat, n: nat, width: nat)
    requires Fits(full, width) && Weight(elem) <= width && mode.collapse
    requires !Byteless(full, elem, fuel) || IsSingular(full, elem)
    ensures var o := SequenceVisit(full, elem, mode, b, fuel, n);
            |o.trace| <= Enough(Crude(width, fuel)) * (|b| - |o.rest| + 1)
  {
    hide TypeVisit, ElementsVisit, Fits, Byteless, Crude, IsSingular;
    ElementsArePaid(full, elem, mode, b, fuel, n, width);
    var o := SequenceVisit(full, elem, mode, b, fuel, n);
    EnoughFor(Crude(width, fuel), |b| - |o.rest|);
  }

  /**
   Sequences exceed every factor if and only if their elements take no bytes, references followed, and are not
   singular: with any type around, any element type and any number of levels left.
   */
  lemma ExcessIsExact(full: Type, elem: Type, mode: Mode, fuel: nat)
    requires mode.collapse
    ensures (forall factor: nat :: Exceeds(full, elem, mode, fuel, factor))
            <==> Byteless(full, elem, fuel) && !IsSingular(full, elem)
  {
    hide TypeVisit, SequenceVisit, Byteless, IsSingular, Crude;
    if Byteless(full, elem, fuel) && !IsSingular(full, elem) {
      forall factor: nat ensures Exceeds(full, elem, mode, fuel, factor) {
        BytelessExceeds(full, elem, mode, fuel, factor);
      }
    } else {
      var width := TWO_TO_32 + Weight(full) + Weight(elem);
      var factor := Enough(Crude(width, fuel));
      forall b: bytes, size: nat
        ensures var o := SequenceVisit(full, elem, mode, b, fuel, size); |o.trace| <= factor * (|b| - |o.rest| + 1)
      {
        SequenceIsPaid(full, elem, mode, b, fuel, size, width);
      }
      assert !Exceeds(full, elem, mode, fuel, factor);
    }
  }

  /** `singular` answers, and wrongly. */
  lemma SingularIsWrong(full: Type, elem: Type, mode: Mode, fuel: nat)
    requires Byteless(full, elem, fuel) && !IsSingular(full, elem)
    ensures TypeSingular(full, elem, fuel) == Some(false)
  {
    hide TypeVisit, Byteless, IsSingular, TypeSingular;
    BytelessVisit(full, elem, mode, [], fuel);
    SingularIsExact(full, elem, fuel);
    if TypeSingular(full, elem, fuel).None? {
      GivingUpThrows(full, elem, mode, [], fuel);
    }
  }

  lemma BytelessSequence(full: Type, elem: Type, mode: Mode, b: bytes, fuel: nat, size: nat)
    requires Byteless(full, elem, fuel) && TypeSingular(full, elem, fuel) == Some(false)
    ensures var o := SequenceVisit(full, elem, mode, b, fuel, size); o.ok && o.rest == b && |o.trace| >= size
  {
    hide TypeVisit, TimesVisit, IsSingular, TypeSingular;
    NotArithmetic(full, elem, fuel);
    BytelessElements(full, elem, mode, b, fuel, size);
  }

  lemma BytelessExceeds(full: Type, elem: Type, mode: Mode, fuel: nat, factor: nat)
    requires Byteless(full, elem, fuel) && !IsSingular(full, elem)
    ensures Exceeds(full, elem, mode, fuel, factor)
  {
    hide SequenceVisit, Byteless, IsSingular, TypeSingular;
    SingularIsWrong(full, elem, mode, fuel);
    var none: bytes, size: nat := [], factor + 1;
    BytelessSequence(full, elem, mode, none, fuel, size);
    var o := SequenceVisit(full, elem, mode, none, fuel, size);
    assert |o.trace| > factor * (|none| - |o.rest| + 1);
  }

  lemma NotArithmetic(full: Type, elem: Type, fuel: nat)
    requires Byteless(full, elem, fuel)
    ensures !elem.Arithmetic?
  {
  }

  /**
   Sequences of a reference, in particular, exceed every factor if and only if the structure it refers to has
   members, but no bytes.
   */
  lemma ReferencesExceed(full: Type, name: string, mode: Mode, fuel: nat)
    requires mode.collapse && fuel > 0
    ensures (forall factor: nat :: Exceeds(full, Struct(name, NoFields), mode, fuel, factor))
            <==> FieldsOf(full, name).Field? && MembersByteless(full, FieldsOf(full, name), fuel - 1)
    ensures LevelsOfFields(FieldsOf(full, name)) < fuel && Hollow(full, name)
            ==> forall factor: nat :: Exceeds(full, Struct(name, NoFields), mode, fuel, factor)
  {
    hide Exceeds, MembersByteless;
    ExcessIsExact(full, Struct(name, NoFields), mode, fuel);
    if LevelsOfFields(FieldsOf(full, name)) < fuel && Hollow(full, name) {
      HollowIsByteless(full, name, fuel);
    }
  }

  /** Structure `A` has a member without bytes; the only member of `B` is an `A`, by reference. */
  const NESTED: Type := Tuple(Cons(HOLLOW, Cons(Struct("B", Field("y", Struct("A", NoFields), NoFields)), Nil)))

  /** A structure that exceeds need not be hollow itself: it is enough that its members refer to hollow ones. */
  lemma HollowIsNotAllThereIs(mode: Mode)
    requires mode.collapse
    ensures !Hollow(NESTED, "B")
    ensures forall factor: nat :: Exceeds(NESTED, Struct("B", NoFields), mode, MAX_RECURSION, factor)
  {
    hide Exceeds;
    var b := Field("y", Struct("A", NoFields), NoFields);
    assert FieldsOf(NESTED, "A") == HOLLOW.fields;
    assert FieldsOf(NESTED, "B") == b;
    assert Hollow(NESTED, "A") && LevelsOfFields(HOLLOW.fields) == 1;
    HollowIsByteless(NESTED, "A", MAX_RECURSION - 1);
    assert MembersByteless(NESTED, b, MAX_RECURSION - 1);
    ReferencesExceed(NESTED, "B", mode, MAX_RECURSION);
  }

  /** So the condition of `CallsAreLinear` is what it takes: sequences exceed only where a hollow structure is referred to. */
  lemma ExcessRefersToHollow(full: Type, elem: Type, mode: Mode, fuel: nat) returns (name: string)
    requires mode.collapse && forall factor: nat :: Exceeds(full, elem, mode, fuel, factor)
    ensures name in References(elem) + References(full) && Hollow(full, name)
  {
    hide Exceeds, Byteless, IsSingular, Hollow;
    ExcessIsExact(full, elem, mode, fuel);
    name := BytelessRefersToHollow(full, elem, fuel);
  }
}
