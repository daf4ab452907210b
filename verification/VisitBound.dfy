/** How many calls a visit can make: at most linearly many in the bytes it consumes. */
module VisitBound {
  import opened Bytes
  import opened Entries
  import opened Tags
  import opened Hex
  import opened Visits
  import opened Serialization
  import opened VisitDetermines
  import opened VisitSingular

  // ---------------------------------------------------------------- where references may stand

  /** The names of the structures `t` refers to. */
  function References(t: Type): set<string>
    decreases t
  {
    match t
    case Arithmetic(_) => {}
    case Null => {}
    case Sequence(elem) => References(elem)
    case Tuple(elems) => ReferencesOfAll(elems)
    case Variant(options) => ReferencesOfAll(options)
    case Struct(name, fields) => if fields.NoFields? then {name} else ReferencesOfFields(fields)
    case Enum(_, _, _) => {}
  }

  function ReferencesOfAll(ts: Types): set<string>
    decreases ts
  {
    if ts.Nil? then {} else References(ts.head) + ReferencesOfAll(ts.tail)
  }

  function ReferencesOfFields(fs: Fields): set<string>
    decreases fs
  {
    if fs.NoFields? then {} else References(fs.ty) + ReferencesOfFields(fs.rest)
  }

  /** Every reference stands inside the definition it refers to, or is an empty structure. */
  predicate ReferencesInside(full: Type, t: Type, around: set<string>)
    decreases t
  {
    match t
    case Arithmetic(_) => true
    case Null => true
    case Sequence(elem) => ReferencesInside(full, elem, around)
    case Tuple(elems) => AllInside(full, elems, around)
    case Variant(options) => AllInside(full, options, around)
    case Struct(name, fields) =>
      if fields.NoFields? then FieldsOf(full, name).NoFields? || name in around
      else FieldsInside(full, fields, if fields == FieldsOf(full, name) then around + {name} else around)
    case Enum(_, _, _) => true
  }

  predicate AllInside(full: Type, ts: Types, around: set<string>)
    decreases ts
  {
    ts.Cons? ==> ReferencesInside(full, ts.head, around) && AllInside(full, ts.tail, around)
  }

  predicate FieldsInside(full: Type, fs: Fields, around: set<string>)
    decreases fs
  {
    fs.Field? ==> ReferencesInside(full, fs.ty, around) && FieldsInside(full, fs.rest, around)
  }

  /** The definition of `name` refers to itself. */
  predicate Recursive(full: Type, name: string) {
    FieldsOf(full, name).NoFields? || name in ReferencesOfFields(FieldsOf(full, name))
  }

  lemma {:induction false} InsideIsRecursive(full: Type, t: Type, around: set<string>)
    requires ReferencesInside(full, t, around)
    ensures forall n :: n in References(t) ==> n in around || Recursive(full, n)
    decreases t
  {
    match t
    case Sequence(elem) => InsideIsRecursive(full, elem, around);
    case Tuple(elems) => AllInsideIsRecursive(full, elems, around);
    case Variant(options) => AllInsideIsRecursive(full, options, around);
    case Struct(name, fields) =>
      if fields.Field? {
        FieldsInsideIsRecursive(full, fields, if fields == FieldsOf(full, name) then around + {name} else around);
      }
    case _ =>
  }

  lemma {:induction false} AllInsideIsRecursive(full: Type, ts: Types, around: set<string>)
    requires AllInside(full, ts, around)
    ensures forall n :: n in ReferencesOfAll(ts) ==> n in around || Recursive(full, n)
    decreases ts
  {
    if ts.Cons? {
      InsideIsRecursive(full, ts.head, around);
      AllInsideIsRecursive(full, ts.tail, around);
    }
  }

  lemma {:induction false} FieldsInsideIsRecursive(full: Type, fs: Fields, around: set<string>)
    requires FieldsInside(full, fs, around)
    ensures forall n :: n in ReferencesOfFields(fs) ==> n in around || Recursive(full, n)
    decreases fs
  {
    if fs.Field? {
      InsideIsRecursive(full, fs.ty, around);
      FieldsInsideIsRecursive(full, fs.rest, around);
    }
  }

  // ---------------------------------------------------------------- the factor

  /** Multiplication, for lemmas that need not look inside. */
  function Product(a: nat, b: nat): nat {
    a * b
  }

  /** Calls that one value can cost beyond those that come with bytes. */
  function Weight(t: Type): (n: nat)
    ensures n > 0
    decreases t
  {
    match t
    case Sequence(elem) => 4 + Product(Weight(elem), 32)
    case Tuple(elems) => 2 + WeightOfAll(elems)
    case Variant(options) => 3 + WeightOfAll(options)
    case Struct(_, fields) => 2 + WeightOfFields(fields)
    case _ => 1
  }

  function WeightOfAll(ts: Types): nat
    decreases ts
  {
    if ts.Nil? then 0 else Weight(ts.head) + WeightOfAll(ts.tail)
  }

  function WeightOfFields(fs: Fields): nat
    decreases fs
  {
    if fs.NoFields? then 0 else 2 + Weight(fs.ty) + WeightOfFields(fs.rest)
  }

  /** A definition is a part of the whole: it refers to no more, and weighs no more. */
  lemma {:induction false} FirstIsPart(t: Type, name: string)
    ensures First(t, name).Fields? ==>
              ReferencesOfFields(First(t, name).fields) <= References(t) + (if First(t, name).fields.NoFields? then {name} else {})
              && 2 + WeightOfFields(First(t, name).fields) <= Weight(t)
    decreases t
  {
    match t
    case Sequence(elem) => FirstIsPart(elem, name);
    case Tuple(elems) => FirstOfIsPart(elems, name);
    case Variant(options) => FirstOfIsPart(options, name);
    case Struct(_, fields) => FirstInIsPart(fields, name);
    case _ =>
  }

  lemma {:induction false} FirstOfIsPart(ts: Types, name: string)
    ensures FirstOf(ts, name).Fields? ==>
              ReferencesOfFields(FirstOf(ts, name).fields) <= ReferencesOfAll(ts)
              && 2 + WeightOfFields(FirstOf(ts, name).fields) <= WeightOfAll(ts)
    decreases ts
  {
    if ts.Cons? {
      FirstIsPart(ts.head, name);
      FirstOfIsPart(ts.tail, name);
    }
  }

  lemma {:induction false} FirstInIsPart(fs: Fields, name: string)
    ensures FirstIn(fs, name).Fields? ==>
              ReferencesOfFields(FirstIn(fs, name).fields) <= ReferencesOfFields(fs)
              && 2 + WeightOfFields(FirstIn(fs, name).fields) <= WeightOfFields(fs)
    decreases fs
  {
    if fs.Field? {
      FirstIsPart(fs.ty, name);
      FirstInIsPart(fs.rest, name);
    }
  }

  // ---------------------------------------------------------------- what is visited

  /** The structure of that name has members, and none of them has bytes. */
  predicate Hollow(full: Type, name: string) {
    FieldsOf(full, name).Field? && SingularMembers(full, FieldsOf(full, name))
  }

  /** `full` is well-formed, and refers to no hollow structure. */
  ghost predicate Sound(full: Type) {
    WellFormed(full) && forall n :: n in References(full) ==> !Hollow(full, n)
  }

  /** Parts of `full`: what it costs and refers to is bounded by the whole. */
  ghost predicate Part(full: Type, t: Type) {
    WellFormed(t) && References(t) <= References(full) && Weight(t) <= Weight(full)
  }

  ghost predicate Parts(full: Type, ts: Types) {
    AllWellFormed(ts) && ReferencesOfAll(ts) <= References(full) && WeightOfAll(ts) <= Weight(full)
  }

  ghost predicate PartFields(full: Type, fs: Fields) {
    FieldsWellFormed(fs) && ReferencesOfFields(fs) <= References(full) && 2 + WeightOfFields(fs) <= Weight(full)
  }

  lemma ResolvedIsPart(full: Type, name: string, fields: Fields)
    requires WellFormed(full) && Part(full, Struct(name, fields))
    ensures PartFields(full, Resolved(full, name, fields))
  {
    FirstIsPart(full, name);
    FirstWellFormed(full, name);
  }

  lemma {:induction false} OptionIsPart(full: Type, ts: Types, d: nat)
    requires Parts(full, ts) && Nth(ts, d).Some?
    ensures Part(full, Nth(ts, d).value) && Weight(Nth(ts, d).value) <= WeightOfAll(ts)
  {
    if d > 0 {
      OptionIsPart(full, ts.tail, d - 1);
    }
  }

  /** What refers to a structure with members is not singular, whatever those are. */
  lemma {:induction false} ReferringIsNotSingular(full: Type, t: Type, name: string)
    requires name in References(t) && FieldsOf(full, name).Field?
    ensures !IsSingular(full, t)
    decreases t
  {
    match t
    case Tuple(elems) => ReferringRowIsNotSingular(full, elems, name);
    case Struct(_, fields) =>
      if fields.Field? {
        ReferringFieldsAreNotSingular(full, fields, name);
      }
    case _ =>
  }

  lemma {:induction false} ReferringRowIsNotSingular(full: Type, ts: Types, name: string)
    requires name in ReferencesOfAll(ts) && FieldsOf(full, name).Field?
    ensures !AllSingular(full, ts)
    decreases ts
  {
    if name in References(ts.head) {
      ReferringIsNotSingular(full, ts.head, name);
    } else {
      ReferringRowIsNotSingular(full, ts.tail, name);
    }
  }

  lemma {:induction false} ReferringFieldsAreNotSingular(full: Type, fs: Fields, name: string)
    requires name in ReferencesOfFields(fs) && FieldsOf(full, name).Field?
    ensures !SingularMembers(full, fs)
    decreases fs
  {
    if name in References(fs.ty) {
      ReferringIsNotSingular(full, fs.ty, name);
    } else {
      ReferringFieldsAreNotSingular(full, fs.rest, name);
    }
  }

  /** Resolving a reference does not make it singular. */
  lemma ResolvedNotSingular(full: Type, name: string, fields: Fields)
    requires Sound(full) && Part(full, Struct(name, fields)) && !IsSingular(full, Struct(name, fields))
    ensures !SingularMembers(full, Resolved(full, name, fields))
  {
    if fields.NoFields? {
      assert name in References(Struct(name, fields));
    }
  }

  /** What is recursive is not hollow. */
  lemma InsideIsNotHollow(t: Type)
    requires WellFormed(t) && ReferencesInside(t, t, {})
    ensures Sound(t)
  {
    InsideIsRecursive(t, t, {});
    forall n | n in References(t)
      ensures !Hollow(t, n)
    {
      if FieldsOf(t, n).Field? {
        ReferringFieldsAreNotSingular(t, FieldsOf(t, n), n);
      }
    }
  }

  // ---------------------------------------------------------------- arithmetic of the bound

  lemma Monotone(a: nat, m: nat, n: nat)
    requires m <= n
    ensures Product(a, m) <= Product(a, n)
  {
    assert a * n == a * m + a * (n - m);
  }

  lemma Distributes(a: nat, m: nat, n: nat)
    ensures Product(a, m + n) == Product(a, m) + Product(a, n)
    ensures Product(a, 0) == 0 && Product(a, 1) == a && Product(1, a) == a
  {
  }

  lemma Scaled(weight: nat, fuel: nat, n: nat)
    requires fuel > 0
    ensures Product(Product(weight, fuel - 1), n) + Product(weight, n) == Product(Product(weight, fuel), n)
  {
    var factor := weight * (fuel - 1);
    assert factor + weight == weight * fuel;
    assert factor * n + weight * n == (factor + weight) * n;
  }

  /**
   The calls of a visit that consumed `c` bytes: `light` ones may come without bytes; a visit that threw may
   have made those of one byte more.
   */
  ghost predicate Few(o: Outcome, light: nat, c: nat, factor: nat) {
    |o.trace| <= light + Product(factor, if o.ok then c else c + 1)
  }

  ghost function Used(b: bytes, o: Outcome): int {
    |b| - |o.rest|
  }

  lemma FewThen(o: Outcome, p: Outcome, b: bytes, light: nat, light': nat, factor: nat)
    requires o.ok && |p.rest| <= |o.rest| <= |b|
    requires Few(o, light, Used(b, o), factor) && Few(p, light', Used(o.rest, p), factor)
    ensures Few(Prepend(o.trace, p), light + light', Used(b, p), factor)
  {
    hide Product;
    Distributes(factor, Used(b, o), if p.ok then Used(o.rest, p) else Used(o.rest, p) + 1);
  }

  lemma CheapUp(o: Outcome, light: nat, used: nat, c: nat, weight: nat, fuel: nat)
    requires fuel > 0 && Few(o, light, used, Product(weight, fuel - 1)) && light <= weight && used <= c && (o.ok ==> c > 0)
    ensures |o.trace| <= Product(Product(weight, fuel), if o.ok then c else c + 1)
  {
    hide Product;
    var m, n := if o.ok then used else used + 1, if o.ok then c else c + 1;
    Monotone(Product(weight, fuel - 1), m, n);
    Monotone(weight, 1, n);
    Distributes(weight, 0, 0);
    Scaled(weight, fuel, n);
  }

  /** What holds of every visit of a part of `full`. A visit that consumes nothing is one of a type without bytes. */
  ghost predicate Cheap(full: Type, t: Type, b: bytes, o: Outcome, fuel: nat) {
    && |o.rest| <= |b|
    && (if o.ok && Used(b, o) == 0 then IsSingular(full, t) && |o.trace| <= Weight(t)
        else |o.trace| <= Product(Product(Weight(full), fuel), if o.ok then Used(b, o) else Used(b, o) + 1))
  }

  lemma CheapFromFew(full: Type, t: Type, b: bytes, o: Outcome, light: nat, fuel: nat)
    requires fuel > 0 && |o.rest| <= |b| && light <= Weight(full)
    requires Few(o, light, Used(b, o), Product(Weight(full), fuel - 1))
    requires o.ok && Used(b, o) == 0 ==> IsSingular(full, t) && light <= Weight(t)
    ensures Cheap(full, t, b, o, fuel)
  {
    hide Weight, IsSingular, Product;
    Distributes(Product(Weight(full), fuel - 1), 0, 0);
    if !(o.ok && Used(b, o) == 0) {
      CheapUp(o, light, Used(b, o), Used(b, o), Weight(full), fuel);
    }
  }

  /** `o` is what happened behind some bytes that were read first. */
  lemma CheapBehind(full: Type, t: Type, b: bytes, rest: bytes, o: Outcome, light: nat, fuel: nat)
    requires fuel > 0 && |o.rest| <= |rest| < |b| && light <= Weight(full)
    requires Few(o, light, Used(rest, o), Product(Weight(full), fuel - 1))
    ensures Cheap(full, t, b, o, fuel)
  {
    hide Weight, IsSingular, Product;
    CheapUp(o, light, Used(rest, o), Used(b, o), Weight(full), fuel);
  }

  lemma CheapIsFew(full: Type, t: Type, b: bytes, o: Outcome, fuel: nat)
    requires Cheap(full, t, b, o, fuel)
    ensures Few(o, Weight(t), Used(b, o), Product(Weight(full), fuel))
    ensures !IsSingular(full, t) ==> Few(o, 0, Used(b, o), Product(Weight(full), fuel))
  {
    hide Weight, IsSingular, Product;
    Distributes(Product(Weight(full), fuel), 0, 0);
  }

  lemma OneCallIsCheap(full: Type, t: Type, b: bytes, o: Outcome, fuel: nat)
    requires fuel > 0 && |o.rest| <= |b| && |o.trace| <= 1 && (o.ok ==> |o.rest| < |b|)
    ensures Cheap(full, t, b, o, fuel)
  {
    hide Product, Weight;
    var c := if o.ok then Used(b, o) else Used(b, o) + 1;
    Monotone(Weight(full), 1, fuel);
    Monotone(Product(Weight(full), fuel), 1, c);
    Distributes(Weight(full), 0, 0);
    Distributes(Product(Weight(full), fuel), 0, 0);
  }

  // ---------------------------------------------------------------- every visit

  lemma {:induction false} VisitIsCheap(full: Type, t: Type, mode: Mode, b: bytes, fuel: nat)
    requires Sound(full) && Part(full, t) && mode.collapse
    ensures Cheap(full, t, b, TypeVisit(full, t, mode, b, fuel), fuel)
    decreases fuel, 0, 0, t
  {
    hide Product, Cheap, Sound, Part, Parts, PartFields, TypesVisit, FieldsVisit, OptionVisit, SequenceVisit, ReadUint, IsSingular;
    hide Weight, Resolved;
    var o := TypeVisit(full, t, mode, b, fuel);
    if fuel == 0 {
      NoCallIsCheap(full, t, b);
    } else {
      match t
      case Arithmetic(kind) => OneCallIsCheap(full, t, b, o, fuel);
      case Null => OneCallIsCheap(full, t, b, o, fuel);
      case Enum(underlying, name, es) => EnumIsCheap(full, underlying, name, es, b, fuel);
      case Sequence(elem) => SequenceIsCheap(full, elem, mode, b, fuel);
      case Tuple(elems) => TupleIsCheap(full, elems, mode, b, fuel);
      case Variant(options) => VariantIsCheap(full, options, mode, b, fuel);
      case Struct(name, fields) => StructIsCheap(full, name, fields, mode, b, fuel);
    }
  }

  lemma NoCallIsCheap(full: Type, t: Type, b: bytes)
    ensures Cheap(full, t, b, Threw([], b), 0)
  {
  }

  lemma EnumIsCheap(full: Type, underlying: char, name: string, es: seq<Enumerator>, b: bytes, fuel: nat)
    requires fuel > 0
    ensures Cheap(full, Enum(underlying, name, es), b, EnumVisit(underlying, name, es, b), fuel)
  {
    hide HexOf, EnumeratorWith;
    OneCallIsCheap(full, Enum(underlying, name, es), b, EnumVisit(underlying, name, es, b), fuel);
  }

  lemma ReadShrinks(b: bytes, k: nat)
    requires k > 0
    ensures ReadUint(b, k).Ok? ==> |ReadUint(b, k).rest| == |b| - k
  {
  }

  lemma {:induction false} SequenceIsCheap(full: Type, elem: Type, mode: Mode, b: bytes, fuel: nat)
    requires Sound(full) && Part(full, Sequence(elem)) && mode.collapse && fuel > 0
    ensures Cheap(full, Sequence(elem), b, TypeVisit(full, Sequence(elem), mode, b, fuel), fuel)
    decreases fuel, 0, 0, elem
  {
    hide Product, ReadUint, Sound, IsSingular, SequenceVisit, Few, Cheap;
    ReadShrinks(b, 4);
    Monotone(Weight(elem), 1, 32);
    Distributes(Weight(elem), 0, 0);
    if ReadUint(b, 4).Ok? {
      var size, rest := ReadUint(b, 4).value, ReadUint(b, 4).rest;
      SizedIsFew(full, elem, mode, rest, fuel - 1, size);
      CheapBehind(full, Sequence(elem), b, rest, SequenceVisit(full, elem, mode, rest, fuel - 1, size), Weight(Sequence(elem)), fuel);
    } else {
      OneCallIsCheap(full, Sequence(elem), b, Threw([], b), fuel);
    }
  }

  lemma {:induction false} SizedIsFew(full: Type, elem: Type, mode: Mode, b: bytes, fuel: nat, size: nat)
    requires Sound(full) && Part(full, elem) && mode.collapse
    ensures var o := SequenceVisit(full, elem, mode, b, fuel, size);
            |o.rest| <= |b| && Few(o, 4 + Product(Weight(elem), 32), Used(b, o), Product(Weight(full), fuel))
    decreases fuel, 2, 0, elem
  {
    hide Product, Sound, ElementsVisit;
    if !(mode.skipStrings && elem == Arithmetic('c')) {
      ElementsAreFew(full, elem, mode, b, fuel, size);
    }
  }

  lemma {:induction false} ElementsAreFew(full: Type, elem: Type, mode: Mode, b: bytes, fuel: nat, size: nat)
    requires Sound(full) && Part(full, elem) && mode.collapse
    ensures var o := ElementsVisit(full, elem, mode, b, fuel, size);
            |o.rest| <= |b| && Few(o, 2 + Product(Weight(elem), 32), Used(b, o), Product(Weight(full), fuel))
    decreases fuel, 1, size + 1, elem
  {
    hide Product, Sound, Part, TypeVisit, TimesVisit, IsSingular, TypeSingular, Weight;
    SingularIsExact(full, elem, fuel);
    if size > 32 && TypeSingular(full, elem, fuel) == Some(true) {
      SingularVisit(full, elem, mode, b, fuel);
      VisitIsCheap(full, elem, mode, b, fuel);
      Monotone(Weight(elem), 1, 32);
      Distributes(Weight(elem), 0, 0);
      Distributes(Product(Weight(full), fuel), 0, 0);
    } else if !(size > 32 && TypeSingular(full, elem, fuel).None?) {
      TimesAreFew(full, elem, mode, b, fuel, size);
      if IsSingular(full, elem) {
        Monotone(Weight(elem), size, 32);
      }
    }
  }

  lemma {:induction false} TimesAreFew(full: Type, elem: Type, mode: Mode, b: bytes, fuel: nat, n: nat)
    requires Sound(full) && Part(full, elem) && mode.collapse
    ensures var o := TimesVisit(full, elem, mode, b, fuel, n);
            |o.rest| <= |b|
            && Few(o, if IsSingular(full, elem) then Product(Weight(elem), n) else 0, Used(b, o), Product(Weight(full), fuel))
    decreases fuel, 1, n, elem
  {
    hide Product, Sound, Part, TypeVisit, IsSingular, Weight, Few, Cheap;
    if n == 0 {
      NothingIsFew(b, Product(Weight(full), fuel));
      Distributes(Weight(elem), 0, 0);
    } else {
      var o := TypeVisit(full, elem, mode, b, fuel);
      VisitIsCheap(full, elem, mode, b, fuel);
      CheapIsFew(full, elem, b, o, fuel);
      CheapShrinks(full, elem, b, o, fuel);
      var light := if IsSingular(full, elem) then Weight(elem) else 0;
      if o.ok {
        TimesAreFew(full, elem, mode, o.rest, fuel, n - 1);
        FewThen(o, TimesVisit(full, elem, mode, o.rest, fuel, n - 1), b, light,
                if IsSingular(full, elem) then Product(Weight(elem), n - 1) else 0, Product(Weight(full), fuel));
        Distributes(Weight(elem), 1, n - 1);
      } else {
        Monotone(Weight(elem), 1, n);
        Distributes(Weight(elem), 0, 0);
        FewMore(o, light, if IsSingular(full, elem) then Product(Weight(elem), n) else 0, Used(b, o), Product(Weight(full), fuel));
      }
    }
  }

  lemma NothingIsFew(b: bytes, factor: nat)
    ensures Few(Done([], b), 0, Used(b, Done([], b)), factor)
  {
  }

  lemma FewMore(o: Outcome, light: nat, light': nat, c: nat, factor: nat)
    requires Few(o, light, c, factor) && light <= light'
    ensures Few(o, light', c, factor)
  {
  }

  lemma CheapShrinks(full: Type, t: Type, b: bytes, o: Outcome, fuel: nat)
    requires Cheap(full, t, b, o, fuel)
    ensures |o.rest| <= |b| && (o.ok && |o.rest| == |b| ==> IsSingular(full, t))
  {
  }

  lemma {:induction false} TupleIsCheap(full: Type, elems: Types, mode: Mode, b: bytes, fuel: nat)
    requires Sound(full) && Part(full, Tuple(elems)) && mode.collapse && fuel > 0
    ensures Cheap(full, Tuple(elems), b, TypeVisit(full, Tuple(elems), mode, b, fuel), fuel)
    decreases fuel, 0, 0, elems
  {
    hide Product, Sound, TypesVisit, Few, Cheap, Wrap, Part, Parts, Weight, IsSingular;
    TupleParts(full, elems);
    RowIsFew(full, elems, mode, b, fuel - 1);
    var p := TypesVisit(full, elems, mode, b, fuel - 1);
    var o := Wrap([TupleBegin(TagAll(elems))], p, [TupleEnd]);
    FewWrap(TupleBegin(TagAll(elems)), p, TupleEnd, WeightOfAll(elems), Used(b, p), Product(Weight(full), fuel - 1));
    CheapFromFew(full, Tuple(elems), b, o, Weight(Tuple(elems)), fuel);
  }

  lemma TupleParts(full: Type, elems: Types)
    requires Part(full, Tuple(elems))
    ensures Parts(full, elems) && Weight(Tuple(elems)) == 2 + WeightOfAll(elems) <= Weight(full)
    ensures IsSingular(full, Tuple(elems)) <==> AllSingular(full, elems)
  {
  }

  lemma {:induction false} RowIsFew(full: Type, ts: Types, mode: Mode, b: bytes, fuel: nat)
    requires Sound(full) && Parts(full, ts) && mode.collapse
    ensures var o := TypesVisit(full, ts, mode, b, fuel);
            && |o.rest| <= |b| && Few(o, WeightOfAll(ts), Used(b, o), Product(Weight(full), fuel))
            && (o.ok && Used(b, o) == 0 ==> AllSingular(full, ts))
    decreases fuel, 1, 0, ts
  {
    hide Product, Sound, TypeVisit, IsSingular, Weight, Few, Cheap;
    if ts.Nil? {
      NothingIsFew(b, Product(Weight(full), fuel));
    } else {
      var o := TypeVisit(full, ts.head, mode, b, fuel);
      VisitIsCheap(full, ts.head, mode, b, fuel);
      CheapIsFew(full, ts.head, b, o, fuel);
      CheapShrinks(full, ts.head, b, o, fuel);
      if o.ok {
        RowIsFew(full, ts.tail, mode, o.rest, fuel);
        FewThen(o, TypesVisit(full, ts.tail, mode, o.rest, fuel), b, Weight(ts.head), WeightOfAll(ts.tail), Product(Weight(full), fuel));
      } else {
        FewMore(o, Weight(ts.head), WeightOfAll(ts), Used(b, o), Product(Weight(full), fuel));
      }
    }
  }

  lemma {:induction false} VariantIsCheap(full: Type, options: Types, mode: Mode, b: bytes, fuel: nat)
    requires Sound(full) && Part(full, Variant(options)) && mode.collapse && fuel > 0
    ensures Cheap(full, Variant(options), b, TypeVisit(full, Variant(options), mode, b, fuel), fuel)
    decreases fuel, 0, 0, options
  {
    hide Product, Sound, ReadUint, OptionVisit, Few, Cheap;
    ReadShrinks(b, 1);
    if ReadUint(b, 1).Ok? {
      var d, rest := ReadUint(b, 1).value, ReadUint(b, 1).rest;
      OptionIsFew(full, options, mode, rest, fuel - 1, d);
      CheapBehind(full, Variant(options), b, rest, OptionVisit(full, Nth(options, d), mode, rest, fuel - 1, d),
                  Weight(Variant(options)), fuel);
    } else {
      OneCallIsCheap(full, Variant(options), b, Threw([], b), fuel);
    }
  }

  lemma {:induction false} OptionIsFew(full: Type, options: Types, mode: Mode, b: bytes, fuel: nat, d: nat)
    requires Sound(full) && Parts(full, options) && mode.collapse
    ensures var o := OptionVisit(full, Nth(options, d), mode, b, fuel, d);
            |o.rest| <= |b| && Few(o, 3 + WeightOfAll(options), Used(b, o), Product(Weight(full), fuel))
    decreases fuel, 1, 0, options
  {
    hide Product, Sound, TypeVisit, IsSingular, Weight, Cheap, Part, Parts;
    if Nth(options, d).Some? {
      var t := Nth(options, d).value;
      OptionIsPart(full, options, d);
      VisitIsCheap(full, t, mode, b, fuel);
      CheapIsFew(full, t, b, TypeVisit(full, t, mode, b, fuel), fuel);
      CheapShrinks(full, t, b, TypeVisit(full, t, mode, b, fuel), fuel);
    }
  }

  lemma {:induction false} StructIsCheap(full: Type, name: string, fields: Fields, mode: Mode, b: bytes, fuel: nat)
    requires Sound(full) && Part(full, Struct(name, fields)) && mode.collapse && fuel > 0
    ensures Cheap(full, Struct(name, fields), b, TypeVisit(full, Struct(name, fields), mode, b, fuel), fuel)
    decreases fuel, 0, 0, fields
  {
    hide Product, Sound, FieldsVisit, PartFields, Few, Cheap, Wrap, WellFormed, Part;
    var fs, t := Resolved(full, name, fields), Struct(name, fields);
    WellFormedIfSound(full);
    ResolvedIsPart(full, name, fields);
    PartFieldsWeight(full, fs);
    FieldsAreFew(full, fs, mode, b, fuel - 1);
    var p := FieldsVisit(full, fs, mode, b, fuel - 1);
    var o := Wrap([StructBegin(name, TagFields(fs))], p, [StructEnd]);
    FewWrap(StructBegin(name, TagFields(fs)), p, StructEnd, WeightOfFields(fs), Used(b, p), Product(Weight(full), fuel - 1));
    if o.ok && Used(b, o) == 0 && !IsSingular(full, t) {
      ResolvedNotSingular(full, name, fields);
    }
    CheapFromFew(full, t, b, o, 2 + WeightOfFields(fs), fuel);
  }

  lemma WellFormedIfSound(full: Type)
    requires Sound(full)
    ensures WellFormed(full)
  {
  }

  lemma PartFieldsWeight(full: Type, fs: Fields)
    requires PartFields(full, fs)
    ensures 2 + WeightOfFields(fs) <= Weight(full)
  {
  }

  lemma {:induction false} FieldsAreFew(full: Type, fs: Fields, mode: Mode, b: bytes, fuel: nat)
    requires Sound(full) && PartFields(full, fs) && mode.collapse
    ensures var o := FieldsVisit(full, fs, mode, b, fuel);
            && |o.rest| <= |b| && Few(o, WeightOfFields(fs), Used(b, o), Product(Weight(full), fuel))
            && (o.ok && Used(b, o) == 0 ==> SingularMembers(full, fs))
    decreases fuel, 1, 0, fs
  {
    hide Product, Sound, TypeVisit, IsSingular, Weight, Few, Cheap, Wrap;
    if fs.NoFields? {
      NothingIsFew(b, Product(Weight(full), fuel));
    } else {
      var begin, p := FieldBegin(fs.name, Tag(fs.ty)), TypeVisit(full, fs.ty, mode, b, fuel);
      var o := Wrap([begin], p, [FieldEnd]);
      VisitIsCheap(full, fs.ty, mode, b, fuel);
      CheapIsFew(full, fs.ty, b, p, fuel);
      CheapShrinks(full, fs.ty, b, p, fuel);
      FewWrap(begin, p, FieldEnd, Weight(fs.ty), Used(b, p), Product(Weight(full), fuel));
      if o.ok {
        FieldsAreFew(full, fs.rest, mode, o.rest, fuel);
        FewThen(o, FieldsVisit(full, fs.rest, mode, o.rest, fuel), b,
                2 + Weight(fs.ty), WeightOfFields(fs.rest), Product(Weight(full), fuel));
      } else {
        FewMore(o, 2 + Weight(fs.ty), WeightOfFields(fs), Used(b, o), Product(Weight(full), fuel));
      }
    }
  }

  lemma FewWrap(first: Callback, o: Outcome, last: Callback, light: nat, c: nat, factor: nat)
    requires Few(o, light, c, factor)
    ensures var p := Wrap([first], o, [last]);
            p.ok == o.ok && p.rest == o.rest && Few(p, 2 + light, c, factor)
  {
  }

  /**
   For the tag of a type that refers to no hollow structure, and any input, a visit makes no more calls than a
   factor that depends only on the tag allows for each byte it consumes, and one more.
   */
  lemma CallsAreLinear(t: Type, skipStrings: bool, b: bytes)
    requires WellFormed(t) && forall n :: n in References(t) ==> !Hollow(t, n)
    ensures var o := Visit(Tag(t), Tag(t), Mode(skipStrings, true), b, MAX_RECURSION);
            |o.rest| <= |b| && |o.trace| <= Weight(t) * MAX_RECURSION * (|b| - |o.rest| + 1)
  {
    var mode := Mode(skipStrings, true);
    VisitRefines(t, t, mode, b, MAX_RECURSION);
    VisitIsCheap(t, t, mode, b, MAX_RECURSION);
    FinalBound(t, b, TypeVisit(t, t, mode, b, MAX_RECURSION));
  }

  /** So for types whose references all stand inside the structures they name, as recursion has it. */
  lemma RecursionIsLinear(t: Type, skipStrings: bool, b: bytes)
    requires WellFormed(t) && ReferencesInside(t, t, {})
    ensures forall n :: n in References(t) ==> !Hollow(t, n)
    ensures var o := Visit(Tag(t), Tag(t), Mode(skipStrings, true), b, MAX_RECURSION);
            |o.rest| <= |b| && |o.trace| <= Weight(t) * MAX_RECURSION * (|b| - |o.rest| + 1)
  {
    InsideIsNotHollow(t);
    CallsAreLinear(t, skipStrings, b);
  }

  lemma FinalBound(t: Type, b: bytes, o: Outcome)
    requires Cheap(t, t, b, o, MAX_RECURSION)
    ensures |o.rest| <= |b| && |o.trace| <= Weight(t) * MAX_RECURSION * (|b| - |o.rest| + 1)
  {
    var c, factor := |b| - |o.rest|, Product(Weight(t), MAX_RECURSION);
    assert |o.trace| <= Product(factor, c + 1) by {
      hide Product, Weight;
      Monotone(Weight(t), 1, MAX_RECURSION);
      Monotone(factor, c, c + 1);
      Monotone(factor, 1, c + 1);
      Distributes(Weight(t), 0, 0);
      Distributes(factor, 0, 0);
    }
  }

  // ---------------------------------------------------------------- references to hollow structures

  const HOLLOW: Type := Struct("A", Field("x", Tuple(Nil), NoFields))

  /** A structure without bytes, and behind it a sequence of references to it. */
  const OUTSIDE: Type := Tuple(Cons(HOLLOW, Cons(Sequence(Struct("A", NoFields)), Nil)))

  lemma HollowVisit(mode: Mode, b: bytes, fuel: nat)
    requires fuel >= 3
    ensures var o := TypeVisit(OUTSIDE, Struct("A", NoFields), mode, b, fuel); o.ok && o.rest == b && |o.trace| >= 1
    ensures var o := TypeVisit(OUTSIDE, HOLLOW, mode, b, fuel); o.ok && o.rest == b
    ensures TypeSingular(OUTSIDE, Struct("A", NoFields), fuel) == Some(false)
  {
    var fs := HOLLOW.fields;
    assert FieldsOf(OUTSIDE, "A") == fs;
    assert TypeVisit(OUTSIDE, Tuple(Nil), mode, b, fuel - 1) == Done([TupleBegin("")] + [] + [TupleEnd], b);
    assert FieldsVisit(OUTSIDE, NoFields, mode, b, fuel - 1) == Done([], b);
    assert FieldsVisit(OUTSIDE, fs, mode, b, fuel - 1).ok && FieldsVisit(OUTSIDE, fs, mode, b, fuel - 1).rest == b;
  }

  lemma {:induction false} HollowTimes(mode: Mode, b: bytes, fuel: nat, n: nat)
    requires fuel >= 3
    ensures var o := TimesVisit(OUTSIDE, Struct("A", NoFields), mode, b, fuel, n); o.ok && o.rest == b && |o.trace| >= n
    decreases n
  {
    hide TypeVisit;
    HollowVisit(mode, b, fuel);
    if n > 0 {
      HollowTimes(mode, b, fuel, n - 1);
    }
  }

  /**
   A sequence of references to a hollow structure breaks the bound, whatever the factor: four bytes are enough
   for any number of calls a sequence size can tell.
   */
  lemma OutsideReferencesAreNotLinear(skipStrings: bool, factor: nat, n: u32)
    requires n > factor * 5
    ensures WellFormed(OUTSIDE) && "A" in References(OUTSIDE) && Hollow(OUTSIDE, "A")
    ensures var b := LE(n, 4);
            var o := Visit(Tag(OUTSIDE), Tag(OUTSIDE), Mode(skipStrings, true), b, MAX_RECURSION);
            o.ok && o.rest == [] && |o.trace| > factor * (|b| - |o.rest| + 1)
    ensures Weight(OUTSIDE) * MAX_RECURSION * 5 < TWO_TO_32
  {
    var mode, seq_ := Mode(skipStrings, true), Sequence(Struct("A", NoFields));
    OutsideIsOutside();
    OutsideWeight();
    hide WellFormed, Hollow, References, Weight, Tag, LE, Visit;
    VisitRefines(OUTSIDE, OUTSIDE, mode, LE(n, 4), MAX_RECURSION);
    HollowVisit(mode, LE(n, 4), MAX_RECURSION - 1);
    OutsideSequence(mode, n, MAX_RECURSION - 1);
    TwoVisits(HOLLOW, seq_, mode, LE(n, 4), MAX_RECURSION - 1);
    TupleUnfolds(OUTSIDE.elems, mode, LE(n, 4), MAX_RECURSION);
  }

  /** So there are sizes that break the bound with the factor of `CallsAreLinear`. */
  lemma OutsideWeight()
    ensures Weight(OUTSIDE) * MAX_RECURSION * 5 < TWO_TO_32
  {
    assert Weight(Tuple(Nil)) == 2;
    assert WeightOfFields(HOLLOW.fields) == 4;
    assert Weight(HOLLOW) == 6;
    assert Weight(Sequence(Struct("A", NoFields))) == 68;
  }

  lemma OutsideIsOutside()
    ensures WellFormed(OUTSIDE) && "A" in References(OUTSIDE) && Hollow(OUTSIDE, "A")
  {
    assert FieldsOf(OUTSIDE, "A") == HOLLOW.fields;
    assert References(Sequence(Struct("A", NoFields))) == {"A"};
  }

  lemma TupleUnfolds(elems: Types, mode: Mode, b: bytes, fuel: nat)
    requires fuel > 0
    ensures TypeVisit(OUTSIDE, Tuple(elems), mode, b, fuel)
            == Wrap([TupleBegin(TagAll(elems))], TypesVisit(OUTSIDE, elems, mode, b, fuel - 1), [TupleEnd])
  {
    hide TypesVisit, Wrap, TagAll;
  }

  lemma OutsideSequence(mode: Mode, n: u32, fuel: nat)
    requires fuel >= 4 && mode.collapse
    ensures var o := TypeVisit(OUTSIDE, Sequence(Struct("A", NoFields)), mode, LE(n, 4), fuel);
            o.ok && o.rest == [] && |o.trace| >= n
  {
    assert LE(n, 4) + [] == LE(n, 4);
    ReadSize(n, []);
    HollowVisit(mode, [], fuel - 1);
    HollowTimes(mode, [], fuel - 1, n);
    var elem := Struct("A", NoFields);
    assert ElementsVisit(OUTSIDE, elem, mode, [], fuel - 1, n) == TimesVisit(OUTSIDE, elem, mode, [], fuel - 1, n);
    SequenceUnfolds(elem, mode, n, fuel);
  }

  lemma SequenceUnfolds(elem: Type, mode: Mode, n: u32, fuel: nat)
    requires fuel > 0 && elem.Struct? && ReadUint(LE(n, 4), 4) == Ok(n, [])
    ensures TypeVisit(OUTSIDE, Sequence(elem), mode, LE(n, 4), fuel)
            == Wrap([SequenceBegin(n, Tag(elem))], ElementsVisit(OUTSIDE, elem, mode, [], fuel - 1, n), [SequenceEnd])
  {
    hide ReadUint, LE, ElementsVisit, Wrap;
  }

  lemma TwoVisits(s: Type, t: Type, mode: Mode, b: bytes, fuel: nat)
    requires TypeVisit(OUTSIDE, s, mode, b, fuel).ok && TypeVisit(OUTSIDE, s, mode, b, fuel).rest == b
    requires TypeVisit(OUTSIDE, t, mode, b, fuel).ok
    ensures var o, p := TypesVisit(OUTSIDE, Cons(s, Cons(t, Nil)), mode, b, fuel), TypeVisit(OUTSIDE, t, mode, b, fuel);
            o.ok && o.rest == p.rest && |o.trace| >= |p.trace|
  {
    hide TypeVisit;
    var o, p := TypeVisit(OUTSIDE, s, mode, b, fuel), TypeVisit(OUTSIDE, t, mode, b, fuel);
    assert TypesVisit(OUTSIDE, Nil, mode, p.rest, fuel) == Done([], p.rest);
    var q := Prepend(p.trace, Done([], p.rest));
    assert TypesVisit(OUTSIDE, Cons(t, Nil), mode, o.rest, fuel) == q;
    assert TypesVisit(OUTSIDE, Cons(s, Cons(t, Nil)), mode, b, fuel) == Prepend(o.trace, q);
  }
}
