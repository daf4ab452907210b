/**
 Visiting serialized data by its tag: the functions on text that `visit` is made of, the same on types, and
 the proof that they agree on the tags of types.
 */
module Visits {
  import opened Bytes
  import opened Entries
  import opened Tags
  import opened Hex

  /** What the visitor is called with. `Skipped` is not a call: it is what the visitor took from the input itself. */
  datatype Callback =
    | Value(kind: char, bits: bytes)
    | SequenceBegin(size: nat, elemTag: tag)
    | SequenceEnd
    | TupleBegin(elemTags: tag)
    | TupleEnd
    | VariantBegin(discriminator: nat, optionTag: tag)
    | VariantEnd
    | NullValue
    | StructBegin(structName: string, fieldTags: tag)
    | StructEnd
    | FieldBegin(fieldName: string, fieldTag: tag)
    | FieldEnd
    | EnumValue(enumName: string, enumerator: string, underlying: char, value: string)
    | RepeatBegin(times: nat, repeatTag: tag)
    | RepeatEnd(times: nat, repeatTag: tag)
    | Skipped(text: bytes)

  /** How a visit ends: whether it threw, the calls made until then, and what is left of the input. */
  datatype Outcome = Outcome(ok: bool, trace: seq<Callback>, rest: bytes)

  function Done(trace: seq<Callback>, rest: bytes): Outcome {
    Outcome(true, trace, rest)
  }

  function Threw(trace: seq<Callback>, rest: bytes): Outcome {
    Outcome(false, trace, rest)
  }

  /** `o` between a call before it and one after it, if it gets that far. */
  function Wrap(before: seq<Callback>, o: Outcome, after: seq<Callback>): Outcome {
    if o.ok then Done(before + o.trace + after, o.rest) else Threw(before + o.trace, o.rest)
  }

  function Prepend(trace: seq<Callback>, o: Outcome): Outcome {
    o.(trace := trace + o.trace)
  }

  /**
   What the visitor does with strings: with `skipStrings` it takes their characters from the input itself, as
   `ToStringVisitor` does. Without `collapse` the shortcut for elements of no bytes would not be taken; the
   program always takes it.
   */
  datatype Mode = Mode(skipStrings: bool, collapse: bool)

  /** The limit of the recursion in `mserialize::visit`. */
  const MAX_RECURSION: nat := 2048

  // ---------------------------------------------------------------- on text

  function VisitArithmetic(kind: char, b: bytes): Outcome {
    if SizeOfKind(kind) == 0 then Threw([], b)
    else
      match Take(b, SizeOfKind(kind))
      case Fail => Threw([], b)
      case Ok(bits, rest) => Done([Value(kind, bits)], rest)
  }

  /** `s` is the tag without its enclosing slash and backslash. */
  function EnumCall(s: tag, bits: bytes): Callback
    requires s != ""
  {
    var tags := Drop(s, 2);
    var pos := FindPos(tags, '\'');
    var value := HexOf(s[0], bits);
    EnumValue(tags[..pos], SearchEnumerator(tags[pos..], value), s[0], value)
  }

  function VisitEnum(t: tag, b: bytes): Outcome {
    var s := DropLast(Drop(t, 1));
    if s == "" || SizeOfKind(s[0]) == 0 then Threw([], b)
    else
      match Take(b, SizeOfKind(s[0]))
      case Fail => Threw([], b)
      case Ok(bits, rest) =>
        Done([EnumCall(s, bits)], rest)
  }

  /** Text in front of the first backtick: a brace and the name of a structure. */
  function Intro(t: tag): string {
    DropLast(t)[..FindPos(DropLast(t), '`')]
  }

  /** The fields of a structure tag, its own or those of the structure it refers to. */
  function StructFields(full: tag, t: tag): tag {
    var fields := DropLast(t)[FindPos(DropLast(t), '`')..];
    if fields == "" && Intro(t) != "" then Resolve(full, Intro(t)) else fields
  }

  function PopTimes(tags: tag, n: nat): tag {
    if n == 0 then tags else PopTimes(Pop(tags).1, n - 1)
  }

  /** Whether every value of the type is serialized to nothing; none if the recursion goes too deep. */
  function Singular(full: tag, t: tag, fuel: nat): Option<bool>
    decreases fuel, 0, 0
  {
    if fuel == 0 then None
    else if t == "" then Some(true)
    else if t[0] == '(' then SingularAll(full, DropLast(Drop(t, 1)), fuel - 1)
    else if t[0] == '{' then SingularStruct(full, t, fuel - 1)
    else Some(false)
  }

  function SingularAll(full: tag, tags: tag, fuel: nat): Option<bool>
    decreases fuel, 1, |tags|
  {
    if tags == "" then Some(true)
    else if Singular(full, Pop(tags).0, fuel) != Some(true) then Singular(full, Pop(tags).0, fuel)
    else SingularAll(full, Pop(tags).1, fuel)
  }

  function SingularStruct(full: tag, t: tag, fuel: nat): Option<bool>
    decreases fuel, 2, 0
  {
    var fields := DropLast(t)[FindPos(DropLast(t), '`')..];
    if fields == "" then Some(PopLabel(StructFields(full, t)).1 == "")
    else SingularFields(full, fields, fuel)
  }

  function SingularFields(full: tag, fields: tag, fuel: nat): Option<bool>
    decreases fuel, 1, |fields|
  {
    if fields == "" then Some(true)
    else
      var (fieldTag, rest) := Pop(PopLabel(fields).1);
      if Singular(full, fieldTag, fuel) != Some(true) then Singular(full, fieldTag, fuel)
      else SingularFields(full, rest, fuel)
  }

  /** Visits one value of tag `t`. */
  function Visit(full: tag, t: tag, mode: Mode, b: bytes, fuel: nat): Outcome
    decreases fuel, 0, 0
  {
    if fuel == 0 then Threw([], b)
    else if t == "" then Done([], b)
    else if t[0] == '[' then VisitSequence(full, t, mode, b, fuel - 1)
    else if t[0] == '(' then VisitTuple(full, t, mode, b, fuel - 1)
    else if t[0] == '<' then VisitVariant(full, t, mode, b, fuel - 1)
    else if t[0] == '{' then VisitStruct(full, t, mode, b, fuel - 1)
    else if t[0] == '/' then VisitEnum(t, b)
    else VisitArithmetic(t[0], b)
  }

  function VisitSequence(full: tag, t: tag, mode: Mode, b: bytes, fuel: nat): Outcome
    decreases fuel, 3, 0
  {
    var elem := Pop(Drop(t, 1)).0;
    match ReadUint(b, 4)
    case Fail => Threw([], b)
    case Ok(size, rest) =>
      if mode.skipStrings && elem == "c" then SkipText(size, elem, rest)
      else
        Wrap([SequenceBegin(size, elem)], VisitElements(full, elem, mode, rest, fuel, size), [SequenceEnd])
  }

  function VisitElements(full: tag, elem: tag, mode: Mode, b: bytes, fuel: nat, size: nat): Outcome
    decreases fuel, 1, size + 1
  {
    if mode.collapse && size > 32 && Singular(full, elem, fuel).None? then Threw([], b)
    else if mode.collapse && size > 32 && Singular(full, elem, fuel).value then VisitOnce(full, elem, mode, b, fuel, size)
    else VisitTimes(full, elem, mode, b, fuel, size)
  }

  function SkipText(size: nat, elem: tag, b: bytes): Outcome {
    match Take(b, size)
    case Fail => Threw([SequenceBegin(size, elem)], b)
    case Ok(text, rest) => Done([SequenceBegin(size, elem), Skipped(text)], rest)
  }

  /** Stands for `size` elements that are all the same. */
  function VisitOnce(full: tag, elem: tag, mode: Mode, b: bytes, fuel: nat, size: nat): Outcome
    decreases fuel, 1, 0
  {
    Wrap([RepeatBegin(size, elem)], Visit(full, elem, mode, b, fuel), [RepeatEnd(size, elem)])
  }

  function VisitTimes(full: tag, elem: tag, mode: Mode, b: bytes, fuel: nat, n: nat): Outcome
    decreases fuel, 1, n
  {
    if n == 0 then Done([], b)
    else
      var o := Visit(full, elem, mode, b, fuel);
      if !o.ok then o else Prepend(o.trace, VisitTimes(full, elem, mode, o.rest, fuel, n - 1))
  }

  function VisitTuple(full: tag, t: tag, mode: Mode, b: bytes, fuel: nat): Outcome
    decreases fuel, 3, 0
  {
    var tags := DropLast(Drop(t, 1));
    Wrap([TupleBegin(tags)], VisitAll(full, tags, mode, b, fuel), [TupleEnd])
  }

  function VisitAll(full: tag, tags: tag, mode: Mode, b: bytes, fuel: nat): Outcome
    decreases fuel, 1, |tags|
  {
    if tags == "" then Done([], b)
    else
      var o := Visit(full, Pop(tags).0, mode, b, fuel);
      if !o.ok then o else Prepend(o.trace, VisitAll(full, Pop(tags).1, mode, o.rest, fuel))
  }

  function VisitVariant(full: tag, t: tag, mode: Mode, b: bytes, fuel: nat): Outcome
    decreases fuel, 3, 0
  {
    match ReadUint(b, 1)
    case Fail => Threw([], b)
    case Ok(discriminator, rest) =>
      var option := Pop(PopTimes(DropLast(Drop(t, 1)), discriminator)).0;
      Wrap([VariantBegin(discriminator, option)],
           if option == "0" then Done([NullValue], rest) else Visit(full, option, mode, rest, fuel),
           [VariantEnd])
  }

  function VisitStruct(full: tag, t: tag, mode: Mode, b: bytes, fuel: nat): Outcome
    decreases fuel, 3, 0
  {
    var fields := StructFields(full, t);
    Wrap([StructBegin(Drop(Intro(t), 1), fields)], VisitFields(full, fields, mode, b, fuel), [StructEnd])
  }

  function VisitFields(full: tag, fields: tag, mode: Mode, b: bytes, fuel: nat): Outcome
    decreases fuel, 1, |fields|
  {
    if fields == "" then Done([], b)
    else
      var (name, tags) := PopLabel(fields);
      var (fieldTag, more) := Pop(tags);
      var o := Wrap([FieldBegin(name, fieldTag)], Visit(full, fieldTag, mode, b, fuel), [FieldEnd]);
      if !o.ok then o else Prepend(o.trace, VisitFields(full, more, mode, o.rest, fuel))
  }

  // ---------------------------------------------------------------- on types

  /** The fields of a structure, its own or those of the structure it refers to. */
  function Resolved(full: Type, name: string, fields: Fields): Fields {
    if fields.NoFields? then FieldsOf(full, name) else fields
  }

  function Nth(ts: Types, n: nat): Option<Type> {
    if ts.Nil? then None else if n == 0 then Some(ts.head) else Nth(ts.tail, n - 1)
  }

  function TypeSingular(full: Type, t: Type, fuel: nat): Option<bool>
    decreases fuel, t, 0
  {
    if fuel == 0 then None
    else
      match t
      case Tuple(elems) => TypesSingular(full, elems, fuel - 1)
      case Struct(name, fields) =>
        if fields.NoFields? then Some(FieldsOf(full, name).NoFields?) else FieldsSingular(full, fields, fuel - 1)
      case _ => Some(false)
  }

  function TypesSingular(full: Type, ts: Types, fuel: nat): Option<bool>
    decreases fuel, ts, 1
  {
    if ts.Nil? then Some(true)
    else if TypeSingular(full, ts.head, fuel) != Some(true) then TypeSingular(full, ts.head, fuel)
    else TypesSingular(full, ts.tail, fuel)
  }

  function FieldsSingular(full: Type, fs: Fields, fuel: nat): Option<bool>
    decreases fuel, fs, 1
  {
    if fs.NoFields? then Some(true)
    else if TypeSingular(full, fs.ty, fuel) != Some(true) then TypeSingular(full, fs.ty, fuel)
    else FieldsSingular(full, fs.rest, fuel)
  }

  /** An enumerator is reported by the name of the first one listed with the value, if any. */
  function EnumVisit(underlying: char, name: string, es: seq<Enumerator>, b: bytes): Outcome {
    if SizeOfKind(underlying) == 0 then Threw([], b)
    else
      match Take(b, SizeOfKind(underlying))
      case Fail => Threw([], b)
      case Ok(bits, rest) =>
        var value := HexOf(underlying, bits);
        Done([EnumValue(name, EnumeratorWith(es, value), underlying, value)], rest)
  }

  /** What visiting a value of type `t` inside a value of type `full` does, without any text to take apart. */
  function TypeVisit(full: Type, t: Type, mode: Mode, b: bytes, fuel: nat): Outcome
    decreases fuel, 0, 0, t
  {
    if fuel == 0 then Threw([], b)
    else
      match t
      case Arithmetic(kind) => VisitArithmetic(kind, b)
      case Null => Threw([], b)
      case Sequence(elem) =>
        (match ReadUint(b, 4)
         case Fail => Threw([], b)
         case Ok(size, rest) => SequenceVisit(full, elem, mode, rest, fuel - 1, size))
      case Tuple(elems) => Wrap([TupleBegin(TagAll(elems))], TypesVisit(full, elems, mode, b, fuel - 1), [TupleEnd])
      case Variant(options) =>
        (match ReadUint(b, 1)
         case Fail => Threw([], b)
         case Ok(d, rest) => OptionVisit(full, Nth(options, d), mode, rest, fuel - 1, d))
      case Struct(name, fields) =>
        var fs := Resolved(full, name, fields);
        Wrap([StructBegin(name, TagFields(fs))], FieldsVisit(full, fs, mode, b, fuel - 1), [StructEnd])
      case Enum(underlying, name, es) => EnumVisit(underlying, name, es, b)
  }

  function SequenceVisit(full: Type, elem: Type, mode: Mode, b: bytes, fuel: nat, size: nat): Outcome
    decreases fuel, 2, 0, elem
  {
    if mode.skipStrings && elem == Arithmetic('c') then SkipText(size, "c", b)
    else Wrap([SequenceBegin(size, Tag(elem))], ElementsVisit(full, elem, mode, b, fuel, size), [SequenceEnd])
  }

  function ElementsVisit(full: Type, elem: Type, mode: Mode, b: bytes, fuel: nat, size: nat): Outcome
    decreases fuel, 1, size + 1, elem
  {
    if mode.collapse && size > 32 && TypeSingular(full, elem, fuel).None? then Threw([], b)
    else if mode.collapse && size > 32 && TypeSingular(full, elem, fuel).value then
      Wrap([RepeatBegin(size, Tag(elem))], TypeVisit(full, elem, mode, b, fuel), [RepeatEnd(size, Tag(elem))])
    else TimesVisit(full, elem, mode, b, fuel, size)
  }

  function TimesVisit(full: Type, elem: Type, mode: Mode, b: bytes, fuel: nat, n: nat): Outcome
    decreases fuel, 1, n, elem
  {
    if n == 0 then Done([], b)
    else
      var o := TypeVisit(full, elem, mode, b, fuel);
      if !o.ok then o else Prepend(o.trace, TimesVisit(full, elem, mode, o.rest, fuel, n - 1))
  }

  function TypesVisit(full: Type, ts: Types, mode: Mode, b: bytes, fuel: nat): Outcome
    decreases fuel, 1, 0, ts
  {
    if ts.Nil? then Done([], b)
    else
      var o := TypeVisit(full, ts.head, mode, b, fuel);
      if !o.ok then o else Prepend(o.trace, TypesVisit(full, ts.tail, mode, o.rest, fuel))
  }

  /** An alternative that does not exist is nothing to visit. */
  function OptionVisit(full: Type, option: Option<Type>, mode: Mode, b: bytes, fuel: nat, d: nat): Outcome
    decreases fuel, 1, 0, option
  {
    match option
    case None => Wrap([VariantBegin(d, "")], if fuel == 0 then Threw([], b) else Done([], b), [VariantEnd])
    case Some(t) =>
      Wrap([VariantBegin(d, Tag(t))],
           if t.Null? then Done([NullValue], b) else TypeVisit(full, t, mode, b, fuel), [VariantEnd])
  }

  function FieldsVisit(full: Type, fs: Fields, mode: Mode, b: bytes, fuel: nat): Outcome
    decreases fuel, 1, 0, fs
  {
    if fs.NoFields? then Done([], b)
    else
      var o := Wrap([FieldBegin(fs.name, Tag(fs.ty))], TypeVisit(full, fs.ty, mode, b, fuel), [FieldEnd]);
      if !o.ok then o else Prepend(o.trace, FieldsVisit(full, fs.rest, mode, o.rest, fuel))
  }

  // ---------------------------------------------------------------- both agree

  lemma TagNotEmpty(t: Type)
    ensures Tag(t) != ""
    ensures WellFormed(t) ==> (Tag(t) == "c" <==> t == Arithmetic('c')) && (Tag(t) == "0" <==> t.Null?)
    ensures WellFormed(t) && t.Arithmetic? ==> Tag(t)[0] !in "[(<{/"
  {
  }

  lemma PopHead(ts: Types)
    requires AllWellFormed(ts) && ts.Cons?
    ensures TagAll(ts) != "" && Pop(TagAll(ts)) == (Tag(ts.head), TagAll(ts.tail))
  {
    TagNotEmpty(ts.head);
    PopTag(ts.head, TagAll(ts.tail));
  }

  lemma PopNothing()
    ensures Pop("") == ("", "")
  {
  }

  lemma PopOne(t: Type)
    requires WellFormed(t)
    ensures Pop(Tag(t)) == (Tag(t), "")
  {
    assert Tag(t) + "" == Tag(t);
    PopTag(t, "");
  }

  lemma PopField(fs: Fields)
    requires FieldsWellFormed(fs) && fs.Field?
    ensures TagFields(fs) != "" && PopLabel(TagFields(fs)) == (fs.name, Tag(fs.ty) + TagFields(fs.rest))
    ensures Pop(Tag(fs.ty) + TagFields(fs.rest)) == (Tag(fs.ty), TagFields(fs.rest))
  {
    PopLabelOf(fs.name, Tag(fs.ty) + TagFields(fs.rest));
    PopTag(fs.ty, TagFields(fs.rest));
  }

  lemma Inner(l: char, w: string, r: char)
    ensures DropLast(Drop([l] + (w + [r]), 1)) == w
  {
    var s := [l] + (w + [r]);
    assert Drop(s, 1) == w + [r];
  }

  lemma {:induction false} FirstWellFormed(t: Type, name: string)
    requires WellFormed(t)
    ensures First(t, name).Fields? ==> FieldsWellFormed(First(t, name).fields)
    decreases t
  {
    match t
    case Sequence(elem) => FirstWellFormed(elem, name);
    case Tuple(elems) => FirstOfWellFormed(elems, name);
    case Variant(options) => FirstOfWellFormed(options, name);
    case Struct(_, fields) => FirstInWellFormed(fields, name);
    case _ =>
  }

  lemma {:induction false} FirstOfWellFormed(ts: Types, name: string)
    requires AllWellFormed(ts)
    ensures FirstOf(ts, name).Fields? ==> FieldsWellFormed(FirstOf(ts, name).fields)
    decreases ts
  {
    if ts.Cons? {
      FirstWellFormed(ts.head, name);
      FirstOfWellFormed(ts.tail, name);
    }
  }

  lemma {:induction false} FirstInWellFormed(fs: Fields, name: string)
    requires FieldsWellFormed(fs)
    ensures FirstIn(fs, name).Fields? ==> FieldsWellFormed(FirstIn(fs, name).fields)
    decreases fs
  {
    if fs.Field? {
      FirstWellFormed(fs.ty, name);
      FirstInWellFormed(fs.rest, name);
    }
  }

  /** A structure tag is split where its name ends, and a reference is resolved by name. */
  lemma StructParts(full: Type, name: string, fields: Fields)
    requires WellFormed(full) && WellFormed(Struct(name, fields))
    ensures var t := Tag(Struct(name, fields));
            && t != "" && t[0] == '{'
            && DropLast(t)[FindPos(DropLast(t), '`')..] == TagFields(fields)
            && Drop(Intro(t), 1) == name
            && StructFields(Tag(full), t) == TagFields(Resolved(full, name, fields))
            && (TagFields(fields) == "" <==> fields.NoFields?)
    ensures FieldsWellFormed(Resolved(full, name, fields))
  {
    hide Resolve, WellFormed, FieldsWellFormed, Plain;
    var t, intro := Tag(Struct(name, fields)), "{" + name;
    assert Plain(name) && FieldsWellFormed(fields) by {
      StructWellFormed(name, fields);
    }
    assert DropLast(t) == intro + TagFields(fields);
    PlainHasNoBrace(name);
    FindPosOf(intro, '`', TagFields(fields));
    assert Intro(t) == intro;
    ResolveFindsFirst(full, name);
    FirstWellFormed(full, name);
    NoFieldsWellFormed();
  }

  lemma NoFieldsWellFormed()
    ensures FieldsWellFormed(NoFields)
  {
  }

  lemma {:induction false} SingularRefines(full: Type, t: Type, fuel: nat)
    requires WellFormed(full) && WellFormed(t)
    ensures Singular(Tag(full), Tag(t), fuel) == TypeSingular(full, t, fuel)
    decreases fuel, t, 0
  {
    hide Pop, PopLabel, StructFields, Plain;
    TagNotEmpty(t);
    if fuel > 0 && t.Tuple? {
      Inner('(', TagAll(t.elems), ')');
      SingularAllRefines(full, t.elems, fuel - 1);
    } else if fuel > 0 && t.Struct? {
      StructParts(full, t.name, t.fields);
      if t.fields.Field? {
        SingularFieldsRefines(full, t.fields, fuel - 1);
      } else {
        ResolvedLabel(Resolved(full, t.name, t.fields));
      }
    }
  }

  /** Behind the name of a first field there is its tag, so the rest is empty just if there are no fields. */
  lemma ResolvedLabel(fs: Fields)
    requires FieldsWellFormed(fs)
    ensures PopLabel(TagFields(fs)).1 == "" <==> fs.NoFields?
  {
    if fs.Field? {
      PopField(fs);
      TagNotEmpty(fs.ty);
    }
  }

  lemma {:induction false} SingularAllRefines(full: Type, ts: Types, fuel: nat)
    requires WellFormed(full) && AllWellFormed(ts)
    ensures SingularAll(Tag(full), TagAll(ts), fuel) == TypesSingular(full, ts, fuel)
    decreases fuel, ts, 1
  {
    hide Pop;
    if ts.Cons? {
      PopHead(ts);
      SingularRefines(full, ts.head, fuel);
      SingularAllRefines(full, ts.tail, fuel);
    }
  }

  lemma {:induction false} SingularFieldsRefines(full: Type, fs: Fields, fuel: nat)
    requires WellFormed(full) && FieldsWellFormed(fs)
    ensures SingularFields(Tag(full), TagFields(fs), fuel) == FieldsSingular(full, fs, fuel)
    decreases fuel, fs, 1
  {
    hide Pop, PopLabel;
    if fs.Field? {
      PopField(fs);
      SingularRefines(full, fs.ty, fuel);
      SingularFieldsRefines(full, fs.rest, fuel);
    }
  }

  lemma {:induction false} PopTimesOfAll(ts: Types, n: nat)
    requires AllWellFormed(ts)
    ensures Pop(PopTimes(TagAll(ts), n)).0 == if Nth(ts, n).None? then "" else Tag(Nth(ts, n).value)
    ensures Nth(ts, n).Some? ==> WellFormed(Nth(ts, n).value)
  {
    hide Pop;
    if ts.Nil? {
      PopNothing();
      if n > 0 {
        PopTimesOfAll(ts, n - 1);
      }
    } else {
      PopHead(ts);
      if n > 0 {
        PopTimesOfAll(ts.tail, n - 1);
      }
    }
  }

  lemma EnumParts(underlying: char, name: string, es: seq<Enumerator>)
    requires WellFormed(Enum(underlying, name, es))
    ensures var s := DropLast(Drop(Tag(Enum(underlying, name, es)), 1));
            && s != "" && s[0] == underlying
            && FindPos(Drop(s, 2), '\'') == |name| && Drop(s, 2)[..|name|] == name
            && Drop(s, 2)[|name|..] == "'" + TagEnumerators(es)
  {
    var tail := name + ("'" + TagEnumerators(es));
    Inner('/', [underlying] + ("`" + tail), '\\');
    assert Drop([underlying] + ("`" + tail), 2) == tail;
    assert '\'' !in name;
    FindPosOf(name, '\'', "'" + TagEnumerators(es));
  }

  lemma EnumRefines(underlying: char, name: string, es: seq<Enumerator>, b: bytes)
    requires WellFormed(Enum(underlying, name, es))
    ensures VisitEnum(Tag(Enum(underlying, name, es)), b) == EnumVisit(underlying, name, es, b)
  {
    hide HexOf, SearchEnumerator, EnumeratorWith, TagEnumerators, Plain;
    EnumParts(underlying, name, es);
    if SizeOfKind(underlying) > 0 && Take(b, SizeOfKind(underlying)).Ok? {
      var value := HexOf(underlying, Take(b, SizeOfKind(underlying)).value);
      HexOfIsPlain(underlying, Take(b, SizeOfKind(underlying)).value);
      SearchFindsEnumerator(es, value);
    }
  }

  /** The tag lists enumerators by the text of their integers. */
  function Enumerators(listed: seq<(int, string)>): (es: seq<Enumerator>)
    ensures |es| == |listed| && forall i :: 0 <= i < |es| ==> es[i] == Enumerator(HexString(listed[i].0), listed[i].1)
  {
    seq(|listed|, i requires 0 <= i < |listed| => Enumerator(HexString(listed[i].0), listed[i].1))
  }

  /** `chosen` is the name of the first enumerator of integer `k`, or empty if there is none. */
  ghost predicate NamesFirst(listed: seq<(int, string)>, k: int, chosen: string) {
    || (chosen == "" && forall i :: 0 <= i < |listed| ==> listed[i].0 != k)
    || exists i :: 0 <= i < |listed| && listed[i] == (k, chosen) && forall j :: 0 <= j < i ==> listed[j].0 != k
  }

  lemma {:induction false} EnumeratorOfInteger(listed: seq<(int, string)>, k: int)
    ensures NamesFirst(listed, k, EnumeratorWith(Enumerators(listed), HexString(k)))
  {
    hide HexString;
    if listed != [] {
      var more := listed[1..];
      assert Enumerators(listed)[1..] == Enumerators(more);
      HexRoundTrip(k);
      HexRoundTrip(listed[0].0);
      EnumeratorOfInteger(more, k);
      if listed[0].0 != k {
        var chosen := EnumeratorWith(Enumerators(more), HexString(k));
        if i :| 0 <= i < |more| && more[i] == (k, chosen) && forall j :: 0 <= j < i ==> more[j].0 != k {
          assert listed[i + 1] == (k, chosen);
          assert forall j :: 0 <= j < i + 1 ==> listed[j].0 != k;
        } else {
          assert forall j :: 1 <= j < |listed| ==> listed[j] == more[j - 1];
        }
      }
    }
  }

  /**
   An enumeration is visited by integers, though its tag is searched by text: the visitor gets the name of the
   first enumerator listed with the very integer in the input, and an empty name if and only if there is none.
   */
  lemma EnumVisitNamesInteger(underlying: char, name: string, listed: seq<(int, string)>, bits: bytes, rest: bytes)
    requires IsInteger(underlying) && Plain(name) && |bits| == SizeOfKind(underlying)
    requires forall i :: 0 <= i < |listed| ==> Plain(listed[i].1) && listed[i].1 != ""
    ensures var k := IntegerOf(underlying, bits);
            var chosen := EnumeratorWith(Enumerators(listed), HexString(k));
            && VisitEnum(Tag(Enum(underlying, name, Enumerators(listed))), bits + rest)
               == Done([EnumValue(name, chosen, underlying, HexString(k))], rest)
            && NamesFirst(listed, k, chosen)
            && (chosen == "" <==> forall i :: 0 <= i < |listed| ==> listed[i].0 != k)
  {
    hide VisitEnum, EnumeratorWith, HexString, Plain, FromLE;
    var k := IntegerOf(underlying, bits);
    forall i | 0 <= i < |listed| ensures Plain(HexString(listed[i].0)) { HexIsPlain(listed[i].0); }
    EnumRefines(underlying, name, Enumerators(listed), bits + rest);
    assert (bits + rest)[..|bits|] == bits && (bits + rest)[|bits|..] == rest;
    EnumeratorOfInteger(listed, k);
  }

  /**
   On the tags of types, visiting by taking text apart is visiting by type: for every type, input and
   depth, with the same calls, the same exceptions and the same bytes left.
   */
  lemma {:induction false} VisitRefines(full: Type, t: Type, mode: Mode, b: bytes, fuel: nat)
    requires WellFormed(full) && WellFormed(t)
    ensures Visit(Tag(full), Tag(t), mode, b, fuel) == TypeVisit(full, t, mode, b, fuel)
    decreases fuel, 0, 0, t
  {
    hide VisitEnum, EnumVisit, ReadUint, WellFormed, AllWellFormed, FieldsWellFormed;
    hide VisitSequence, VisitTuple, VisitVariant, VisitStruct, SequenceVisit, TypesVisit, OptionVisit, FieldsVisit;
    hide Wrap, Take, SizeOfKind, Resolved;
    if fuel > 0 {
      TagNotEmpty(t);
      PartsWellFormed(t);
      match t
      case Arithmetic(kind) =>
      case Null => NoSuchKind(b);
      case Sequence(elem) => SequenceRefines(full, elem, mode, b, fuel - 1);
      case Tuple(elems) => TupleRefines(full, elems, mode, b, fuel - 1);
      case Variant(options) => VariantRefines(full, options, mode, b, fuel - 1);
      case Struct(name, fields) => StructRefines(full, name, fields, mode, b, fuel - 1);
      case Enum(underlying, name, es) => EnumRefines(underlying, name, es, b);
    }
  }

  lemma NoSuchKind(b: bytes)
    ensures VisitArithmetic('0', b) == Threw([], b)
  {
  }

  lemma {:induction false} TupleRefines(full: Type, elems: Types, mode: Mode, b: bytes, fuel: nat)
    requires WellFormed(full) && AllWellFormed(elems)
    ensures VisitTuple(Tag(full), Tag(Tuple(elems)), mode, b, fuel)
            == Wrap([TupleBegin(TagAll(elems))], TypesVisit(full, elems, mode, b, fuel), [TupleEnd])
    decreases fuel, 3, 0, elems
  {
    hide VisitAll, TypesVisit, WellFormed, AllWellFormed;
    Inner('(', TagAll(elems), ')');
    AllRefines(full, elems, mode, b, fuel);
  }

  lemma {:induction false} StructRefines(full: Type, name: string, fields: Fields, mode: Mode, b: bytes, fuel: nat)
    requires WellFormed(full) && WellFormed(Struct(name, fields))
    ensures VisitStruct(Tag(full), Tag(Struct(name, fields)), mode, b, fuel)
            == Wrap([StructBegin(name, TagFields(Resolved(full, name, fields)))],
                    FieldsVisit(full, Resolved(full, name, fields), mode, b, fuel), [StructEnd])
    decreases fuel, 3, 0, Resolved(full, name, fields)
  {
    hide VisitFields, FieldsVisit, WellFormed, FieldsWellFormed, StructFields, Intro, Resolved;
    StructParts(full, name, fields);
    FieldsRefine(full, Resolved(full, name, fields), mode, b, fuel);
  }

  lemma PartsWellFormed(t: Type)
    requires WellFormed(t)
    ensures match t
            case Sequence(elem) => WellFormed(elem)
            case Tuple(elems) => AllWellFormed(elems)
            case Variant(options) => AllWellFormed(options)
            case Struct(name, fields) => FieldsWellFormed(fields)
            case _ => true
  {
  }

  lemma {:induction false} SequenceRefines(full: Type, elem: Type, mode: Mode, b: bytes, fuel: nat)
    requires WellFormed(full) && WellFormed(elem)
    ensures VisitSequence(Tag(full), "[" + Tag(elem), mode, b, fuel) ==
            match ReadUint(b, 4)
            case Fail => Threw([], b)
            case Ok(size, rest) => SequenceVisit(full, elem, mode, rest, fuel, size)
    decreases fuel, 3, 0, elem
  {
    hide ReadUint, WellFormed, Pop, VisitElements, ElementsVisit, SkipText;
    assert Drop("[" + Tag(elem), 1) == Tag(elem);
    PopOne(elem);
    TagNotEmpty(elem);
    if ReadUint(b, 4).Ok? {
      ElementsRefine(full, elem, mode, ReadUint(b, 4).rest, fuel, ReadUint(b, 4).value);
    }
  }

  lemma {:induction false} ElementsRefine(full: Type, elem: Type, mode: Mode, b: bytes, fuel: nat, size: nat)
    requires WellFormed(full) && WellFormed(elem)
    ensures VisitElements(Tag(full), Tag(elem), mode, b, fuel, size) == ElementsVisit(full, elem, mode, b, fuel, size)
    decreases fuel, 1, size + 1, elem
  {
    hide WellFormed, Visit, TypeVisit, VisitTimes, TimesVisit, Singular, TypeSingular;
    SingularRefines(full, elem, fuel);
    VisitRefines(full, elem, mode, b, fuel);
    TimesRefine(full, elem, mode, b, fuel, size);
  }

  lemma {:induction false} TimesRefine(full: Type, elem: Type, mode: Mode, b: bytes, fuel: nat, n: nat)
    requires WellFormed(full) && WellFormed(elem)
    ensures VisitTimes(Tag(full), Tag(elem), mode, b, fuel, n) == TimesVisit(full, elem, mode, b, fuel, n)
    decreases fuel, 1, n, elem
  {
    hide Visit, TypeVisit, WellFormed;
    if n > 0 {
      VisitRefines(full, elem, mode, b, fuel);
      var o := TypeVisit(full, elem, mode, b, fuel);
      TimesRefine(full, elem, mode, o.rest, fuel, n - 1);
    }
  }

  lemma {:induction false} AllRefines(full: Type, ts: Types, mode: Mode, b: bytes, fuel: nat)
    requires WellFormed(full) && AllWellFormed(ts)
    ensures VisitAll(Tag(full), TagAll(ts), mode, b, fuel) == TypesVisit(full, ts, mode, b, fuel)
    decreases fuel, 1, 0, ts
  {
    hide Visit, TypeVisit, Pop;
    if ts.Cons? {
      PopHead(ts);
      VisitRefines(full, ts.head, mode, b, fuel);
      var o := TypeVisit(full, ts.head, mode, b, fuel);
      AllRefines(full, ts.tail, mode, o.rest, fuel);
    }
  }

  lemma {:induction false} VariantRefines(full: Type, options: Types, mode: Mode, b: bytes, fuel: nat)
    requires WellFormed(full) && AllWellFormed(options)
    ensures VisitVariant(Tag(full), Tag(Variant(options)), mode, b, fuel) ==
            match ReadUint(b, 1)
            case Fail => Threw([], b)
            case Ok(d, rest) => OptionVisit(full, Nth(options, d), mode, rest, fuel, d)
    decreases fuel, 3, 0, options
  {
    hide ReadUint, WellFormed, AllWellFormed, Pop;
    Inner('<', TagAll(options), '>');
    if ReadUint(b, 1).Ok? {
      var d := ReadUint(b, 1).value;
      PopTimesOfAll(options, d);
      if Nth(options, d).Some? {
        TagNotEmpty(Nth(options, d).value);
        VisitRefines(full, Nth(options, d).value, mode, ReadUint(b, 1).rest, fuel);
      }
    }
  }

  lemma {:induction false} FieldsRefine(full: Type, fs: Fields, mode: Mode, b: bytes, fuel: nat)
    requires WellFormed(full) && FieldsWellFormed(fs)
    ensures VisitFields(Tag(full), TagFields(fs), mode, b, fuel) == FieldsVisit(full, fs, mode, b, fuel)
    decreases fuel, 1, 0, fs
  {
    hide Visit, TypeVisit, Pop, PopLabel;
    if fs.Field? {
      PopField(fs);
      VisitRefines(full, fs.ty, mode, b, fuel);
      var o := Wrap([FieldBegin(fs.name, Tag(fs.ty))], TypeVisit(full, fs.ty, mode, b, fuel), [FieldEnd]);
      FieldsRefine(full, fs.rest, mode, o.rest, fuel);
    }
  }

  // ---------------------------------------------------------------- limits and sizes

  /** A value of each arithmetic kind is so many bytes of the input, handed over as they are. */
  lemma ArithmeticTakes(kind: char, n: nat, b: bytes)
    requires (kind in "ycbB" && n == 1) || (kind in "sS" && n == 2) || (kind in "iIf" && n == 4)
             || (kind in "lLd" && n == 8) || (kind == 'D' && n == 16)
    ensures VisitArithmetic(kind, b) == TakesBytes(kind, b, n)
  {
  }

  function TakesBytes(kind: char, b: bytes, n: nat): Outcome {
    if |b| < n then Threw([], b) else Done([Value(kind, b[..n])], b[n..])
  }

  /** An index that no alternative has is reported, with nothing in it. */
  lemma IndexOutOfRange(full: Type, options: Types, mode: Mode, index: byte, b: bytes, fuel: nat)
    requires Nth(options, index).None? && fuel > 1
    ensures TypeVisit(full, Variant(options), mode, [index] + b, fuel) == Done([VariantBegin(index, ""), VariantEnd], b)
  {
    assert ([index] + b)[..1] == [index] && [index][1..] == [] && FromLE([index]) == index;
    assert [VariantBegin(index, "")] + [] + [VariantEnd] == [VariantBegin(index, ""), VariantEnd];
  }

  /** Empty tuples, each the only element of the next, `n` of them. */
  function Nested(n: nat): Type
    requires n > 0
  {
    if n == 1 then Tuple(Nil) else Tuple(Cons(Nested(n - 1), Nil))
  }

  lemma {:induction false} NestedVisit(full: Type, mode: Mode, b: bytes, n: nat, fuel: nat)
    requires n > 0
    ensures WellFormed(Nested(n))
    ensures TypeVisit(full, Nested(n), mode, b, fuel).ok <==> n <= fuel
    decreases n
  {
    if n > 1 {
      NestedVisit(full, mode, b, n - 1, if fuel > 0 then fuel - 1 else 0);
      OnlyElement(full, Nested(n - 1), mode, b, fuel);
    } else {
      assert fuel > 0 ==> TypesVisit(full, Nil, mode, b, fuel - 1) == Done([], b);
    }
  }

  lemma OnlyElement(full: Type, t: Type, mode: Mode, b: bytes, fuel: nat)
    ensures TypeVisit(full, Tuple(Cons(t, Nil)), mode, b, fuel).ok <==> fuel > 0 && TypeVisit(full, t, mode, b, fuel - 1).ok
  {
    if fuel > 0 && TypeVisit(full, t, mode, b, fuel - 1).ok {
      var rest := TypeVisit(full, t, mode, b, fuel - 1).rest;
      assert TypesVisit(full, Nil, mode, rest, fuel - 1) == Done([], rest);
    }
  }

  /** Visiting works up to 2048 levels of nesting, and no further. */
  lemma RecursionLimit(mode: Mode, b: bytes, n: nat)
    requires n > 0
    ensures var t := Tag(Nested(n)); Visit(t, t, mode, b, MAX_RECURSION).ok <==> n <= 2048
  {
    hide Visit, TypeVisit, Tag, Nested;
    var t := Nested(n);
    NestedVisit(t, mode, b, n, MAX_RECURSION);
    VisitRefines(t, t, mode, b, MAX_RECURSION);
  }

  /** Up to 32 elements are visited one by one, whatever they are; elements without bytes beyond that just once. */
  lemma CollapsesBeyond32(full: Type, elem: Type, mode: Mode, b: bytes, fuel: nat, size: nat)
    requires mode.collapse && TypeSingular(full, elem, fuel) == Some(true)
    ensures size <= 32 ==> ElementsVisit(full, elem, mode, b, fuel, size) == TimesVisit(full, elem, mode, b, fuel, size)
    ensures size >= 33 ==>
              ElementsVisit(full, elem, mode, b, fuel, size)
              == Wrap([RepeatBegin(size, Tag(elem))], TypeVisit(full, elem, mode, b, fuel), [RepeatEnd(size, Tag(elem))])
  {
  }
}
