/** Types without bytes: the shortcut for sequences of them, and what it cannot be mistaken for. */
module VisitSingular {
  import opened Bytes
  import opened Entries
  import opened Tags
  import opened Hex
  import opened Visits
  import opened Serialization

  // ---------------------------------------------------------------- a fixed trace

  /** What visiting a type without bytes always does. */
  function FixedTrace(full: Type, t: Type): seq<Callback>
    requires IsSingular(full, t)
    decreases t
  {
    match t
    case Tuple(elems) => [TupleBegin(TagAll(elems))] + FixedTraceOfAll(full, elems) + [TupleEnd]
    case Struct(name, fields) =>
      if fields.NoFields? then [StructBegin(name, "")] + [] + [StructEnd]
      else [StructBegin(name, TagFields(fields))] + FixedTraceOfFields(full, fields) + [StructEnd]
  }

  function FixedTraceOfAll(full: Type, ts: Types): seq<Callback>
    requires AllSingular(full, ts)
    decreases ts
  {
    if ts.Nil? then [] else FixedTrace(full, ts.head) + FixedTraceOfAll(full, ts.tail)
  }

  function FixedTraceOfFields(full: Type, fs: Fields): seq<Callback>
    requires SingularMembers(full, fs)
    decreases fs
  {
    if fs.NoFields? then []
    else [FieldBegin(fs.name, Tag(fs.ty))] + FixedTrace(full, fs.ty) + [FieldEnd] + FixedTraceOfFields(full, fs.rest)
  }

  /** Whenever `singular` says yes, visiting takes no byte of any input, and makes the same calls each time. */
  lemma {:induction false} SingularVisit(full: Type, t: Type, mode: Mode, b: bytes, fuel: nat)
    requires TypeSingular(full, t, fuel) == Some(true)
    ensures IsSingular(full, t) && TypeVisit(full, t, mode, b, fuel) == Done(FixedTrace(full, t), b)
    decreases t
  {
    SingularIsExact(full, t, fuel);
    match t
    case Tuple(elems) => SingularRowVisit(full, elems, mode, b, fuel - 1);
    case Struct(name, fields) =>
      if fields.Field? {
        SingularFieldsVisit(full, fields, mode, b, fuel - 1);
      }
  }

  lemma {:induction false} SingularRowVisit(full: Type, ts: Types, mode: Mode, b: bytes, fuel: nat)
    requires TypesSingular(full, ts, fuel) == Some(true)
    ensures AllSingular(full, ts) && TypesVisit(full, ts, mode, b, fuel) == Done(FixedTraceOfAll(full, ts), b)
    decreases ts
  {
    hide TypeVisit, FixedTrace;
    if ts.Cons? {
      SingularVisit(full, ts.head, mode, b, fuel);
      SingularRowVisit(full, ts.tail, mode, b, fuel);
    }
  }

  lemma {:induction false} SingularFieldsVisit(full: Type, fs: Fields, mode: Mode, b: bytes, fuel: nat)
    requires FieldsSingular(full, fs, fuel) == Some(true)
    ensures SingularMembers(full, fs) && FieldsVisit(full, fs, mode, b, fuel) == Done(FixedTraceOfFields(full, fs), b)
    decreases fs
  {
    hide TypeVisit, FixedTrace;
    if fs.Field? {
      SingularVisit(full, fs.ty, mode, b, fuel);
      SingularFieldsVisit(full, fs.rest, mode, b, fuel);
    }
  }

  /** `singular` gives up only where visiting does too. */
  lemma {:induction false} GivingUpThrows(full: Type, t: Type, mode: Mode, b: bytes, fuel: nat)
    requires TypeSingular(full, t, fuel).None?
    ensures !TypeVisit(full, t, mode, b, fuel).ok
    decreases t
  {
    if fuel > 0 {
      match t
      case Tuple(elems) => GivingUpOnRowThrows(full, elems, mode, b, fuel - 1);
      case Struct(name, fields) => GivingUpOnFieldsThrows(full, fields, mode, b, fuel - 1);
    }
  }

  lemma {:induction false} GivingUpOnRowThrows(full: Type, ts: Types, mode: Mode, b: bytes, fuel: nat)
    requires TypesSingular(full, ts, fuel).None?
    ensures !TypesVisit(full, ts, mode, b, fuel).ok
    decreases ts
  {
    hide TypeVisit;
    if TypeSingular(full, ts.head, fuel).None? {
      GivingUpThrows(full, ts.head, mode, b, fuel);
    } else {
      SingularVisit(full, ts.head, mode, b, fuel);
      GivingUpOnRowThrows(full, ts.tail, mode, b, fuel);
    }
  }

  lemma {:induction false} GivingUpOnFieldsThrows(full: Type, fs: Fields, mode: Mode, b: bytes, fuel: nat)
    requires FieldsSingular(full, fs, fuel).None?
    ensures !FieldsVisit(full, fs, mode, b, fuel).ok
    decreases fs
  {
    hide TypeVisit;
    if TypeSingular(full, fs.ty, fuel).None? {
      GivingUpThrows(full, fs.ty, mode, b, fuel);
    } else {
      SingularVisit(full, fs.ty, mode, b, fuel);
      GivingUpOnFieldsThrows(full, fs.rest, mode, b, fuel);
    }
  }

  // ---------------------------------------------------------------- expanding repetitions

  function Times(trace: seq<Callback>, n: nat): seq<Callback> {
    if n == 0 then [] else trace + Times(trace, n - 1)
  }

  /** The position of the first end of a repetition. */
  function FirstEnd(trace: seq<Callback>): (n: nat)
    ensures n <= |trace|
  {
    if trace == [] || trace[0].RepeatEnd? then 0 else 1 + FirstEnd(trace[1..])
  }

  /** What stands between the ends of a repetition, as often as they say. */
  function Expand(trace: seq<Callback>): seq<Callback>
    decreases |trace|
  {
    if trace == [] then []
    else if trace[0].RepeatBegin? then
      var n := FirstEnd(trace[1..]);
      Times(trace[1..][..n], trace[0].times) + (if n < |trace[1..]| then Expand(trace[1..][n + 1..]) else [])
    else [trace[0]] + Expand(trace[1..])
  }

  ghost predicate NoRepeats(trace: seq<Callback>) {
    forall i :: 0 <= i < |trace| ==> !trace[i].RepeatBegin? && !trace[i].RepeatEnd?
  }

  /** Repetitions that are begun in `trace` end there. */
  ghost predicate Closed(trace: seq<Callback>) {
    forall more: seq<Callback> :: Expand(trace + more) == Expand(trace) + Expand(more)
  }

  lemma ClosedAppend(a: seq<Callback>, b: seq<Callback>)
    requires Closed(a) && Closed(b)
    ensures Closed(a + b) && Expand(a + b) == Expand(a) + Expand(b)
  {
    hide Expand;
    forall more: seq<Callback>
      ensures Expand(a + b + more) == Expand(a + b) + Expand(more)
    {
      assert a + b + more == a + (b + more);
      assert Expand(a + (b + more)) == Expand(a) + Expand(b + more);
      assert Expand(b + more) == Expand(b) + Expand(more);
    }
  }

  lemma ExpandPlain(trace: seq<Callback>)
    ensures Expand([]) == []
    ensures trace != [] && !trace[0].RepeatBegin? ==> Expand(trace) == [trace[0]] + Expand(trace[1..])
  {
    hide FirstEnd, Times;
  }

  lemma ExpandBegin(trace: seq<Callback>, n: nat)
    requires trace != [] && trace[0].RepeatBegin? && n == FirstEnd(trace[1..]) < |trace[1..]|
    ensures Expand(trace) == Times(trace[1..][..n], trace[0].times) + Expand(trace[1..][n + 1..])
  {
    hide FirstEnd, Times;
  }

  lemma {:induction false} ClosedPlain(trace: seq<Callback>)
    requires NoRepeats(trace)
    ensures Closed(trace) && Expand(trace) == trace
  {
    hide Expand;
    ExpandPlain(trace);
    if trace == [] {
      assert forall more: seq<Callback> :: [] + more == more;
    } else {
      ClosedPlain(trace[1..]);
      forall more: seq<Callback>
        ensures Expand(trace + more) == Expand(trace) + Expand(more)
      {
        ExpandPlain(trace + more);
        assert (trace + more)[1..] == trace[1..] + more;
      }
    }
  }

  lemma {:induction false} FirstEndOf(trace: seq<Callback>, end: Callback, more: seq<Callback>)
    requires NoRepeats(trace) && end.RepeatEnd?
    ensures FirstEnd(trace + [end] + more) == |trace|
  {
    var all := trace + [end] + more;
    if trace != [] {
      assert all[1..] == trace[1..] + [end] + more;
      assert all[0] == trace[0];
      FirstEndOf(trace[1..], end, more);
    } else {
      assert all[0] == end;
    }
  }

  function Repetition(n: nat, t: tag, trace: seq<Callback>): seq<Callback> {
    [RepeatBegin(n, t)] + trace + [RepeatEnd(n, t)]
  }

  /** Behind the head of a repetition stand its trace, its end and what follows. */
  lemma RepetitionParts(n: nat, t: tag, trace: seq<Callback>, more: seq<Callback>)
    ensures var all := Repetition(n, t, trace) + more;
            && all != [] && all[0] == RepeatBegin(n, t) && |all[1..]| > |trace|
            && all[1..] == trace + [RepeatEnd(n, t)] + more
            && all[1..][..|trace|] == trace && all[1..][|trace| + 1..] == more
  {
    var all := Repetition(n, t, trace) + more;
    assert all[1..] == trace + [RepeatEnd(n, t)] + more;
  }

  lemma ExpandRepetition(n: nat, t: tag, trace: seq<Callback>, more: seq<Callback>)
    requires NoRepeats(trace)
    ensures Expand(Repetition(n, t, trace) + more) == Times(trace, n) + Expand(more)
  {
    hide NoRepeats, Times, FirstEnd, Repetition, Expand;
    RepetitionParts(n, t, trace, more);
    FirstEndOf(trace, RepeatEnd(n, t), more);
    ExpandBegin(Repetition(n, t, trace) + more, |trace|);
  }

  lemma ClosedRepetition(n: nat, t: tag, trace: seq<Callback>)
    requires NoRepeats(trace)
    ensures var block := [RepeatBegin(n, t)] + trace + [RepeatEnd(n, t)];
            Closed(block) && Expand(block) == Times(trace, n)
  {
    hide Expand, NoRepeats, Times;
    var block := Repetition(n, t, trace);
    ExpandRepetition(n, t, trace, []);
    ExpandPlain([]);
    assert block + [] == block;
    forall more: seq<Callback>
      ensures Expand(block + more) == Times(trace, n) + Expand(more)
    {
      ExpandRepetition(n, t, trace, more);
    }
  }

  lemma {:induction false} FixedHasNoRepeats(full: Type, t: Type)
    requires IsSingular(full, t)
    ensures NoRepeats(FixedTrace(full, t))
    decreases t
  {
    match t
    case Tuple(elems) => FixedRowHasNoRepeats(full, elems);
    case Struct(name, fields) =>
      if fields.Field? {
        FixedFieldsHaveNoRepeats(full, fields);
      }
  }

  lemma {:induction false} FixedRowHasNoRepeats(full: Type, ts: Types)
    requires AllSingular(full, ts)
    ensures NoRepeats(FixedTraceOfAll(full, ts))
    decreases ts
  {
    if ts.Cons? {
      FixedHasNoRepeats(full, ts.head);
      FixedRowHasNoRepeats(full, ts.tail);
    }
  }

  lemma {:induction false} FixedFieldsHaveNoRepeats(full: Type, fs: Fields)
    requires SingularMembers(full, fs)
    ensures NoRepeats(FixedTraceOfFields(full, fs))
    decreases fs
  {
    if fs.Field? {
      FixedHasNoRepeats(full, fs.ty);
      FixedFieldsHaveNoRepeats(full, fs.rest);
    }
  }

  // ---------------------------------------------------------------- the shortcut changes nothing

  /** `o` is a visit with the shortcut, `p` one without: they end alike, and `o` tells in short what `p` tells. */
  ghost predicate Agree(o: Outcome, p: Outcome) {
    && o.ok == p.ok
    && (o.ok ==> o.rest == p.rest && Closed(o.trace) && Expand(o.trace) == p.trace)
  }

  lemma AgreePlain(o: Outcome)
    requires NoRepeats(o.trace)
    ensures Agree(o, o)
  {
    ClosedPlain(o.trace);
  }

  lemma AgreeWrap(first: Callback, o: Outcome, p: Outcome, last: Callback)
    requires Agree(o, p) && NoRepeats([first]) && NoRepeats([last])
    ensures Agree(Wrap([first], o, [last]), Wrap([first], p, [last]))
  {
    hide Closed, NoRepeats;
    ClosedPlain([first]);
    ClosedPlain([last]);
    if o.ok {
      ClosedAppend([first], o.trace);
      ClosedAppend([first] + o.trace, [last]);
    }
  }

  lemma AgreeThen(o: Outcome, o': Outcome, p: Outcome, p': Outcome)
    requires Agree(o, p) && o.ok && Agree(o', p')
    ensures Agree(Prepend(o.trace, o'), Prepend(p.trace, p'))
  {
    hide Closed;
    if o'.ok {
      ClosedAppend(o.trace, o'.trace);
    }
  }

  function With(mode: Mode): Mode { mode.(collapse := true) }

  function Without(mode: Mode): Mode { mode.(collapse := false) }

  /**
   Visiting with the shortcut for elements without bytes ends as visiting every element does, and expanding
   the repetitions it reports gives the very calls of the latter.
   */
  lemma {:induction false} ShortcutIsExact(full: Type, t: Type, mode: Mode, b: bytes, fuel: nat)
    ensures Agree(TypeVisit(full, t, With(mode), b, fuel), TypeVisit(full, t, Without(mode), b, fuel))
    decreases fuel, 0, 0, t
  {
    hide Agree, SequenceVisit, TypesVisit, FieldsVisit, OptionVisit, ReadUint, Resolved, VisitArithmetic, EnumVisit;
    if fuel == 0 {
      AgreePlain(Threw([], b));
    } else {
      match t
      case Arithmetic(kind) => ArithmeticAgrees(kind, b);
      case Null => AgreePlain(Threw([], b));
      case Sequence(elem) =>
        AgreePlain(Threw([], b));
        if ReadUint(b, 4).Ok? {
          SequenceAgrees(full, elem, mode, ReadUint(b, 4).rest, fuel - 1, ReadUint(b, 4).value);
        }
      case Tuple(elems) =>
        RowAgrees(full, elems, mode, b, fuel - 1);
        AgreeWrap(TupleBegin(TagAll(elems)), TypesVisit(full, elems, With(mode), b, fuel - 1),
                  TypesVisit(full, elems, Without(mode), b, fuel - 1), TupleEnd);
      case Variant(options) =>
        AgreePlain(Threw([], b));
        if ReadUint(b, 1).Ok? {
          var d := ReadUint(b, 1).value;
          OptionAgrees(full, Nth(options, d), mode, ReadUint(b, 1).rest, fuel - 1, d);
        }
      case Struct(name, fields) =>
        var fs := Resolved(full, name, fields);
        FieldsAgree(full, fs, mode, b, fuel - 1);
        AgreeWrap(StructBegin(name, TagFields(fs)), FieldsVisit(full, fs, With(mode), b, fuel - 1),
                  FieldsVisit(full, fs, Without(mode), b, fuel - 1), StructEnd);
      case Enum(underlying, name, es) => EnumAgrees(underlying, name, es, b);
    }
  }

  lemma ArithmeticAgrees(kind: char, b: bytes)
    ensures Agree(VisitArithmetic(kind, b), VisitArithmetic(kind, b))
  {
    AgreePlain(VisitArithmetic(kind, b));
  }

  lemma EnumAgrees(underlying: char, name: string, es: seq<Enumerator>, b: bytes)
    ensures Agree(EnumVisit(underlying, name, es, b), EnumVisit(underlying, name, es, b))
  {
    hide HexOf, EnumeratorWith;
    AgreePlain(EnumVisit(underlying, name, es, b));
  }

  lemma {:induction false} SequenceAgrees(full: Type, elem: Type, mode: Mode, b: bytes, fuel: nat, size: nat)
    ensures Agree(SequenceVisit(full, elem, With(mode), b, fuel, size), SequenceVisit(full, elem, Without(mode), b, fuel, size))
    decreases fuel, 2, 0, elem
  {
    hide Agree, ElementsVisit, SkipText;
    if mode.skipStrings && elem == Arithmetic('c') {
      SkipAgrees(size, b);
    } else {
      ElementsAgree(full, elem, mode, b, fuel, size);
      AgreeWrap(SequenceBegin(size, Tag(elem)), ElementsVisit(full, elem, With(mode), b, fuel, size),
                ElementsVisit(full, elem, Without(mode), b, fuel, size), SequenceEnd);
    }
  }

  lemma SkipAgrees(size: nat, b: bytes)
    ensures Agree(SkipText(size, "c", b), SkipText(size, "c", b))
  {
    AgreePlain(SkipText(size, "c", b));
  }

  lemma {:induction false} ElementsAgree(full: Type, elem: Type, mode: Mode, b: bytes, fuel: nat, size: nat)
    ensures Agree(ElementsVisit(full, elem, With(mode), b, fuel, size), ElementsVisit(full, elem, Without(mode), b, fuel, size))
    decreases fuel, 1, size + 1, elem
  {
    hide TypeVisit, TimesVisit, TypeSingular, Closed, Expand, NoRepeats, FixedTrace;
    if size > 32 && TypeSingular(full, elem, fuel).None? {
      FirstThrows(full, elem, Without(mode), b, fuel, size);
    } else if size > 32 && TypeSingular(full, elem, fuel).value {
      SingularVisit(full, elem, With(mode), b, fuel);
      AllSame(full, elem, Without(mode), b, fuel, size);
      FixedHasNoRepeats(full, elem);
      ClosedRepetition(size, Tag(elem), FixedTrace(full, elem));
    } else {
      TimesAgree(full, elem, mode, b, fuel, size);
    }
  }

  lemma FirstThrows(full: Type, elem: Type, mode: Mode, b: bytes, fuel: nat, n: nat)
    requires TypeSingular(full, elem, fuel).None? && n > 0
    ensures !TimesVisit(full, elem, mode, b, fuel, n).ok
  {
    GivingUpThrows(full, elem, mode, b, fuel);
  }

  lemma {:induction false} AllSame(full: Type, elem: Type, mode: Mode, b: bytes, fuel: nat, n: nat)
    requires TypeSingular(full, elem, fuel) == Some(true)
    ensures IsSingular(full, elem)
    ensures TimesVisit(full, elem, mode, b, fuel, n) == Done(Times(FixedTrace(full, elem), n), b)
    decreases n
  {
    hide TypeVisit, FixedTrace;
    SingularVisit(full, elem, mode, b, fuel);
    if n > 0 {
      AllSame(full, elem, mode, b, fuel, n - 1);
    }
  }

  lemma {:induction false} TimesAgree(full: Type, elem: Type, mode: Mode, b: bytes, fuel: nat, n: nat)
    ensures Agree(TimesVisit(full, elem, With(mode), b, fuel, n), TimesVisit(full, elem, Without(mode), b, fuel, n))
    decreases fuel, 1, n, elem
  {
    hide TypeVisit, Closed, Expand;
    if n == 0 {
      AgreePlain(Done([], b));
    } else {
      ShortcutIsExact(full, elem, mode, b, fuel);
      var o, p := TypeVisit(full, elem, With(mode), b, fuel), TypeVisit(full, elem, Without(mode), b, fuel);
      if o.ok {
        TimesAgree(full, elem, mode, o.rest, fuel, n - 1);
        AgreeThen(o, TimesVisit(full, elem, With(mode), o.rest, fuel, n - 1),
                  p, TimesVisit(full, elem, Without(mode), o.rest, fuel, n - 1));
      }
    }
  }

  lemma {:induction false} RowAgrees(full: Type, ts: Types, mode: Mode, b: bytes, fuel: nat)
    ensures Agree(TypesVisit(full, ts, With(mode), b, fuel), TypesVisit(full, ts, Without(mode), b, fuel))
    decreases fuel, 1, 0, ts
  {
    hide TypeVisit, Closed, Expand;
    if ts.Nil? {
      AgreePlain(Done([], b));
    } else {
      ShortcutIsExact(full, ts.head, mode, b, fuel);
      var o, p := TypeVisit(full, ts.head, With(mode), b, fuel), TypeVisit(full, ts.head, Without(mode), b, fuel);
      if o.ok {
        RowAgrees(full, ts.tail, mode, o.rest, fuel);
        AgreeThen(o, TypesVisit(full, ts.tail, With(mode), o.rest, fuel),
                  p, TypesVisit(full, ts.tail, Without(mode), o.rest, fuel));
      }
    }
  }

  lemma {:induction false} OptionAgrees(full: Type, option: Option<Type>, mode: Mode, b: bytes, fuel: nat, d: nat)
    ensures Agree(OptionVisit(full, option, With(mode), b, fuel, d), OptionVisit(full, option, Without(mode), b, fuel, d))
    decreases fuel, 1, 0, option
  {
    hide Agree, TypeVisit;
    AgreePlain(Done([NullValue], b));
    AgreePlain(Done([], b));
    AgreePlain(Threw([], b));
    match option
    case None =>
      var o := if fuel == 0 then Threw([], b) else Done([], b);
      AgreeWrap(VariantBegin(d, ""), o, o, VariantEnd);
    case Some(t) =>
      ShortcutIsExact(full, t, mode, b, fuel);
      AgreeWrap(VariantBegin(d, Tag(t)), Done([NullValue], b), Done([NullValue], b), VariantEnd);
      AgreeWrap(VariantBegin(d, Tag(t)), TypeVisit(full, t, With(mode), b, fuel),
                TypeVisit(full, t, Without(mode), b, fuel), VariantEnd);
  }

  lemma {:induction false} FieldsAgree(full: Type, fs: Fields, mode: Mode, b: bytes, fuel: nat)
    ensures Agree(FieldsVisit(full, fs, With(mode), b, fuel), FieldsVisit(full, fs, Without(mode), b, fuel))
    decreases fuel, 1, 0, fs
  {
    hide TypeVisit, Closed, Expand, Wrap;
    if fs.NoFields? {
      AgreePlain(Done([], b));
    } else {
      ShortcutIsExact(full, fs.ty, mode, b, fuel);
      var begin := FieldBegin(fs.name, Tag(fs.ty));
      var o := Wrap([begin], TypeVisit(full, fs.ty, With(mode), b, fuel), [FieldEnd]);
      var p := Wrap([begin], TypeVisit(full, fs.ty, Without(mode), b, fuel), [FieldEnd]);
      AgreeWrap(begin, TypeVisit(full, fs.ty, With(mode), b, fuel), TypeVisit(full, fs.ty, Without(mode), b, fuel), FieldEnd);
      if o.ok {
        FieldsAgree(full, fs.rest, mode, o.rest, fuel);
        AgreeThen(o, FieldsVisit(full, fs.rest, With(mode), o.rest, fuel),
                  p, FieldsVisit(full, fs.rest, Without(mode), o.rest, fuel));
      }
    }
  }
}
