/** Rendering serialized values as text: the visitor that does it, and what it prints. */
module ToStrings {
  import opened Bytes
  import opened Entries
  import opened EventStreams
  import opened Tags
  import opened Hex
  import opened Visits
  import opened Serialization

  /** The text of a number, given its kind and bytes; formatting numbers is left to the output buffer. */
  type Scalars = (char, bytes) -> string

  datatype SeqState = Normal | SeqBegin | Seq

  /** The members of `ToStringVisitor`, and what was written so far. */
  datatype Printer = Printer(out: string, state: SeqState, depth: int, emptyStruct: bool)

  /** Bytes are characters, in their order. */
  function TextOf(b: bytes): (s: string)
    ensures |s| == |b| && forall i :: 0 <= i < |s| ==> s[i] == b[i] as char
  {
    seq(|b|, i requires 0 <= i < |b| => b[i] as char)
  }

  function Decimal(n: nat): string {
    if n < 10 then [('0' as int + n) as char] else Decimal(n / 10) + [('0' as int + n % 10) as char]
  }

  // ---------------------------------------------------------------- the visitor as a state machine

  function Put(p: Printer, s: string): Printer {
    p.(out := p.out + s)
  }

  function Comma(p: Printer): Printer {
    match p.state
    case Normal => p
    case SeqBegin => p.(state := Seq)
    case Seq => Put(p, ", ")
  }

  function EnterSeq(p: Printer): Printer {
    p.(state := SeqBegin, depth := p.depth + 1)
  }

  function LeaveSeq(p: Printer): Printer {
    p.(state := if p.depth - 1 == 0 then Normal else Seq, depth := p.depth - 1)
  }

  function Label(name: string): string {
    if name == "" then "" else name + ": "
  }

  /** What one call does. */
  function Feed(scalars: Scalars, p: Printer, cb: Callback): Printer {
    match cb
    case Value(kind, bits) => Put(Comma(p), scalars(kind, bits))
    case SequenceBegin(_, elemTag) => if elemTag == "c" then Comma(p) else EnterSeq(Put(Comma(p), "["))
    case SequenceEnd => LeaveSeq(Put(p, "]"))
    case TupleBegin(_) => EnterSeq(Put(Comma(p), "("))
    case TupleEnd => LeaveSeq(Put(p, ")"))
    case VariantBegin(_, _) => p
    case VariantEnd => p
    case NullValue => Put(Comma(p), "{null}")
    case StructBegin(name, fieldTags) =>
      var q := Put(Comma(p), name[..FindPos(name, '<')]);
      if fieldTags == "" then q.(emptyStruct := true) else EnterSeq(Put(q, "{ "))
    case StructEnd => if p.emptyStruct then p.(emptyStruct := false) else LeaveSeq(Put(p, " }"))
    case FieldBegin(name, _) => Put(Comma(p), Label(name)).(state := Normal)
    case FieldEnd => p.(state := Seq)
    case EnumValue(_, enumerator, _, value) => Put(Comma(p), if enumerator == "" then "0x" + value else enumerator)
    case RepeatBegin(_, _) => p
    case RepeatEnd(times, _) => if times > 1 then Put(p, " ... <repeats " + Decimal(times) + " times>") else p
    case Skipped(text) => Put(p, TextOf(text))
  }

  function Run(scalars: Scalars, p: Printer, trace: seq<Callback>): Printer
    decreases |trace|
  {
    if trace == [] then p else Run(scalars, Feed(scalars, p, trace[0]), trace[1..])
  }

  lemma {:induction false} RunAppend(scalars: Scalars, p: Printer, a: seq<Callback>, b: seq<Callback>)
    ensures Run(scalars, p, a + b) == Run(scalars, Run(scalars, p, a), b)
    decreases |a|
  {
    hide Feed;
    if a == [] {
      assert a + b == b;
    } else {
      assert (a + b)[1..] == a[1..] + b;
      RunAppend(scalars, Feed(scalars, p, a[0]), a[1..], b);
    }
  }

  lemma RunOne(scalars: Scalars, p: Printer, cb: Callback)
    ensures Run(scalars, p, [cb]) == Feed(scalars, p, cb)
  {
    hide Feed;
    assert [cb][1..] == [];
  }

  lemma RunThree(scalars: Scalars, p: Printer, first: Callback, trace: seq<Callback>, last: Callback)
    ensures Run(scalars, p, [first] + trace + [last])
            == Feed(scalars, Run(scalars, Feed(scalars, p, first), trace), last)
  {
    RunOne(scalars, p, first);
    RunAppend(scalars, p, [first], trace);
    RunAppend(scalars, p, [first] + trace, [last]);
    RunOne(scalars, Run(scalars, p, [first] + trace), last);
  }

  // ---------------------------------------------------------------- a compositional rendering

  /** The visitor takes strings whole, and is driven with the shortcut for repetitions. */
  const PRINTING: Mode := Mode(true, true)

  /** The text of a value, made of the texts of its parts, with `, ` between siblings and nowhere else. */
  function Text(scalars: Scalars, full: Type, t: Type, v: Value): string
    requires HasType(full, t, v)
    decreases v, 0
  {
    match t
    case Arithmetic(kind) => scalars(kind, v.bits)
    case Sequence(elem) =>
      assert AllHaveType(full, elem, v.elems);
      if elem == Arithmetic('c') then TextOf(SerAll(v.elems)) else "[" + TextOfBody(scalars, full, elem, v.elems) + "]"
    case Tuple(elems) => "(" + TextOfRow(scalars, full, elems, v.members, true) + ")"
    case Variant(options) =>
      (match v
       case Chosen(index, value) => Text(scalars, full, Nth(options, index).value, value)
       case Nothing(_) => "{null}")
    case Struct(name, fields) =>
      var fs := Resolved(full, name, fields);
      name[..FindPos(name, '<')]
      + (if fs.NoFields? then "" else "{ " + TextOfFields(scalars, full, fs, v.members, true) + " }")
    case Enum(underlying, _, es) =>
      var value := HexOf(underlying, v.bits);
      if EnumeratorWith(es, value) == "" then "0x" + value else EnumeratorWith(es, value)
  }

  function Separator(first: bool): string {
    if first then "" else ", "
  }

  /** Many elements without bytes are shown as one, and their number. */
  function TextOfBody(scalars: Scalars, full: Type, elem: Type, vs: Values): string
    requires AllHaveType(full, elem, vs)
    decreases vs, 2
  {
    if Count(vs) > 32 && IsSingular(full, elem) then
      Text(scalars, full, elem, vs.head) + (" ... <repeats " + Decimal(Count(vs)) + " times>")
    else TextOfElems(scalars, full, elem, vs, true)
  }

  function TextOfElems(scalars: Scalars, full: Type, elem: Type, vs: Values, first: bool): string
    requires AllHaveType(full, elem, vs)
    decreases vs, 1
  {
    if vs.NoValues? then ""
    else Separator(first) + Text(scalars, full, elem, vs.head) + TextOfElems(scalars, full, elem, vs.tail, false)
  }

  function TextOfRow(scalars: Scalars, full: Type, ts: Types, vs: Values, first: bool): string
    requires RowHasType(full, ts, vs)
    decreases vs, 1
  {
    if ts.Nil? then ""
    else Separator(first) + Text(scalars, full, ts.head, vs.head) + TextOfRow(scalars, full, ts.tail, vs.tail, false)
  }

  function TextOfFields(scalars: Scalars, full: Type, fs: Fields, vs: Values, first: bool): string
    requires FieldsHaveType(full, fs, vs)
    decreases vs, 1
  {
    if fs.NoFields? then ""
    else
      Separator(first) + Label(fs.name) + Text(scalars, full, fs.ty, vs.head)
      + TextOfFields(scalars, full, fs.rest, vs.tail, false)
  }

  // ---------------------------------------------------------------- the visitor prints that

  /** Between two values: outside of everything the state is normal. */
  ghost predicate Calm(p: Printer) {
    !p.emptyStruct && p.depth >= 0 && (p.depth == 0 ==> p.state.Normal?)
  }

  /** `q` is `p` after a value with text `s`. */
  ghost predicate Printed(p: Printer, q: Printer, s: string) {
    && Calm(q) && q.depth == p.depth
    && q.out == p.out + (if p.state.Seq? then ", " else "") + s
    && (!p.state.Normal? ==> q.state.Seq?)
  }

  /** In a list at `depth`: `q` is `p` after some elements, or none, with text `s`. */
  ghost predicate Listed(p: Printer, q: Printer, s: string) {
    && !q.emptyStruct && q.depth == p.depth > 0 && q.out == p.out + s
    && (q.state == p.state || q.state.Seq?)
  }

  lemma PutCommaPrinted(p: Printer, s: string)
    requires Calm(p)
    ensures Printed(p, Put(Comma(p), s), s)
  {
    assert p.out + "" + s == p.out + s;
  }

  /** A list in brackets. */
  lemma Bracketed(scalars: Scalars, p: Printer, open: string, q: Printer, inner: string, close: string)
    requires Calm(p) && Listed(EnterSeq(Put(Comma(p), open)), q, inner)
    ensures Printed(p, LeaveSeq(Put(q, close)), open + inner + close)
  {
    var before := p.out + (if p.state.Seq? then ", " else "");
    assert q.out + close == before + (open + inner + close);
  }

  lemma {:induction false} PrintsText(scalars: Scalars, full: Type, t: Type, v: Value, p: Printer)
    requires HasType(full, t, v) && Calm(p)
    ensures Printed(p, Run(scalars, p, TraceOf(full, t, v, PRINTING)), Text(scalars, full, t, v))
    decreases v, 0
  {
    hide Run, HexOf, EnumeratorWith, TraceOfBody, TraceOfRow, TraceOfFields, TextOfElems, TextOfRow, TextOfFields, Printed;
    hide Decimal, SerAll, Resolved, TextOf;
    match t
    case Arithmetic(kind) =>
      RunOne(scalars, p, Value(kind, v.bits));
      PutCommaPrinted(p, scalars(kind, v.bits));
    case Enum(_, _, _) =>
      RunOne(scalars, p, TraceOf(full, t, v, PRINTING)[0]);
      PutCommaPrinted(p, Text(scalars, full, t, v));
    case Sequence(elem) => PrintsSequence(scalars, full, elem, v, p);
    case Tuple(elems) =>
      RunThree(scalars, p, TupleBegin(TagAll(elems)), TraceOfRow(full, elems, v.members, PRINTING), TupleEnd);
      var q := EnterSeq(Put(Comma(p), "("));
      PrintsRow(scalars, full, elems, v.members, q);
      Bracketed(scalars, p, "(", Run(scalars, q, TraceOfRow(full, elems, v.members, PRINTING)),
                TextOfRow(scalars, full, elems, v.members, true), ")");
    case Variant(options) => PrintsVariant(scalars, full, options, v, p);
    case Struct(name, fields) => PrintsStruct(scalars, full, name, fields, v, p);
  }

  lemma TagIsC(t: Type)
    ensures Tag(t) == "c" <==> t == Arithmetic('c')
  {
  }

  lemma {:induction false} PrintsSequence(scalars: Scalars, full: Type, elem: Type, v: Value, p: Printer)
    requires HasType(full, Sequence(elem), v) && Calm(p)
    ensures Printed(p, Run(scalars, p, TraceOf(full, Sequence(elem), v, PRINTING)), Text(scalars, full, Sequence(elem), v))
    decreases v, 0, 0
  {
    hide Run, TraceOfBody, TextOfBody, Printed, SerAll, TextOf, Listed, Tag;
    SequenceHasElems(full, elem, v);
    TagIsC(elem);
    var vs, n := v.elems, Count(v.elems);
    if elem == Arithmetic('c') {
      PrintsString(scalars, n, SerAll(vs), p);
    } else {
      RunThree(scalars, p, SequenceBegin(n, Tag(elem)), TraceOfBody(full, elem, vs, PRINTING), SequenceEnd);
      var q := EnterSeq(Put(Comma(p), "["));
      PrintsBody(scalars, full, elem, vs, q);
      Bracketed(scalars, p, "[", Run(scalars, q, TraceOfBody(full, elem, vs, PRINTING)), TextOfBody(scalars, full, elem, vs), "]");
    }
  }

  lemma PrintsString(scalars: Scalars, n: nat, text: bytes, p: Printer)
    requires Calm(p)
    ensures Printed(p, Run(scalars, p, [SequenceBegin(n, "c"), Skipped(text)]), TextOf(text))
  {
    hide Run, Printed, TextOf;
    RunOne(scalars, p, SequenceBegin(n, "c"));
    RunAppend(scalars, p, [SequenceBegin(n, "c")], [Skipped(text)]);
    RunOne(scalars, Comma(p), Skipped(text));
    assert [SequenceBegin(n, "c")] + [Skipped(text)] == [SequenceBegin(n, "c"), Skipped(text)];
    PutCommaPrinted(p, TextOf(text));
  }

  lemma {:induction false} PrintsBody(scalars: Scalars, full: Type, elem: Type, vs: Values, p: Printer)
    requires AllHaveType(full, elem, vs) && !p.emptyStruct && p.depth > 0 && p.state.SeqBegin?
    ensures Listed(p, Run(scalars, p, TraceOfBody(full, elem, vs, PRINTING)), TextOfBody(scalars, full, elem, vs))
    decreases vs, 2
  {
    hide Run, TraceOfElems, TraceOfFirst, TextOfElems, Text, Decimal, Listed, IsSingular;
    if Count(vs) > 32 && IsSingular(full, elem) {
      PrintsFirst(scalars, full, elem, vs, p);
    } else {
      PrintsElems(scalars, full, elem, vs, p);
    }
  }

  lemma {:induction false} PrintsFirst(scalars: Scalars, full: Type, elem: Type, vs: Values, p: Printer)
    requires AllHaveType(full, elem, vs) && Count(vs) > 32 && !p.emptyStruct && p.depth > 0 && p.state.SeqBegin?
    ensures Listed(p, Run(scalars, p, TraceOfFirst(full, elem, vs, PRINTING)),
                   Text(scalars, full, elem, vs.head) + (" ... <repeats " + Decimal(Count(vs)) + " times>"))
    decreases vs, 1
  {
    hide Run, TraceOf, Text, Decimal, IsSingular;
    var n := Count(vs);
    PrintsText(scalars, full, elem, vs.head, p);
    RunThree(scalars, p, RepeatBegin(n, Tag(elem)), TraceOf(full, elem, vs.head, PRINTING), RepeatEnd(n, Tag(elem)));
    NoteFollows(scalars, p, Run(scalars, p, TraceOf(full, elem, vs.head, PRINTING)), Text(scalars, full, elem, vs.head), n, Tag(elem));
  }

  lemma NoteFollows(scalars: Scalars, p: Printer, q: Printer, s: string, n: nat, elemTag: tag)
    requires Printed(p, q, s) && n > 1 && !p.emptyStruct && p.depth > 0 && p.state.SeqBegin?
    ensures Feed(scalars, p, RepeatBegin(n, elemTag)) == p
    ensures Listed(p, Feed(scalars, q, RepeatEnd(n, elemTag)), s + (" ... <repeats " + Decimal(n) + " times>"))
  {
    hide Decimal;
    var note := " ... <repeats " + Decimal(n) + " times>";
    assert q.out + note == p.out + (s + note);
  }

  lemma {:induction false} PrintsElems(scalars: Scalars, full: Type, elem: Type, vs: Values, p: Printer)
    requires AllHaveType(full, elem, vs) && !p.emptyStruct && p.depth > 0 && !p.state.Normal?
    ensures Listed(p, Run(scalars, p, TraceOfElems(full, elem, vs, PRINTING)),
                   TextOfElems(scalars, full, elem, vs, p.state.SeqBegin?))
    decreases vs, 1
  {
    hide Run, TraceOf, Text, HasType;
    if vs.NoValues? {
      RunNothing(scalars, p);
    } else {
      PrintsText(scalars, full, elem, vs.head, p);
      var q := Run(scalars, p, TraceOf(full, elem, vs.head, PRINTING));
      PrintsElems(scalars, full, elem, vs.tail, q);
      RunAppend(scalars, p, TraceOf(full, elem, vs.head, PRINTING), TraceOfElems(full, elem, vs.tail, PRINTING));
      OutJoins(p, q, Text(scalars, full, elem, vs.head), TextOfElems(scalars, full, elem, vs.tail, false));
    }
  }

  lemma RunNothing(scalars: Scalars, p: Printer)
    ensures Run(scalars, p, []) == p && p.out + "" == p.out
  {
  }

  lemma OutJoins(p: Printer, q: Printer, s: string, more: string)
    requires Printed(p, q, s) && !p.state.Normal?
    ensures q.out + more == p.out + (Separator(p.state.SeqBegin?) + s + more)
  {
  }

  lemma {:induction false} PrintsRow(scalars: Scalars, full: Type, ts: Types, vs: Values, p: Printer)
    requires RowHasType(full, ts, vs) && !p.emptyStruct && p.depth > 0 && !p.state.Normal?
    ensures Listed(p, Run(scalars, p, TraceOfRow(full, ts, vs, PRINTING)),
                   TextOfRow(scalars, full, ts, vs, p.state.SeqBegin?))
    decreases vs, 1
  {
    hide Run, TraceOf, Text, HasType;
    if ts.Nil? {
      RunNothing(scalars, p);
    } else {
      PrintsText(scalars, full, ts.head, vs.head, p);
      var q := Run(scalars, p, TraceOf(full, ts.head, vs.head, PRINTING));
      PrintsRow(scalars, full, ts.tail, vs.tail, q);
      RunAppend(scalars, p, TraceOf(full, ts.head, vs.head, PRINTING), TraceOfRow(full, ts.tail, vs.tail, PRINTING));
      OutJoins(p, q, Text(scalars, full, ts.head, vs.head), TextOfRow(scalars, full, ts.tail, vs.tail, false));
    }
  }

  lemma {:induction false} PrintsVariant(scalars: Scalars, full: Type, options: Types, v: Value, p: Printer)
    requires HasType(full, Variant(options), v) && Calm(p)
    ensures Printed(p, Run(scalars, p, TraceOf(full, Variant(options), v, PRINTING)), Text(scalars, full, Variant(options), v))
    decreases v, 0, 0
  {
    hide Run, Printed;
    if v.Chosen? {
      var option := Nth(options, v.index).value;
      RunThree(scalars, p, VariantBegin(v.index, Tag(option)), TraceOf(full, option, v.value, PRINTING), VariantEnd);
      PrintsText(scalars, full, option, v.value, p);
    } else {
      RunThree(scalars, p, VariantBegin(v.index, "0"), [NullValue], VariantEnd);
      RunOne(scalars, p, NullValue);
      PutCommaPrinted(p, "{null}");
    }
  }

  lemma {:induction false} PrintsStruct(scalars: Scalars, full: Type, name: string, fields: Fields, v: Value, p: Printer)
    requires HasType(full, Struct(name, fields), v) && Calm(p)
    ensures Printed(p, Run(scalars, p, TraceOf(full, Struct(name, fields), v, PRINTING)),
                    Text(scalars, full, Struct(name, fields), v))
    decreases v, 0, 0
  {
    hide Run, TraceOfFields, TextOfFields, Resolved, FindPos;
    var fs := Resolved(full, name, fields);
    var shown := name[..FindPos(name, '<')];
    RunThree(scalars, p, StructBegin(name, TagFields(fs)), TraceOfFields(full, fs, v.members, PRINTING), StructEnd);
    FieldTagsEmpty(fs);
    if fs.NoFields? {
      EmptyTrace(full, v.members);
      RunNothing(scalars, Feed(scalars, p, StructBegin(name, TagFields(fs))));
      PutCommaPrinted(p, shown);
      assert shown + "" == shown;
    } else {
      var q := Feed(scalars, p, StructBegin(name, TagFields(fs)));
      var open := shown + "{ ";
      assert Put(Put(Comma(p), shown), "{ ").out == Put(Comma(p), open).out;
      assert q == EnterSeq(Put(Comma(p), open));
      PrintsFields(scalars, full, fs, v.members, q);
      var s := TextOfFields(scalars, full, fs, v.members, true);
      Bracketed(scalars, p, open, Run(scalars, q, TraceOfFields(full, fs, v.members, PRINTING)), s, " }");
      assert open + s + " }" == shown + ("{ " + s + " }");
    }
  }

  lemma FieldTagsEmpty(fs: Fields)
    ensures TagFields(fs) == "" <==> fs.NoFields?
  {
  }

  lemma EmptyTrace(full: Type, vs: Values)
    requires FieldsHaveType(full, NoFields, vs)
    ensures TraceOfFields(full, NoFields, vs, PRINTING) == []
  {
  }

  lemma InsideIsCalm(scalars: Scalars, p: Printer, begin: Callback)
    requires begin.FieldBegin? && !p.emptyStruct && p.depth > 0
    ensures Calm(Feed(scalars, p, begin))
  {
  }

  lemma FieldPrinted(scalars: Scalars, p: Printer, begin: Callback, mid: Printer, s: string, more: string)
    requires begin.FieldBegin? && !p.emptyStruct && p.depth > 0 && !p.state.Normal?
    requires Printed(Feed(scalars, p, begin), mid, s)
    ensures var q := Feed(scalars, mid, FieldEnd);
            && !q.emptyStruct && q.depth == p.depth && q.state.Seq?
            && q.out + more == p.out + (Separator(p.state.SeqBegin?) + Label(begin.fieldName) + s + more)
  {
    var inside := Feed(scalars, p, begin);
    assert inside.out == p.out + Separator(p.state.SeqBegin?) + Label(begin.fieldName);
    assert mid.out == inside.out + "" + s;
  }

  lemma {:induction false} PrintsFields(scalars: Scalars, full: Type, fs: Fields, vs: Values, p: Printer)
    requires FieldsHaveType(full, fs, vs) && !p.emptyStruct && p.depth > 0 && !p.state.Normal?
    ensures Listed(p, Run(scalars, p, TraceOfFields(full, fs, vs, PRINTING)),
                   TextOfFields(scalars, full, fs, vs, p.state.SeqBegin?))
    decreases vs, 1
  {
    hide Run, TraceOf, Text, HasType, Feed, Printed, Label;
    if fs.NoFields? {
      RunNothing(scalars, p);
    } else {
      var begin := FieldBegin(fs.name, Tag(fs.ty));
      var trace := TraceOf(full, fs.ty, vs.head, PRINTING);
      var inside := Feed(scalars, p, begin);
      InsideIsCalm(scalars, p, begin);
      PrintsText(scalars, full, fs.ty, vs.head, inside);
      RunThree(scalars, p, begin, trace, FieldEnd);
      FieldPrinted(scalars, p, begin, Run(scalars, inside, trace), Text(scalars, full, fs.ty, vs.head), "");
      var q := Run(scalars, p, [begin] + trace + [FieldEnd]);
      PrintsFields(scalars, full, fs.rest, vs.tail, q);
      RunAppend(scalars, p, [begin] + trace + [FieldEnd], TraceOfFields(full, fs.rest, vs.tail, PRINTING));
      FieldPrinted(scalars, p, begin, Run(scalars, inside, trace), Text(scalars, full, fs.ty, vs.head),
                   TextOfFields(scalars, full, fs.rest, vs.tail, false));
    }
  }

  // ---------------------------------------------------------------- what texts look like

  function At(vs: Values, i: nat): Value
    requires i < Count(vs)
  {
    if i == 0 then vs.head else At(vs.tail, i - 1)
  }

  lemma {:induction false} BytesOfChars(full: Type, vs: Values, i: nat)
    requires AllHaveType(full, Arithmetic('c'), vs) && i < Count(vs)
    ensures |SerAll(vs)| == Count(vs)
    ensures At(vs, i).Scalar? && At(vs, i).bits == [SerAll(vs)[i]]
  {
    assert vs.head.bits == [vs.head.bits[0]];
    if vs.tail.More? {
      BytesOfChars(full, vs.tail, if i > 0 then i - 1 else 0);
    }
  }

  /** The text of a string has the byte of its i-th element for its i-th character, and nothing else. */
  lemma StringIsShown(scalars: Scalars, full: Type, v: Value, i: nat)
    requires HasType(full, Sequence(Arithmetic('c')), v) && i < Count(v.elems)
    ensures |Text(scalars, full, Sequence(Arithmetic('c')), v)| == Count(v.elems)
    ensures At(v.elems, i).Scalar? && |At(v.elems, i).bits| == 1
    ensures Text(scalars, full, Sequence(Arithmetic('c')), v)[i] == At(v.elems, i).bits[0] as char
  {
    BytesOfChars(full, v.elems, i);
  }

  function DecimalValue(s: string): int {
    if s == "" then 0 else 10 * DecimalValue(s[..|s| - 1]) + (s[|s| - 1] as int - '0' as int)
  }

  /** The digits of a number tell it, and the first one is a zero only if it is zero. */
  lemma {:induction false} DecimalRoundTrip(n: nat)
    ensures DecimalValue(Decimal(n)) == n
    ensures Decimal(n) != "" && (n > 0 ==> Decimal(n)[0] != '0')
    ensures forall i :: 0 <= i < |Decimal(n)| ==> '0' <= Decimal(n)[i] <= '9'
  {
    if n >= 10 {
      DecimalRoundTrip(n / 10);
      assert Decimal(n)[..|Decimal(n)| - 1] == Decimal(n / 10);
    } else {
      assert Decimal(n)[..0] == "";
    }
  }

  lemma AroundText(x: string)
    ensures "" + x + "" == x && x + "" == x && ", " + x + "" == ", " + x
    ensures ", " + "" + x + "" == ", " + x
  {
  }

  function Two(a: bytes, b: bytes): Values {
    More(Scalar(a), More(Scalar(b), NoValues))
  }

  lemma TwoHaveType(full: Type, a: bytes, b: bytes)
    requires |a| == |b| == 4
    ensures AllHaveType(full, Arithmetic('i'), Two(a, b)) && Count(Two(a, b)) == 2
    ensures RowHasType(full, Cons(Arithmetic('i'), Cons(Arithmetic('i'), Nil)), Two(a, b))
  {
    var i, last := Arithmetic('i'), More(Scalar(b), NoValues);
    assert HasType(full, i, Scalar(a)) && HasType(full, i, Scalar(b));
    assert AllHaveType(full, i, NoValues) && AllHaveType(full, i, last) && Count(last) == 1;
    assert RowHasType(full, Nil, NoValues) && RowHasType(full, Cons(i, Nil), last);
  }

  lemma TextOfInt(scalars: Scalars, full: Type, a: bytes)
    requires |a| == 4
    ensures HasType(full, Arithmetic('i'), Scalar(a)) && Text(scalars, full, Arithmetic('i'), Scalar(a)) == scalars('i', a)
  {
  }

  lemma IntsInList(scalars: Scalars, full: Type, a: bytes, vs: Values, first: bool)
    requires |a| == 4 && AllHaveType(full, Arithmetic('i'), vs)
    ensures AllHaveType(full, Arithmetic('i'), More(Scalar(a), vs))
    ensures TextOfElems(scalars, full, Arithmetic('i'), More(Scalar(a), vs), first)
            == Separator(first) + scalars('i', a) + TextOfElems(scalars, full, Arithmetic('i'), vs, false)
  {
    hide Text, HasType, Separator;
    TextOfInt(scalars, full, a);
  }

  lemma NothingInList(scalars: Scalars, full: Type)
    ensures AllHaveType(full, Arithmetic('i'), NoValues)
    ensures TextOfElems(scalars, full, Arithmetic('i'), NoValues, false) == ""
    ensures Separator(true) == "" && Separator(false) == ", "
  {
  }

  lemma TwoElements(scalars: Scalars, full: Type, a: bytes, b: bytes)
    requires |a| == |b| == 4 && AllHaveType(full, Arithmetic('i'), Two(a, b))
    ensures TextOfElems(scalars, full, Arithmetic('i'), Two(a, b), true) == scalars('i', a) + (", " + scalars('i', b))
  {
    hide TextOfElems, AllHaveType, Separator;
    NothingInList(scalars, full);
    IntsInList(scalars, full, b, NoValues, false);
    IntsInList(scalars, full, a, More(Scalar(b), NoValues), true);
    AroundText(scalars('i', a));
    AroundText(scalars('i', b));
  }

  /** The elements of a sequence stand in brackets. */
  lemma ShownAsSequence(scalars: Scalars, full: Type, a: bytes, b: bytes)
    requires |a| == |b| == 4
    ensures var t, v := Sequence(Arithmetic('i')), Many(Two(a, b));
            HasType(full, t, v)
            && Text(scalars, full, t, v) == "[" + (scalars('i', a) + (", " + scalars('i', b))) + "]"
  {
    hide IsSingular, Decimal, TextOfElems, AllHaveType, Two, Count;
    TwoHaveType(full, a, b);
    TwoElements(scalars, full, a, b);
  }

  lemma IntsInRow(scalars: Scalars, full: Type, a: bytes, ts: Types, vs: Values, first: bool)
    requires |a| == 4 && RowHasType(full, ts, vs)
    ensures RowHasType(full, Cons(Arithmetic('i'), ts), More(Scalar(a), vs))
    ensures TextOfRow(scalars, full, Cons(Arithmetic('i'), ts), More(Scalar(a), vs), first)
            == Separator(first) + scalars('i', a) + TextOfRow(scalars, full, ts, vs, false)
  {
    hide Text, HasType, Separator;
    TextOfInt(scalars, full, a);
  }

  lemma NothingInRow(scalars: Scalars, full: Type)
    ensures RowHasType(full, Nil, NoValues) && TextOfRow(scalars, full, Nil, NoValues, false) == ""
    ensures Separator(true) == "" && Separator(false) == ", "
  {
  }

  lemma TwoMembers(scalars: Scalars, full: Type, a: bytes, b: bytes)
    requires |a| == |b| == 4 && RowHasType(full, Cons(Arithmetic('i'), Cons(Arithmetic('i'), Nil)), Two(a, b))
    ensures TextOfRow(scalars, full, Cons(Arithmetic('i'), Cons(Arithmetic('i'), Nil)), Two(a, b), true)
            == scalars('i', a) + (", " + scalars('i', b))
  {
    hide TextOfRow, RowHasType, Separator;
    NothingInRow(scalars, full);
    IntsInRow(scalars, full, b, Nil, NoValues, false);
    IntsInRow(scalars, full, a, Cons(Arithmetic('i'), Nil), More(Scalar(b), NoValues), true);
    AroundText(scalars('i', a));
    AroundText(scalars('i', b));
  }

  /** Those of a tuple in parentheses. */
  lemma ShownAsTuple(scalars: Scalars, full: Type, a: bytes, b: bytes)
    requires |a| == |b| == 4
    ensures var t, v := Tuple(Cons(Arithmetic('i'), Cons(Arithmetic('i'), Nil))), Row(Two(a, b));
            HasType(full, t, v)
            && Text(scalars, full, t, v) == "(" + (scalars('i', a) + (", " + scalars('i', b))) + ")"
  {
    hide TextOfRow, RowHasType, Two;
    TwoHaveType(full, a, b);
    TwoMembers(scalars, full, a, b);
  }

  lemma LabelX(x: string)
    ensures Label("x") == "x: " && Label("") == ""
    ensures "" + "x: " + x == "x: " + x
  {
  }

  /** The name of a structure ends at a bracket; members have labels, but not those without a name. */
  lemma ShownAsStructure(scalars: Scalars, full: Type, a: bytes, b: bytes)
    requires |a| == |b| == 4
    ensures var i := Arithmetic('i');
            var t, v := Struct("P<int>", Field("x", i, Field("", i, NoFields))), Row(Two(a, b));
            HasType(full, t, v)
            && Text(scalars, full, t, v) == "P" + ("{ " + ("x: " + scalars('i', a) + (", " + scalars('i', b))) + " }")
  {
    hide Label;
    var i, x, y := Arithmetic('i'), scalars('i', a), scalars('i', b);
    var last, fs := More(Scalar(b), NoValues), Field("", i, NoFields);
    var both, all := Two(a, b), Field("x", i, fs);
    assert HasType(full, i, Scalar(a)) && HasType(full, i, Scalar(b));
    assert FieldsHaveType(full, NoFields, NoValues) && FieldsHaveType(full, fs, last) && FieldsHaveType(full, all, both);
    LabelX(x);
    AroundText(y);
    assert TextOfFields(scalars, full, fs, last, false) == ", " + y;
    assert TextOfFields(scalars, full, all, both, true) == "x: " + x + (", " + y);
    assert "P<int>"[1] == '<' && "P<int>"[0] == 'P' && "P<int>"[..1] == "P";
  }

  /** Without members there is nothing but the name; the empty alternative of a variant is null. */
  lemma ShownAsNothing(scalars: Scalars, full: Type)
    requires First(full, "None").Missing?
    ensures HasType(full, Struct("None", NoFields), Row(NoValues))
            && Text(scalars, full, Struct("None", NoFields), Row(NoValues)) == "None"
    ensures HasType(full, Variant(Cons(Type.Null, Nil)), Nothing(0))
            && Text(scalars, full, Variant(Cons(Type.Null, Nil)), Nothing(0)) == "{null}"
  {
    assert '<' !in "None" && "None"[..4] == "None" && "None" + "" == "None";
  }

  lemma FirstEnumerator(value: string)
    ensures EnumeratorWith([Enumerator("2A", "Answer")], value) == if value == "2A" then "Answer" else ""
  {
    var es := [Enumerator("2A", "Answer")];
    assert es[1..] == [] && EnumeratorWith([], value) == "";
  }

  /** Enumerators by name, others by value. */
  lemma ShownAsEnumerators(scalars: Scalars, full: Type)
    ensures var t := Enum('B', "E", [Enumerator("2A", "Answer")]);
            && HasType(full, t, Scalar([42])) && Text(scalars, full, t, Scalar([42])) == "Answer"
            && HasType(full, t, Scalar([43])) && Text(scalars, full, t, Scalar([43])) == "0x2B"
  {
    hide HexOf, EnumeratorWith;
    OneByte(42, 2, 10);
    OneByte(43, 2, 11);
    FirstEnumerator("2A");
    FirstEnumerator("2B");
    assert ["0123456789ABCDEF"[2], "0123456789ABCDEF"[10]] == "2A";
    assert ["0123456789ABCDEF"[2], "0123456789ABCDEF"[11]] == "2B";
  }

  lemma OneByte(n: byte, high: nat, low: nat)
    requires n == 16 * high + low && 0 < high < 16 && low < 16
    ensures HexOf('B', [n]) == ["0123456789ABCDEF"[high], "0123456789ABCDEF"[low]]
  {
    assert [n][1..] == [] && FromLE([n]) == n;
    DigitsExample(n, high);
    DigitsExample(high, 0);
  }

  /** Many elements without bytes. */
  lemma ShownAsRepeated(scalars: Scalars, p: Printer, t: tag)
    ensures Feed(scalars, p, RepeatEnd(40, t)) == Put(p, " ... <repeats 40 times>")
  {
    assert Decimal(40) == "40" by { assert Decimal(4) == "4"; }
  }
}
