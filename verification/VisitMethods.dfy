/** The visitor that prints, and the functions that drive it, as they shorten tags and consume input in place. */
module VisitMethods {
  import opened Bytes
  import opened Entries
  import opened EventStreams
  import opened Tags
  import opened Hex
  import opened Visits
  import opened ToStrings

  class ToStringVisitor {
    const scalars: Scalars
    var out: string
    var state: SeqState
    var seqDepth: int
    var emptyStruct: bool

    function State(): Printer
      reads this
    {
      Printer(out, state, seqDepth, emptyStruct)
    }

    constructor (scalars: Scalars)
      ensures State() == Printer("", Normal, 0, false) && this.scalars == scalars
    {
      this.scalars := scalars;
      out, state, seqDepth, emptyStruct := "", Normal, 0, false;
    }

    method WriteComma()
      modifies this
      ensures State() == Comma(old(State()))
    {
      if state == SeqBegin {
        state := Seq;
      } else if state == Seq {
        out := out + ", ";
      }
    }

    method Write(s: string)
      modifies this
      ensures State() == Put(old(State()), s)
    {
      out := out + s;
    }

    method Enter()
      modifies this
      ensures State() == EnterSeq(old(State()))
    {
      state := SeqBegin;
      seqDepth := seqDepth + 1;
    }

    method Leave()
      modifies this
      ensures State() == LeaveSeq(old(State()))
    {
      seqDepth := seqDepth - 1;
      state := if seqDepth == 0 then Normal else Seq;
    }

    method VisitScalar(kind: char, bits: bytes)
      modifies this
      ensures State() == Feed(scalars, old(State()), Value(kind, bits))
    {
      WriteComma();
      Write(scalars(kind, bits));
    }

    /** Takes a string from the input itself; the result tells whether to skip the elements, or an exception. */
    method VisitSequenceBegin(size: nat, elemTag: tag, input: Range) returns (ok: bool, skip: bool)
      modifies this, input
      ensures skip == (elemTag == "c")
      ensures var o := if skip then SkipText(size, elemTag, old(input.data)) else Done([SequenceBegin(size, elemTag)], old(input.data));
              ok == o.ok && input.data == o.rest && State() == Run(scalars, old(State()), o.trace)
    {
      ghost var begin := SequenceBegin(size, elemTag);
      RunOne(scalars, State(), begin);
      WriteComma();
      if |elemTag| == 1 && elemTag[0] == 'c' {
        skip := true;
        var text := input.View(size);
        ok := text.Some?;
        if ok {
          ghost var both := [begin] + [Skipped(text.value)];
          RunAppend(scalars, old(State()), [begin], [Skipped(text.value)]);
          RunOne(scalars, State(), Skipped(text.value));
          assert both == [begin, Skipped(text.value)];
          Write(TextOf(text.value));
        }
      } else {
        ok, skip := true, false;
        Write("[");
        Enter();
      }
    }

    method VisitSequenceEnd()
      modifies this
      ensures State() == Feed(scalars, old(State()), SequenceEnd)
    {
      Write("]");
      Leave();
    }

    method VisitTupleBegin(ghost elemTags: tag)
      modifies this
      ensures State() == Feed(scalars, old(State()), TupleBegin(elemTags))
    {
      WriteComma();
      Write("(");
      Enter();
    }

    method VisitTupleEnd()
      modifies this
      ensures State() == Feed(scalars, old(State()), TupleEnd)
    {
      Write(")");
      Leave();
    }

    method VisitNull()
      modifies this
      ensures State() == Feed(scalars, old(State()), NullValue)
    {
      WriteComma();
      Write("{null}");
    }

    method VisitEnumerator(name: string, enumerator: string, underlying: char, value: string)
      modifies this
      ensures State() == Feed(scalars, old(State()), EnumValue(name, enumerator, underlying, value))
    {
      WriteComma();
      if enumerator == "" {
        Write("0x" + value);
      } else {
        Write(enumerator);
      }
    }

    method VisitStructBegin(name: string, fieldTags: tag)
      modifies this
      ensures State() == Feed(scalars, old(State()), StructBegin(name, fieldTags))
    {
      WriteComma();
      var view := new StringView(name);
      var prefix := RemovePrefixBefore(view, '<');
      Write(prefix);
      if fieldTags == "" {
        emptyStruct := true;
      } else {
        Write("{ ");
        Enter();
      }
    }

    method VisitStructEnd()
      modifies this
      ensures State() == Feed(scalars, old(State()), StructEnd)
    {
      if emptyStruct {
        emptyStruct := false;
      } else {
        Write(" }");
        Leave();
      }
    }

    method VisitFieldBegin(name: string, ghost fieldTag: tag)
      modifies this
      ensures State() == Feed(scalars, old(State()), FieldBegin(name, fieldTag))
    {
      WriteComma();
      if name != "" {
        Write(name + ": ");
      }
      state := Normal;
      assert old(Comma(State())).out + "" == old(Comma(State())).out;
    }

    method VisitFieldEnd()
      modifies this
      ensures State() == Feed(scalars, old(State()), FieldEnd)
    {
      state := Seq;
    }

    method VisitRepeatEnd(times: nat, ghost repeatTag: tag)
      modifies this
      ensures State() == Feed(scalars, old(State()), RepeatEnd(times, repeatTag))
    {
      if times > 1 {
        Write(" ... <repeats " + Decimal(times) + " times>");
      }
    }
  }

  /** From the old state, the visitor saw the calls of `o` and the input is where `o` leaves it. */
  twostate predicate Followed(visitor: ToStringVisitor, input: Range, o: Outcome, ok: bool)
    reads visitor, input
  {
    ok == o.ok && input.data == o.rest && visitor.State() == Run(visitor.scalars, old(visitor.State()), o.trace)
  }

  // ---------------------------------------------------------------- singular

  /** An exception is `None`. */
  method ComputeSingular(fullTag: tag, t: tag, maxRecursion: nat) returns (r: Option<bool>)
    ensures r == Singular(fullTag, t, maxRecursion)
    decreases maxRecursion, 0
  {
    if maxRecursion == 0 {
      return None;
    }
    if t == "" {
      return Some(true);
    }
    match t[0] {
      case '(' => r := ComputeSingularTuple(fullTag, t, maxRecursion - 1);
      case '{' => r := ComputeSingularStruct(fullTag, t, maxRecursion - 1);
      case _ => r := Some(false);
    }
  }

  method ComputeSingularTuple(fullTag: tag, t: tag, maxRecursion: nat) returns (r: Option<bool>)
    ensures r == SingularAll(fullTag, DropLast(Drop(t, 1)), maxRecursion)
    decreases maxRecursion, 1
  {
    var tags := new StringView(t);
    tags.RemovePrefix(1);
    tags.RemoveSuffix(1);
    ghost var cur := tags.s;
    var elemTag := TagPop(tags);
    while elemTag != ""
      invariant (elemTag, tags.s) == Pop(cur)
      invariant SingularAll(fullTag, DropLast(Drop(t, 1)), maxRecursion) == SingularAll(fullTag, cur, maxRecursion)
      decreases |cur|
    {
      var s := ComputeSingular(fullTag, elemTag, maxRecursion);
      if s != Some(true) {
        return s;
      }
      cur := tags.s;
      elemTag := TagPop(tags);
    }
    return Some(true);
  }

  /** The loop over the members. */
  method ComputeSingularFields(fullTag: tag, tags: StringView, maxRecursion: nat) returns (r: Option<bool>)
    modifies tags
    ensures r == SingularFields(fullTag, old(tags.s), maxRecursion)
    decreases maxRecursion, 1
  {
    hide Singular, Pop, PopLabel;
    while tags.s != ""
      invariant SingularFields(fullTag, old(tags.s), maxRecursion) == SingularFields(fullTag, tags.s, maxRecursion)
      decreases |tags.s|
    {
      PopFieldShrinks(tags.s);
      var _ := TagPopLabel(tags);
      var fieldTag := TagPop(tags);
      var s := ComputeSingular(fullTag, fieldTag, maxRecursion);
      if s != Some(true) {
        return s;
      }
    }
    return Some(true);
  }

  lemma PopFieldShrinks(fields: tag)
    requires fields != ""
    ensures |Pop(PopLabel(fields).1).1| < |fields|
  {
  }

  method ComputeSingularStruct(fullTag: tag, t: tag, maxRecursion: nat) returns (r: Option<bool>)
    requires t != ""
    ensures r == SingularStruct(fullTag, t, maxRecursion)
    decreases maxRecursion, 2
  {
    hide FindPos, Resolve, Singular, SingularFields, PopLabel;
    var tags := new StringView(t);
    tags.RemoveSuffix(1);
    var intro := RemovePrefixBefore(tags, '`');
    if tags.s == "" {
      var definition := ResolveRecursiveTag(fullTag, intro);
      var rest := new StringView(definition);
      var _ := TagPopLabel(rest);
      return Some(rest.s == "");
    }
    r := ComputeSingularFields(fullTag, tags, maxRecursion);
  }

  // ---------------------------------------------------------------- visit

  method VisitArithmeticTag(kind: char, visitor: ToStringVisitor, input: Range) returns (ok: bool)
    modifies visitor, input
    ensures Followed(visitor, input, VisitArithmetic(kind, old(input.data)), ok)
  {
    var size := SizeOfKind(kind);
    if size == 0 {
      return false;
    }
    var bits := input.View(size);
    if bits.None? {
      return false;
    }
    RunOne(visitor.scalars, visitor.State(), Value(kind, bits.value));
    visitor.VisitScalar(kind, bits.value);
    return true;
  }

  method SearchEnumeratorTag(tags: StringView, value: string) returns (enumerator: string)
    modifies tags
    ensures enumerator == SearchEnumerator(old(tags.s), value)
  {
    var delimited := "'" + (value + "`");
    var pos := Find(tags.s, delimited);
    LeftmostIsFound(tags.s, delimited, if pos.At? then pos.pos else |tags.s|);
    enumerator := "";
    if pos.At? {
      tags.RemovePrefix(pos.pos + |delimited| - 1);
      assert tags.s == Drop(old(tags.s)[pos.pos..], |value| + 1);
      enumerator := TagPopLabel(tags);
    }
  }

  lemma {:induction false} LeftmostIsFound(s: string, x: string, n: nat)
    requires x != "" && n <= |s| && forall k :: 0 <= k < n ==> !(x <= s[k..])
    ensures FromLeftmost(s, x) == FromLeftmost(s[n..], x)
    ensures n == |s| ==> FromLeftmost(s, x) == None
  {
    if n > 0 {
      assert s[0..] == s;
      forall k | 0 <= k < n - 1
        ensures !(x <= s[1..][k..])
      {
        assert s[1..][k..] == s[k + 1..];
      }
      LeftmostIsFound(s[1..], x, n - 1);
      assert s[1..][n - 1..] == s[n..];
    }
  }

  method VisitEnumTag(t: tag, visitor: ToStringVisitor, input: Range) returns (ok: bool)
    modifies visitor, input
    ensures Followed(visitor, input, VisitEnum(t, old(input.data)), ok)
  {
    hide SearchEnumerator, HexOf, Feed;
    var tags := new StringView(t);
    tags.RemovePrefix(1);
    tags.RemoveSuffix(1);
    if tags.s == "" {
      return false;
    }
    ghost var s := tags.s;
    var underlying := tags.s[0];
    if SizeOfKind(underlying) == 0 {
      return false;
    }
    var bits := input.View(SizeOfKind(underlying));
    if bits.None? {
      return false;
    }
    var value := ComputeHexOf(underlying, bits.value);
    tags.RemovePrefix(2);
    var name := RemovePrefixBefore(tags, '\'');
    var enumerator := SearchEnumeratorTag(tags, value);
    assert EnumCall(s, bits.value) == EnumValue(name, enumerator, underlying, value);
    RunOne(visitor.scalars, visitor.State(), EnumCall(s, bits.value));
    visitor.VisitEnumerator(name, enumerator, underlying, value);
    return true;
  }

  method ComputeHexOf(kind: char, bits: bytes) returns (value: string)
    ensures value == HexOf(kind, bits)
  {
    value := "";
    if IsInteger(kind) {
      value := WriteIntegerAsHex(IntegerOf(kind, bits));
    }
  }

  method VisitImpl(fullTag: tag, t: tag, visitor: ToStringVisitor, input: Range, maxRecursion: nat) returns (ok: bool)
    modifies visitor, input
    ensures Followed(visitor, input, Visit(fullTag, t, PRINTING, old(input.data), maxRecursion), ok)
    decreases maxRecursion, 0
  {
    hide VisitSequence, VisitTuple, VisitVariant, VisitStruct, VisitEnum, VisitArithmetic;
    if maxRecursion == 0 {
      return false;
    }
    if t == "" {
      return true;
    }
    match t[0] {
      case '[' => ok := VisitSequenceTag(fullTag, t, visitor, input, maxRecursion - 1);
      case '(' => ok := VisitTupleTag(fullTag, t, visitor, input, maxRecursion - 1);
      case '<' => ok := VisitVariantTag(fullTag, t, visitor, input, maxRecursion - 1);
      case '{' => ok := VisitStructTag(fullTag, t, visitor, input, maxRecursion - 1);
      case '/' => ok := VisitEnumTag(t, visitor, input);
      case _ => ok := VisitArithmeticTag(t[0], visitor, input);
    }
  }

  method VisitSequenceTag(fullTag: tag, t: tag, visitor: ToStringVisitor, input: Range, maxRecursion: nat) returns (ok: bool)
    modifies visitor, input
    ensures Followed(visitor, input, VisitSequence(fullTag, t, PRINTING, old(input.data), maxRecursion), ok)
    decreases maxRecursion, 3
  {
    hide ReadUint, VisitElements, SkipText, Feed, FirstSize;
    var tags := new StringView(t);
    tags.RemovePrefix(1);
    var size := input.Read(4);
    if size.None? {
      return false;
    }
    ghost var start, rest := visitor.State(), input.data;
    var elemTag := TagPop(tags);
    var skip;
    ok, skip := visitor.VisitSequenceBegin(size.value, elemTag, input);
    if !ok || skip {
      return ok;
    }
    RunOne(visitor.scalars, start, SequenceBegin(size.value, elemTag));
    ok := VisitElementsOf(fullTag, elemTag, visitor, input, maxRecursion, size.value);
    ghost var o := VisitElements(fullTag, elemTag, PRINTING, rest, maxRecursion, size.value);
    RunWrapped(visitor.scalars, start, SequenceBegin(size.value, elemTag), o, SequenceEnd);
    if ok {
      visitor.VisitSequenceEnd();
    }
  }

  lemma RunWrapped(scalars: Scalars, p: Printer, first: Callback, o: Outcome, last: Callback)
    ensures Run(scalars, p, Wrap([first], o, [last]).trace)
            == var q := Run(scalars, Feed(scalars, p, first), o.trace); if o.ok then Feed(scalars, q, last) else q
  {
    hide Feed, Run;
    RunThree(scalars, p, first, o.trace, last);
    RunAppend(scalars, p, [first], o.trace);
    RunOne(scalars, p, first);
  }

  method VisitElementsOf(fullTag: tag, elemTag: tag, visitor: ToStringVisitor, input: Range, maxRecursion: nat, size: nat)
    returns (ok: bool)
    modifies visitor, input
    ensures Followed(visitor, input, VisitElements(fullTag, elemTag, PRINTING, old(input.data), maxRecursion, size), ok)
    decreases maxRecursion, 2
  {
    hide Visit, VisitTimes, Singular, Feed, Run;
    if size > 32 {
      var s := ComputeSingular(fullTag, elemTag, maxRecursion);
      if s.None? {
        RunNothing(visitor.scalars, visitor.State());
        return false;
      }
      if s.value {
        ghost var start := visitor.State();
        FeedRepeatBegin(visitor.scalars, start, size, elemTag);
        ok := VisitImpl(fullTag, elemTag, visitor, input, maxRecursion);
        ghost var o := Visit(fullTag, elemTag, PRINTING, old(input.data), maxRecursion);
        RunWrapped(visitor.scalars, start, RepeatBegin(size, elemTag), o, RepeatEnd(size, elemTag));
        if ok {
          visitor.VisitRepeatEnd(size, elemTag);
        }
        return;
      }
    }
    ok := VisitLoop(fullTag, elemTag, visitor, input, maxRecursion, size);
  }

  lemma FeedRepeatBegin(scalars: Scalars, p: Printer, size: nat, elemTag: tag)
    ensures Feed(scalars, p, RepeatBegin(size, elemTag)) == p
  {
  }

  method VisitLoop(fullTag: tag, elemTag: tag, visitor: ToStringVisitor, input: Range, maxRecursion: nat, size: nat)
    returns (ok: bool)
    modifies visitor, input
    ensures Followed(visitor, input, VisitTimes(fullTag, elemTag, PRINTING, old(input.data), maxRecursion, size), ok)
    decreases maxRecursion, 1
  {
    hide Visit, Feed, Run;
    var n := size;
    ghost var trace: seq<Callback> := [];
    RunNothing(visitor.scalars, visitor.State());
    while n > 0
      invariant visitor.State() == Run(visitor.scalars, old(visitor.State()), trace)
      invariant VisitTimes(fullTag, elemTag, PRINTING, old(input.data), maxRecursion, size)
                == Prepend(trace, VisitTimes(fullTag, elemTag, PRINTING, input.data, maxRecursion, n))
      decreases n
    {
      n := n - 1;
      ghost var o := Visit(fullTag, elemTag, PRINTING, input.data, maxRecursion);
      ok := VisitImpl(fullTag, elemTag, visitor, input, maxRecursion);
      RunAppend(visitor.scalars, old(visitor.State()), trace, o.trace);
      if !ok {
        return;
      }
      PrependTwice(trace, o.trace, VisitTimes(fullTag, elemTag, PRINTING, input.data, maxRecursion, n));
      trace := trace + o.trace;
    }
    assert trace + [] == trace;
    return true;
  }

  lemma PrependTwice(a: seq<Callback>, b: seq<Callback>, o: Outcome)
    ensures Prepend(a, Prepend(b, o)) == Prepend(a + b, o)
  {
    assert a + (b + o.trace) == a + b + o.trace;
  }

  method VisitTupleTag(fullTag: tag, t: tag, visitor: ToStringVisitor, input: Range, maxRecursion: nat) returns (ok: bool)
    modifies visitor, input
    ensures Followed(visitor, input, VisitTuple(fullTag, t, PRINTING, old(input.data), maxRecursion), ok)
    decreases maxRecursion, 3
  {
    hide VisitAll, Feed, Run;
    var tags := new StringView(t);
    tags.RemovePrefix(1);
    tags.RemoveSuffix(1);
    ghost var start, all := visitor.State(), tags.s;
    visitor.VisitTupleBegin(all);
    ok := VisitMembers(fullTag, tags, visitor, input, maxRecursion);
    RunWrapped(visitor.scalars, start, TupleBegin(all), VisitAll(fullTag, all, PRINTING, old(input.data), maxRecursion), TupleEnd);
    if ok {
      visitor.VisitTupleEnd();
    }
  }

  method VisitMembers(fullTag: tag, tags: StringView, visitor: ToStringVisitor, input: Range, maxRecursion: nat)
    returns (ok: bool)
    modifies visitor, input, tags
    ensures Followed(visitor, input, VisitAll(fullTag, old(tags.s), PRINTING, old(input.data), maxRecursion), ok)
    decreases maxRecursion, 2
  {
    hide Visit, Feed, Run;
    ghost var cur := tags.s;
    ghost var trace: seq<Callback> := [];
    RunNothing(visitor.scalars, visitor.State());
    var elemTag := TagPop(tags);
    while elemTag != ""
      invariant (elemTag, tags.s) == Pop(cur)
      invariant visitor.State() == Run(visitor.scalars, old(visitor.State()), trace)
      invariant VisitAll(fullTag, old(tags.s), PRINTING, old(input.data), maxRecursion)
                == Prepend(trace, VisitAll(fullTag, cur, PRINTING, input.data, maxRecursion))
      decreases |cur|
    {
      ghost var o := Visit(fullTag, elemTag, PRINTING, input.data, maxRecursion);
      ok := VisitImpl(fullTag, elemTag, visitor, input, maxRecursion);
      RunAppend(visitor.scalars, old(visitor.State()), trace, o.trace);
      if !ok {
        return;
      }
      cur := tags.s;
      PrependTwice(trace, o.trace, VisitAll(fullTag, cur, PRINTING, input.data, maxRecursion));
      trace := trace + o.trace;
      elemTag := TagPop(tags);
    }
    assert trace + [] == trace;
    return true;
  }

  method VisitVariantTag(fullTag: tag, t: tag, visitor: ToStringVisitor, input: Range, maxRecursion: nat) returns (ok: bool)
    modifies visitor, input
    ensures Followed(visitor, input, VisitVariant(fullTag, t, PRINTING, old(input.data), maxRecursion), ok)
    decreases maxRecursion, 3
  {
    hide ReadUint, Visit, Feed, Run, FirstSize;
    RunNothing(visitor.scalars, visitor.State());
    var tags := new StringView(t);
    tags.RemovePrefix(1);
    tags.RemoveSuffix(1);
    ghost var all := tags.s;
    var discriminator := input.Read(1);
    if discriminator.None? {
      return false;
    }
    ghost var start, rest := visitor.State(), input.data;
    var precedingTagCount := discriminator.value;
    while precedingTagCount > 0
      invariant visitor.State() == start && input.data == rest
      invariant PopTimes(all, discriminator.value) == PopTimes(tags.s, precedingTagCount)
    {
      precedingTagCount := precedingTagCount - 1;
      var _ := TagPop(tags);
    }
    var optionTag := TagPop(tags);
    assert optionTag == Pop(PopTimes(all, discriminator.value)).0;
    ghost var begin := VariantBegin(discriminator.value, optionTag);
    QuietCalls(visitor.scalars, start, begin);
    if optionTag == "0" {
      RunOne(visitor.scalars, start, NullValue);
      RunWrapped(visitor.scalars, start, begin, Done([NullValue], rest), VariantEnd);
      visitor.VisitNull();
      ok := true;
    } else {
      RunWrapped(visitor.scalars, start, begin, Visit(fullTag, optionTag, PRINTING, rest, maxRecursion), VariantEnd);
      ok := VisitImpl(fullTag, optionTag, visitor, input, maxRecursion);
    }
    QuietCalls(visitor.scalars, visitor.State(), begin);
    assert VisitVariant(fullTag, t, PRINTING, old(input.data), maxRecursion)
           == Wrap([begin], if optionTag == "0" then Done([NullValue], rest) else Visit(fullTag, optionTag, PRINTING, rest, maxRecursion),
                   [VariantEnd]);
  }

  lemma QuietCalls(scalars: Scalars, p: Printer, begin: Callback)
    requires begin.VariantBegin?
    ensures Feed(scalars, p, begin) == p && Feed(scalars, p, VariantEnd) == p
  {
  }

  method VisitStructTag(fullTag: tag, t: tag, visitor: ToStringVisitor, input: Range, maxRecursion: nat) returns (ok: bool)
    requires t != ""
    modifies visitor, input
    ensures Followed(visitor, input, VisitStruct(fullTag, t, PRINTING, old(input.data), maxRecursion), ok)
    decreases maxRecursion, 3
  {
    hide VisitFields, Feed, Run, Resolve, FindPos;
    var tags := new StringView(t);
    tags.RemoveSuffix(1);
    var intro := RemovePrefixBefore(tags, '`');
    assert intro == Intro(t);
    if tags.s == "" {
      var definition := ResolveRecursiveTag(fullTag, intro);
      tags := new StringView(definition);
    }
    assert tags.s == StructFields(fullTag, t);
    var name := new StringView(intro);
    name.RemovePrefix(1);
    ghost var start, all := visitor.State(), tags.s;
    visitor.VisitStructBegin(name.s, tags.s);
    ok := VisitFieldsOf(fullTag, tags, visitor, input, maxRecursion);
    RunWrapped(visitor.scalars, start, StructBegin(name.s, all),
               VisitFields(fullTag, all, PRINTING, old(input.data), maxRecursion), StructEnd);
    if ok {
      visitor.VisitStructEnd();
    }
  }

  method VisitFieldsOf(fullTag: tag, tags: StringView, visitor: ToStringVisitor, input: Range, maxRecursion: nat)
    returns (ok: bool)
    modifies visitor, input, tags
    ensures Followed(visitor, input, VisitFields(fullTag, old(tags.s), PRINTING, old(input.data), maxRecursion), ok)
    decreases maxRecursion, 2
  {
    hide Visit, Feed, Run, FirstSize, FindPos, Wrap;
    ghost var trace: seq<Callback> := [];
    RunNothing(visitor.scalars, visitor.State());
    while tags.s != ""
      invariant visitor.State() == Run(visitor.scalars, old(visitor.State()), trace)
      invariant VisitFields(fullTag, old(tags.s), PRINTING, old(input.data), maxRecursion)
                == Prepend(trace, VisitFields(fullTag, tags.s, PRINTING, input.data, maxRecursion))
      decreases |tags.s|
    {
      ghost var start, before := visitor.State(), input.data;
      var fieldName := TagPopLabel(tags);
      var fieldTag := TagPop(tags);
      ghost var begin := FieldBegin(fieldName, fieldTag);
      ghost var o := Wrap([begin], Visit(fullTag, fieldTag, PRINTING, before, maxRecursion), [FieldEnd]);
      ok := VisitFieldOf(fullTag, fieldName, fieldTag, visitor, input, maxRecursion);
      RunAppend(visitor.scalars, old(visitor.State()), trace, o.trace);
      if !ok {
        return;
      }
      PrependTwice(trace, o.trace, VisitFields(fullTag, tags.s, PRINTING, input.data, maxRecursion));
      trace := trace + o.trace;
    }
    assert trace + [] == trace;
    return true;
  }

  method VisitFieldOf(fullTag: tag, fieldName: string, fieldTag: tag, visitor: ToStringVisitor, input: Range, maxRecursion: nat)
    returns (ok: bool)
    modifies visitor, input
    ensures Followed(visitor, input,
                     Wrap([FieldBegin(fieldName, fieldTag)],
                          Visit(fullTag, fieldTag, PRINTING, old(input.data), maxRecursion), [FieldEnd]), ok)
    decreases maxRecursion, 1
  {
    hide Visit, Feed, Run;
    ghost var start := visitor.State();
    visitor.VisitFieldBegin(fieldName, fieldTag);
    ok := VisitImpl(fullTag, fieldTag, visitor, input, maxRecursion);
    RunWrapped(visitor.scalars, start, FieldBegin(fieldName, fieldTag),
               Visit(fullTag, fieldTag, PRINTING, old(input.data), maxRecursion), FieldEnd);
    if ok {
      visitor.VisitFieldEnd();
    }
  }
}
