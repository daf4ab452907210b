/** The message of an event: its format string with the placeholders replaced by its arguments. */
module PrettyPrinting {
  import opened Bytes
  import opened Entries
  import opened EventStreams
  import opened Tags
  import opened Visits
  import opened Serialization
  import opened ToStrings
  import opened VisitMethods

  predicate AtPlaceholder(fmt: string) {
    |fmt| >= 2 && fmt[0] == '{' && fmt[1] == '}'
  }

  /** The number of `{}` in `fmt`. */
  function Placeholders(fmt: string): nat
    decreases |fmt|
  {
    if fmt == "" then 0 else if AtPlaceholder(fmt) then 1 + Placeholders(fmt[2..]) else Placeholders(fmt[1..])
  }

  /** `str` ends at its first zero character. */
  method CountPlaceholders(str: string) returns (result: nat)
    requires '\0' !in str
    ensures result == Placeholders(str)
  {
    result := 0;
    var i := 0;
    while i < |str|
      invariant i <= |str| && result + Placeholders(str[i..]) == Placeholders(str)
    {
      assert i + 1 < |str| ==> str[i..][1] == str[i + 1];
      if str[i] == '{' && i + 1 < |str| && str[i + 1] == '}' {
        assert str[i..][2..] == str[i + 2..];
        result := result + 1;
        i := i + 1;
      } else {
        assert str[i..][1..] == str[i + 1..];
      }
      i := i + 1;
    }
  }

  /** What `printEventMessage` does: whether it throws, what it printed, and the argument bytes left. */
  function Print(scalars: Scalars, fmt: string, tags: tag, args: bytes, p: Printer): (bool, Printer, bytes)
    decreases |fmt|
  {
    if fmt == "" then (true, p, args)
    else if AtPlaceholder(fmt) then
      var (t, more) := Pop(tags);
      var o := Visit(t, t, PRINTING, args, MAX_RECURSION);
      var q := Run(scalars, p, o.trace);
      if o.ok then Print(scalars, fmt[2..], more, o.rest, q) else (false, q, o.rest)
    else Print(scalars, fmt[1..], tags, args, Put(p, [fmt[0]]))
  }

  method PrintEventMessage(fmt: string, argumentTags: tag, arguments: bytes, visitor: ToStringVisitor) returns (ok: bool)
    modifies visitor
    ensures var (printed, p, _) := Print(visitor.scalars, fmt, argumentTags, arguments, old(visitor.State()));
            ok == printed && visitor.State() == p
  {
    hide Visit, Run;
    var tags := new StringView(argumentTags);
    var args := new Range(arguments);
    var i := 0;
    while i < |fmt|
      invariant i <= |fmt|
      invariant Print(visitor.scalars, fmt, argumentTags, arguments, old(visitor.State()))
                == Print(visitor.scalars, fmt[i..], tags.s, args.data, visitor.State())
    {
      var c := fmt[i];
      assert i + 1 < |fmt| ==> fmt[i..][1] == fmt[i + 1];
      if c == '{' && i + 1 < |fmt| && fmt[i + 1] == '}' {
        assert fmt[i..][2..] == fmt[i + 2..];
        var t := TagPop(tags);
        ok := VisitImpl(t, t, visitor, args, MAX_RECURSION);
        if !ok {
          return;
        }
        i := i + 1;
      } else {
        assert fmt[i..][1..] == fmt[i + 1..];
        visitor.Write([c]);
      }
      i := i + 1;
    }
    ok := true;
  }

  // ---------------------------------------------------------------- what is printed

  predicate ArgumentsHaveType(ts: Types, vs: Values) {
    if ts.Nil? then vs.NoValues?
    else vs.More? && HasType(ts.head, ts.head, vs.head) && ArgumentsHaveType(ts.tail, vs.tail)
  }

  function Texts(scalars: Scalars, ts: Types, vs: Values): seq<string>
    requires ArgumentsHaveType(ts, vs)
  {
    if ts.Nil? then [] else [Text(scalars, ts.head, ts.head, vs.head)] + Texts(scalars, ts.tail, vs.tail)
  }

  /** `fmt` with its placeholders replaced by the texts in turn, and by nothing when there is none left. */
  function Format(fmt: string, texts: seq<string>): string
    decreases |fmt|
  {
    if fmt == "" then ""
    else if AtPlaceholder(fmt) then
      if texts == [] then Format(fmt[2..], []) else texts[0] + Format(fmt[2..], texts[1..])
    else [fmt[0]] + Format(fmt[1..], texts)
  }

  /** The values behind the first `n`. */
  function Unused(vs: Values, n: nat): Values {
    if n == 0 || vs.NoValues? then vs else Unused(vs.tail, n - 1)
  }

  lemma VisitNothing(b: bytes)
    ensures Pop("") == ("", "") && Visit("", "", PRINTING, b, MAX_RECURSION) == Done([], b)
  {
  }

  predicate Outermost(p: Printer) {
    !p.emptyStruct && p.depth == 0 && p.state.Normal?
  }

  lemma PrintsArgument(scalars: Scalars, t: Type, v: Value, rest: bytes, p: Printer)
    requires WellFormed(t) && HasType(t, t, v) && Depth(v) <= MAX_RECURSION
    requires Outermost(p)
    ensures var o := Visit(Tag(t), Tag(t), PRINTING, Ser(v) + rest, MAX_RECURSION);
            var q := Run(scalars, p, o.trace);
            && o.ok && o.rest == rest
            && q == Put(p, Text(scalars, t, t, v)) && Outermost(q)
  {
    hide Visit, Run, Text, TraceOf;
    VisitByTagOfSerialized(t, v, PRINTING, rest);
    PrintsText(scalars, t, t, v, p);
    assert p.out + "" == p.out;
  }

  lemma CharStep(scalars: Scalars, fmt: string, tags: tag, args: bytes, p: Printer, texts: seq<string>, rest: bytes)
    requires fmt != "" && !AtPlaceholder(fmt)
    requires Print(scalars, fmt[1..], tags, args, Put(p, [fmt[0]])) == (true, Put(Put(p, [fmt[0]]), Format(fmt[1..], texts)), rest)
    ensures Print(scalars, fmt, tags, args, p) == (true, Put(p, Format(fmt, texts)), rest)
  {
    OutAppend(p, [fmt[0]], Format(fmt[1..], texts));
  }

  lemma ArgumentStep(scalars: Scalars, fmt: string, tags: tag, args: bytes, p: Printer, texts: seq<string>, rest: bytes)
    requires AtPlaceholder(fmt) && texts != []
    requires var o := Visit(Pop(tags).0, Pop(tags).0, PRINTING, args, MAX_RECURSION);
             && o.ok && Run(scalars, p, o.trace) == Put(p, texts[0])
             && Print(scalars, fmt[2..], Pop(tags).1, o.rest, Put(p, texts[0]))
                == (true, Put(Put(p, texts[0]), Format(fmt[2..], texts[1..])), rest)
    ensures Print(scalars, fmt, tags, args, p) == (true, Put(p, Format(fmt, texts)), rest)
  {
    hide Visit, Run;
    OutAppend(p, texts[0], Format(fmt[2..], texts[1..]));
  }

  lemma MissingStep(scalars: Scalars, fmt: string, args: bytes, p: Printer, rest: bytes)
    requires AtPlaceholder(fmt)
    requires Print(scalars, fmt[2..], "", args, p) == (true, Put(p, Format(fmt[2..], [])), rest)
    ensures Print(scalars, fmt, "", args, p) == (true, Put(p, Format(fmt, [])), rest)
  {
    hide Visit, Run;
    VisitNothing(args);
    RunNothing(scalars, p);
  }

  lemma EmptyStep(scalars: Scalars, tags: tag, args: bytes, p: Printer, texts: seq<string>)
    ensures Print(scalars, "", tags, args, p) == (true, Put(p, Format("", texts)), args) && Placeholders("") == 0
  {
    OutAppend(p, "", "");
  }

  lemma CountStep(fmt: string)
    ensures AtPlaceholder(fmt) ==> Placeholders(fmt) == 1 + Placeholders(fmt[2..])
    ensures fmt != "" && !AtPlaceholder(fmt) ==> Placeholders(fmt) == Placeholders(fmt[1..])
  {
  }

  /**
   The message of an event is its format with the i-th placeholder replaced by the rendering of the i-th
   argument. The bytes of arguments there is no placeholder for stay unread; there are none when the logging
   macros checked the numbers.
   */
  lemma {:induction false} MessageIsFormatted(scalars: Scalars, fmt: string, ts: Types, vs: Values, rest: bytes, p: Printer)
    requires AllWellFormed(ts) && ArgumentsHaveType(ts, vs) && DepthOfAll(vs) <= MAX_RECURSION
    requires Outermost(p)
    ensures Print(scalars, fmt, TagAll(ts), SerAll(vs) + rest, p)
            == (true, Put(p, Format(fmt, Texts(scalars, ts, vs))), SerAll(Unused(vs, Placeholders(fmt))) + rest)
    decreases |fmt|
  {
    hide Visit, Run, Text, Tag, Ser, FirstSize, WellFormed, HasType, Depth, Print, Format, Placeholders;
    var texts := Texts(scalars, ts, vs);
    var left := SerAll(Unused(vs, Placeholders(fmt))) + rest;
    CountStep(fmt);
    if fmt == "" {
      EmptyStep(scalars, TagAll(ts), left, p, texts);
    } else if !AtPlaceholder(fmt) {
      MessageIsFormatted(scalars, fmt[1..], ts, vs, rest, Put(p, [fmt[0]]));
      CharStep(scalars, fmt, TagAll(ts), SerAll(vs) + rest, p, texts, left);
    } else if ts.Nil? {
      assert SerAll(vs) + rest == rest == left;
      MessageIsFormatted(scalars, fmt[2..], ts, vs, rest, p);
      MissingStep(scalars, fmt, rest, p, rest);
    } else {
      var more := SerAll(vs.tail) + rest;
      assert SerAll(vs) + rest == Ser(vs.head) + more;
      PopHead(ts);
      PrintsArgument(scalars, ts.head, vs.head, more, p);
      assert texts[1..] == Texts(scalars, ts.tail, vs.tail);
      MessageIsFormatted(scalars, fmt[2..], ts.tail, vs.tail, rest, Put(p, texts[0]));
      ArgumentStep(scalars, fmt, TagAll(ts), SerAll(vs) + rest, p, texts, left);
    }
  }

  lemma OutAppend(p: Printer, s: string, more: string)
    ensures Put(Put(p, s), more) == Put(p, s + more) && Put(p, "") == p
  {
    assert p.out + s + more == p.out + (s + more) && p.out + "" == p.out;
  }

  // ---------------------------------------------------------------- what messages look like

  /** Text without an open brace stands for itself. */
  lemma {:induction false} PlainFormat(fmt: string, texts: seq<string>)
    requires '{' !in fmt
    ensures Format(fmt, texts) == fmt && Placeholders(fmt) == 0
    decreases |fmt|
  {
    if fmt != "" {
      assert fmt[0] != '{';
      PlainFormat(fmt[1..], texts);
      assert fmt == [fmt[0]] + fmt[1..];
    }
  }

  /** The first `{}` is replaced by the first text, and then it goes on behind it with the others. */
  lemma {:induction false} FormatSplits(before: string, after: string, text: string, texts: seq<string>)
    requires '{' !in before
    ensures Format(before + "{}" + after, [text] + texts) == before + text + Format(after, texts)
    ensures Placeholders(before + "{}" + after) == 1 + Placeholders(after)
    decreases |before|
  {
    var fmt := before + "{}" + after;
    if before == "" {
      assert fmt[0] == '{' && fmt[1] == '}' && fmt[2..] == after;
      assert ([text] + texts)[1..] == texts && "" + text == text;
    } else {
      assert before[0] != '{' && fmt[0] == before[0] && fmt[1..] == before[1..] + "{}" + after;
      FormatSplits(before[1..], after, text, texts);
      assert before == [before[0]] + before[1..];
      assert [fmt[0]] + (before[1..] + text + Format(after, texts)) == before + text + Format(after, texts);
    }
  }

  /** A string argument, from the bytes of the event to the message. */
  lemma HelloMessage(scalars: Scalars)
    ensures Print(scalars, "Hello {}!", "[c", [3, 0, 0, 0, 97, 98, 99], Printer("", Normal, 0, false))
            == (true, Printer("Hello abc!", Normal, 0, false), [])
  {
    hide Print, Format, Text, TextOf, LE, Placeholders, Ser, Depth;
    var t := Sequence(Arithmetic('c'));
    var v := Many(More(Scalar([97]), More(Scalar([98]), More(Scalar([99]), NoValues))));
    var ts, vs := Cons(t, Nil), More(v, NoValues);
    ThreeChars(97, 98, 99);
    assert WellFormed(t) && AllWellFormed(ts);
    assert TagAll(ts) == "[c" by { assert Tag(t) == "[c" && TagAll(Nil) == ""; }
    AbcArgument(scalars, t, v);
    OneArgument(scalars, t, v);
    FormatSplits("Hello ", "!", "abc", []);
    PlainFormat("!", []);
    assert "Hello " + "{}" + "!" == "Hello {}!" && "Hello " + "abc" + "!" == "Hello abc!";
    assert Texts(scalars, ts, vs) == ["abc"] + [];
    assert Format("Hello {}!", Texts(scalars, ts, vs)) == "Hello abc!" && Placeholders("Hello {}!") == 1;
    var p := Printer("", Normal, 0, false);
    assert Put(p, "Hello abc!") == Printer("Hello abc!", Normal, 0, false) by { assert "" + "Hello abc!" == "Hello abc!"; }
    MessageIsFormatted(scalars, "Hello {}!", ts, vs, [], p);
    assert SerAll(vs) + [] == [3, 0, 0, 0, 97, 98, 99];
  }

  lemma OneArgument(scalars: Scalars, t: Type, v: Value)
    requires HasType(t, t, v)
    ensures var ts, vs := Cons(t, Nil), More(v, NoValues);
            && ArgumentsHaveType(ts, vs) && Texts(scalars, ts, vs) == [Text(scalars, t, t, v)] + []
            && DepthOfAll(vs) == Depth(v) && SerAll(vs) + [] == Ser(v) && SerAll(Unused(vs, 1)) + [] == []
  {
    hide Text, Ser, Depth, HasType;
  }

  lemma ThreeChars(a: byte, b: byte, c: byte)
    ensures var vs := More(Scalar([a]), More(Scalar([b]), More(Scalar([c]), NoValues)));
            && Count(vs) == 3 && SerAll(vs) == [a, b, c]
            && Ser(Many(vs)) == [3, 0, 0, 0, a, b, c]
            && HasType(Sequence(Arithmetic('c')), Sequence(Arithmetic('c')), Many(vs))
            && Depth(Many(vs)) == 2
  {
    var full := Sequence(Arithmetic('c'));
    var v1 := More(Scalar([c]), NoValues);
    var v2 := More(Scalar([b]), v1);
    var v3 := More(Scalar([a]), v2);
    assert Count(v1) == 1 && Count(v2) == 2 && Count(v3) == 3;
    assert SerAll(NoValues) == [] && SerAll(v1) == [c] && SerAll(v2) == [b] + [c] && SerAll(v3) == [a] + ([b] + [c]);
    assert HasType(full, Arithmetic('c'), Scalar([a])) && HasType(full, Arithmetic('c'), Scalar([b]));
    assert HasType(full, Arithmetic('c'), Scalar([c])) && AllHaveType(full, Arithmetic('c'), NoValues);
    assert AllHaveType(full, Arithmetic('c'), v1) && AllHaveType(full, Arithmetic('c'), v2);
    assert DepthOfAll(v1) == 1 && DepthOfAll(v2) == 1 && DepthOfAll(v3) == 1;
    hide LE;
    SmallLE(3);
  }

  lemma AbcArgument(scalars: Scalars, t: Type, v: Value)
    requires t == Sequence(Arithmetic('c')) && HasType(t, t, v) && Ser(v) == [3, 0, 0, 0, 97, 98, 99]
    requires SerAll(v.elems) == [97, 98, 99]
    ensures Text(scalars, t, t, v) == "abc"
  {
    hide SerAll, TextOf;
    assert TextOf([97, 98, 99]) == "abc";
  }
}
