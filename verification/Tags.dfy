/** Type tags: strings that describe the serialized form of types, and the functions that take them apart. */
module Tags {
  /** A tag, or a run of them, that functions shorten from the front. */
  type tag = string

  const ARITHMETIC: string := "ycbsilBSILfdD"
  const DELIMITERS: string := "`'()<>{}[]/\\"

  /** Names of structures, fields, enumerations and enumerators contain no delimiter. */
  predicate Plain(s: string) {
    forall i :: 0 <= i < |s| ==> s[i] !in DELIMITERS
  }

  /**
   The types the tag generator produces. `Null` is the empty alternative of an optional or variant. A
   structure without fields is an empty one, or refers to the first structure of that name in the whole tag.
   */
  datatype Type =
    | Arithmetic(kind: char)
    | Null
    | Sequence(elem: Type)
    | Tuple(elems: Types)
    | Variant(options: Types)
    | Struct(name: string, fields: Fields)
    | Enum(underlying: char, name: string, enumerators: seq<Enumerator>)

  datatype Types = Nil | Cons(head: Type, tail: Types)

  datatype Fields = NoFields | Field(name: string, ty: Type, rest: Fields)

  /** `value` is hexadecimal. */
  datatype Enumerator = Enumerator(value: string, name: string)

  predicate WellFormed(t: Type) {
    match t
    case Arithmetic(kind) => kind in ARITHMETIC
    case Null => true
    case Sequence(elem) => WellFormed(elem)
    case Tuple(elems) => AllWellFormed(elems)
    case Variant(options) => AllWellFormed(options)
    case Struct(name, fields) => Plain(name) && FieldsWellFormed(fields)
    case Enum(underlying, name, enumerators) =>
      && underlying in ARITHMETIC && Plain(name)
      && forall i :: 0 <= i < |enumerators| ==> Plain(enumerators[i].value) && Plain(enumerators[i].name)
  }

  predicate AllWellFormed(ts: Types) {
    ts.Cons? ==> WellFormed(ts.head) && AllWellFormed(ts.tail)
  }

  predicate FieldsWellFormed(fs: Fields) {
    fs.Field? ==> Plain(fs.name) && WellFormed(fs.ty) && FieldsWellFormed(fs.rest)
  }

  function Tag(t: Type): tag {
    match t
    case Arithmetic(kind) => [kind]
    case Null => "0"
    case Sequence(elem) => "[" + Tag(elem)
    case Tuple(elems) => "(" + (TagAll(elems) + ")")
    case Variant(options) => "<" + (TagAll(options) + ">")
    case Struct(name, fields) => "{" + ((name + TagFields(fields)) + "}")
    case Enum(underlying, name, enumerators) => "/" + (([underlying] + ("`" + (name + ("'" + TagEnumerators(enumerators))))) + "\\")
  }

  function TagAll(ts: Types): tag {
    if ts.Nil? then "" else Tag(ts.head) + TagAll(ts.tail)
  }

  function TagFields(fs: Fields): tag {
    if fs.NoFields? then "" else "`" + (fs.name + ("'" + (Tag(fs.ty) + TagFields(fs.rest))))
  }

  function TagEnumerators(es: seq<Enumerator>): tag {
    if es == [] then "" else es[0].value + ("`" + (es[0].name + ("'" + TagEnumerators(es[1..]))))
  }

  // ---------------------------------------------------------------- balanced delimiters

  /** The number of characters up to and including the one that closes `depth` open delimiters, or all. */
  function Close(s: string, depth: nat, open: char, close: char): (n: nat)
    requires depth > 0
    ensures n <= |s|
    decreases |s|
  {
    if s == "" then 0
    else if s[0] == open then 1 + Close(s[1..], depth + 1, open, close)
    else if s[0] == close then if depth == 1 then 1 else 1 + Close(s[1..], depth - 1, open, close)
    else 1 + Close(s[1..], depth, open, close)
  }

  ghost predicate IsPair(open: char, close: char) {
    (open, close) in {('(', ')'), ('<', '>'), ('{', '}'), ('/', '\\')}
  }

  /** `w` closes what it opens, and nothing else. */
  ghost predicate Neutral(w: string, open: char, close: char) {
    forall rest: string, depth: nat :: depth > 0 ==> Close(w + rest, depth, open, close) == |w| + Close(rest, depth, open, close)
  }

  lemma NeutralAppend(a: string, b: string, open: char, close: char)
    requires Neutral(a, open, close) && Neutral(b, open, close)
    ensures Neutral(a + b, open, close)
  {
    forall rest: string, depth: nat | depth > 0
      ensures Close(a + b + rest, depth, open, close) == |a + b| + Close(rest, depth, open, close)
    {
      assert a + b + rest == a + (b + rest);
    }
  }

  lemma {:induction false} CloseWithout(w: string, rest: string, depth: nat, open: char, close: char)
    requires depth > 0 && open !in w && close !in w
    ensures Close(w + rest, depth, open, close) == |w| + Close(rest, depth, open, close)
  {
    if w == "" {
      assert w + rest == rest;
    } else {
      assert (w + rest)[1..] == w[1..] + rest;
      CloseWithout(w[1..], rest, depth, open, close);
    }
  }

  lemma NeutralWithout(w: string, open: char, close: char)
    requires open !in w && close !in w
    ensures Neutral(w, open, close)
  {
    forall rest: string, depth: nat | depth > 0
      ensures Close(w + rest, depth, open, close) == |w| + Close(rest, depth, open, close)
    {
      CloseWithout(w, rest, depth, open, close);
    }
  }

  lemma NeutralPlain(w: string, open: char, close: char)
    requires Plain(w) && IsPair(open, close)
    ensures Neutral(w, open, close)
  {
    assert forall i :: 0 <= i < |w| ==> w[i] != open && w[i] != close;
    NeutralWithout(w, open, close);
  }

  lemma NeutralBracketed(l: char, w: string, r: char, open: char, close: char)
    requires IsPair(l, r) && IsPair(open, close) && Neutral(w, open, close)
    ensures Neutral([l] + (w + [r]), open, close)
  {
    forall rest: string, depth: nat | depth > 0
      ensures Close([l] + (w + [r]) + rest, depth, open, close) == |w| + 2 + Close(rest, depth, open, close)
    {
      var s := [l] + (w + [r]) + rest;
      assert s[1..] == w + ([r] + rest);
      assert ([r] + rest)[1..] == rest;
      var inner := if l == open then depth + 1 else depth;
      assert Close(w + ([r] + rest), inner, open, close) == |w| + Close([r] + rest, inner, open, close);
    }
  }

  lemma {:induction false} NeutralEnumerators(es: seq<Enumerator>, open: char, close: char)
    requires IsPair(open, close)
    requires forall i :: 0 <= i < |es| ==> Plain(es[i].value) && Plain(es[i].name)
    ensures Neutral(TagEnumerators(es), open, close)
  {
    hide Neutral, Plain;
    if es == [] {
      NeutralWithout("", open, close);
    } else {
      NeutralEnumerators(es[1..], open, close);
      NeutralWithout("'", open, close);
      NeutralWithout("`", open, close);
      NeutralPlain(es[0].value, open, close);
      NeutralPlain(es[0].name, open, close);
      NeutralAppend("'", TagEnumerators(es[1..]), open, close);
      NeutralAppend(es[0].name, "'" + TagEnumerators(es[1..]), open, close);
      NeutralAppend("`", es[0].name + ("'" + TagEnumerators(es[1..])), open, close);
      NeutralAppend(es[0].value, "`" + (es[0].name + ("'" + TagEnumerators(es[1..]))), open, close);
    }
  }

  lemma {:induction false} NeutralTag(t: Type, open: char, close: char)
    requires WellFormed(t) && IsPair(open, close)
    ensures Neutral(Tag(t), open, close)
    decreases t
  {
    hide Neutral, Plain;
    match t
    case Arithmetic(kind) => NeutralWithout([kind], open, close);
    case Null => NeutralWithout("0", open, close);
    case Sequence(elem) =>
      NeutralTag(elem, open, close);
      NeutralWithout("[", open, close);
      NeutralAppend("[", Tag(elem), open, close);
    case Tuple(elems) =>
      NeutralAll(elems, open, close);
      NeutralBracketed('(', TagAll(elems), ')', open, close);
    case Variant(options) =>
      NeutralAll(options, open, close);
      NeutralBracketed('<', TagAll(options), '>', open, close);
    case Struct(name, fields) =>
      NeutralPlain(name, open, close);
      NeutralFields(fields, open, close);
      NeutralAppend(name, TagFields(fields), open, close);
      NeutralBracketed('{', name + TagFields(fields), '}', open, close);
    case Enum(underlying, name, es) =>
      NeutralEnumerators(es, open, close);
      NeutralWithout("'", open, close);
      NeutralWithout("`", open, close);
      NeutralPlain(name, open, close);
      NeutralWithout([underlying], open, close);
      NeutralAppend("'", TagEnumerators(es), open, close);
      NeutralAppend(name, "'" + TagEnumerators(es), open, close);
      NeutralAppend("`", name + ("'" + TagEnumerators(es)), open, close);
      NeutralAppend([underlying], "`" + (name + ("'" + TagEnumerators(es))), open, close);
      NeutralBracketed('/', [underlying] + ("`" + (name + ("'" + TagEnumerators(es)))), '\\', open, close);
  }

  lemma {:induction false} NeutralAll(ts: Types, open: char, close: char)
    requires AllWellFormed(ts) && IsPair(open, close)
    ensures Neutral(TagAll(ts), open, close)
    decreases ts
  {
    hide Neutral;
    if ts.Nil? {
      NeutralWithout("", open, close);
    } else {
      NeutralTag(ts.head, open, close);
      NeutralAll(ts.tail, open, close);
      NeutralAppend(Tag(ts.head), TagAll(ts.tail), open, close);
    }
  }

  lemma {:induction false} NeutralFields(fs: Fields, open: char, close: char)
    requires FieldsWellFormed(fs) && IsPair(open, close)
    ensures Neutral(TagFields(fs), open, close)
    decreases fs
  {
    hide Neutral, Plain;
    if fs.NoFields? {
      NeutralWithout("", open, close);
    } else {
      NeutralTag(fs.ty, open, close);
      NeutralFields(fs.rest, open, close);
      NeutralWithout("'", open, close);
      NeutralWithout("`", open, close);
      NeutralPlain(fs.name, open, close);
      NeutralAppend(Tag(fs.ty), TagFields(fs.rest), open, close);
      NeutralAppend("'", Tag(fs.ty) + TagFields(fs.rest), open, close);
      NeutralAppend(fs.name, "'" + (Tag(fs.ty) + TagFields(fs.rest)), open, close);
      NeutralAppend("`", fs.name + ("'" + (Tag(fs.ty) + TagFields(fs.rest))), open, close);
    }
  }

  // ---------------------------------------------------------------- taking tags off the front

  function SizeBetweenBalanced(s: string, open: char, close: char): (n: nat)
    requires s != ""
    ensures 1 <= n <= |s|
  {
    1 + Close(s[1..], 1, open, close)
  }

  function LeadingBrackets(s: string): (n: nat)
    ensures n <= |s| && (n < |s| ==> s[n] != '[')
  {
    if s != "" && s[0] == '[' then 1 + LeadingBrackets(s[1..]) else 0
  }

  /** The size of the first tag of `tags`. */
  function FirstSize(tags: tag): (n: nat)
    ensures n <= |tags| && (tags != "" ==> n > 0)
  {
    var brackets := LeadingBrackets(tags);
    var s := tags[brackets..];
    brackets +
    if s == "" then 0
    else if s[0] == '(' then SizeBetweenBalanced(s, '(', ')')
    else if s[0] == '<' then SizeBetweenBalanced(s, '<', '>')
    else if s[0] == '{' then SizeBetweenBalanced(s, '{', '}')
    else if s[0] == '/' then SizeBetweenBalanced(s, '/', '\\')
    else 1
  }

  lemma BracketedSize(l: char, w: string, r: char, more: string)
    requires IsPair(l, r) && Neutral(w, l, r)
    ensures SizeBetweenBalanced([l] + (w + [r]) + more, l, r) == |w| + 2
  {
    var s := [l] + (w + [r]) + more;
    assert s[1..] == w + ([r] + more);
    assert Close(w + ([r] + more), 1, l, r) == |w| + Close([r] + more, 1, l, r);
  }

  lemma FirstSizeOfBracketed(l: char, w: string, r: char, more: string)
    requires IsPair(l, r) && SizeBetweenBalanced([l] + (w + [r]) + more, l, r) == |w| + 2
    ensures FirstSize([l] + (w + [r]) + more) == |w| + 2
  {
    hide SizeBetweenBalanced;
    var s := [l] + (w + [r]) + more;
    assert LeadingBrackets(s) == 0 && s[0..] == s;
  }

  lemma FirstSizeOfSequence(elem: tag)
    ensures FirstSize("[" + elem) == 1 + FirstSize(elem)
  {
    hide SizeBetweenBalanced;
    var s := "[" + elem;
    assert s[1..] == elem;
    assert s[LeadingBrackets(s)..] == elem[LeadingBrackets(elem)..];
  }

  lemma {:induction false} FirstSizeOfTag(t: Type, more: tag)
    requires WellFormed(t)
    ensures FirstSize(Tag(t) + more) == |Tag(t)|
    decreases t
  {
    hide Neutral, Plain, SizeBetweenBalanced, FirstSize, TagAll, TagFields, TagEnumerators;
    match t
    case Arithmetic(kind) => FirstSizeOfOne(kind, more);
    case Null => FirstSizeOfOne('0', more);
    case Sequence(elem) =>
      FirstSizeOfTag(elem, more);
      FirstSizeOfSequence(Tag(elem) + more);
      assert Tag(t) + more == "[" + (Tag(elem) + more);
    case Tuple(elems) =>
      NeutralAll(elems, '(', ')');
      BracketedSize('(', TagAll(elems), ')', more);
      FirstSizeOfBracketed('(', TagAll(elems), ')', more);
    case Variant(options) =>
      NeutralAll(options, '<', '>');
      BracketedSize('<', TagAll(options), '>', more);
      FirstSizeOfBracketed('<', TagAll(options), '>', more);
    case Struct(name, fields) => FirstSizeOfStruct(name, fields, more);
    case Enum(underlying, name, es) =>
      EnumSize(underlying, name, es, more);
      FirstSizeOfBracketed('/', [underlying] + ("`" + (name + ("'" + TagEnumerators(es)))), '\\', more);
  }

  lemma StructWellFormed(name: string, fields: Fields)
    requires WellFormed(Struct(name, fields))
    ensures Plain(name) && FieldsWellFormed(fields)
  {
  }

  lemma FirstSizeOfStruct(name: string, fields: Fields, more: tag)
    requires WellFormed(Struct(name, fields))
    ensures FirstSize(Tag(Struct(name, fields)) + more) == |Tag(Struct(name, fields))|
  {
    StructWellFormed(name, fields);
    hide Neutral, Plain, SizeBetweenBalanced, FirstSize, WellFormed, FieldsWellFormed, TagFields;
    var w := name + TagFields(fields);
    NeutralPlain(name, '{', '}');
    NeutralFields(fields, '{', '}');
    NeutralAppend(name, TagFields(fields), '{', '}');
    BracketedSize('{', w, '}', more);
    FirstSizeOfBracketed('{', w, '}', more);
  }

  lemma FirstSizeOfOne(kind: char, more: tag)
    requires kind in ARITHMETIC || kind == '0'
    ensures FirstSize([kind] + more) == 1
  {
  }

  lemma EnumSize(underlying: char, name: string, es: seq<Enumerator>, more: tag)
    requires WellFormed(Enum(underlying, name, es))
    ensures SizeBetweenBalanced(Tag(Enum(underlying, name, es)) + more, '/', '\\') == |Tag(Enum(underlying, name, es))|
  {
    hide Neutral, Plain, SizeBetweenBalanced;
    NeutralEnumerators(es, '/', '\\');
    NeutralWithout("'", '/', '\\');
    NeutralWithout("`", '/', '\\');
    NeutralPlain(name, '/', '\\');
    NeutralWithout([underlying], '/', '\\');
    NeutralAppend("'", TagEnumerators(es), '/', '\\');
    NeutralAppend(name, "'" + TagEnumerators(es), '/', '\\');
    NeutralAppend("`", name + ("'" + TagEnumerators(es)), '/', '\\');
    NeutralAppend([underlying], "`" + (name + ("'" + TagEnumerators(es))), '/', '\\');
    BracketedSize('/', [underlying] + ("`" + (name + ("'" + TagEnumerators(es)))), '\\', more);
  }

  /** The first tag, and what is left without it. */
  function Pop(tags: tag): (tag, tag) {
    (tags[..FirstSize(tags)], tags[FirstSize(tags)..])
  }

  /** From generated tags put behind each other, one is taken off exactly. */
  lemma PopTag(t: Type, more: tag)
    requires WellFormed(t)
    ensures Pop(Tag(t) + more) == (Tag(t), more)
  {
    FirstSizeOfTag(t, more);
  }

  /** The position of the first `c`, or the end. */
  function FindPos(s: string, c: char): (n: nat)
    ensures n <= |s| && c !in s[..n] && (n < |s| ==> s[n] == c)
  {
    if s == "" || s[0] == c then 0
    else
      assert s[..1 + FindPos(s[1..], c)] == [s[0]] + s[1..][..FindPos(s[1..], c)];
      1 + FindPos(s[1..], c)
  }

  lemma {:induction false} FindPosOf(w: string, c: char, more: string)
    requires c !in w && (more == "" || more[0] == c)
    ensures FindPos(w + more, c) == |w|
  {
    if w == "" {
      assert w + more == more;
    } else {
      assert (w + more)[1..] == w[1..] + more;
      FindPosOf(w[1..], c, more);
    }
  }

  /** `remove_prefix`, which stops at the end. */
  function Drop(s: string, n: nat): string {
    if n <= |s| then s[n..] else ""
  }

  function DropLast(s: string): string {
    if s == "" then "" else s[..|s| - 1]
  }

  /** A label is the text up to the next `'`, behind one character that starts it. */
  function PopLabel(tags: tag): (string, tag) {
    var s := Drop(tags, 1);
    (s[..FindPos(s, '\'')], Drop(s, FindPos(s, '\'') + 1))
  }

  lemma PopLabelOf(name: string, more: tag)
    requires Plain(name)
    ensures PopLabel("`" + (name + ("'" + more))) == (name, more)
  {
    assert '\'' !in name;
    FindPosOf(name, '\'', "'" + more);
    var s := name + ("'" + more);
    assert s[..|name|] == name && s[|name| + 1..] == more;
  }

  // ---------------------------------------------------------------- recursive structures

  /**
   The fields of the first structure that `intro`, a brace and a name, introduces in `s`. Names that only
   start like this one are passed over.
   */
  function Resolve(s: tag, intro: string): tag
    requires intro != ""
    decreases |s|
  {
    if s == "" then ""
    else if !(intro <= s) then Resolve(s[1..], intro)
    else
      var rest := s[|intro|..];
      if rest == "" || rest[0] == '}' then ""
      else if rest[0] == '`' then rest[..SizeBetweenBalanced(rest, '{', '}') - 1]
      else Resolve(rest, intro)
  }

  datatype Found = Missing | Fields(fields: Fields)

  /** The first structure called `name`, in the order of the tag. */
  function First(t: Type, name: string): Found
    decreases t
  {
    match t
    case Arithmetic(_) => Missing
    case Null => Missing
    case Sequence(elem) => First(elem, name)
    case Tuple(elems) => FirstOf(elems, name)
    case Variant(options) => FirstOf(options, name)
    case Struct(n, fields) => if n == name then Found.Fields(fields) else FirstIn(fields, name)
    case Enum(_, _, _) => Missing
  }

  function FirstOf(ts: Types, name: string): Found
    decreases ts
  {
    if ts.Nil? then Missing
    else if First(ts.head, name).Missing? then FirstOf(ts.tail, name)
    else First(ts.head, name)
  }

  function FirstIn(fs: Fields, name: string): Found
    decreases fs
  {
    if fs.NoFields? then Missing
    else if First(fs.ty, name).Missing? then FirstIn(fs.rest, name)
    else First(fs.ty, name)
  }

  /** What the search finds from a place where the types before it did, or did not, have the structure. */
  function After(found: Found, more: tag, intro: string): tag
    requires intro != ""
  {
    match found
    case Missing => Resolve(more, intro)
    case Fields(fields) => TagFields(fields)
  }

  lemma {:induction false} ResolveSkips(w: string, more: tag, intro: string)
    requires intro != "" && intro[0] == '{' && '{' !in w
    ensures Resolve(w + more, intro) == Resolve(more, intro)
  {
    if w == "" {
      assert w + more == more;
    } else {
      assert (w + more)[1..] == w[1..] + more;
      ResolveSkips(w[1..], more, intro);
    }
  }

  lemma PlainHasNoBrace(w: string)
    requires Plain(w)
    ensures '{' !in w && '`' !in w && '}' !in w
  {
  }

  lemma NameTooShort(n: string, name: string, more: string)
    requires Plain(name) && n != name && name <= n + more && more != "" && more[0] in DELIMITERS
    ensures |name| < |n| && name <= n
  {
    var at := |n|;
    assert (n + more)[at] == more[0];
    assert forall i :: 0 <= i < |name| ==> name[i] == (n + more)[i];
  }

  /** At another structure the search goes on behind its name. */
  lemma ResolvePasses(n: string, name: string, more: tag)
    requires Plain(n) && Plain(name) && n != name && more != "" && more[0] in DELIMITERS
    ensures Resolve("{" + (n + more), "{" + name) == Resolve(more, "{" + name)
  {
    var s, intro := "{" + (n + more), "{" + name;
    PlainHasNoBrace(n);
    assert s[1..] == n + more && intro[1..] == name;
    if intro <= s {
      PrefixTail(intro, s);
      NameTooShort(n, name, more);
      hide Plain;
      LongerName(n, name, more);
    } else {
      hide Plain;
      ResolveSkips(n, more, intro);
    }
  }

  lemma PrefixTail(intro: string, s: string)
    requires intro <= s && intro != ""
    ensures intro[1..] <= s[1..]
  {
    assert forall i :: 0 <= i < |intro| - 1 ==> intro[1..][i] == intro[i + 1] == s[i + 1] == s[1..][i];
  }

  /** What is left of a longer name is passed over, too. */
  lemma LongerName(n: string, name: string, more: tag)
    requires name <= n && |name| < |n| && '{' !in n && '`' !in n && '}' !in n
    ensures Resolve("{" + (n + more), "{" + name) == Resolve(more, "{" + name)
  {
    var s, intro := "{" + (n + more), "{" + name;
    var rest := n[|name|..];
    assert n == name + rest;
    assert s == intro + (rest + more);
    assert s[|intro|..] == rest + more;
    assert rest[0] == n[|name|] && (rest + more)[0] == rest[0];
    assert rest[0] in n && forall c :: c in rest ==> c in n;
    ResolveSkips(rest, more, intro);
  }

  lemma ResolveFinds(name: string, fields: Fields, more: tag)
    requires Plain(name) && FieldsWellFormed(fields)
    ensures Resolve("{" + ((name + TagFields(fields)) + "}") + more, "{" + name) == TagFields(fields)
  {
    hide Neutral, Plain, SizeBetweenBalanced;
    var w, intro := TagFields(fields), "{" + name;
    assert w != "" <==> fields.Field?;
    assert w != "" ==> w[0] == '`';
    NeutralFields(fields, '{', '}');
    hide TagFields, FieldsWellFormed;
    assert "{" + ((name + w) + "}") + more == intro + (w + ("}" + more));
    ResolveAtIntro(intro, w, "}" + more);
  }

  lemma ResolveAtIntro(intro: string, w: string, more: string)
    requires intro != "" && Neutral(w, '{', '}') && more != "" && more[0] == '}'
    requires w != "" ==> w[0] == '`'
    ensures Resolve(intro + (w + more), intro) == w
  {
    hide Neutral, SizeBetweenBalanced;
    var rest := w + more;
    assert (intro + rest)[|intro|..] == rest;
    if w != "" {
      CloseNeutral(w, more);
      assert rest[..|w|] == w;
    }
  }

  lemma CloseNeutral(w: string, more: string)
    requires Neutral(w, '{', '}') && w != "" && w[0] == '`' && more != "" && more[0] == '}'
    ensures SizeBetweenBalanced(w + more, '{', '}') == |w| + 1
  {
    assert Close(w + more, 1, '{', '}') == |w| + Close(more, 1, '{', '}');
  }

  lemma {:induction false} ResolveTag(t: Type, name: string, more: tag)
    requires WellFormed(t) && Plain(name)
    ensures Resolve(Tag(t) + more, "{" + name) == After(First(t, name), more, "{" + name)
    decreases t
  {
    hide Resolve, Plain, TagAll, TagFields, TagEnumerators;
    var intro := "{" + name;
    match t
    case Arithmetic(kind) => ResolveSkips([kind], more, intro);
    case Null => ResolveSkips("0", more, intro);
    case Sequence(elem) =>
      ResolveSkips("[", Tag(elem) + more, intro);
      assert Tag(t) + more == "[" + (Tag(elem) + more);
      ResolveTag(elem, name, more);
    case Tuple(elems) =>
      ResolveAll(elems, name, ")" + more);
      ResolveSkips("(", TagAll(elems) + (")" + more), intro);
      assert Tag(t) + more == "(" + (TagAll(elems) + (")" + more));
      ResolveSkips(")", more, intro);
    case Variant(options) =>
      ResolveAll(options, name, ">" + more);
      ResolveSkips("<", TagAll(options) + (">" + more), intro);
      assert Tag(t) + more == "<" + (TagAll(options) + (">" + more));
      ResolveSkips(">", more, intro);
    case Struct(n, fields) =>
      if n == name {
        ResolveFinds(name, fields, more);
      } else {
        var rest := TagFields(fields) + ("}" + more);
        assert Tag(t) + more == "{" + (n + rest);
        FieldsBeginWithBacktick(fields, "}" + more);
        ResolvePasses(n, name, rest);
        ResolveFields(fields, name, "}" + more);
        ResolveSkips("}", more, intro);
      }
    case Enum(underlying, n, es) =>
      EnumHasNoBrace(underlying, n, es);
      ResolveSkips(Tag(t), more, intro);
  }

  lemma FieldsBeginWithBacktick(fs: Fields, more: tag)
    requires more != "" && more[0] == '}'
    ensures TagFields(fs) + more != "" && (TagFields(fs) + more)[0] in DELIMITERS
  {
  }

  lemma {:induction false} EnumeratorsHaveNoBrace(es: seq<Enumerator>)
    requires forall i :: 0 <= i < |es| ==> Plain(es[i].value) && Plain(es[i].name)
    ensures '{' !in TagEnumerators(es)
  {
    hide Plain;
    if es != [] {
      PlainHasNoBrace(es[0].value);
      PlainHasNoBrace(es[0].name);
      EnumeratorsHaveNoBrace(es[1..]);
    }
  }

  lemma EnumHasNoBrace(underlying: char, name: string, es: seq<Enumerator>)
    requires WellFormed(Enum(underlying, name, es))
    ensures '{' !in Tag(Enum(underlying, name, es))
  {
    hide Plain;
    PlainHasNoBrace(name);
    EnumeratorsHaveNoBrace(es);
  }

  lemma {:induction false} ResolveAll(ts: Types, name: string, more: tag)
    requires AllWellFormed(ts) && Plain(name)
    ensures Resolve(TagAll(ts) + more, "{" + name) == After(FirstOf(ts, name), more, "{" + name)
    decreases ts
  {
    hide Resolve, Plain;
    if ts.Nil? {
      assert TagAll(ts) + more == more;
    } else {
      assert TagAll(ts) + more == Tag(ts.head) + (TagAll(ts.tail) + more);
      ResolveTag(ts.head, name, TagAll(ts.tail) + more);
      ResolveAll(ts.tail, name, more);
    }
  }

  lemma {:induction false} ResolveFields(fs: Fields, name: string, more: tag)
    requires FieldsWellFormed(fs) && Plain(name)
    ensures Resolve(TagFields(fs) + more, "{" + name) == After(FirstIn(fs, name), more, "{" + name)
    decreases fs
  {
    hide Resolve, Plain;
    if fs.NoFields? {
      assert TagFields(fs) + more == more;
    } else {
      var intro := "{" + name;
      var head := "`" + (fs.name + "'");
      var rest := TagFields(fs.rest) + more;
      assert TagFields(fs) + more == head + (Tag(fs.ty) + rest);
      PlainHasNoBrace(fs.name);
      ResolveSkips(head, Tag(fs.ty) + rest, intro);
      ResolveTag(fs.ty, name, rest);
      ResolveFields(fs.rest, name, more);
    }
  }

  /** The fields a structure called `name` and given without any has, in the whole type. */
  function FieldsOf(full: Type, name: string): Fields {
    match First(full, name)
    case Missing => NoFields
    case Fields(fields) => fields
  }

  /**
   In a generated tag the search by text finds the fields of the first structure of that very name: no
   structure of a longer name, no field and no enumerator gets in its way.
   */
  lemma ResolveFindsFirst(full: Type, name: string)
    requires WellFormed(full) && Plain(name)
    ensures Resolve(Tag(full), "{" + name) == TagFields(FieldsOf(full, name))
  {
    ResolveTag(full, name, "");
    assert Tag(full) + "" == Tag(full);
  }

  // ---------------------------------------------------------------- the functions, as they are written

  /** A view of characters that is shortened in place. */
  class StringView {
    var s: string

    constructor (s: string)
      ensures this.s == s
    {
      this.s := s;
    }

    method RemovePrefix(n: nat)
      modifies this
      ensures s == Drop(old(s), n)
    {
      var m := if n > |s| then |s| else n;
      s := s[m..];
    }

    method RemoveSuffix(n: nat)
      modifies this
      ensures s == if n <= |old(s)| then old(s)[..|old(s)| - n] else ""
    {
      var m := if n > |s| then |s| else n;
      s := s[..|s| - m];
    }
  }

  /** The first character is taken for an open delimiter, whatever it is. */
  method ComputeSizeBetweenBalanced(s: string, open: char, close: char) returns (i: nat)
    requires s != ""
    ensures i == SizeBetweenBalanced(s, open, close)
  {
    var openCount := 1;
    i := 1;
    while i < |s|
      invariant 1 <= i <= |s| && openCount > 0
      invariant i + Close(s[i..], openCount, open, close) == SizeBetweenBalanced(s, open, close)
    {
      assert s[i..][1..] == s[i + 1..];
      if s[i] == open {
        openCount := openCount + 1;
      } else if s[i] == close {
        openCount := openCount - 1;
        if openCount == 0 {
          i := i + 1;
          break;
        }
      }
      i := i + 1;
    }
  }

  method ComputeFindPos(s: string, c: char) returns (i: nat)
    ensures i == FindPos(s, c)
  {
    i := 0;
    while i < |s|
      invariant i <= |s| && c !in s[..i]
    {
      if s[i] == c {
        break;
      }
      i := i + 1;
    }
    FindPosOf(s[..i], c, s[i..]);
    assert s[..i] + s[i..] == s;
  }

  /** Takes off and returns what stands before the first `c`. */
  method RemovePrefixBefore(view: StringView, c: char) returns (prefix: string)
    modifies view
    ensures prefix == old(view.s)[..FindPos(old(view.s), c)] && view.s == old(view.s)[FindPos(old(view.s), c)..]
  {
    var pos := ComputeFindPos(view.s, c);
    prefix := view.s[..pos];
    view.RemovePrefix(pos);
  }

  method ComputeFirstSize(tags: tag) returns (result: nat)
    ensures result == FirstSize(tags)
  {
    result := 0;
    while result < |tags|
      invariant result <= |tags| && result + LeadingBrackets(tags[result..]) == LeadingBrackets(tags)
    {
      if tags[result] != '[' {
        break;
      }
      assert tags[result..][1..] == tags[result + 1..];
      result := result + 1;
    }
    var rest := tags[result..];
    if rest != "" {
      var size := 1;
      match rest[0] {
        case '(' => size := ComputeSizeBetweenBalanced(rest, '(', ')');
        case '<' => size := ComputeSizeBetweenBalanced(rest, '<', '>');
        case '{' => size := ComputeSizeBetweenBalanced(rest, '{', '}');
        case '/' => size := ComputeSizeBetweenBalanced(rest, '/', '\\');
        case _ =>
      }
      result := result + size;
    }
  }

  method TagPop(tags: StringView) returns (first: tag)
    modifies tags
    ensures (first, tags.s) == Pop(old(tags.s))
  {
    var firstSize := ComputeFirstSize(tags.s);
    first := tags.s[..firstSize];
    tags.RemovePrefix(firstSize);
  }

  method TagPopLabel(tags: StringView) returns (name: string)
    modifies tags
    ensures (name, tags.s) == PopLabel(old(tags.s))
  {
    tags.RemovePrefix(1);
    var pos := ComputeFindPos(tags.s, '\'');
    name := tags.s[..pos];
    tags.RemovePrefix(|name| + 1);
  }

  datatype Position = Npos | At(pos: nat)

  /** The leftmost occurrence. */
  method Find(s: string, x: string) returns (r: Position)
    requires x != ""
    ensures r.At? ==> r.pos <= |s| && x <= s[r.pos..] && forall k :: 0 <= k < r.pos ==> !(x <= s[k..])
    ensures r.Npos? ==> forall k :: 0 <= k <= |s| ==> !(x <= s[k..])
  {
    var first := 0;
    while true
      invariant first <= |s| && forall k :: 0 <= k < first ==> !(x <= s[k..])
      decreases |s| - first
    {
      var it, sIt := first, 0;
      while sIt < |x| && it < |s| && s[it] == x[sIt]
        invariant first <= it <= |s| && it - first == sIt <= |x| && s[first..it] == x[..sIt]
      {
        assert s[first..it + 1] == s[first..it] + [s[it]] && x[..sIt + 1] == x[..sIt] + [x[sIt]];
        it, sIt := it + 1, sIt + 1;
      }
      if sIt == |x| {
        assert x == s[first..it] == s[first..][..|x|];
        return At(first);
      }
      assert it < |s| ==> x[sIt] != s[first..][sIt];
      if it == |s| {
        forall k | first <= k <= |s|
          ensures !(x <= s[k..])
        {
          assert |s[k..]| < |x|;
        }
        return Npos;
      }
      first := first + 1;
    }
  }

  lemma {:induction false} ResolveFrom(s: tag, intro: string, n: nat)
    requires intro != "" && n <= |s| && forall k :: 0 <= k < n ==> !(intro <= s[k..])
    ensures Resolve(s, intro) == Resolve(s[n..], intro)
  {
    if n > 0 {
      assert s[0..] == s;
      forall k | 0 <= k < n - 1
        ensures !(intro <= s[1..][k..])
      {
        assert s[1..][k..] == s[k + 1..];
      }
      ResolveFrom(s[1..], intro, n - 1);
      assert s[1..][n - 1..] == s[n..];
    }
  }

  method ResolveRecursiveTag(fullTag: tag, intro: string) returns (definition: tag)
    ensures definition == if intro == "" then "" else Resolve(fullTag, intro)
  {
    if intro == "" {
      return "";
    }
    var view := new StringView(fullTag);
    while view.s != ""
      invariant Resolve(fullTag, intro) == Resolve(view.s, intro)
      decreases |view.s|
    {
      var s := view.s;
      var introPos := Find(s, intro);
      ResolveFrom(s, intro, if introPos.At? then introPos.pos else |s|);
      view.RemovePrefix(if introPos.At? then introPos.pos else |s|);
      view.RemovePrefix(|intro|);
      if view.s == "" {
        break;
      }
      if view.s[0] == '}' {
        break;
      }
      if view.s[0] == '`' {
        var size := ComputeSizeBetweenBalanced(view.s, '{', '}');
        return view.s[..size - 1];
      }
    }
    return "";
  }

  // ---------------------------------------------------------------- what tags look like

  lemma StructTag()
    ensures Tag(Struct("Foo", Field("a", Sequence(Arithmetic('i')), NoFields))) == "{Foo`a'[i}"
  {
    assert Tag(Sequence(Arithmetic('i'))) == "[i";
    assert TagFields(Field("a", Sequence(Arithmetic('i')), NoFields)) == "`a'[i";
  }

  lemma TupleTag()
    ensures Tag(Tuple(Cons(Arithmetic('c'), Cons(Arithmetic('d'), Nil)))) == "(cd)"
  {
    assert TagAll(Cons(Arithmetic('d'), Nil)) == "d" && TagAll(Cons(Arithmetic('c'), Cons(Arithmetic('d'), Nil))) == "cd";
  }

  lemma VariantTag()
    ensures Tag(Variant(Cons(Null, Cons(Arithmetic('L'), Nil)))) == "<0L>"
  {
    assert TagAll(Cons(Arithmetic('L'), Nil)) == "L" && TagAll(Cons(Null, Cons(Arithmetic('L'), Nil))) == "0L";
  }

  lemma EnumTag()
    ensures Tag(Enum('B', "E", [Enumerator("0", "x"), Enumerator("1", "y")])) == "/B`E'0`x'1`y'\\"
  {
    var es := [Enumerator("0", "x"), Enumerator("1", "y")];
    assert es[1..] == [Enumerator("1", "y")] && es[1..][1..] == [];
    assert TagEnumerators(es[1..]) == "1`y'";
    assert TagEnumerators(es) == "0`x'1`y'";
  }
}
