/** Integers as hexadecimal text, and the search for an enumerator by such a text. */
module Hex {
  import opened Bytes
  import opened Entries
  import opened Integers
  import opened Tags

  // ---------------------------------------------------------------- the text of an integer

  predicate IsDigit(c: char) {
    '0' <= c <= '9' || 'A' <= c <= 'F'
  }

  function Digit(d: nat): (c: char)
    requires d < 16
    ensures IsDigit(c) && c == "0123456789ABCDEF"[d]
  {
    if d < 10 then '0' + d as char else 'A' + (d - 10) as char
  }

  function Digits(n: nat): (s: string)
    ensures n > 0 ==> s != "" && s[0] != '-'
    ensures forall i :: 0 <= i < |s| ==> IsDigit(s[i])
  {
    if n == 0 then "" else Digits(n / 16) + [Digit(n % 16)]
  }

  function HexString(v: int): (s: string)
    ensures s != ""
  {
    if v == 0 then "0" else if v > 0 then Digits(v) else "-" + Digits(-v)
  }

  function DigitValue(c: char): nat {
    if '0' <= c <= '9' then (c - '0') as nat else if 'A' <= c <= 'F' then (c - 'A') as nat + 10 else 0
  }

  function DigitsValue(s: string): nat {
    if s == "" then 0 else 16 * DigitsValue(s[..|s| - 1]) + DigitValue(s[|s| - 1])
  }

  function HexValue(s: string): int {
    if s != "" && s[0] == '-' then 0 - DigitsValue(s[1..]) else DigitsValue(s)
  }

  lemma {:induction false} DigitsRoundTrip(n: nat)
    ensures DigitsValue(Digits(n)) == n
  {
    if n > 0 {
      DigitsRoundTrip(n / 16);
      assert Digits(n)[..|Digits(n)| - 1] == Digits(n / 16);
      DigitOf(n % 16);
    }
  }

  lemma DigitOf(d: nat)
    requires d < 16
    ensures DigitValue(Digit(d)) == d
  {
  }

  /** The text tells the integer, so different integers have different texts. */
  lemma HexRoundTrip(v: int)
    ensures HexValue(HexString(v)) == v
  {
    hide Digits, DigitsValue, DigitValue;
    if v > 0 {
      DigitsRoundTrip(v);
    } else if v < 0 {
      DigitsRoundTrip(-v);
      assert HexString(v)[1..] == Digits(-v);
    } else {
      ZeroValue();
    }
  }

  lemma ZeroValue()
    ensures DigitsValue("0") == 0
  {
    assert "0"[..0] == "";
  }

  lemma DigitsStep(n: nat)
    requires n > 0
    ensures Digits(n) == Digits(n / 16) + [Digit(n % 16)]
    ensures Digits(0) == ""
  {
  }

  lemma HexIsPlain(v: int)
    ensures Plain(HexString(v))
  {
  }

  lemma {:induction false} DigitsLength(n: nat, k: nat)
    requires n < Range16(k)
    ensures |Digits(n)| <= k
  {
    if n > 0 {
      DigitsLength(n / 16, k - 1);
    }
  }

  function Range16(k: nat): nat {
    if k == 0 then 1 else 16 * Range16(k - 1)
  }

  /** With a delimiter on each side, the text of any 64 bit integer fits the buffer of 20 characters. */
  lemma HexFitsBuffer(v: int)
    requires 0 - TWO_TO_63 <= v < TWO_TO_64
    ensures |HexString(v)| + 2 <= 20
  {
    assert Range16(4) == 0x1_0000;
    assert Range16(8) == 0x1_0000 * Range16(4);
    assert Range16(12) == 0x1_0000 * Range16(8);
    assert Range16(16) == 0x1_0000 * Range16(12);
    DigitsLength(if v >= 0 then v else -v, 16);
  }

  lemma HexOfDigit(v: nat)
    requires v < 16
    ensures |HexString(v)| == 1
  {
    if v > 0 {
      assert v / 16 == 0;
      assert Digits(v) == Digits(0) + [Digit(v)];
    }
  }

  lemma NegativeHex(v: int)
    requires v < 0
    ensures |HexString(v)| == 1 + |Digits(-v)|
  {
    hide Digits;
  }

  lemma HexShrinks(v: nat)
    requires v >= 16
    ensures |HexString(v)| == 1 + |HexString(v / 16)|
  {
    hide Digits, Digit;
    DigitsStep(v);
  }

  /** The number of characters `write_integer_as_hex` will write. */
  method HexStringSize(value: int) returns (size: nat)
    ensures size == |HexString(value)|
  {
    hide Digits, HexString, Digit;
    size := 1;
    var v := value;
    if v >= 0 {
      while v >= 16
        invariant v >= 0 && size + |HexString(v)| == |HexString(value)| + 1
      {
        HexShrinks(v);
        v := v / 16;
        size := size + 1;
      }
      HexOfDigit(v);
    } else {
      NegativeHex(v);
      while v < 0
        invariant v <= 0 && size + |Digits(-v)| == |HexString(value)|
        decreases -v
      {
        DigitsStep(-v);
        v := Quotient(v, 16);
        size := size + 1;
      }
      DigitsStep(1);
    }
  }

  /** Writes digits backwards; `text` is what stands from the moving pointer to the end. */
  method WriteIntegerAsHex(value: int) returns (text: string)
    ensures text == HexString(value)
  {
    hide Digits, Digit;
    DigitsStep(1);
    text := "";
    var v := value;
    if v == 0 {
      text := "0";
    } else if v > 0 {
      while v != 0
        invariant v >= 0 && Digits(v) + text == Digits(value)
      {
        DigitsStep(v);
        assert Digits(v) + text == Digits(v / 16) + ([Digit(v % 16)] + text);
        text := [Digit(v % 16)] + text;
        v := v / 16;
      }
      assert "" + text == text;
    } else {
      while v != 0
        invariant v <= 0 && Digits(-v) + text == Digits(-value)
        decreases -v
      {
        var digit := -Remainder(v, 16);
        assert digit == -v % 16;
        DigitsStep(-v);
        assert Digits(-v) + text == Digits(-v / 16) + ([Digit(digit)] + text);
        text := [Digit(digit)] + text;
        v := Quotient(v, 16);
      }
      assert "" + text == text;
      text := "-" + text;
    }
  }

  // ---------------------------------------------------------------- the text of a serialized integer

  /** `sizeof` of the arithmetic types, for a 64 bit Linux target. */
  function SizeOfKind(kind: char): (n: nat)
    ensures n <= 16 && (kind in ARITHMETIC <==> n > 0)
  {
    match kind
    case 'y' => 1 case 'c' => 1 case 'b' => 1 case 'B' => 1
    case 's' => 2 case 'S' => 2
    case 'i' => 4 case 'I' => 4 case 'f' => 4
    case 'l' => 8 case 'L' => 8 case 'd' => 8
    case 'D' => 16
    case _ => 0
  }

  predicate IsInteger(kind: char) {
    kind in "ycbsilBSIL"
  }

  predicate IsSigned(kind: char) {
    kind in "cbsil"
  }

  /** Two's complement for signed kinds. Any non-zero byte is `true`. */
  function IntegerOf(kind: char, bits: bytes): int {
    if kind == 'y' then if FromLE(bits) == 0 then 0 else 1
    else if IsSigned(kind) && 2 * FromLE(bits) >= Range256(|bits|) then FromLE(bits) - Range256(|bits|)
    else FromLE(bits)
  }

  /** A serialized integer of `kind` stands for `k`. */
  ghost predicate Holds(kind: char, k: int) {
    exists bits: bytes :: |bits| == SizeOfKind(kind) && IntegerOf(kind, bits) == k
  }

  lemma {:induction false} HoldsRange(kind: char, k: int, range: nat)
    requires IsInteger(kind) && kind != 'y' && range == Range256(SizeOfKind(kind))
    ensures Holds(kind, k) <==> if IsSigned(kind) then 0 - range <= 2 * k < range else 0 <= k < range
  {
    var n := SizeOfKind(kind);
    if if IsSigned(kind) then 0 - range <= 2 * k < range else 0 <= k < range {
      var bits := LE(if k < 0 then k + range else k, n);
      FromLEOfLE(if k < 0 then k + range else k, n);
      assert IntegerOf(kind, bits) == k;
    }
    forall bits: bytes | |bits| == n && IntegerOf(kind, bits) == k
      ensures if IsSigned(kind) then 0 - range <= 2 * k < range else 0 <= k < range
    {
      FromLEBound(bits);
    }
  }

  /** The integers of each kind, and so the number of bytes it has. */
  lemma KindsHold(k: int)
    ensures Holds('c', k) <==> -0x80 <= k < 0x80
    ensures Holds('b', k) <==> -0x80 <= k < 0x80
    ensures Holds('s', k) <==> -0x8000 <= k < 0x8000
    ensures Holds('i', k) <==> -0x8000_0000 <= k < 0x8000_0000
    ensures Holds('l', k) <==> -0x8000_0000_0000_0000 <= k < 0x8000_0000_0000_0000
    ensures Holds('B', k) <==> 0 <= k < 0x100
    ensures Holds('S', k) <==> 0 <= k < 0x1_0000
    ensures Holds('I', k) <==> 0 <= k < 0x1_0000_0000
    ensures Holds('L', k) <==> 0 <= k < 0x1_0000_0000_0000_0000
    ensures Holds('y', k) <==> k == 0 || k == 1
    ensures SizeOfKind('f') == 4 && SizeOfKind('d') == 8 && SizeOfKind('D') == 16
  {
    hide Holds;
    BytesHold(k);
    ShortsHold(k);
    IntsHold(k);
    LongsHold(k);
    HoldsBool(k);
  }

  lemma BytesHold(k: int)
    ensures Holds('c', k) <==> -0x80 <= k < 0x80
    ensures Holds('b', k) <==> -0x80 <= k < 0x80
    ensures Holds('B', k) <==> 0 <= k < 0x100
  {
    hide Holds, Range256;
    Ranges();
    HoldsRange('c', k, 0x100);
    HoldsRange('b', k, 0x100);
    HoldsRange('B', k, 0x100);
  }

  lemma ShortsHold(k: int)
    ensures Holds('s', k) <==> -0x8000 <= k < 0x8000
    ensures Holds('S', k) <==> 0 <= k < 0x1_0000
  {
    hide Holds, Range256;
    Ranges();
    HoldsRange('s', k, 0x1_0000);
    HoldsRange('S', k, 0x1_0000);
  }

  lemma IntsHold(k: int)
    ensures Holds('i', k) <==> -0x8000_0000 <= k < 0x8000_0000
    ensures Holds('I', k) <==> 0 <= k < 0x1_0000_0000
  {
    hide Holds, Range256;
    Ranges();
    HoldsRange('i', k, 0x1_0000_0000);
    HoldsRange('I', k, 0x1_0000_0000);
  }

  lemma LongsHold(k: int)
    ensures Holds('l', k) <==> -0x8000_0000_0000_0000 <= k < 0x8000_0000_0000_0000
    ensures Holds('L', k) <==> 0 <= k < 0x1_0000_0000_0000_0000
  {
    hide Holds, Range256;
    Ranges();
    HoldsRange('l', k, 0x1_0000_0000_0000_0000);
    HoldsRange('L', k, 0x1_0000_0000_0000_0000);
  }

  /** A `bool` has one byte; zero is false, and any other byte is true. */
  lemma HoldsBool(k: int)
    ensures SizeOfKind('y') == 1 && Holds('y', k) <==> k == 0 || k == 1
    ensures SizeOfKind('y') == 1 && forall b: byte :: IntegerOf('y', [b]) == if b == 0 then 0 else 1
  {
    forall b: byte
      ensures IntegerOf('y', [b]) == if b == 0 then 0 else 1
    {
      assert [b][1..] == [] && FromLE([b]) == b + 256 * FromLE([]);
    }
    assert IntegerOf('y', [0]) == 0 && IntegerOf('y', [1]) == 1;
  }

  /** Some texts, as the library writes them. */
  lemma HexExamples()
    ensures HexString(0) == "0" && HexString(48879) == "BEEF" && HexString(-255) == "-FF"
  {
    DigitsExample(48879, 3054);
    DigitsExample(3054, 190);
    DigitsExample(190, 11);
    DigitsExample(11, 0);
    DigitsExample(255, 15);
    DigitsExample(15, 0);
  }

  lemma DigitsExample(n: nat, m: nat)
    requires n > 0 && m == n / 16
    ensures Digits(n) == Digits(m) + ["0123456789ABCDEF"[n % 16]] && Digits(0) == ""
  {
  }

  /** What the converter of `visit_enum` holds after a value; it ignores floating point ones. */
  function HexOf(kind: char, bits: bytes): string {
    if IsInteger(kind) then HexString(IntegerOf(kind, bits)) else ""
  }

  lemma HexOfIsPlain(kind: char, bits: bytes)
    ensures Plain(HexOf(kind, bits))
  {
    HexIsPlain(IntegerOf(kind, bits));
  }

  lemma {:induction false} FromLEInjective(a: bytes, b: bytes)
    requires |a| == |b| && FromLE(a) == FromLE(b)
    ensures a == b
  {
    LEOfFromLE(a);
    LEOfFromLE(b);
  }

  /** A serialized integer is told by its text; of booleans, zero and one are. */
  lemma HexOfInjective(kind: char, a: bytes, b: bytes)
    requires IsInteger(kind) && |a| == |b| && HexOf(kind, a) == HexOf(kind, b)
    requires kind == 'y' ==> |a| == 1 && a[0] <= 1 && b[0] <= 1
    ensures a == b
  {
    HexRoundTrip(IntegerOf(kind, a));
    HexRoundTrip(IntegerOf(kind, b));
    FromLEBound(a);
    FromLEBound(b);
    if kind == 'y' {
      assert a[1..] == [] && b[1..] == [];
    }
    FromLEInjective(a, b);
  }

  // ---------------------------------------------------------------- the enumerator with a value

  /** The name of the first enumerator listed with the value. */
  function EnumeratorWith(es: seq<Enumerator>, value: string): string {
    if es == [] then "" else if es[0].value == value then es[0].name else EnumeratorWith(es[1..], value)
  }

  /** `s` from the leftmost occurrence of `x` on. */
  function FromLeftmost(s: string, x: string): Option<string> {
    if x <= s then Some(s) else if s == "" then None else FromLeftmost(s[1..], x)
  }

  /** How the enumerator is searched: the value between a quote and a backtick, and the label after it. */
  function SearchEnumerator(s: tag, value: string): string {
    match FromLeftmost(s, "'" + (value + "`"))
    case None => ""
    case Some(found) => PopLabel(Drop(found, |value| + 1)).0
  }

  lemma {:induction false} FromLeftmostSkips(w: string, more: string, x: string)
    requires x != "" && x[0] !in w
    ensures FromLeftmost(w + more, x) == FromLeftmost(more, x)
  {
    if w == "" {
      assert w + more == more;
    } else {
      assert (w + more)[1..] == w[1..] + more;
      assert (w + more)[0] == w[0];
      FromLeftmostSkips(w[1..], more, x);
    }
  }

  /** A plain text in front of a backtick is found only where it is the whole text. */
  lemma DelimitedMatch(v: string, value: string, more: string)
    requires Plain(v) && Plain(value)
    ensures "'" + (value + "`") <= "'" + (v + ("`" + more)) <==> v == value
  {
    var x, s := "'" + (value + "`"), "'" + (v + ("`" + more));
    if v == value {
      assert s == x + more;
    } else if x <= s {
      assert forall i :: 0 <= i < |value| + 1 ==> (value + "`")[i] == x[i + 1] == s[i + 1] == (v + ("`" + more))[i];
      assert (value + "`")[|value|] == '`' && (v + ("`" + more))[|v|] == '`';
      if |value| == |v| {
        assert forall i :: 0 <= i < |v| ==> value[i] == (value + "`")[i] && v[i] == (v + ("`" + more))[i];
      }
    }
  }

  /**
   The search by text finds an enumerator iff one with that value is listed, and then the first of those:
   it cannot match inside a name or across two of them.
   */
  lemma {:induction false} SearchFindsEnumerator(es: seq<Enumerator>, value: string)
    requires Plain(value) && forall i :: 0 <= i < |es| ==> Plain(es[i].value) && Plain(es[i].name)
    ensures SearchEnumerator("'" + TagEnumerators(es), value) == EnumeratorWith(es, value)
    ensures FromLeftmost("'" + TagEnumerators(es), "'" + (value + "`")).Some?
            <==> exists i :: 0 <= i < |es| && es[i].value == value
  {
    var x, s := "'" + (value + "`"), "'" + TagEnumerators(es);
    if es == [] {
      assert s == "'" && s[1..] == "" && !(x <= s) && FromLeftmost(s[1..], x) == None;
    } else {
      var v, n := es[0].value, es[0].name;
      var behind := "'" + TagEnumerators(es[1..]);
      assert s == "'" + (v + ("`" + (n + behind)));
      DelimitedMatch(v, value, n + behind);
      if v == value {
        assert Drop(s, |value| + 1) == "`" + (n + behind);
        PopLabelOf(n, TagEnumerators(es[1..]));
        assert es[0].value == value;
      } else {
        var w := v + ("`" + n);
        assert s[1..] == w + behind;
        assert '\'' !in v && '\'' !in n;
        FromLeftmostSkips(w, behind, x);
        SearchFindsEnumerator(es[1..], value);
        assert forall i :: 0 <= i < |es[1..]| ==> es[1..][i] == es[i + 1];
        if i :| 0 <= i < |es| && es[i].value == value {
          assert es[1..][i - 1].value == value;
        }
      }
    }
  }
}
