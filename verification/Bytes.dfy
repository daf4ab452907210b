/** Bytes, little-endian integers and flattening of lists of byte strings. */
module Bytes {
  type byte = x: int | 0 <= x < 256

  type bytes = seq<byte>

  datatype Option<+T> = None | Some(value: T)

  /** The parts of `parts`, one after the other. */
  function Concat<T>(parts: seq<seq<T>>): (r: seq<T>)
  {
    if parts == [] then [] else parts[0] + Concat(parts[1..])
  }

  lemma {:induction false} ConcatAppend<T>(a: seq<seq<T>>, b: seq<seq<T>>)
    ensures Concat(a + b) == Concat(a) + Concat(b)
  {
    if a == [] {
      assert a + b == b;
    } else {
      ConcatAppend(a[1..], b);
      assert (a + b)[0] == a[0] && (a + b)[1..] == a[1..] + b;
    }
  }

  lemma ConcatOne<T>(x: seq<T>)
    ensures Concat([x]) == x
  {
    assert Concat([x]) == x + Concat([x][1..]);
  }

  lemma ConcatPush<T>(a: seq<seq<T>>, x: seq<T>)
    ensures Concat(a + [x]) == Concat(a) + x
  {
    ConcatAppend(a, [x]);
    ConcatOne(x);
  }

  /** Splitting a slice of a list of parts at `j` splits its flattening. */
  lemma ConcatSplit<T>(a: seq<seq<T>>, i: nat, j: nat, k: nat)
    requires i <= j <= k <= |a|
    ensures Concat(a[i..k]) == Concat(a[i..j]) + Concat(a[j..k])
  {
    assert a[i..k] == a[i..j] + a[j..k];
    ConcatAppend(a[i..j], a[j..k]);
  }

  lemma SliceJoin<T>(s: seq<T>, i: nat, j: nat, k: nat)
    requires i <= j <= k <= |s|
    ensures s[i..k] == s[i..j] + s[j..k]
  {
  }
}
