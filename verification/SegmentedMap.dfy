/** The map behind the event sources of a stream: values of contiguous keys are stored contiguously. */
module SegmentedMaps {
  import opened Bytes
  import opened Entries

  /** The keys of a segment are its offset, its offset plus one, and so on. */
  function SegmentMap<V>(offset: nat, segment: seq<V>): (m: map<nat, V>)
    ensures forall k: nat :: k in m <==> offset <= k < offset + |segment|
    ensures forall k: nat :: k in m ==> m[k] == segment[k - offset]
  {
    if segment == [] then map[]
    else
      var n := |segment| - 1;
      SegmentMap(offset, segment[..n])[offset + n := segment[n]]
  }

  /** Segments lie in order, without overlap, and only the first may be empty. */
  ghost predicate InOrder<V>(offsets: seq<nat>, segments: seq<seq<V>>) {
    && |offsets| == |segments| > 0
    && offsets[0] == 0
    && (forall i :: 0 < i < |offsets| ==> segments[i] != [])
    && (forall i, j :: 0 <= i < j < |offsets| ==> offsets[i] < offsets[j] && offsets[i] + |segments[i]| <= offsets[j])
  }

  /** The plain map the two vectors stand for. */
  ghost function ToMap<V>(offsets: seq<nat>, segments: seq<seq<V>>): map<nat, V>
    requires |offsets| == |segments|
  {
    if offsets == [] then map[]
    else ToMap(offsets[..|offsets| - 1], segments[..|offsets| - 1]) + SegmentMap(offsets[|offsets| - 1], segments[|offsets| - 1])
  }

  /** The segment a key belongs to is the last one whose offset is not beyond it. */
  ghost predicate IsSegmentOf(offsets: seq<nat>, key: nat, si: nat) {
    && si < |offsets| && offsets[si] <= key
    && (forall i :: si < i < |offsets| ==> key < offsets[i])
  }

  lemma {:induction false} ToMapOutside<V>(offsets: seq<nat>, segments: seq<seq<V>>, key: nat)
    requires |offsets| == |segments|
    requires forall i :: 0 <= i < |offsets| ==> !(offsets[i] <= key < offsets[i] + |segments[i]|)
    ensures key !in ToMap(offsets, segments)
  {
    if offsets != [] {
      ToMapOutside(offsets[..|offsets| - 1], segments[..|offsets| - 1], key);
    }
  }

  lemma {:induction false} ToMapInside<V>(offsets: seq<nat>, segments: seq<seq<V>>, si: nat, key: nat)
    requires |offsets| == |segments| && si < |offsets|
    requires offsets[si] <= key < offsets[si] + |segments[si]|
    requires forall i :: si < i < |offsets| ==> !(offsets[i] <= key < offsets[i] + |segments[i]|)
    ensures key in ToMap(offsets, segments) && ToMap(offsets, segments)[key] == segments[si][key - offsets[si]]
  {
    var n := |offsets| - 1;
    if si < n {
      ToMapInside(offsets[..n], segments[..n], si, key);
      assert !(offsets[n] <= key < offsets[n] + |segments[n]|);
    }
  }

  /** Looking in a key's own segment is looking in the whole map. */
  lemma LookupInOwnSegment<V>(offsets: seq<nat>, segments: seq<seq<V>>, key: nat, si: nat)
    requires InOrder(offsets, segments) && IsSegmentOf(offsets, key, si)
    ensures key in ToMap(offsets, segments) <==> key - offsets[si] < |segments[si]|
    ensures key in ToMap(offsets, segments) ==> ToMap(offsets, segments)[key] == segments[si][key - offsets[si]]
  {
    if key - offsets[si] < |segments[si]| {
      ToMapInside(offsets, segments, si, key);
    } else {
      forall i | 0 <= i < |offsets|
        ensures !(offsets[i] <= key < offsets[i] + |segments[i]|)
      {
        if i < si {
          assert offsets[i] + |segments[i]| <= offsets[si];
        }
      }
      ToMapOutside(offsets, segments, key);
    }
  }

  lemma SegmentExists(offsets: seq<nat>, key: nat) returns (si: nat)
    requires |offsets| > 0 && offsets[0] == 0
    requires forall i, j :: 0 <= i < j < |offsets| ==> offsets[i] < offsets[j]
    ensures IsSegmentOf(offsets, key, si)
  {
    si := |offsets| - 1;
    while key < offsets[si]
      invariant si < |offsets|
      invariant forall i :: si < i < |offsets| ==> key < offsets[i]
    {
      si := si - 1;
    }
  }

  /** Sum of the lengths of the first `n` segments. */
  function TotalSize<V>(segments: seq<seq<V>>): nat {
    if segments == [] then 0 else TotalSize(segments[..|segments| - 1]) + |segments[|segments| - 1]|
  }

  lemma {:induction false} SegmentMapSize<V>(offset: nat, segment: seq<V>)
    ensures |SegmentMap(offset, segment)| == |segment|
  {
    if segment != [] {
      SegmentMapSize(offset, segment[..|segment| - 1]);
    }
  }

  /** No key is stored twice: the map has as many entries as there are stored values. */
  lemma {:induction false} ToMapSize<V>(offsets: seq<nat>, segments: seq<seq<V>>)
    requires |offsets| == |segments|
    requires forall i, j :: 0 <= i < j < |offsets| ==> offsets[i] + |segments[i]| <= offsets[j]
    ensures |ToMap(offsets, segments)| == TotalSize(segments)
  {
    if offsets != [] {
      var n := |offsets| - 1;
      var init, last := ToMap(offsets[..n], segments[..n]), SegmentMap(offsets[n], segments[n]);
      ToMapSize(offsets[..n], segments[..n]);
      SegmentMapSize(offsets[n], segments[n]);
      forall k | k in last
        ensures k !in init
      {
        ToMapOutside(offsets[..n], segments[..n], k);
      }
      assert init.Keys !! last.Keys;
      assert (init + last).Keys == init.Keys + last.Keys;
      assert |(init + last).Keys| == |init.Keys| + |last.Keys|;
    }
  }

  class SegmentedMap<V> {
    var offsets: seq<nat>
    var segments: seq<seq<V>>

    ghost predicate Valid()
      reads this
    {
      InOrder(offsets, segments)
    }

    /** The plain map this object implements. */
    ghost function Map(): map<nat, V>
      reads this
      requires Valid()
    {
      ToMap(offsets, segments)
    }

    constructor ()
      ensures Valid() && Map() == map[]
    {
      offsets, segments := [0], [[]];
      new;
      forall k: nat
        ensures k !in ToMap(offsets, segments)
      {
        ToMapOutside(offsets, segments, k);
      }
    }

    method SegmentIndex(key: u64) returns (si: nat)
      requires Valid()
      ensures IsSegmentOf(offsets, key, si)
    {
      var i := 1;
      while i < |offsets| && offsets[i] <= key
        invariant 1 <= i <= |offsets|
        invariant offsets[i - 1] <= key
      {
        i := i + 1;
      }
      si := i - 1;
    }

    /** Adds or overwrites: the last value emplaced for a key wins. */
    method Emplace(key: u64, value: V)
      requires Valid()
      modifies this
      ensures Valid() && Map() == old(Map())[key := value]
    {
      var si := SegmentIndex(key);
      var offset := offsets[si];
      var vi := key - offset;
      var segment := segments[si];
      if |segment| == vi {
        ChangedSegment(offsets, segments, key, value, si, segment + [value]);
        segments := segments[si := segment + [value]];
      } else if |segment| > vi {
        ChangedSegment(offsets, segments, key, value, si, segment[vi := value]);
        segments := segments[si := segment[vi := value]];
      } else {
        NewSegment(offsets, segments, key, value, si);
        offsets := InsertAt(offsets, si + 1, key);
        segments := InsertAt(segments, si + 1, [value]);
      }
    }

    /** The number of keys. */
    method Size() returns (s: nat)
      requires Valid()
      ensures s == |Map()|
    {
      s := 0;
      for i := 0 to |segments|
        invariant s == TotalSize(segments[..i])
      {
        assert segments[..i + 1][..i] == segments[..i];
        s := s + |segments[i]|;
      }
      assert segments[..|segments|] == segments;
      ToMapSize(offsets, segments);
    }

    method Empty() returns (r: bool)
      requires Valid()
      ensures r <==> Map() == map[]
    {
      var s := Size();
      r := s == 0;
    }

    method Find(key: u64) returns (r: Option<V>)
      requires Valid()
      ensures r == if key in Map() then Some(Map()[key]) else None
    {
      var si := SegmentIndex(key);
      LookupInOwnSegment(offsets, segments, key, si);
      var offset := offsets[si];
      var vi := key - offset;
      var segment := segments[si];
      if vi < |segment| {
        return Some(segment[vi]);
      }
      return None;
    }
  }

  function InsertAt<T>(s: seq<T>, i: nat, x: T): (r: seq<T>)
    requires i <= |s|
    ensures |r| == |s| + 1 && r[i] == x
    ensures forall j :: 0 <= j < i ==> r[j] == s[j]
    ensures forall j :: i < j < |r| ==> r[j] == s[j - 1]
  {
    s[..i] + [x] + s[i..]
  }

  /** `m'` is `m` with `key` bound to `value`, as far as looking up `k` goes. */
  ghost predicate UpdatedAt<V>(m: map<nat, V>, m': map<nat, V>, key: nat, value: V, k: nat) {
    if k == key then k in m' && m'[k] == value
    else (k in m' <==> k in m) && (k in m ==> m'[k] == m[k])
  }

  lemma UpdatedEverywhere<V>(m: map<nat, V>, m': map<nat, V>, key: nat, value: V)
    requires forall k: nat :: UpdatedAt(m, m', key, value, k)
    ensures m' == m[key := value]
  {
    forall k: nat
      ensures k in m' <==> k in m[key := value]
      ensures k in m' ==> m'[k] == m[key := value][k]
    {
      assert UpdatedAt(m, m', key, value, k);
    }
  }

  /** Appending to, or overwriting in, the key's own segment. */
  lemma ChangedSegment<V>(offsets: seq<nat>, segments: seq<seq<V>>, key: nat, value: V, si: nat, segment: seq<V>)
    requires InOrder(offsets, segments) && IsSegmentOf(offsets, key, si)
    requires var vi := key - offsets[si];
             || (|segments[si]| == vi && segment == segments[si] + [value])
             || (|segments[si]| > vi && segment == segments[si][vi := value])
    ensures InOrder(offsets, segments[si := segment])
    ensures ToMap(offsets, segments[si := segment]) == ToMap(offsets, segments)[key := value]
  {
    var segments' := segments[si := segment];
    assert InOrder(offsets, segments');
    var m, m' := ToMap(offsets, segments), ToMap(offsets, segments');
    forall k: nat
      ensures UpdatedAt(m, m', key, value, k)
    {
      var sk := SegmentExists(offsets, k);
      LookupInOwnSegment(offsets, segments, k, sk);
      LookupInOwnSegment(offsets, segments', k, sk);
    }
    UpdatedEverywhere(m, m', key, value);
  }

  lemma NewSegmentInOrder<V>(offsets: seq<nat>, segments: seq<seq<V>>, key: nat, value: V, si: nat)
    requires InOrder(offsets, segments) && IsSegmentOf(offsets, key, si)
    requires |segments[si]| < key - offsets[si]
    ensures InOrder(InsertAt(offsets, si + 1, key), InsertAt(segments, si + 1, [value]))
  {
    var offsets', segments' := InsertAt(offsets, si + 1, key), InsertAt(segments, si + 1, [value]);
    forall i, j | 0 <= i < j < |offsets'|
      ensures offsets'[i] < offsets'[j] && offsets'[i] + |segments'[i]| <= offsets'[j]
    {
      if j == si + 1 && i < si {
        assert offsets[i] + |segments[i]| <= offsets[si];
      }
    }
  }

  lemma SegmentAfterInsert(offsets: seq<nat>, key: nat, si: nat, k: nat, sk: nat)
    requires forall i, j :: 0 <= i < j < |offsets| ==> offsets[i] < offsets[j]
    requires IsSegmentOf(offsets, key, si) && offsets[si] < key && IsSegmentOf(offsets, k, sk)
    ensures k < key ==> sk <= si && IsSegmentOf(InsertAt(offsets, si + 1, key), k, sk)
    ensures key <= k ==> si <= sk && IsSegmentOf(InsertAt(offsets, si + 1, key), k, sk + 1)
  {
    var offsets' := InsertAt(offsets, si + 1, key);
    if k < key {
      assert sk <= si;
      forall i | sk < i < |offsets'| ensures k < offsets'[i] {}
    } else {
      assert si <= sk;
      forall i | sk + 1 < i < |offsets'| ensures k < offsets'[i] {}
    }
  }

  /** Other keys keep their segment, which stands one place further on if it is behind the new one. */
  lemma SegmentKept<V>(offsets: seq<nat>, segments: seq<seq<V>>, key: nat, value: V, si: nat, sk: nat)
    requires |offsets| == |segments| && si < |offsets| && sk < |offsets|
    ensures var offsets', segments' := InsertAt(offsets, si + 1, key), InsertAt(segments, si + 1, [value]);
            && (sk <= si ==> offsets'[sk] == offsets[sk] && segments'[sk] == segments[sk])
            && (sk > si ==> offsets'[sk + 1] == offsets[sk] && segments'[sk + 1] == segments[sk])
            && offsets'[si + 1] == key && segments'[si + 1] == [value]
  {
  }

  /** The segments of key `k` before and after. */
  lemma SegmentsOf<V>(offsets: seq<nat>, segments: seq<seq<V>>, key: nat, value: V, si: nat, k: nat)
    returns (sk: nat, sk': nat)
    requires InOrder(offsets, segments) && IsSegmentOf(offsets, key, si) && offsets[si] < key
    ensures var offsets', segments' := InsertAt(offsets, si + 1, key), InsertAt(segments, si + 1, [value]);
            && IsSegmentOf(offsets, k, sk) && IsSegmentOf(offsets', k, sk') && |segments'| == |offsets'|
            && offsets[sk] <= k && (k == key ==> sk == si)
            && (k < key || sk > si ==> offsets'[sk'] == offsets[sk] && segments'[sk'] == segments[sk])
            && (k >= key && sk <= si ==> sk == si && offsets'[sk'] == key && segments'[sk'] == [value])
  {
    sk := SegmentExists(offsets, k);
    SegmentAfterInsert(offsets, key, si, k, sk);
    SegmentKept(offsets, segments, key, value, si, sk);
    sk' := if k < key then sk else sk + 1;
  }

  lemma NewSegmentLookup<V>(offsets: seq<nat>, segments: seq<seq<V>>, key: nat, value: V, si: nat, k: nat)
    requires InOrder(offsets, segments) && IsSegmentOf(offsets, key, si)
    requires |segments[si]| < key - offsets[si]
    requires InOrder(InsertAt(offsets, si + 1, key), InsertAt(segments, si + 1, [value]))
    ensures UpdatedAt(ToMap(offsets, segments),
                      ToMap(InsertAt(offsets, si + 1, key), InsertAt(segments, si + 1, [value])), key, value, k)
  {
    hide ToMap, InsertAt;
    var offsets', segments' := InsertAt(offsets, si + 1, key), InsertAt(segments, si + 1, [value]);
    var sk, sk' := SegmentsOf(offsets, segments, key, value, si, k);
    hide InOrder, IsSegmentOf;
    LookupInOwnSegment(offsets, segments, k, sk);
    LookupInOwnSegment(offsets', segments', k, sk');
  }

  /** Starting a new segment right after the key's own one. */
  lemma NewSegment<V>(offsets: seq<nat>, segments: seq<seq<V>>, key: nat, value: V, si: nat)
    requires InOrder(offsets, segments) && IsSegmentOf(offsets, key, si)
    requires |segments[si]| < key - offsets[si]
    ensures var offsets', segments' := InsertAt(offsets, si + 1, key), InsertAt(segments, si + 1, [value]);
            InOrder(offsets', segments') && ToMap(offsets', segments') == ToMap(offsets, segments)[key := value]
  {
    NewSegmentInOrder(offsets, segments, key, value, si);
    var offsets', segments' := InsertAt(offsets, si + 1, key), InsertAt(segments, si + 1, [value]);
    var m, m' := ToMap(offsets, segments), ToMap(offsets', segments');
    forall k: nat
      ensures UpdatedAt(m, m', key, value, k)
    {
      NewSegmentLookup(offsets, segments, key, value, si, k);
    }
    UpdatedEverywhere(m, m', key, value);
  }
}
