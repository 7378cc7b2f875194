/** Library operations on lists and maps that the source relies on: a stable
    descending sort (`sortedByDescending`) and an insertion-ordered map
    (`LinkedHashMap`). */
module Collections {

  /** Index of the first element whose key is maximal. */
  function FirstMaxIndex<T>(s: seq<T>, key: T -> int): (k: nat)
    requires |s| > 0
    ensures k < |s|
  {
    if |s| == 1 then 0
    else
      var m := FirstMaxIndex(s[1..], key);
      if key(s[0]) >= key(s[1..][m]) then 0 else 1 + m
  }

  /** No element has a larger key than the one at `FirstMaxIndex`, and every element
      before it has a smaller key. */
  lemma {:induction false} FirstMaxIndexIsFirstMax<T>(s: seq<T>, key: T -> int)
    requires |s| > 0
    ensures forall j :: 0 <= j < |s| ==> key(s[j]) <= key(s[FirstMaxIndex(s, key)])
    ensures forall j :: 0 <= j < FirstMaxIndex(s, key) ==> key(s[j]) < key(s[FirstMaxIndex(s, key)])
  {
    if |s| > 1 {
      FirstMaxIndexIsFirstMax(s[1..], key);
      forall j | 0 <= j < |s|
        ensures key(s[j]) <= key(s[FirstMaxIndex(s, key)])
      {
        if j > 0 {
          assert s[j] == s[1..][j - 1];
        }
      }
      forall j | 0 <= j < FirstMaxIndex(s, key)
        ensures key(s[j]) < key(s[FirstMaxIndex(s, key)])
      {
        if j > 0 {
          assert s[j] == s[1..][j - 1];
        }
      }
    }
  }

  /** Inserts `x` in front of the first element whose key is not larger than its own,
      so that `x` precedes every element with an equal key. */
  function InsertDescending<T>(x: T, sorted: seq<T>, key: T -> int): (r: seq<T>)
    ensures multiset(r) == multiset(sorted) + multiset{x}
    ensures |r| == |sorted| + 1
    ensures r[0] == (if sorted == [] || key(sorted[0]) <= key(x) then x else sorted[0])
  {
    if sorted == [] || key(sorted[0]) <= key(x) then [x] + sorted
    else
      var rest := InsertDescending(x, sorted[1..], key);
      assert sorted == [sorted[0]] + sorted[1..];
      [sorted[0]] + rest
  }

  /** Keys that do not increase along the list. */
  ghost predicate Descending<T>(s: seq<T>, key: T -> int) {
    forall i, j :: 0 <= i < j < |s| ==> key(s[i]) >= key(s[j])
  }

  /** Inserting into a descending list keeps it descending. */
  lemma {:induction false} InsertKeepsDescending<T>(x: T, sorted: seq<T>, key: T -> int)
    requires Descending(sorted, key)
    ensures Descending(InsertDescending(x, sorted, key), key)
  {
    if sorted == [] || key(sorted[0]) <= key(x) {
      ConsDescending(x, sorted, key);
    } else {
      var rest := InsertDescending(x, sorted[1..], key);
      InsertKeepsDescending(x, sorted[1..], key);
      ConsDescending(sorted[0], rest, key);
    }
  }

  /** A head with a key no smaller than the next one extends a descending list. */
  lemma ConsDescending<T>(h: T, t: seq<T>, key: T -> int)
    requires Descending(t, key)
    requires t != [] ==> key(h) >= key(t[0])
    ensures Descending([h] + t, key)
  {
    var r := [h] + t;
    forall i, j | 0 <= i < j < |r|
      ensures key(r[i]) >= key(r[j])
    {
      if i == 0 && j > 1 {
        assert key(t[0]) >= key(t[j - 1]);
      }
    }
  }

  /** `sortedByDescending(key)`: a stable sort into non-increasing key order. */
  function SortedByDescending<T>(s: seq<T>, key: T -> int): (r: seq<T>)
    ensures |r| == |s|
  {
    if s == [] then []
    else InsertDescending(s[0], SortedByDescending(s[1..], key), key)
  }

  /** The sort keeps every element, as often as it occurs. */
  lemma {:induction false} SortIsPermutation<T>(s: seq<T>, key: T -> int)
    ensures multiset(SortedByDescending(s, key)) == multiset(s)
  {
    if s != [] {
      SortIsPermutation(s[1..], key);
      assert s == [s[0]] + s[1..];
    }
  }

  /** The sort's keys do not increase. */
  lemma {:induction false} SortIsDescending<T>(s: seq<T>, key: T -> int)
    ensures Descending(SortedByDescending(s, key), key)
  {
    if s != [] {
      SortIsDescending(s[1..], key);
      InsertKeepsDescending(s[0], SortedByDescending(s[1..], key), key);
    }
  }

  /** Stability at the head: the sort starts with the earliest of the elements
      with the largest key. */
  lemma {:induction false} SortedHeadIsFirstMax<T>(s: seq<T>, key: T -> int)
    requires |s| > 0
    ensures SortedByDescending(s, key)[0] == s[FirstMaxIndex(s, key)]
  {
    var t := s[1..];
    if t != [] {
      SortedHeadIsFirstMax(t, key);
    }
  }

  /** Dropping the head of the sort leaves the elements other than the first one with the
      largest key. */
  lemma SortDropsFirstMax<T>(s: seq<T>, key: T -> int)
    requires |s| > 0
    ensures multiset(SortedByDescending(s, key)[1..]) == multiset(RemoveAt(s, FirstMaxIndex(s, key)))
  {
    SortedHeadIsFirstMax(s, key);
    SortIsPermutation(s, key);
    DropSameHead(SortedByDescending(s, key), s, FirstMaxIndex(s, key));
  }

  /** Of two lists with the same elements, dropping the head of one and the same element
      at `b` of the other leaves lists with the same elements. */
  lemma DropSameHead<T>(a: seq<T>, s: seq<T>, b: nat)
    requires b < |s| && multiset(a) == multiset(s) && a[0] == s[b]
    ensures multiset(a[1..]) == multiset(RemoveAt(s, b))
  {
    assert a == [a[0]] + a[1..];
    RemoveOne(s, b);
  }

  /** The list without its element at `b`. */
  function RemoveAt<T>(s: seq<T>, b: nat): (r: seq<T>)
    requires b < |s|
    ensures |r| == |s| - 1
  {
    s[..b] + s[b + 1..]
  }

  /** Removing the element at `b` removes one occurrence of it. */
  lemma RemoveOne<T>(s: seq<T>, b: nat)
    requires b < |s|
    ensures multiset(s[..b] + s[b + 1..]) == multiset(s) - multiset{s[b]}
  {
    assert s == s[..b] + [s[b]] + s[b + 1..];
  }

  /** A `LinkedHashMap` keyed by strings: the map and its keys in insertion order. */
  datatype LinkedMap<V> = LinkedMap(order: seq<string>, entries: map<string, V>) {

    /** The insertion order lists every key exactly once. */
    ghost predicate Valid() {
      && (forall i, j :: 0 <= i < j < |order| ==> order[i] != order[j])
      && (forall k :: k in entries <==> k in order)
    }

    /** `put`: a new key goes to the end of the order; an existing key keeps its place. */
    function Put(k: string, v: V): (r: LinkedMap<V>)
      requires Valid()
      ensures r.Valid()
      ensures r.entries == entries[k := v]
      ensures r.order == if k in entries then order else order + [k]
    {
      LinkedMap(if k in entries then order else order + [k], entries[k := v])
    }
  }

  /** `entries`: the key/value pairs in insertion order. */
  function EntriesOf<V>(m: LinkedMap<V>): (r: seq<(string, V)>)
    requires m.Valid()
    ensures |r| == |m.order|
    ensures forall i :: 0 <= i < |r| ==> r[i].0 == m.order[i] && r[i].1 == m.entries[m.order[i]]
  {
    seq(|m.order|, i requires 0 <= i < |m.order| => (m.order[i], m.entries[m.order[i]]))
  }

  /** `mapNotNull { m[it] }`: the values of the keys that `m` holds, in key order. */
  function MapNotNull<K, V>(ks: seq<K>, m: map<K, V>): (r: seq<V>)
    ensures |r| <= |ks|
    ensures forall v :: v in r ==> exists k :: k in ks && k in m && m[k] == v
    ensures (forall k :: k in ks ==> k in m) ==> |r| == |ks| && forall j :: 0 <= j < |ks| ==> r[j] == m[ks[j]]
  {
    if ks == [] then []
    else (if ks[0] in m then [m[ks[0]]] else []) + MapNotNull(ks[1..], m)
  }

  /** `filter`: the elements that `keep` accepts, in their order. */
  function Filter<T>(s: seq<T>, keep: T -> bool): (r: seq<T>)
    ensures |r| <= |s|
  {
    if s == [] then []
    else (if keep(s[0]) then [s[0]] else []) + Filter(s[1..], keep)
  }

  /** The filter keeps exactly the accepted elements: each one it returns is an accepted
      element of the input, and each accepted element of the input is among them. */
  lemma FilterMembers<T>(s: seq<T>, keep: T -> bool)
    ensures forall i :: 0 <= i < |Filter(s, keep)| ==> Filter(s, keep)[i] in s && keep(Filter(s, keep)[i])
    ensures forall i :: 0 <= i < |s| && keep(s[i]) ==> s[i] in Filter(s, keep)
  {
    FilterSound(s, keep);
    FilterComplete(s, keep);
  }

  /** Each element the filter returns is an accepted element of the input. */
  lemma {:induction false} FilterSound<T>(s: seq<T>, keep: T -> bool)
    ensures forall i :: 0 <= i < |Filter(s, keep)| ==> Filter(s, keep)[i] in s && keep(Filter(s, keep)[i])
  {
    if s != [] {
      FilterSound(s[1..], keep);
      var head := if keep(s[0]) then [s[0]] else [];
      var r := Filter(s, keep);
      var t := Filter(s[1..], keep);
      assert r == head + t;
      forall i | 0 <= i < |r|
        ensures r[i] in s && keep(r[i])
      {
        if i >= |head| {
          assert r[i] == t[i - |head|];
          assert t[i - |head|] in s[1..];
        }
      }
    }
  }

  /** Each accepted element of the input is among the elements the filter returns. */
  lemma {:induction false} FilterComplete<T>(s: seq<T>, keep: T -> bool)
    ensures forall i :: 0 <= i < |s| && keep(s[i]) ==> s[i] in Filter(s, keep)
  {
    if s != [] {
      FilterComplete(s[1..], keep);
      forall i | 0 <= i < |s| && keep(s[i])
        ensures s[i] in Filter(s, keep)
      {
        if i > 0 {
          assert s[1..][i - 1] == s[i];
        }
      }
    }
  }

  /** Filtering distributes over concatenation, so the order of the input is kept. */
  lemma {:induction false} FilterAppend<T>(a: seq<T>, b: seq<T>, keep: T -> bool)
    ensures Filter(a + b, keep) == Filter(a, keep) + Filter(b, keep)
  {
    if a != [] {
      assert (a + b)[1..] == a[1..] + b;
      FilterAppend(a[1..], b, keep);
    } else {
      assert a + b == b;
    }
  }

  /** A filter that accepts every element changes nothing. */
  lemma {:induction false} FilterKeepsAll<T>(s: seq<T>, keep: T -> bool)
    requires forall i :: 0 <= i < |s| ==> keep(s[i])
    ensures Filter(s, keep) == s
  {
    if s != [] {
      FilterKeepsAll(s[1..], keep);
    }
  }

  /** A filter that accepts every element of `a + b` changes nothing in `a`. */
  lemma FilterKeepsAllOfPrefix<T>(a: seq<T>, b: seq<T>, keep: T -> bool)
    requires forall i :: 0 <= i < |a + b| ==> keep((a + b)[i])
    ensures Filter(a, keep) == a
  {
    forall i | 0 <= i < |a|
      ensures keep(a[i])
    {
      assert (a + b)[i] == a[i];
    }
    FilterKeepsAll(a, keep);
  }

  /** Filtering twice by the same test is filtering once. */
  lemma FilterIdempotent<T>(s: seq<T>, keep: T -> bool)
    ensures Filter(Filter(s, keep), keep) == Filter(s, keep)
  {
    FilterSound(s, keep);
    FilterKeepsAll(Filter(s, keep), keep);
  }

  /** Filtering by a test and then by a narrower one is filtering by the narrower one. */
  lemma {:induction false} FilterNarrowed<T>(s: seq<T>, wide: T -> bool, narrow: T -> bool)
    requires forall x :: narrow(x) ==> wide(x)
    ensures Filter(Filter(s, wide), narrow) == Filter(s, narrow)
  {
    if s != [] {
      FilterNarrowed(s[1..], wide, narrow);
      var t := Filter(s, wide);
      if wide(s[0]) {
        assert t == [s[0]] + Filter(s[1..], wide);
        assert t[0] == s[0] && t[1..] == Filter(s[1..], wide);
        assert Filter(t, narrow) == (if narrow(s[0]) then [s[0]] else []) + Filter(t[1..], narrow);
      } else {
        assert t == Filter(s[1..], wide);
      }
    }
  }

  /** `mapNotNull` looks only at the keys it is given. */
  lemma {:induction false} MapNotNullAgree<K, V>(ks: seq<K>, m1: map<K, V>, m2: map<K, V>)
    requires forall k :: k in ks ==> k in m1 && k in m2 && m1[k] == m2[k]
    ensures MapNotNull(ks, m1) == MapNotNull(ks, m2)
  {
    if ks != [] {
      MapNotNullAgree(ks[1..], m1, m2);
    }
  }

  lemma AppendAssociative<T>(a: seq<T>, b: seq<T>, c: seq<T>)
    ensures a + (b + c) == (a + b) + c
  {
  }

  lemma SplitLast<T>(s: seq<T>)
    requires s != []
    ensures s == s[..|s| - 1] + [s[|s| - 1]]
  {
  }

  lemma PrefixStep<T>(s: seq<T>, i: nat)
    requires i < |s|
    ensures s[..i + 1] == s[..i] + [s[i]]
  {
  }
}
