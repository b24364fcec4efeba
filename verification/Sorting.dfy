/** Go's `sort.Strings` order and a sort of keyed entries by it.

    Go compares strings byte by byte; UTF-8 preserves code-point order, so
    comparing characters by code point orders strings exactly as Go does. */
module Sorting {

  /** `a <= b` in Go's string order: a prefix comes first, otherwise the first
      differing character decides. */
  predicate Below(a: string, b: string)
    decreases |a|
  {
    if |a| == 0 then true
    else if |b| == 0 then false
    else if a[0] != b[0] then a[0] < b[0]
    else Below(a[1..], b[1..])
  }

  lemma {:induction false} BelowTotal(a: string, b: string)
    ensures Below(a, b) || Below(b, a)
    decreases |a|
  {
    if |a| == 0 || |b| == 0 || a[0] != b[0] {
    } else {
      BelowTotal(a[1..], b[1..]);
    }
  }

  lemma {:induction false} BelowAntisymmetric(a: string, b: string)
    requires Below(a, b) && Below(b, a)
    ensures a == b
    decreases |a|
  {
    if |a| == 0 || |b| == 0 {
    } else {
      BelowAntisymmetric(a[1..], b[1..]);
      assert a == [a[0]] + a[1..];
      assert b == [b[0]] + b[1..];
    }
  }

  /** An entry of a Go map seen through an enumeration of it. */
  datatype Keyed<T> = Keyed(key: string, val: T)

  function KeysOf<T>(s: seq<Keyed<T>>): (ks: seq<string>)
    ensures |ks| == |s|
    ensures forall i :: 0 <= i < |s| ==> ks[i] == s[i].key
  {
    if |s| == 0 then [] else [s[0].key] + KeysOf(s[1..])
  }

  predicate DistinctKeys<T>(s: seq<Keyed<T>>)
  {
    forall i, j :: 0 <= i < j < |s| ==> s[i].key != s[j].key
  }

  predicate SortedByKey<T>(s: seq<Keyed<T>>)
  {
    forall i, j :: 0 <= i < j < |s| ==> Below(s[i].key, s[j].key)
  }

  /** Insertion of one entry into a sorted run. */
  function Insert<T(==)>(x: Keyed<T>, s: seq<Keyed<T>>): (r: seq<Keyed<T>>)
    requires SortedByKey(s)
    ensures SortedByKey(r)
    ensures multiset(r) == multiset(s) + multiset{x}
    ensures |r| == |s| + 1
    decreases |s|
  {
    if |s| == 0 then [x]
    else if Below(x.key, s[0].key) then
      InsertHeadBelow(x, s);
      [x] + s
    else
      var t := Insert(x, s[1..]);
      InsertAfterHead(x, s, t);
      [s[0]] + t
  }

  /** Helper for Insert: re-attaching the head in front of the insertion into
      the tail keeps the run sorted. */
  lemma InsertAfterHead<T>(x: Keyed<T>, s: seq<Keyed<T>>, t: seq<Keyed<T>>)
    requires SortedByKey(s) && |s| > 0 && !Below(x.key, s[0].key)
    requires SortedByKey(t)
    requires multiset(t) == multiset(s[1..]) + multiset{x}
    ensures SortedByKey([s[0]] + t)
    ensures multiset([s[0]] + t) == multiset(s) + multiset{x}
  {
    BelowTotal(x.key, s[0].key);
    assert s == [s[0]] + s[1..];
    forall j | 0 <= j < |t|
      ensures Below(s[0].key, t[j].key)
    {
      assert t[j] in multiset(t);
      if t[j] != x {
        assert t[j] in multiset(s[1..]);
        var k :| 0 <= k < |s[1..]| && s[1..][k] == t[j];
        assert s[k + 1] == t[j];
      }
    }
    var r := [s[0]] + t;
    forall i, j | 0 <= i < j < |r|
      ensures Below(r[i].key, r[j].key)
    {
      if i == 0 {
        assert r[j] == t[j - 1];
      } else {
        assert r[i] == t[i - 1] && r[j] == t[j - 1];
      }
    }
  }

  /** Helper for Insert: `x` below the head of a sorted run is below all of it. */
  lemma InsertHeadBelow<T>(x: Keyed<T>, s: seq<Keyed<T>>)
    requires SortedByKey(s) && |s| > 0 && Below(x.key, s[0].key)
    ensures SortedByKey([x] + s)
  {
    forall j | 0 < j < |s|
      ensures Below(x.key, s[j].key)
    {
      BelowTransitive(x.key, s[0].key, s[j].key);
    }
  }

  lemma {:induction false} BelowTransitive(a: string, b: string, c: string)
    requires Below(a, b) && Below(b, c)
    ensures Below(a, c)
    decreases |a|
  {
    if |a| == 0 || |b| == 0 || |c| == 0 {
    } else if a[0] != b[0] || b[0] != c[0] {
    } else {
      BelowTransitive(a[1..], b[1..], c[1..]);
    }
  }

  /** sort.Strings applied to the keys, carrying each entry along. */
  function SortByKey<T(==)>(s: seq<Keyed<T>>): (r: seq<Keyed<T>>)
    ensures SortedByKey(r)
    ensures multiset(r) == multiset(s)
    decreases |s|
  {
    if |s| == 0 then []
    else
      assert s == [s[0]] + s[1..];
      Insert(s[0], SortByKey(s[1..]))
  }

  /** A sorted arrangement of entries with distinct keys is unique: whatever
      order the map was enumerated in, sorting yields the same sequence. */
  lemma {:induction false} SortedUnique<T>(a: seq<Keyed<T>>, b: seq<Keyed<T>>)
    requires SortedByKey(a) && SortedByKey(b)
    requires DistinctKeys(a)
    requires multiset(a) == multiset(b)
    ensures a == b
    decreases |a|
  {
    assert |a| == |multiset(a)| == |multiset(b)| == |b|;
    if |a| > 0 {
      SortedHeadsEqual(a, b);
      TailPermutation(a, b);
      SuffixSorted(a);
      SuffixSorted(b);
      DistinctKeysTail(a);
      SortedUnique(a[1..], b[1..]);
      assert a == [a[0]] + a[1..];
      assert b == [b[0]] + b[1..];
    }
  }

  /** Helper for SortedUnique: two sorted arrangements of the same entries
      with distinct keys start with the same entry. */
  lemma SortedHeadsEqual<T>(a: seq<Keyed<T>>, b: seq<Keyed<T>>)
    requires SortedByKey(a) && SortedByKey(b)
    requires DistinctKeys(a)
    requires multiset(a) == multiset(b)
    requires |a| > 0 && |b| > 0
    ensures a[0] == b[0]
  {
    assert b[0] in multiset(a);
    var k :| 0 <= k < |a| && a[k] == b[0];
    assert a[0] in multiset(b);
    var m :| 0 <= m < |b| && b[m] == a[0];
    assert Below(a[0].key, a[k].key) by {
      if k > 0 { } else { BelowTotal(a[0].key, a[0].key); }
    }
    assert Below(b[0].key, b[m].key) by {
      if m > 0 { } else { BelowTotal(b[0].key, b[0].key); }
    }
    BelowAntisymmetric(a[0].key, b[0].key);
    assert k == 0;
  }

  /** Helper for SortedUnique: equal heads leave equal multisets of tails. */
  lemma TailPermutation<T>(a: seq<T>, b: seq<T>)
    requires |a| > 0 && |b| > 0 && a[0] == b[0]
    requires multiset(a) == multiset(b)
    ensures multiset(a[1..]) == multiset(b[1..])
  {
    assert a == [a[0]] + a[1..];
    assert b == [b[0]] + b[1..];
    assert multiset(a) == multiset{a[0]} + multiset(a[1..]);
    assert multiset(b) == multiset{b[0]} + multiset(b[1..]);
    assert multiset(a[1..]) == multiset(a) - multiset{a[0]};
    assert multiset(b[1..]) == multiset(b) - multiset{b[0]};
  }

  /** Distinct keys stay distinct without the first entry. */
  lemma DistinctKeysTail<T>(a: seq<Keyed<T>>)
    requires |a| > 0 && DistinctKeys(a)
    ensures DistinctKeys(a[1..])
  {
    var tail := a[1..];
    forall i, j | 0 <= i < j < |tail|
      ensures tail[i].key != tail[j].key
    {
      assert tail[i] == a[i + 1] && tail[j] == a[j + 1];
    }
  }

  lemma SuffixSorted<T>(a: seq<Keyed<T>>)
    requires SortedByKey(a) && |a| > 0
    ensures SortedByKey(a[1..])
  {
    forall i, j | 0 <= i < j < |a[1..]|
      ensures Below(a[1..][i].key, a[1..][j].key)
    {
      assert a[1..][i] == a[i + 1] && a[1..][j] == a[j + 1];
    }
  }

  /** Sorting two enumerations of the same map gives the same result. */
  lemma SortIndependentOfEnumeration<T>(a: seq<Keyed<T>>, b: seq<Keyed<T>>)
    requires DistinctKeys(a)
    requires multiset(a) == multiset(b)
    ensures SortByKey(a) == SortByKey(b)
  {
    var sa, sb := SortByKey(a), SortByKey(b);
    DistinctKeysPermutation(a, sa);
    SortedUnique(sa, sb);
  }

  /** Distinct keys survive any rearrangement. */
  lemma DistinctKeysPermutation<T>(a: seq<Keyed<T>>, b: seq<Keyed<T>>)
    requires DistinctKeys(a)
    requires multiset(a) == multiset(b)
    ensures DistinctKeys(b)
  {
    forall i, j | 0 <= i < j < |b|
      ensures b[i].key != b[j].key
    {
      if b[i].key == b[j].key {
        assert b[i] in multiset(a) && b[j] in multiset(a);
        var p :| 0 <= p < |a| && a[p] == b[i];
        var q :| 0 <= q < |a| && a[q] == b[j];
        assert p == q;
        assert b[i] == b[j];
        assert multiset(b)[b[i]] >= 2 by {
          assert b == b[..i] + [b[i]] + b[i + 1..j] + [b[j]] + b[j + 1..];
        }
        SingleOccurrence(a, p);
      }
    }
  }

  /** In a sequence with distinct keys every entry occurs once. */
  lemma {:induction false} SingleOccurrence<T>(a: seq<Keyed<T>>, p: int)
    requires DistinctKeys(a) && 0 <= p < |a|
    ensures multiset(a)[a[p]] == 1
  {
    var x := a[p];
    assert a == a[..p] + [x] + a[p + 1..];
    forall i | 0 <= i < p
      ensures a[..p][i] != x
    {
      assert a[..p][i] == a[i];
    }
    forall i | p < i < |a|
      ensures a[i] != x
    {
    }
    assert x !in a[..p];
    assert x !in a[p + 1..];
  }
}
