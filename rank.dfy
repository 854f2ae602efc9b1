/** Ranking (main.go:72-85): collect the keys of the frequency table and
    its highest count in one pass over the map, then sort the keys by
    non-increasing count. */
module Rank {
  import opened Aggregate

  /** No key is followed by one with a higher count. This is what
      sort.Slice guarantees for the less function
      `frequencies[keys[i]] > frequencies[keys[j]]`; it does not fix the
      order of keys with equal counts. */
  predicate SortedByFreq(keys: seq<string>, frequencies: map<string, nat>) {
    forall i, j :: 0 <= i < j < |keys| ==> Lookup(frequencies, keys[i]) >= Lookup(frequencies, keys[j])
  }

  /** The highest count of a table, and 0 for the empty table. */
  ghost function MaxCount(m: map<string, nat>): (h: nat)
    ensures forall k :: k in m ==> m[k] <= h
    ensures h == 0 || exists k :: k in m && m[k] == h
    decreases |m|
  {
    if m == map[] then 0
    else
      var k :| k in m;
      assert (m - {k}).Keys == m.Keys - {k};
      var rest := MaxCount(m - {k});
      assert forall j :: j in m && j != k ==> j in m - {k};
      if m[k] > rest then m[k] else rest
  }

  /** A bound that every count stays under and that is reached (or is 0)
      is the highest count. */
  lemma MaxCountUnique(m: map<string, nat>, h: nat)
    requires forall k :: k in m ==> m[k] <= h
    requires h == 0 || exists k :: k in m && m[k] == h
    ensures h == MaxCount(m)
  {
    var top := MaxCount(m);
    if top != 0 {
      var k :| k in m && m[k] == top;
    }
    if h != 0 {
      var k :| k in m && m[k] == h;
    }
  }

  /** sort.Slice on the collected keys, modelled by an insertion sort: the
      result is a permutation of the input ordered by non-increasing count. */
  method SortByFreq(keys: array<string>, frequencies: map<string, nat>)
    modifies keys
    ensures multiset(keys[..]) == multiset(old(keys[..]))
    ensures SortedByFreq(keys[..], frequencies)
  {
    var n := keys.Length;
    if n == 0 {
      return;
    }
    var i := 1;
    while i < n
      invariant 1 <= i <= n
      invariant SortedByFreq(keys[..i], frequencies)
      invariant multiset(keys[..]) == multiset(old(keys[..]))
    {
      Insert(keys, frequencies, i);
      i := i + 1;
    }
    assert keys[..n] == keys[..];
  }

  /** One insertion step: move keys[i] down past every key with a lower count,
      so that the sorted prefix keys[..i] grows to keys[..i + 1]. */
  method Insert(keys: array<string>, frequencies: map<string, nat>, i: nat)
    requires i < keys.Length
    requires SortedByFreq(keys[..i], frequencies)
    modifies keys
    ensures multiset(keys[..]) == multiset(old(keys[..]))
    ensures keys[i + 1..] == old(keys[i + 1..])
    ensures SortedByFreq(keys[..i + 1], frequencies)
  {
    var j := i;
    InsertStarts(keys[..], frequencies, i);
    while j > 0 && Lookup(frequencies, keys[j - 1]) < Lookup(frequencies, keys[j])
      invariant 0 <= j <= i
      invariant Sinking(keys[..], frequencies, i, j)
      invariant multiset(keys[..]) == multiset(old(keys[..]))
      invariant keys[i + 1..] == old(keys[i + 1..])
    {
      ghost var before := keys[..];
      keys[j - 1], keys[j] := keys[j], keys[j - 1];
      assert keys[..] == Swap(before, j);
      SwapKeeps(before, frequencies, i, j);
      j := j - 1;
    }
    InsertEnds(keys[..], frequencies, i, j);
  }

  /** A sequence with the elements at j - 1 and j exchanged. */
  function Swap(s: seq<string>, j: nat): (r: seq<string>)
    requires 0 < j < |s|
    ensures |r| == |s| && r[j - 1] == s[j] && r[j] == s[j - 1]
    ensures forall k :: 0 <= k < |s| && k != j - 1 && k != j ==> r[k] == s[k]
  {
    s[j - 1 := s[j]][j := s[j - 1]]
  }

  /** The state of the insertion step while the key from position i sits at
      position j: the other keys of s[..i + 1] are in order, and the moving
      key has a higher count than every key after it. */
  predicate Sinking(s: seq<string>, frequencies: map<string, nat>, i: nat, j: nat)
    requires j <= i < |s|
  {
    (forall p, q :: 0 <= p < q <= i && p != j && q != j ==>
       Lookup(frequencies, s[p]) >= Lookup(frequencies, s[q]))
    && (forall q :: j < q <= i ==> Lookup(frequencies, s[j]) > Lookup(frequencies, s[q]))
  }

  lemma InsertStarts(s: seq<string>, frequencies: map<string, nat>, i: nat)
    requires i < |s| && SortedByFreq(s[..i], frequencies)
    ensures Sinking(s, frequencies, i, i)
  {
    forall p, q | 0 <= p < q <= i && p != i && q != i
      ensures Lookup(frequencies, s[p]) >= Lookup(frequencies, s[q])
    {
      assert s[p] == s[..i][p] && s[q] == s[..i][q];
    }
  }

  lemma SwapKeeps(s: seq<string>, frequencies: map<string, nat>, i: nat, j: nat)
    requires 0 < j <= i < |s| && Sinking(s, frequencies, i, j)
    requires Lookup(frequencies, s[j - 1]) < Lookup(frequencies, s[j])
    ensures Sinking(Swap(s, j), frequencies, i, j - 1)
    ensures multiset(Swap(s, j)) == multiset(s)
    ensures Swap(s, j)[i + 1..] == s[i + 1..]
  {
    var r := Swap(s, j);
    forall p, q | 0 <= p < q <= i && p != j - 1 && q != j - 1
      ensures Lookup(frequencies, r[p]) >= Lookup(frequencies, r[q])
    {
      if p == j {
        assert r[p] == s[j - 1];
        assert Lookup(frequencies, s[j - 1]) >= Lookup(frequencies, s[q]);
      } else if q == j {
        assert r[q] == s[j - 1];
        assert Lookup(frequencies, s[p]) >= Lookup(frequencies, s[j - 1]);
      }
    }
    forall q | j - 1 < q <= i
      ensures Lookup(frequencies, r[j - 1]) > Lookup(frequencies, r[q])
    {
    }
    SwapPermutes(s, j);
  }

  lemma SwapPermutes(s: seq<string>, j: nat)
    requires 0 < j < |s|
    ensures multiset(Swap(s, j)) == multiset(s)
    ensures forall n :: j < n <= |s| ==> Swap(s, j)[n..] == s[n..]
  {
    assert s == s[..j - 1] + [s[j - 1], s[j]] + s[j + 1..];
    assert Swap(s, j) == s[..j - 1] + [s[j], s[j - 1]] + s[j + 1..];
  }

  lemma InsertEnds(s: seq<string>, frequencies: map<string, nat>, i: nat, j: nat)
    requires j <= i < |s| && Sinking(s, frequencies, i, j)
    requires j == 0 || Lookup(frequencies, s[j - 1]) >= Lookup(frequencies, s[j])
    ensures SortedByFreq(s[..i + 1], frequencies)
  {
    forall p, q | 0 <= p < q <= i
      ensures Lookup(frequencies, s[p]) >= Lookup(frequencies, s[q])
    {
      if q == j && p < j - 1 {
        assert Lookup(frequencies, s[p]) >= Lookup(frequencies, s[j - 1]);
      }
    }
  }

  /** The ranking step: collect the keys with the highest count, then sort
      them by count. */
  method RankKeys(frequencies: map<string, nat>) returns (keys: seq<string>, highestFreq: nat)
    ensures multiset(keys) == multiset(frequencies.Keys)
    ensures SortedByFreq(keys, frequencies)
    ensures highestFreq == MaxCount(frequencies)
  {
    var collected;
    collected, highestFreq := CollectKeys(frequencies);
    var sorted := new string[|collected|](i requires 0 <= i < |collected| => collected[i]);
    assert sorted[..] == collected;
    SortByFreq(sorted, frequencies);
    keys := sorted[..];
  }

  /** One pass over the map, in Go's unspecified iteration order: append
      every key, and raise highestFreq to any larger count. */
  method CollectKeys(frequencies: map<string, nat>) returns (collected: seq<string>, highestFreq: nat)
    ensures multiset(collected) == multiset(frequencies.Keys)
    ensures highestFreq == MaxCount(frequencies)
  {
    highestFreq := 0;
    collected := [];
    var rest := frequencies.Keys;
    ghost var seen: set<string> := {};
    ghost var top: string := [];
    while rest != {}
      invariant seen + rest == frequencies.Keys && seen !! rest
      invariant multiset(collected) == multiset(seen)
      invariant forall k :: k in seen ==> frequencies[k] <= highestFreq
      invariant highestFreq == 0 || (top in seen && frequencies[top] == highestFreq)
      decreases rest
    {
      var token :| token in rest;
      var freq := frequencies[token];
      CollectOne(collected, seen, token);
      collected := collected + [token];
      if freq > highestFreq {
        highestFreq := freq;
        top := token;
      }
      rest := rest - {token};
      seen := seen + {token};
    }
    MaxCountUnique(frequencies, highestFreq);
  }

  lemma CollectOne(collected: seq<string>, seen: set<string>, token: string)
    requires multiset(collected) == multiset(seen) && token !in seen
    ensures multiset(collected + [token]) == multiset(seen + {token})
  {
    assert multiset(seen + {token}) == multiset(seen) + multiset{token};
  }

  lemma {:induction false} RepeatedCountsTwice(s: seq<string>, i: nat, j: nat)
    requires i < j < |s| && s[i] == s[j]
    ensures multiset(s)[s[j]] >= 2
  {
    assert s == s[..j] + [s[j]] + s[j + 1..];
    assert s[i] in s[..j];
  }

  /** A sequence with the multiset of a table's key set lists every key
      exactly once. */
  lemma PermutationOfKeys(keys: seq<string>, m: map<string, nat>)
    requires multiset(keys) == multiset(m.Keys)
    ensures |keys| == |m|
    ensures forall k :: k in keys <==> k in m
    ensures forall i, j :: 0 <= i < j < |keys| ==> keys[i] != keys[j]
  {
    assert |multiset(keys)| == |keys|;
    assert |multiset(m.Keys)| == |m.Keys|;
    forall k
      ensures k in keys <==> k in m
    {
      assert k in keys <==> k in multiset(keys);
    }
    forall i, j | 0 <= i < j < |keys|
      ensures keys[i] != keys[j]
    {
      if keys[i] == keys[j] {
        RepeatedCountsTwice(keys, i, j);
        assert false;
      }
    }
  }

  /** In a ranking of a non-empty table, the first key has the highest count. */
  lemma FirstKeyHasHighestFreq(keys: seq<string>, m: map<string, nat>)
    requires multiset(keys) == multiset(m.Keys)
    requires SortedByFreq(keys, m)
    requires keys != []
    ensures keys[0] in m && m[keys[0]] == MaxCount(m)
  {
    PermutationOfKeys(keys, m);
    forall k | k in m
      ensures m[k] <= m[keys[0]]
    {
      var i :| 0 <= i < |keys| && keys[i] == k;
      assert i == 0 || Lookup(m, keys[0]) >= Lookup(m, keys[i]);
    }
    MaxCountUnique(m, m[keys[0]]);
  }

  /** A key whose count is higher than every other key's comes first in
      every ranking; ties are the only freedom the sort has. */
  lemma UniqueTopHeadsRanking(keys: seq<string>, m: map<string, nat>, top: string)
    requires multiset(keys) == multiset(m.Keys)
    requires SortedByFreq(keys, m)
    requires top in m
    requires forall k :: k in m && k != top ==> m[k] < m[top]
    ensures keys != [] && keys[0] == top
  {
    PermutationOfKeys(keys, m);
    var i :| 0 <= i < |keys| && keys[i] == top;
    assert keys[0] in m;
    assert Lookup(m, keys[0]) >= Lookup(m, keys[i]);
  }
}
