/** `countFreq`: a frequency table of a word list, most frequent first, cut by a minimum
    count and a maximum length. */
module Frequency {
  import opened Seqs

  /** A key with its count, as `Object.entries(count)` yields it. */
  type Entry = (string, nat)

  /** How often `x` occurs in `arr`. */
  function Occurrences(arr: seq<string>, x: string): nat
  {
    multiset(arr)[x]
  }

  /** The distinct elements of `arr` in order of first occurrence: the order in which the
      keys enter the `count` object, which is the order `Object.entries` lists them in. */
  function FirstOccurrences(arr: seq<string>): (keys: seq<string>)
    ensures Distinct(keys)
    ensures forall i :: 0 <= i < |keys| ==> keys[i] in arr
    ensures forall i :: 0 <= i < |arr| ==> arr[i] in keys
  {
    if arr == [] then []
    else
      var keys := FirstOccurrences(arr[..|arr| - 1]);
      var last := arr[|arr| - 1];
      if last in keys then keys else keys + [last]
  }

  /** The keys come in order of first occurrence: every key listed before another one occurs
      in `arr` before any occurrence of that other key. */
  lemma {:induction false} FirstOccurrencesOrder(arr: seq<string>)
    ensures forall i, j, k ::
      (0 <= i < j < |FirstOccurrences(arr)| && 0 <= k < |arr| && arr[k] == FirstOccurrences(arr)[j])
      ==> FirstOccurrences(arr)[i] in arr[..k]
  {
    if arr != [] {
      var init, last := arr[..|arr| - 1], arr[|arr| - 1];
      var prev, keys := FirstOccurrences(init), FirstOccurrences(arr);
      FirstOccurrencesOrder(init);
      forall i, j, k | 0 <= i < j < |keys| && 0 <= k < |arr| && arr[k] == keys[j]
        ensures keys[i] in arr[..k]
      {
        assert keys[i] == prev[i];
        if k < |arr| - 1 {
          assert arr[k] == init[k] && arr[..k] == init[..k];
          assert keys[j] == prev[j];
        } else {
          assert arr[..k] == init;
        }
      }
    }
  }

  /** `Object.entries(count)` once every element has been counted. */
  function Tally(arr: seq<string>): seq<Entry>
  {
    var keys := FirstOccurrences(arr);
    seq(|keys|, i requires 0 <= i < |keys| => (keys[i], Occurrences(arr, keys[i])))
  }

  /** Order of the comparator `(a, b) => b[1] - a[1]`: larger counts first. */
  predicate FreqOrder(a: Entry, b: Entry)
  {
    a.1 >= b.1
  }

  predicate KeyDiffers(a: Entry, b: Entry)
  {
    a.0 != b.0
  }

  /** Insert into a list sorted by descending count, after the entries with a strictly
      larger count and before those with an equal one. */
  function Insert(e: Entry, sorted: seq<Entry>): seq<Entry>
  {
    if sorted == [] then [e]
    else if sorted[0].1 > e.1 then [sorted[0]] + Insert(e, sorted[1..])
    else [e] + sorted
  }

  /** `Array.prototype.sort` with the comparator `(a, b) => b[1] - a[1]`, which is stable:
      an insertion sort that puts each entry before the later entries of equal count. */
  function SortByFreq(entries: seq<Entry>): seq<Entry>
  {
    if entries == [] then [] else Insert(entries[0], SortByFreq(entries[1..]))
  }

  function Above(min: int): Entry -> bool
  {
    (e: Entry) => e.1 > min
  }

  function HasFreq(c: nat): Entry -> bool
  {
    (e: Entry) => e.1 == c
  }

  /** `slice(0, n)`. */
  function Take<T>(s: seq<T>, n: nat): (r: seq<T>)
    ensures |r| <= n && r <= s
    ensures |s| <= n ==> r == s
  {
    if |s| <= n then s else s[..n]
  }

  /** What `countFreq(arr, min, n)` returns: sort by descending count, keep the counts above
      `min`, keep the first `n`. */
  function Top(arr: seq<string>, min: int, n: nat): seq<Entry>
  {
    Take(Filter(SortByFreq(Tally(arr)), Above(min)), n)
  }

  lemma {:induction false} InsertPermutes(e: Entry, sorted: seq<Entry>)
    ensures multiset(Insert(e, sorted)) == multiset(sorted) + multiset{e}
  {
    if sorted != [] && sorted[0].1 > e.1 {
      var tail := sorted[1..];
      InsertPermutes(e, tail);
      calc {
        multiset(Insert(e, sorted));
        multiset([sorted[0]] + Insert(e, tail));
        multiset([sorted[0]]) + multiset(Insert(e, tail));
        multiset([sorted[0]]) + multiset(tail) + multiset{e};
        { assert sorted == [sorted[0]] + tail; }
        multiset(sorted) + multiset{e};
      }
    }
  }

  /** Every count in `s` is at most `b`. */
  predicate CountsAtMost(s: seq<Entry>, b: nat)
  {
    forall i :: 0 <= i < |s| ==> s[i].1 <= b
  }

  /** No entry of `s` has the key `key`. */
  predicate KeysAvoid(s: seq<Entry>, key: string)
  {
    forall i :: 0 <= i < |s| ==> s[i].0 != key
  }

  lemma {:induction false} InsertCountsAtMost(e: Entry, sorted: seq<Entry>, b: nat)
    requires e.1 <= b && CountsAtMost(sorted, b)
    ensures CountsAtMost(Insert(e, sorted), b)
  {
    if sorted != [] && sorted[0].1 > e.1 {
      InsertCountsAtMost(e, sorted[1..], b);
      var rest := Insert(e, sorted[1..]);
      var r := Insert(e, sorted);
      assert r == [sorted[0]] + rest;
      forall i | 0 < i < |r|
        ensures r[i].1 <= b
      {
        assert r[i] == rest[i - 1];
      }
    }
  }

  lemma {:induction false} InsertKeysAvoid(e: Entry, sorted: seq<Entry>, key: string)
    requires e.0 != key && KeysAvoid(sorted, key)
    ensures KeysAvoid(Insert(e, sorted), key)
  {
    if sorted != [] && sorted[0].1 > e.1 {
      InsertKeysAvoid(e, sorted[1..], key);
      var rest := Insert(e, sorted[1..]);
      var r := Insert(e, sorted);
      assert r == [sorted[0]] + rest;
      forall i | 0 < i < |r|
        ensures r[i].0 != key
      {
        assert r[i] == rest[i - 1];
      }
    }
  }

  lemma {:induction false} InsertSorted(e: Entry, sorted: seq<Entry>)
    requires Pairwise(sorted, FreqOrder)
    ensures Pairwise(Insert(e, sorted), FreqOrder)
  {
    if sorted != [] {
      var tail := sorted[1..];
      PairwiseTail(sorted, FreqOrder);
      assert CountsAtMost(tail, sorted[0].1) by {
        forall i | 0 <= i < |tail|
          ensures tail[i].1 <= sorted[0].1
        {
          assert FreqOrder(sorted[0], sorted[i + 1]);
        }
      }
      var r := Insert(e, sorted);
      if sorted[0].1 > e.1 {
        InsertSorted(e, tail);
        InsertCountsAtMost(e, tail, sorted[0].1);
        var rest := Insert(e, tail);
        assert r == [sorted[0]] + rest;
        forall i, j | 0 <= i < j < |r|
          ensures FreqOrder(r[i], r[j])
        {
          assert r[j] == rest[j - 1];
          if i > 0 {
            assert r[i] == rest[i - 1];
          }
        }
      } else {
        assert r == [e] + sorted;
        forall i, j | 0 <= i < j < |r|
          ensures FreqOrder(r[i], r[j])
        {
          assert r[j] == sorted[j - 1];
          if i > 0 {
            assert r[i] == sorted[i - 1];
          } else if j > 1 {
            assert FreqOrder(sorted[0], sorted[j - 1]);
          }
        }
      }
    }
  }

  /** The sort orders by descending count and is a permutation of its input. */
  lemma {:induction false} SortByFreqSortsAndPermutes(entries: seq<Entry>)
    ensures Pairwise(SortByFreq(entries), FreqOrder)
    ensures multiset(SortByFreq(entries)) == multiset(entries)
  {
    if entries != [] {
      SortByFreqSortsAndPermutes(entries[1..]);
      InsertSorted(entries[0], SortByFreq(entries[1..]));
      InsertPermutes(entries[0], SortByFreq(entries[1..]));
      assert entries == [entries[0]] + entries[1..];
    }
  }

  lemma {:induction false} InsertStable(e: Entry, sorted: seq<Entry>, c: nat)
    ensures Filter(Insert(e, sorted), HasFreq(c))
      == (if e.1 == c then [e] else []) + Filter(sorted, HasFreq(c))
  {
    if sorted != [] && sorted[0].1 > e.1 {
      var t, tail := sorted[0], sorted[1..];
      var rest := Insert(e, tail);
      InsertStable(e, tail, c);
      assert ([t] + rest)[0] == t && ([t] + rest)[1..] == rest;
      if t.1 == c {
        assert e.1 != c;
        assert Filter(Insert(e, sorted), HasFreq(c)) == [t] + Filter(tail, HasFreq(c));
      } else {
        assert Filter(Insert(e, sorted), HasFreq(c)) == Filter(rest, HasFreq(c));
      }
    } else {
      assert ([e] + sorted)[0] == e && ([e] + sorted)[1..] == sorted;
    }
  }

  /** The sort is stable: the entries of any one count keep their input order. */
  lemma {:induction false} SortByFreqStable(entries: seq<Entry>, c: nat)
    ensures Filter(SortByFreq(entries), HasFreq(c)) == Filter(entries, HasFreq(c))
  {
    if entries != [] {
      SortByFreqStable(entries[1..], c);
      InsertStable(entries[0], SortByFreq(entries[1..]), c);
    }
  }

  lemma {:induction false} InsertKeysDiffer(e: Entry, sorted: seq<Entry>)
    requires Pairwise(sorted, KeyDiffers) && KeysAvoid(sorted, e.0)
    ensures Pairwise(Insert(e, sorted), KeyDiffers)
  {
    var r := Insert(e, sorted);
    if sorted != [] && sorted[0].1 > e.1 {
      var tail := sorted[1..];
      PairwiseTail(sorted, KeyDiffers);
      assert KeysAvoid(tail, sorted[0].0) by {
        forall i | 0 <= i < |tail|
          ensures tail[i].0 != sorted[0].0
        {
          assert KeyDiffers(sorted[0], sorted[i + 1]);
        }
      }
      InsertKeysDiffer(e, tail);
      InsertKeysAvoid(e, tail, sorted[0].0);
      var rest := Insert(e, tail);
      assert r == [sorted[0]] + rest;
      forall i, j | 0 <= i < j < |r|
        ensures KeyDiffers(r[i], r[j])
      {
        assert r[j] == rest[j - 1];
        if i > 0 {
          assert r[i] == rest[i - 1];
        }
      }
    } else {
      assert r == [e] + sorted;
      forall i, j | 0 <= i < j < |r|
        ensures KeyDiffers(r[i], r[j])
      {
        assert r[j] == sorted[j - 1];
        if i > 0 {
          assert r[i] == sorted[i - 1];
        }
      }
    }
  }

  lemma {:induction false} SortByFreqKeysAvoid(entries: seq<Entry>, key: string)
    requires KeysAvoid(entries, key)
    ensures KeysAvoid(SortByFreq(entries), key)
  {
    if entries != [] {
      SortByFreqKeysAvoid(entries[1..], key);
      InsertKeysAvoid(entries[0], SortByFreq(entries[1..]), key);
    }
  }

  /** Sorting keeps the keys distinct. */
  lemma {:induction false} SortByFreqKeysDiffer(entries: seq<Entry>)
    requires Pairwise(entries, KeyDiffers)
    ensures Pairwise(SortByFreq(entries), KeyDiffers)
  {
    if entries != [] {
      var tail := entries[1..];
      PairwiseTail(entries, KeyDiffers);
      SortByFreqKeysDiffer(tail);
      assert KeysAvoid(tail, entries[0].0) by {
        forall i | 0 <= i < |tail|
          ensures tail[i].0 != entries[0].0
        {
          assert KeyDiffers(entries[0], entries[i + 1]);
        }
      }
      SortByFreqKeysAvoid(tail, entries[0].0);
      InsertKeysDiffer(entries[0], SortByFreq(tail));
    }
  }

  /** Each entry of the tally pairs a key of `arr` with its number of occurrences, once per key. */
  lemma TallyEntries(arr: seq<string>)
    ensures Pairwise(Tally(arr), KeyDiffers)
    ensures forall i :: 0 <= i < |Tally(arr)| ==>
      Tally(arr)[i].0 in arr && Tally(arr)[i].1 == Occurrences(arr, Tally(arr)[i].0)
  {
  }

  /** Every element of `arr` has its entry in the tally, and the entries come in order of
      first occurrence. */
  lemma TallyCovers(arr: seq<string>)
    ensures forall k :: 0 <= k < |arr| ==> exists i :: 0 <= i < |Tally(arr)| && Tally(arr)[i].0 == arr[k]
    ensures forall i, j, k ::
      (0 <= i < j < |Tally(arr)| && 0 <= k < |arr| && arr[k] == Tally(arr)[j].0)
      ==> Tally(arr)[i].0 in arr[..k]
  {
    var keys := FirstOccurrences(arr);
    FirstOccurrencesOrder(arr);
    assert |Tally(arr)| == |keys| && forall i :: 0 <= i < |keys| ==> Tally(arr)[i].0 == keys[i];
    forall k | 0 <= k < |arr|
      ensures exists i :: 0 <= i < |Tally(arr)| && Tally(arr)[i].0 == arr[k]
    {
      var i :| 0 <= i < |keys| && keys[i] == arr[k];
      assert Tally(arr)[i].0 == arr[k];
    }
  }

  /** The sorted tally: descending counts, distinct keys, each a key of `arr` with its count. */
  lemma SortedTally(arr: seq<string>)
    ensures Pairwise(SortByFreq(Tally(arr)), FreqOrder)
    ensures Pairwise(SortByFreq(Tally(arr)), KeyDiffers)
    ensures forall i :: 0 <= i < |SortByFreq(Tally(arr))| ==>
      SortByFreq(Tally(arr))[i].0 in arr
      && SortByFreq(Tally(arr))[i].1 == Occurrences(arr, SortByFreq(Tally(arr))[i].0)
  {
    var entries := Tally(arr);
    TallyEntries(arr);
    var sorted := SortByFreq(entries);
    SortByFreqSortsAndPermutes(entries);
    SortByFreqKeysDiffer(entries);
    forall i | 0 <= i < |sorted|
      ensures sorted[i].0 in arr && sorted[i].1 == Occurrences(arr, sorted[i].0)
    {
      assert sorted[i] in multiset(entries);
    }
  }

  /** A prefix keeps a pairwise relation. */
  lemma PrefixPairwise<T>(s: seq<T>, r: seq<T>, R: (T, T) -> bool)
    requires Pairwise(s, R) && r <= s
    ensures Pairwise(r, R)
  {
    forall i, j | 0 <= i < j < |r|
      ensures R(r[i], r[j])
    {
      assert r[i] == s[i] && r[j] == s[j];
    }
  }

  /** The properties of `countFreq`'s answer: distinct keys of `arr`, each with its number of
      occurrences, that number above `min`, in descending order of count, at most `n` entries. */
  lemma TopProperties(arr: seq<string>, min: int, n: nat)
    ensures |Top(arr, min, n)| <= n
    ensures Pairwise(Top(arr, min, n), KeyDiffers)
    ensures Pairwise(Top(arr, min, n), FreqOrder)
    ensures forall i :: 0 <= i < |Top(arr, min, n)| ==>
      Top(arr, min, n)[i].0 in arr && Top(arr, min, n)[i].1 == Occurrences(arr, Top(arr, min, n)[i].0)
      && Top(arr, min, n)[i].1 > min
  {
    var sorted := SortByFreq(Tally(arr));
    SortedTally(arr);
    var kept := Filter(sorted, Above(min));
    FilterMembers(sorted, Above(min));
    FilterPairwise(sorted, Above(min), FreqOrder);
    FilterPairwise(sorted, Above(min), KeyDiffers);
    var r := Top(arr, min, n);
    PrefixPairwise(kept, r, FreqOrder);
    PrefixPairwise(kept, r, KeyDiffers);
    forall i | 0 <= i < |r|
      ensures r[i].0 in arr && r[i].1 == Occurrences(arr, r[i].0) && r[i].1 > min
    {
      assert r[i] == kept[i];
    }
  }

  /** Every element counted more than `min` times has its entry among the sorted, filtered ones. */
  lemma FrequentIsKept(arr: seq<string>, min: int, x: string)
    requires x in arr && Occurrences(arr, x) > min
    ensures (x, Occurrences(arr, x)) in Filter(SortByFreq(Tally(arr)), Above(min))
  {
    var entries := Tally(arr);
    var e := (x, Occurrences(arr, x));
    var keys := FirstOccurrences(arr);
    var k :| 0 <= k < |keys| && keys[k] == x;
    assert entries[k] == e;
    var sorted := SortByFreq(entries);
    SortByFreqSortsAndPermutes(entries);
    assert e in multiset(sorted);
    var j :| 0 <= j < |sorted| && sorted[j] == e;
    FilterMembers(sorted, Above(min));
  }

  /** Nothing above `min` is missing unless the table is full and everything in it is at
      least as frequent: the answer really is the top of the table. */
  lemma TopIsComplete(arr: seq<string>, min: int, n: nat, x: string)
    requires x in arr && Occurrences(arr, x) > min
    requires forall i :: 0 <= i < |Top(arr, min, n)| ==> Top(arr, min, n)[i].0 != x
    ensures |Top(arr, min, n)| == n
    ensures forall i :: 0 <= i < n ==> Top(arr, min, n)[i].1 >= Occurrences(arr, x)
  {
    var e := (x, Occurrences(arr, x));
    var sorted := SortByFreq(Tally(arr));
    var kept := Filter(sorted, Above(min));
    FrequentIsKept(arr, min, x);
    SortByFreqSortsAndPermutes(Tally(arr));
    FilterPairwise(sorted, Above(min), FreqOrder);
    var p :| 0 <= p < |kept| && kept[p] == e;
    var r := Top(arr, min, n);
    assert forall i :: 0 <= i < |kept| && i < n ==> r[i] == kept[i];
    assert r == kept[..n];
  }

  /** `count` and `keys` are the dictionary and its key order once `prefix` has been counted. */
  ghost predicate CountedUpTo(count: map<string, nat>, keys: seq<string>, prefix: seq<string>)
  {
    && keys == FirstOccurrences(prefix)
    && (forall k :: k in count <==> k in keys)
    && (forall k :: k in count ==> count[k] == Occurrences(prefix, k))
  }

  /** Counting one more element: its key is added on first sight, and only its count grows. */
  lemma CountStep(arr: seq<string>, i: nat, count: map<string, nat>, keys: seq<string>)
    requires i < |arr| && CountedUpTo(count, keys, arr[..i])
    ensures arr[i] in count ==> CountedUpTo(count[arr[i] := count[arr[i]] + 1], keys, arr[..i + 1])
    ensures arr[i] !in count ==> CountedUpTo(count[arr[i] := 1], keys + [arr[i]], arr[..i + 1])
  {
    assert arr[..i + 1] == arr[..i] + [arr[i]];
    assert arr[..i + 1][..i] == arr[..i];
  }

  /** `arr.forEach(e => count[e] = (count[e] || 0) + 1)`: the dictionary of counts, with its keys
      in the order they were added. */
  method CountOccurrences(arr: seq<string>) returns (count: map<string, nat>, keys: seq<string>)
    ensures keys == FirstOccurrences(arr)
    ensures forall k :: k in count <==> k in keys
    ensures forall k :: k in count ==> count[k] == Occurrences(arr, k)
  {
    count := map[];
    keys := [];
    for i := 0 to |arr|
      invariant CountedUpTo(count, keys, arr[..i])
    {
      CountStep(arr, i, count, keys);
      var e := arr[i];
      if e in count {
        count := count[e := count[e] + 1];
      } else {
        count := count[e := 1];
        keys := keys + [e];
      }
    }
    assert arr[..|arr|] == arr;
  }

  /** `countFreq(arr, min, n)`: count every element into a dictionary, then list its entries by
      descending count, keep those counted more than `min` times, and return the first `n`. */
  method CountFreq(arr: seq<string>, min: int, n: nat) returns (table: seq<Entry>)
    ensures table == Top(arr, min, n)
    ensures |table| <= n
    ensures Pairwise(table, KeyDiffers) && Pairwise(table, FreqOrder)
    ensures forall i :: 0 <= i < |table| ==>
      table[i].0 in arr && table[i].1 == Occurrences(arr, table[i].0) && table[i].1 > min
  {
    var count, keys := CountOccurrences(arr);
    var entries := seq(|keys|, j requires 0 <= j < |keys| => (keys[j], count[keys[j]]));
    assert entries == Tally(arr);
    table := Take(Filter(SortByFreq(entries), Above(min)), n);
    TopProperties(arr, min, n);
  }
}
