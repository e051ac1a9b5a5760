/**
 * The contract of Go's `sort.Strings` and `sort.Slice` as the gateway uses
 * them: order a sequence by a string key under byte-wise `<`. Neither library
 * sort is stable, so callers may rely only on "sorted by the key" and "a
 * permutation of the input"; `SortBy` is one function with those two
 * properties (an insertion sort).
 */
module Sorting {
  import opened Text

  /** Every element's key is `Leq` the key of every later element. */
  ghost predicate SortedBy<T>(s: seq<T>, key: T -> string)
  {
    forall i, j :: 0 <= i < j < |s| ==> Leq(key(s[i]), key(s[j]))
  }

  function Insert<T>(x: T, s: seq<T>, key: T -> string): seq<T>
  {
    if s == [] then [x]
    else if Leq(key(x), key(s[0])) then [x] + s
    else [s[0]] + Insert(x, s[1..], key)
  }

  function SortBy<T>(s: seq<T>, key: T -> string): seq<T>
  {
    if s == [] then [] else Insert(s[0], SortBy(s[1..], key), key)
  }

  lemma {:induction false} InsertPermutes<T>(x: T, s: seq<T>, key: T -> string)
    ensures multiset(Insert(x, s, key)) == multiset(s) + multiset{x}
  {
    if s != [] && !Leq(key(x), key(s[0])) {
      InsertPermutes(x, s[1..], key);
      assert s == [s[0]] + s[1..];
    }
  }

  lemma {:induction false} InsertSorted<T>(x: T, s: seq<T>, key: T -> string)
    requires SortedBy(s, key)
    ensures SortedBy(Insert(x, s, key), key)
  {
    var r := Insert(x, s, key);
    if s == [] {
    } else if Leq(key(x), key(s[0])) {
      forall i, j | 0 <= i < j < |r| ensures Leq(key(r[i]), key(r[j])) {
        if i == 0 && j > 1 {
          LeqTransitive(key(x), key(s[0]), key(s[j - 1]));
        }
      }
    } else {
      InsertSorted(x, s[1..], key);
      InsertPermutes(x, s[1..], key);
      LeqTotal(key(x), key(s[0]));
      var tail := Insert(x, s[1..], key);
      assert r == [s[0]] + tail;
      forall j | 0 <= j < |tail| ensures Leq(key(s[0]), key(tail[j])) {
        assert tail[j] in multiset(tail);
        assert tail[j] in multiset(s[1..]) + multiset{x};
        if tail[j] != x {
          assert tail[j] in s[1..];
          var k :| 0 <= k < |s[1..]| && s[1..][k] == tail[j];
          assert s[k + 1] == tail[j];
        }
      }
    }
  }

  /** `SortBy` returns a permutation of its input, sorted by the key. */
  lemma {:induction false} SortByCorrect<T>(s: seq<T>, key: T -> string)
    ensures |SortBy(s, key)| == |s|
    ensures multiset(SortBy(s, key)) == multiset(s)
    ensures SortedBy(SortBy(s, key), key)
  {
    if s != [] {
      SortByCorrect(s[1..], key);
      InsertPermutes(s[0], SortBy(s[1..], key), key);
      InsertSorted(s[0], SortBy(s[1..], key), key);
      assert s == [s[0]] + s[1..];
      assert |SortBy(s, key)| == |multiset(SortBy(s, key))|;
    }
  }
}
