/** Ordering table rows by a character key, as DataFrame.sort_values does on
    the residue column. The keys of the tables are unique, so the result is the
    only strictly ascending arrangement of the rows, whatever sort algorithm
    is used (SortedUnique). */
module Sorting {

  predicate StrictlySorted<R>(xs: seq<R>, key: R -> char) {
    forall i, j :: 0 <= i < j < |xs| ==> key(xs[i]) < key(xs[j])
  }

  predicate DistinctKeys<R>(xs: seq<R>, key: R -> char) {
    forall i, j :: 0 <= i < j < |xs| ==> key(xs[i]) != key(xs[j])
  }

  /** The key column of a sequence of rows. */
  function Keys<R>(xs: seq<R>, key: R -> char): (ks: seq<char>)
    ensures |ks| == |xs|
    ensures forall i :: 0 <= i < |xs| ==> ks[i] == key(xs[i])
  {
    if xs == [] then [] else [key(xs[0])] + Keys(xs[1..], key)
  }

  /** Inserts x before the first element with a larger key. */
  function Insert<R>(x: R, xs: seq<R>, key: R -> char): (r: seq<R>)
    ensures multiset(r) == multiset(xs) + multiset{x}
  {
    if xs == [] then [x]
    else if key(x) < key(xs[0]) then [x] + xs
    else
      assert xs == [xs[0]] + xs[1..];
      [xs[0]] + Insert(x, xs[1..], key)
  }

  /** Insertion sort by key. */
  function Sort<R>(xs: seq<R>, key: R -> char): (r: seq<R>)
    ensures multiset(r) == multiset(xs)
  {
    if xs == [] then []
    else
      assert xs == [xs[0]] + xs[1..];
      Insert(xs[0], Sort(xs[1..], key), key)
  }

  /** Inserting an element whose key is new keeps a sequence strictly sorted. */
  lemma {:induction false} InsertSorted<R>(x: R, xs: seq<R>, key: R -> char)
    requires StrictlySorted(xs, key)
    requires forall y :: y in xs ==> key(y) != key(x)
    ensures StrictlySorted(Insert(x, xs, key), key)
  {
    if xs != [] && !(key(x) < key(xs[0])) {
      var rest := Insert(x, xs[1..], key);
      assert forall y :: y in xs[1..] ==> y in xs;
      InsertSorted(x, xs[1..], key);
      forall j | 0 <= j < |rest| ensures key(xs[0]) < key(rest[j]) {
        assert rest[j] in multiset(rest);
        if rest[j] != x {
          assert rest[j] in multiset(xs[1..]);
          var k :| 0 <= k < |xs[1..]| && xs[1..][k] == rest[j];
          assert xs[k + 1] == rest[j];
        }
      }
    }
  }

  /** Sorting rows whose keys are distinct gives a strictly ascending sequence. */
  lemma {:induction false} SortSorted<R>(xs: seq<R>, key: R -> char)
    requires DistinctKeys(xs, key)
    ensures StrictlySorted(Sort(xs, key), key)
  {
    if xs != [] {
      var tail := Sort(xs[1..], key);
      SortSorted(xs[1..], key);
      forall y | y in tail ensures key(y) != key(xs[0]) {
        assert y in multiset(xs[1..]);
        var k :| 0 <= k < |xs[1..]| && xs[1..][k] == y;
        assert xs[k + 1] == y;
      }
      InsertSorted(xs[0], tail, key);
    }
  }

  /** Two strictly ascending arrangements of the same rows are the same
      sequence: the sorted table does not depend on the sort algorithm. */
  lemma {:induction false} SortedUnique<R>(a: seq<R>, b: seq<R>, key: R -> char)
    requires StrictlySorted(a, key) && StrictlySorted(b, key)
    requires multiset(a) == multiset(b)
    ensures a == b
  {
    if a == [] {
      assert |b| == |multiset(b)| == 0;
    } else {
      HeadsEqual(a, b, key);
      TailsPermutation(a, b);
      SortedTail(a, key);
      SortedTail(b, key);
      SortedUnique(a[1..], b[1..], key);
      assert a == [a[0]] + a[1..] && b == [b[0]] + b[1..];
    }
  }

  /** Two strictly ascending arrangements of the same non-empty rows start
      with the same row: the one with the least key. */
  lemma HeadsEqual<R>(a: seq<R>, b: seq<R>, key: R -> char)
    requires StrictlySorted(a, key) && StrictlySorted(b, key)
    requires multiset(a) == multiset(b) && a != []
    ensures b != [] && a[0] == b[0]
  {
    assert a[0] in multiset(b);
    var i :| 0 <= i < |b| && b[i] == a[0];
    assert b[0] in multiset(a);
    var j :| 0 <= j < |a| && a[j] == b[0];
    assert key(b[0]) <= key(a[0]);
    assert key(a[0]) <= key(b[0]);
    assert i == 0;
  }

  lemma TailsPermutation<R>(a: seq<R>, b: seq<R>)
    requires multiset(a) == multiset(b) && a != [] && b != [] && a[0] == b[0]
    ensures multiset(a[1..]) == multiset(b[1..])
  {
    assert a == [a[0]] + a[1..];
    assert b == [b[0]] + b[1..];
    assert multiset(a[1..]) == multiset(a) - multiset{a[0]};
    assert multiset(b[1..]) == multiset(b) - multiset{a[0]};
  }

  lemma SortedTail<R>(a: seq<R>, key: R -> char)
    requires StrictlySorted(a, key) && a != []
    ensures StrictlySorted(a[1..], key)
  {
  }
}
