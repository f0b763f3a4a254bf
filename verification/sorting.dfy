/** Python's `sorted(xs, key=...)` for a string-valued key: a stable sort.
    The model is a functional insertion sort; the uniqueness lemma at the end
    shows that any other stable sort produces the very same sequence. */
module Sorting {
  import opened Strings

  /** `s` is in ascending order of `key`. */
  predicate SortedBy<T>(s: seq<T>, key: T -> string)
  {
    forall i, j | 0 <= i < j < |s| :: AtMost(key(s[i]), key(s[j]))
  }

  lemma SortedAt<T>(s: seq<T>, key: T -> string, i: nat, j: nat)
    requires SortedBy(s, key) && i <= j < |s|
    ensures AtMost(key(s[i]), key(s[j]))
  {
  }

  /** The elements of `s` whose key is `k`, in their order in `s`. */
  function Having<T>(s: seq<T>, key: T -> string, k: string): seq<T>
  {
    if |s| == 0 then []
    else (if key(s[0]) == k then [s[0]] else []) + Having(s[1..], key, k)
  }

  lemma {:induction false} HavingConcat<T>(a: seq<T>, b: seq<T>, key: T -> string, k: string)
    ensures Having(a + b, key, k) == Having(a, key, k) + Having(b, key, k)
    decreases |a|
  {
    if |a| == 0 {
      assert a + b == b;
    } else {
      var p := if key(a[0]) == k then [a[0]] else [];
      assert (a + b)[0] == a[0];
      assert (a + b)[1..] == a[1..] + b;
      HavingConcat(a[1..], b, key, k);
      calc {
        Having(a + b, key, k);
        p + Having(a[1..] + b, key, k);
        p + (Having(a[1..], key, k) + Having(b, key, k));
        (p + Having(a[1..], key, k)) + Having(b, key, k);
      }
    }
  }

  /** Every element `Having` returns has key `k`, and it returns the elements
      of `s` with that key, all of them. */
  lemma {:induction false} HavingExactly<T>(s: seq<T>, key: T -> string, k: string)
    ensures forall x | x in Having(s, key, k) :: x in s && key(x) == k
    ensures forall i | 0 <= i < |s| && key(s[i]) == k :: s[i] in Having(s, key, k)
    ensures |Having(s, key, k)| <= |s|
  {
    if |s| > 0 {
      HavingExactly(s[1..], key, k);
      assert forall i | 1 <= i < |s| :: s[i] == s[1..][i - 1];
    }
  }

  /** Place `x` before the first element whose key is not below `key(x)`. */
  function Insert<T>(x: T, s: seq<T>, key: T -> string): seq<T>
  {
    if |s| == 0 then [x]
    else if AtMost(key(x), key(s[0])) then [x] + s
    else [s[0]] + Insert(x, s[1..], key)
  }

  lemma {:induction false} InsertMultiset<T>(x: T, s: seq<T>, key: T -> string)
    ensures multiset(Insert(x, s, key)) == multiset(s) + multiset{x}
  {
    if |s| > 0 && !AtMost(key(x), key(s[0])) {
      InsertMultiset(x, s[1..], key);
      assert s == [s[0]] + s[1..];
    }
  }

  lemma {:induction false} InsertSorted<T>(x: T, s: seq<T>, key: T -> string)
    requires SortedBy(s, key)
    ensures SortedBy(Insert(x, s, key), key)
  {
    var r := Insert(x, s, key);
    if |s| == 0 {
    } else if AtMost(key(x), key(s[0])) {
      assert r == [x] + s;
      forall i, j | 0 <= i < j < |r|
        ensures AtMost(key(r[i]), key(r[j]))
      {
        if i == 0 {
          AtMostTotalOrder(key(x), key(s[0]), key(s[j - 1]));
        }
      }
    } else {
      var t := Insert(x, s[1..], key);
      InsertSorted(x, s[1..], key);
      InsertMultiset(x, s[1..], key);
      assert r == [s[0]] + t;
      AtMostTotalOrder(key(x), key(s[0]), key(s[0]));
      forall j | 0 < j < |r|
        ensures AtMost(key(s[0]), key(r[j]))
      {
        var y := r[j];
        assert y in multiset(t);
        if y != x {
          assert y in multiset(s[1..]);
          var m :| 0 <= m < |s[1..]| && s[1..][m] == y;
          assert s[m + 1] == y;
        }
      }
    }
  }

  lemma {:induction false} InsertHaving<T>(x: T, s: seq<T>, key: T -> string, k: string)
    ensures !SortedBy(s, key) || Having(Insert(x, s, key), key, k)
                                 == (if key(x) == k then [x] else []) + Having(s, key, k)
  {
    if |s| > 0 && SortedBy(s, key) && !AtMost(key(x), key(s[0])) {
      assert SortedBy(s[1..], key);
      InsertHaving(x, s[1..], key, k);
      if key(x) == k && key(s[0]) == k {
        BelowIrreflexive(k);
      }
    }
  }

  /** Python's `sorted(s, key=key)`: a stable sort into ascending key order. */
  function StableSort<T>(s: seq<T>, key: T -> string): (r: seq<T>)
    ensures SortedBy(r, key)
    ensures multiset(r) == multiset(s)
    ensures forall k :: Having(r, key, k) == Having(s, key, k)
  {
    if |s| == 0 then []
    else
      var rest := StableSort(s[1..], key);
      InsertStep(s[0], rest, key);
      assert s == [s[0]] + s[1..];
      Insert(s[0], rest, key)
  }

  /** Inserting into a sorted sequence keeps it sorted, adds `x` to its
      elements, and puts `x` first among those of its key. */
  lemma InsertStep<T>(x: T, s: seq<T>, key: T -> string)
    requires SortedBy(s, key)
    ensures SortedBy(Insert(x, s, key), key)
    ensures multiset(Insert(x, s, key)) == multiset{x} + multiset(s)
    ensures forall k :: Having(Insert(x, s, key), key, k) == (if key(x) == k then [x] else []) + Having(s, key, k)
  {
    InsertSorted(x, s, key);
    InsertMultiset(x, s, key);
    forall k
      ensures Having(Insert(x, s, key), key, k) == (if key(x) == k then [x] else []) + Having(s, key, k)
    {
      InsertHaving(x, s, key, k);
    }
  }

  /** In a sorted sequence an element with a smaller key comes earlier. */
  lemma SortedBelowOrder<T>(s: seq<T>, key: T -> string, i: nat, j: nat)
    requires SortedBy(s, key) && i < |s| && j < |s|
    requires Below(key(s[i]), key(s[j]))
    ensures i < j
  {
    if j <= i {
      SortedAt(s, key, j, i);
      BelowTrichotomy(key(s[i]), key(s[j]));
      assert false;
    }
  }

  /** A sorted sequence begins with its least key. */
  lemma {:induction false} HeadIsLeast<T>(s: seq<T>, key: T -> string, k: string)
    requires SortedBy(s, key) && |Having(s, key, k)| > 0
    ensures AtMost(key(s[0]), k)
  {
    HavingExactly(s, key, k);
    var x := Having(s, key, k)[0];
    assert x in Having(s, key, k);
    var i :| 0 <= i < |s| && s[i] == x;
    if i > 0 {
      assert AtMost(key(s[0]), key(s[i]));
    }
  }

  lemma HeadHasItsKey<T>(s: seq<T>, key: T -> string)
    ensures |s| > 0 ==> Having(s, key, key(s[0])) != []
  {
  }

  /** A stable sort is unique: two sorted sequences that hold the same
      elements of each key, in the same order, are equal. */
  lemma {:induction false} StableSortUnique<T>(a: seq<T>, b: seq<T>, key: T -> string)
    requires SortedBy(a, key) && SortedBy(b, key)
    requires forall k :: Having(a, key, k) == Having(b, key, k)
    ensures a == b
    decreases |a|
  {
    if |a| == 0 || |b| == 0 {
      HeadHasItsKey(a, key);
      HeadHasItsKey(b, key);
    } else {
      var ka, kb := key(a[0]), key(b[0]);
      assert |Having(a, key, ka)| > 0 && |Having(b, key, kb)| > 0;
      HeadIsLeast(a, key, kb);
      HeadIsLeast(b, key, ka);
      AtMostTotalOrder(ka, kb, ka);
      assert ka == kb;
      assert Having(a, key, ka) == Having(b, key, ka);
      assert Having(a, key, ka)[0] == a[0];
      assert Having(b, key, ka)[0] == b[0];
      forall k
        ensures Having(a[1..], key, k) == Having(b[1..], key, k)
      {
        var p := if ka == k then [a[0]] else [];
        assert Having(a, key, k) == p + Having(a[1..], key, k);
        assert Having(b, key, k) == p + Having(b[1..], key, k);
        assert Having(a[1..], key, k) == Having(a, key, k)[|p|..];
        assert Having(b[1..], key, k) == Having(b, key, k)[|p|..];
      }
      StableSortUnique(a[1..], b[1..], key);
      assert a == [a[0]] + a[1..] && b == [b[0]] + b[1..];
    }
  }

  /** Sorting again does nothing, and any stable sort of `s` is `StableSort(s)`. */
  lemma StableSortCharacterised<T>(s: seq<T>, r: seq<T>, key: T -> string)
    requires SortedBy(r, key) && forall k :: Having(r, key, k) == Having(s, key, k)
    ensures r == StableSort(s, key)
  {
    StableSortUnique(r, StableSort(s, key), key);
  }

  /** Picking the elements of one key commutes with reordering. */
  lemma {:induction false} HavingPermutation<T>(a: seq<T>, b: seq<T>, key: T -> string, k: string)
    requires multiset(a) == multiset(b)
    ensures multiset(Having(a, key, k)) == multiset(Having(b, key, k))
    decreases |a|
  {
    if |a| == 0 {
      assert |b| == |multiset(b)| == 0;
    } else {
      var i := PermutationSplit(a, b);
      var rest := b[..i] + b[i + 1..];
      assert a == [a[0]] + a[1..];
      HavingPermutation(a[1..], rest, key, k);
      HavingConcat(b[..i] + [b[i]], b[i + 1..], key, k);
      HavingConcat(b[..i], [b[i]], key, k);
      HavingConcat(b[..i], b[i + 1..], key, k);
    }
  }

  /** Take the first element of `a` out of a permutation `b` of `a`: it sits
      at some index `i` of `b`, and the remainders are permutations again. */
  lemma PermutationSplit<T>(a: seq<T>, b: seq<T>) returns (i: nat)
    requires multiset(a) == multiset(b) && |a| > 0
    ensures i < |b| && b[i] == a[0]
    ensures b == b[..i] + [b[i]] + b[i + 1..]
    ensures multiset(a[1..]) == multiset(b[..i] + b[i + 1..])
  {
    assert a[0] in multiset(b);
    i :| 0 <= i < |b| && b[i] == a[0];
    assert b == b[..i] + [b[i]] + b[i + 1..];
    assert a == [a[0]] + a[1..];
    assert multiset(b) == multiset(b[..i]) + multiset{b[i]} + multiset(b[i + 1..]);
    assert multiset(b[..i] + b[i + 1..]) == multiset(b) - multiset{b[i]};
    assert multiset(a[1..]) == multiset(a) - multiset{a[0]};
  }
}
