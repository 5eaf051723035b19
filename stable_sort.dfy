/** The stable sort that `Array.prototype.sort` performs with a numeric
    comparator `(a, b) => key(a) - key(b)`: ascending by key, elements with
    equal keys in their original order. Both the issue lists of psiService
    and the action-item ordering of the Dashboard use it. */
module StableSort {

  /** Inserts `x`, which came after every element of `s` in the input, into
      the sorted `s`: it goes after every element whose key is not larger. */
  function InsertLast<T>(s: seq<T>, x: T, key: T -> real): seq<T>
  {
    if s == [] || key(s[|s| - 1]) <= key(x) then s + [x]
    else InsertLast(s[..|s| - 1], x, key) + [s[|s| - 1]]
  }

  /** Insertion sort, taking the input's elements from left to right. */
  function SortBy<T>(s: seq<T>, key: T -> real): seq<T>
  {
    if s == [] then [] else InsertLast(SortBy(s[..|s| - 1], key), s[|s| - 1], key)
  }

  ghost predicate SortedBy<T>(s: seq<T>, key: T -> real)
  {
    forall i, j :: 0 <= i < j < |s| ==> key(s[i]) <= key(s[j])
  }

  /** The elements of `s` whose key is `k`, in their order in `s`. */
  function WithKey<T>(s: seq<T>, key: T -> real, k: real): seq<T>
  {
    if s == [] then []
    else WithKey(s[..|s| - 1], key, k) + (if key(s[|s| - 1]) == k then [s[|s| - 1]] else [])
  }

  lemma {:induction false} WithKeyAppend<T>(a: seq<T>, b: seq<T>, key: T -> real, k: real)
    ensures WithKey(a + b, key, k) == WithKey(a, key, k) + WithKey(b, key, k)
    decreases |b|
  {
    if b == [] {
      assert a + b == a;
    } else {
      assert (a + b)[..|a + b| - 1] == a + b[..|b| - 1];
      WithKeyAppend(a, b[..|b| - 1], key, k);
    }
  }

  lemma {:induction false} InsertLastPermutes<T>(s: seq<T>, x: T, key: T -> real)
    ensures multiset(InsertLast(s, x, key)) == multiset(s) + multiset{x}
    decreases |s|
  {
    if s == [] || key(s[|s| - 1]) <= key(x) {
    } else {
      InsertLastPermutes(s[..|s| - 1], x, key);
      assert s == s[..|s| - 1] + [s[|s| - 1]];
    }
  }

  lemma {:induction false} InsertLastSorted<T>(s: seq<T>, x: T, key: T -> real)
    requires SortedBy(s, key)
    ensures SortedBy(InsertLast(s, x, key), key)
    ensures |InsertLast(s, x, key)| == |s| + 1
    ensures forall y :: y in InsertLast(s, x, key) ==> y in s || y == x
    decreases |s|
  {
    if s == [] || key(s[|s| - 1]) <= key(x) {
    } else {
      var init, last := s[..|s| - 1], s[|s| - 1];
      InsertLastSorted(init, x, key);
      var r := InsertLast(init, x, key);
      forall y | y in r ensures key(y) <= key(last) {
        if y == x {
        } else {
          assert y in init;
          var i :| 0 <= i < |init| && init[i] == y;
          assert s[i] == y;
        }
      }
      forall i, j | 0 <= i < j < |r + [last]| ensures key((r + [last])[i]) <= key((r + [last])[j]) {
        if j == |r| {
          assert (r + [last])[i] == r[i] && r[i] in r;
        }
      }
    }
  }

  lemma {:induction false} InsertLastWithKey<T>(s: seq<T>, x: T, key: T -> real, k: real)
    ensures WithKey(InsertLast(s, x, key), key, k)
         == WithKey(s, key, k) + (if key(x) == k then [x] else [])
    decreases |s|
  {
    if s == [] || key(s[|s| - 1]) <= key(x) {
      WithKeyAppend(s, [x], key, k);
      assert WithKey([x], key, k) == (if key(x) == k then [x] else []) by {
        assert [x][..0] == [];
      }
    } else {
      var init, last := s[..|s| - 1], s[|s| - 1];
      InsertLastWithKey(init, x, key, k);
      var r := InsertLast(init, x, key);
      assert (r + [last])[..|r + [last]| - 1] == r;
    }
  }

  /** The sort returns a sorted permutation of its input. */
  lemma {:induction false} SortByCorrect<T>(s: seq<T>, key: T -> real)
    ensures SortedBy(SortBy(s, key), key)
    ensures multiset(SortBy(s, key)) == multiset(s)
    ensures |SortBy(s, key)| == |s|
    decreases |s|
  {
    if s != [] {
      var init, last := s[..|s| - 1], s[|s| - 1];
      SortByCorrect(init, key);
      InsertLastSorted(SortBy(init, key), last, key);
      InsertLastPermutes(SortBy(init, key), last, key);
      assert s == init + [last];
    }
  }

  /** The sort is stable: for every key, the elements carrying it appear in
      the output in the order they had in the input. */
  lemma {:induction false} SortByStable<T>(s: seq<T>, key: T -> real, k: real)
    ensures WithKey(SortBy(s, key), key, k) == WithKey(s, key, k)
    decreases |s|
  {
    if s != [] {
      var init, last := s[..|s| - 1], s[|s| - 1];
      SortByStable(init, key, k);
      InsertLastWithKey(SortBy(init, key), last, key, k);
    }
  }

  lemma WithKeyOfSingleton<T>(x: T, key: T -> real, k: real)
    ensures WithKey([x], key, k) == (if key(x) == k then [x] else [])
  {
    assert [x][..0] == [];
  }

  lemma {:induction false} WithKeyMembers<T>(s: seq<T>, key: T -> real, k: real)
    ensures forall y :: y in WithKey(s, key, k) <==> y in s && key(y) == k
    decreases |s|
  {
    if s != [] {
      WithKeyMembers(s[..|s| - 1], key, k);
      assert s == s[..|s| - 1] + [s[|s| - 1]];
    }
  }

  /** In a sorted sequence, the first element carrying the smallest key is
      the first element of the sequence. */
  lemma SortedHead<T>(r: seq<T>, key: T -> real)
    requires SortedBy(r, key) && r != []
    ensures WithKey(r, key, key(r[0])) != [] && WithKey(r, key, key(r[0]))[0] == r[0]
    ensures forall k :: WithKey(r[1..], key, k)
                     == if k == key(r[0]) then WithKey(r, key, k)[1..] else WithKey(r, key, k)
  {
    assert r == [r[0]] + r[1..];
    forall k ensures WithKey(r, key, k) == WithKey([r[0]], key, k) + WithKey(r[1..], key, k) {
      WithKeyAppend([r[0]], r[1..], key, k);
    }
    WithKeyOfSingleton(r[0], key, key(r[0]));
    forall k ensures WithKey([r[0]], key, k) == (if key(r[0]) == k then [r[0]] else []) {
      WithKeyOfSingleton(r[0], key, k);
    }
  }

  lemma SortedMin<T>(q: seq<T>, y: T, key: T -> real)
    requires SortedBy(q, key) && y in q
    ensures key(q[0]) <= key(y)
  {
    var i :| 0 <= i < |q| && q[i] == y;
    if i > 0 {
      assert key(q[0]) <= key(q[i]);
    }
  }

  /** Two sorted sequences that agree on the elements of every key start with
      the same element. */
  lemma SortedHeadsAgree<T>(r: seq<T>, q: seq<T>, key: T -> real)
    requires SortedBy(r, key) && SortedBy(q, key) && r != [] && q != []
    requires forall k :: WithKey(r, key, k) == WithKey(q, key, k)
    ensures r[0] == q[0]
  {
    SortedHead(r, key);
    SortedHead(q, key);
    var a, b := key(r[0]), key(q[0]);
    WithKeyMembers(q, key, a);
    WithKeyMembers(r, key, b);
    assert WithKey(q, key, a)[0] in WithKey(q, key, a);
    SortedMin(q, WithKey(q, key, a)[0], key);
    assert WithKey(r, key, b)[0] in WithKey(r, key, b);
    SortedMin(r, WithKey(r, key, b)[0], key);
    assert a == b;
  }

  /** Two sorted sequences that agree on the elements of every key are equal:
      a stable sort has exactly one possible result. */
  lemma {:induction false} SortedUnique<T>(r: seq<T>, q: seq<T>, key: T -> real)
    requires SortedBy(r, key) && SortedBy(q, key)
    requires forall k :: WithKey(r, key, k) == WithKey(q, key, k)
    ensures r == q
    decreases |r|
  {
    if r == [] {
      if q != [] {
        SortedHead(q, key);
        assert false;
      }
    } else if q == [] {
      SortedHead(r, key);
      assert false;
    } else {
      SortedHeadsAgree(r, q, key);
      SortedHead(r, key);
      SortedHead(q, key);
      SortedUnique(r[1..], q[1..], key);
      assert r == [r[0]] + r[1..] && q == [q[0]] + q[1..];
    }
  }

  /** SortBy is the stable sort: any sorted sequence that keeps, for every
      key, the input's order of that key's elements equals SortBy. */
  lemma SortByIsTheStableSort<T>(s: seq<T>, r: seq<T>, key: T -> real)
    requires SortedBy(r, key)
    requires forall k :: WithKey(r, key, k) == WithKey(s, key, k)
    ensures r == SortBy(s, key)
  {
    SortByCorrect(s, key);
    forall k ensures WithKey(r, key, k) == WithKey(SortBy(s, key), key, k) {
      SortByStable(s, key, k);
    }
    SortedUnique(r, SortBy(s, key), key);
  }

  /** Keeping a prefix of a sequence keeps a prefix of every key's elements. */
  lemma {:induction false} WithKeyOfPrefix<T>(s: seq<T>, n: nat, key: T -> real, k: real)
    requires n <= |s|
    ensures WithKey(s[..n], key, k) <= WithKey(s, key, k)
  {
    assert s == s[..n] + s[n..];
    WithKeyAppend(s[..n], s[n..], key, k);
  }
}
