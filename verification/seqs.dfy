/** Sequence helpers: order-preserving filtering (a `WHERE` clause over a
    table held as a sequence of rows), uniqueness of a key over a table, and
    the `LIMIT`/`OFFSET` window. */
module Seqs {

  /** The elements of `s` that satisfy `p`, in their original order. */
  function Filter<T>(s: seq<T>, p: T -> bool): (r: seq<T>)
    ensures |r| <= |s|
    ensures forall i :: 0 <= i < |r| ==> r[i] in s && p(r[i])
    ensures forall i :: 0 <= i < |s| && p(s[i]) ==> s[i] in r
    decreases |s|
  {
    if |s| == 0 then []
    else if p(s[0]) then [s[0]] + Filter(s[1..], p)
    else Filter(s[1..], p)
  }

  /** Filtering only ever drops elements: the multiset of the result is
      contained in that of the input, and nothing that satisfies `p` is
      dropped. */
  lemma {:induction false} FilterMultiset<T>(s: seq<T>, p: T -> bool)
    ensures multiset(Filter(s, p)) <= multiset(s)
    ensures forall x :: p(x) ==> multiset(Filter(s, p))[x] == multiset(s)[x]
    decreases |s|
  {
    if |s| > 0 {
      FilterMultiset(s[1..], p);
      assert s == [s[0]] + s[1..];
    }
  }

  /** When every element satisfies `p`, filtering changes nothing. */
  lemma {:induction false} FilterAll<T>(s: seq<T>, p: T -> bool)
    requires forall i :: 0 <= i < |s| ==> p(s[i])
    ensures Filter(s, p) == s
    decreases |s|
  {
    if |s| > 0 {
      FilterAll(s[1..], p);
    }
  }

  /** Filtering twice by `q` then `p` is filtering once by their conjunction. */
  lemma {:induction false} FilterFilter<T>(s: seq<T>, p: T -> bool, q: T -> bool, pq: T -> bool)
    requires forall x :: pq(x) == (p(x) && q(x))
    ensures Filter(Filter(s, q), p) == Filter(s, pq)
    decreases |s|
  {
    if |s| > 0 {
      FilterFilter(s[1..], p, q, pq);
    }
  }

  /** Filtering a concatenation filters both halves. */
  lemma {:induction false} FilterAppend<T>(a: seq<T>, b: seq<T>, p: T -> bool)
    ensures Filter(a + b, p) == Filter(a, p) + Filter(b, p)
    decreases |a|
  {
    if |a| > 0 {
      assert (a + b)[1..] == a[1..] + b;
      FilterAppend(a[1..], b, p);
    } else {
      assert a + b == b;
    }
  }

  /** Filtering by `p` and by its negation splits `s` in two. */
  lemma {:induction false} FilterComplement<T>(s: seq<T>, p: T -> bool, notP: T -> bool)
    requires forall x :: notP(x) == !p(x)
    ensures |Filter(s, p)| + |Filter(s, notP)| == |s|
    decreases |s|
  {
    if |s| > 0 {
      FilterComplement(s[1..], p, notP);
    }
  }

  /** The position of the first element satisfying `p`, or `|s|` if none. */
  function IndexWhere<T>(s: seq<T>, p: T -> bool): (i: nat)
    ensures i <= |s|
    ensures i < |s| ==> p(s[i])
    ensures forall j :: 0 <= j < i ==> !p(s[j])
    decreases |s|
  {
    if |s| == 0 then 0
    else if p(s[0]) then 0
    else 1 + IndexWhere(s[1..], p)
  }

  /** The head of a filtered sequence is the first element that satisfies
      the filter: `rows[0]` after a `WHERE` is the first matching row. */
  lemma {:induction false} FilterHead<T>(s: seq<T>, p: T -> bool)
    ensures |Filter(s, p)| > 0 <==> IndexWhere(s, p) < |s|
    ensures |Filter(s, p)| > 0 ==> Filter(s, p)[0] == s[IndexWhere(s, p)]
    decreases |s|
  {
    if |s| > 0 && !p(s[0]) {
      FilterHead(s[1..], p);
    }
  }

  /** No two positions of `s` carry the same key: a primary key or a unique
      index over a table. */
  ghost predicate UniqueBy<T, K>(s: seq<T>, key: T -> K)
  {
    forall i, j :: 0 <= i < j < |s| ==> key(s[i]) != key(s[j])
  }

  /** A unique index stays unique when rows are deleted. */
  lemma {:induction false} FilterUnique<T, K>(s: seq<T>, p: T -> bool, key: T -> K)
    requires UniqueBy(s, key)
    ensures UniqueBy(Filter(s, p), key)
    decreases |s|
  {
    if |s| > 0 {
      var t := s[1..];
      assert UniqueBy(t, key) by {
        forall i, j | 0 <= i < j < |t| ensures key(t[i]) != key(t[j]) {
          assert t[i] == s[i + 1] && t[j] == s[j + 1];
        }
      }
      FilterUnique(t, p, key);
      if p(s[0]) {
        var r := Filter(s, p);
        var ft := Filter(t, p);
        assert r == [s[0]] + ft;
        forall i, j | 0 <= i < j < |r| ensures key(r[i]) != key(r[j]) {
          if i == 0 {
            assert r[j] == ft[j - 1] && ft[j - 1] in t;
            var m :| 0 <= m < |t| && t[m] == ft[j - 1];
            assert s[m + 1] == t[m];
          } else {
            assert r[i] == ft[i - 1] && r[j] == ft[j - 1];
          }
        }
      }
    }
  }

  /** When no element satisfies `p`, filtering leaves nothing. */
  lemma {:induction false} FilterNone<T>(s: seq<T>, p: T -> bool)
    requires forall i :: 0 <= i < |s| ==> !p(s[i])
    ensures Filter(s, p) == []
    decreases |s|
  {
    if |s| > 0 {
      FilterNone(s[1..], p);
    }
  }

  /** In a table unique by `key`, at most one row carries a given key value. */
  lemma {:induction false} UniqueKeyAtMostOne<T, K>(s: seq<T>, key: T -> K, k: K, p: T -> bool)
    requires UniqueBy(s, key)
    requires forall x :: p(x) ==> key(x) == k
    ensures |Filter(s, p)| <= 1
    decreases |s|
  {
    if |s| > 0 {
      var t := s[1..];
      assert UniqueBy(t, key) by {
        forall i, j | 0 <= i < j < |t| ensures key(t[i]) != key(t[j]) {
          assert t[i] == s[i + 1] && t[j] == s[j + 1];
        }
      }
      if p(s[0]) {
        forall i | 0 <= i < |t| ensures !p(t[i]) {
          assert t[i] == s[i + 1];
        }
        FilterNone(t, p);
      } else {
        UniqueKeyAtMostOne(t, key, k, p);
      }
    }
  }

  /** An element of a rearrangement of `s` is an element of `s`. */
  lemma PermutedMember<T>(s: seq<T>, t: seq<T>, i: nat)
    requires multiset(t) == multiset(s) && i < |t|
    ensures t[i] in s
  {
    assert t[i] in multiset(t);
  }

  /** The only rearrangement of a one-element sequence is itself. */
  lemma PermutedSingleton<T>(x: T, t: seq<T>)
    requires multiset(t) == multiset([x])
    ensures t == [x]
  {
    assert |t| == |multiset(t)| == 1;
    PermutedMember([x], t, 0);
  }

  function Min(a: int, b: int): int { if a <= b then a else b }

  /** `LIMIT limit OFFSET offset` over an ordered result: skip `offset` rows,
      then take at most `limit`. */
  function Window<T>(s: seq<T>, offset: nat, limit: nat): (r: seq<T>)
    ensures |r| <= limit && |r| <= |s|
    ensures |r| == Min(limit, if offset < |s| then |s| - offset else 0)
    ensures forall i :: 0 <= i < |r| ==> offset + i < |s| && r[i] == s[offset + i]
  {
    s[Min(offset, |s|)..Min(offset + limit, |s|)]
  }
}
