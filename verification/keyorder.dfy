/**
  Ordering by the comparison key shared by the sort, merge and reduction
  kernels. The key `key_log_sqrt(x) = logf(sqrtf(x))` is modelled as an
  abstract function into the reals; nothing here depends on its shape.
 */
module KeyOrder {

  /** The keys of `s`, position by position. */
  function Keys<T>(key: T -> real, s: seq<T>): (ks: seq<real>)
    ensures |ks| == |s|
    ensures forall i :: 0 <= i < |s| ==> ks[i] == key(s[i])
  {
    seq(|s|, i requires 0 <= i < |s| => key(s[i]))
  }

  /** A sequence of keys in non-decreasing order. */
  predicate Sorted(ks: seq<real>)
  {
    forall p, q :: 0 <= p < q < |ks| ==> ks[p] <= ks[q]
  }

  /** A sequence of raw values in non-decreasing order of their keys. */
  predicate SortedBy<T>(key: T -> real, s: seq<T>)
  {
    forall p, q :: 0 <= p < q < |s| ==> key(s[p]) <= key(s[q])
  }

  lemma SortedByKeys<T>(key: T -> real, s: seq<T>)
    ensures SortedBy(key, s) <==> Sorted(Keys(key, s))
  {
  }

  lemma KeysAppend<T>(key: T -> real, a: seq<T>, b: seq<T>)
    ensures Keys(key, a + b) == Keys(key, a) + Keys(key, b)
  {
  }

  /** Inserts `x` before the first element whose key exceeds its own. */
  function Insert<T>(key: T -> real, x: T, s: seq<T>): (r: seq<T>)
    requires SortedBy(key, s)
    ensures SortedBy(key, r)
    ensures multiset(r) == multiset(s) + multiset{x}
  {
    if |s| == 0 then [x]
    else if key(x) <= key(s[0]) then [x] + s
    else
      var rest := Insert(key, x, s[1..]);
      InsertBehindHead(key, x, s, rest);
      [s[0]] + rest
  }

  /** When `x` goes after the head of `s`, the head stays first. */
  lemma InsertBehindHead<T>(key: T -> real, x: T, s: seq<T>, rest: seq<T>)
    requires |s| > 0 && SortedBy(key, s) && key(s[0]) < key(x)
    requires SortedBy(key, rest) && multiset(rest) == multiset(s[1..]) + multiset{x}
    ensures SortedBy(key, [s[0]] + rest)
    ensures multiset([s[0]] + rest) == multiset(s) + multiset{x}
  {
    assert s == [s[0]] + s[1..];
    forall q | 0 <= q < |rest|
      ensures key(s[0]) <= key(rest[q])
    {
      assert rest[q] in multiset(rest);
      if rest[q] != x {
        assert rest[q] in multiset(s[1..]);
        var k :| 0 <= k < |s[1..]| && s[1..][k] == rest[q];
        assert s[k + 1] == rest[q];
      }
    }
  }

  /** A reference sort by key (insertion sort). Any algorithm that produces a
      key-sorted permutation yields the same key sequence; see
      SortedPermutationKeys. */
  function SortByKey<T>(key: T -> real, s: seq<T>): (r: seq<T>)
    ensures SortedBy(key, r)
    ensures multiset(r) == multiset(s)
  {
    if |s| == 0 then []
    else
      assert s == [s[0]] + s[1..];
      Insert(key, s[0], SortByKey(key, s[1..]))
  }

  /** The keys of `s` in non-decreasing order: what every sort in this
      system writes once it has transformed its output. */
  function SortedKeys<T>(key: T -> real, s: seq<T>): seq<real>
  {
    Keys(key, SortByKey(key, s))
  }

  /** If t is a permutation of s, removing s's head from s and a matching
      element from t leaves two sequences that are permutations of each
      other. */
  lemma RemoveMatching<T>(s: seq<T>, t: seq<T>, p: nat)
    requires 0 < |s| && p < |t| && t[p] == s[0]
    requires multiset(s) == multiset(t)
    ensures multiset(s[1..]) == multiset(t[..p] + t[p + 1..])
  {
    assert s == [s[0]] + s[1..];
    assert t == t[..p] + [t[p]] + t[p + 1..];
    assert multiset(s) == multiset(s[1..]) + multiset{s[0]};
    assert multiset(t) == multiset(t[..p] + t[p + 1..]) + multiset{s[0]};
    CancelOne(multiset(s[1..]), multiset(t[..p] + t[p + 1..]), s[0]);
  }

  /** The same element taken off two equal multisets leaves equal ones. */
  lemma CancelOne<U>(a: multiset<U>, b: multiset<U>, x: U)
    requires a + multiset{x} == b + multiset{x}
    ensures a == b
  {
    forall e
      ensures a[e] == b[e]
    {
      assert (a + multiset{x})[e] == (b + multiset{x})[e];
    }
  }

  /** The head's key and the keys of the tail make up the keys of `s`. */
  lemma KeysHead<T>(key: T -> real, s: seq<T>)
    requires 0 < |s|
    ensures multiset(Keys(key, s)) == multiset(Keys(key, s[1..])) + multiset{key(s[0])}
  {
    assert Keys(key, s) == [key(s[0])] + Keys(key, s[1..]);
  }

  /** Removing the element at p removes one occurrence of its key. */
  lemma KeysRemoveAt<T>(key: T -> real, t: seq<T>, p: nat)
    requires p < |t|
    ensures multiset(Keys(key, t)) == multiset(Keys(key, t[..p] + t[p + 1..])) + multiset{key(t[p])}
  {
    var a, b := t[..p], t[p + 1..];
    assert t == a + ([t[p]] + b);
    KeysAppend(key, a, [t[p]] + b);
    KeysAppend(key, a, b);
    KeysHead(key, [t[p]] + b);
    assert ([t[p]] + b)[1..] == b;
  }

  /** Equal remainders plus the same element are equal. */
  lemma AddBack<U>(a: multiset<U>, ra: multiset<U>, b: multiset<U>, rb: multiset<U>, k: U)
    requires a == ra + multiset{k} && b == rb + multiset{k} && ra == rb
    ensures a == b
  {
  }

  /** Permuting the values permutes their keys. */
  lemma {:induction false} PermutedKeys<T>(key: T -> real, s: seq<T>, t: seq<T>)
    requires multiset(s) == multiset(t)
    ensures multiset(Keys(key, s)) == multiset(Keys(key, t))
    decreases |s|
  {
    if |s| == 0 {
      assert |t| == |multiset(t)| == 0;
    } else {
      assert s[0] in multiset(t);
      var p :| 0 <= p < |t| && t[p] == s[0];
      var s', t' := s[1..], t[..p] + t[p + 1..];
      RemoveMatching(s, t, p);
      PermutedKeys(key, s', t');
      KeysHead(key, s);
      KeysRemoveAt(key, t, p);
      AddBack(multiset(Keys(key, s)), multiset(Keys(key, s')), multiset(Keys(key, t)), multiset(Keys(key, t')), key(s[0]));
    }
  }

  /** Two sorted key sequences holding the same keys are equal. */
  lemma {:induction false} SortedUnique(x: seq<real>, y: seq<real>)
    requires Sorted(x) && Sorted(y)
    requires multiset(x) == multiset(y)
    ensures x == y
    decreases |x|
  {
    if |x| == 0 {
      assert |y| == |multiset(y)| == 0;
    } else {
      assert |y| == |multiset(y)| == |x|;
      assert x[0] in multiset(y);
      assert y[0] in multiset(x);
      assert x[0] == y[0];
      assert x == [x[0]] + x[1..];
      assert y == [y[0]] + y[1..];
      assert multiset(x) == multiset{x[0]} + multiset(x[1..]);
      assert multiset(y) == multiset{y[0]} + multiset(y[1..]);
      assert multiset(x[1..]) == multiset(x) - multiset{x[0]};
      assert multiset(y[1..]) == multiset(y) - multiset{y[0]};
      SortedUnique(x[1..], y[1..]);
    }
  }

  /** Whatever key-sorted permutation of `s` a sort produces, its keys are
      exactly SortedKeys(key, s). */
  lemma SortedPermutationKeys<T>(key: T -> real, s: seq<T>, t: seq<T>)
    requires SortedBy(key, t)
    requires multiset(t) == multiset(s)
    ensures Keys(key, t) == SortedKeys(key, s)
  {
    var r := SortByKey(key, s);
    PermutedKeys(key, t, r);
    SortedByKeys(key, t);
    SortedByKeys(key, r);
    SortedUnique(Keys(key, t), Keys(key, r));
  }

  /** SortedKeys holds the keys of `s`, in non-decreasing order. */
  lemma SortedKeysSpec<T>(key: T -> real, s: seq<T>)
    ensures Sorted(SortedKeys(key, s))
    ensures multiset(SortedKeys(key, s)) == multiset(Keys(key, s))
    ensures |SortedKeys(key, s)| == |s|
  {
    var r := SortByKey(key, s);
    SortedByKeys(key, r);
    PermutedKeys(key, r, s);
    assert |r| == |multiset(r)| == |s|;
  }
}
