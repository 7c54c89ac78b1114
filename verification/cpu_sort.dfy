/**
  The sort/merge engine of cpu_sort.h: an in-place Hoare-partition
  quicksort that orders raw values by their key, and a two-pointer merge of
  two key-sorted buffers that writes the keys in global order.
 */
module CpuSort {
  import opened KeyOrder

  // ---------------------------------------------------------------------
  // Quicksort
  // ---------------------------------------------------------------------

  /** Every key in s[lo..hi) is at most `kp`. */
  predicate KeysAtMost<T>(key: T -> real, s: seq<T>, lo: int, hi: int, kp: real)
    requires 0 <= lo <= hi <= |s|
  {
    forall k :: lo <= k < hi ==> key(s[k]) <= kp
  }

  /** Every key in s[lo..hi) is at least `kp`. */
  predicate KeysAtLeast<T>(key: T -> real, s: seq<T>, lo: int, hi: int, kp: real)
    requires 0 <= lo <= hi <= |s|
  {
    forall k :: lo <= k < hi ==> kp <= key(s[k])
  }

  /** `s` and `t` agree outside [lo, hi). */
  predicate SameOutside<T(==)>(s: seq<T>, t: seq<T>, lo: int, hi: int)
    requires |s| == |t|
  {
    forall k :: 0 <= k < |s| && !(lo <= k < hi) ==> s[k] == t[k]
  }

  /** A permutation that leaves everything outside [lo, hi) alone permutes
      the segment [lo, hi). */
  lemma SegmentPermutation<T>(s: seq<T>, t: seq<T>, lo: int, hi: int)
    requires 0 <= lo <= hi <= |s| == |t|
    requires multiset(s) == multiset(t)
    requires SameOutside(s, t, lo, hi)
    ensures multiset(s[lo..hi]) == multiset(t[lo..hi])
  {
    var pre, mid, mid', post := s[..lo], s[lo..hi], t[lo..hi], s[hi..];
    assert s == pre + mid + post;
    assert t[..lo] == pre && t[hi..] == post;
    assert t == pre + mid' + post;
    assert multiset(s) == multiset(pre) + multiset(mid) + multiset(post);
    assert multiset(t) == multiset(pre) + multiset(mid') + multiset(post);
    MultisetCancel(multiset(pre), multiset(mid), multiset(mid'), multiset(post));
  }

  /** Equal multisets with a common part removed on both sides stay equal. */
  lemma MultisetCancel<T>(a: multiset<T>, x: multiset<T>, y: multiset<T>, b: multiset<T>)
    requires a + x + b == a + y + b
    ensures x == y
  {
    forall e
      ensures x[e] == y[e]
    {
      assert (a + x + b)[e] == (a + y + b)[e];
    }
  }

  /** A bound on every key of a segment survives permuting that segment. */
  lemma PermutedBounds<T>(key: T -> real, s: seq<T>, t: seq<T>, lo: int, hi: int, kp: real)
    requires 0 <= lo <= hi <= |s| == |t|
    requires multiset(s[lo..hi]) == multiset(t[lo..hi])
    ensures KeysAtMost(key, t, lo, hi, kp) ==> KeysAtMost(key, s, lo, hi, kp)
    ensures KeysAtLeast(key, t, lo, hi, kp) ==> KeysAtLeast(key, s, lo, hi, kp)
  {
    forall k | lo <= k < hi
      ensures exists k' :: lo <= k' < hi && s[k] == t[k']
    {
      assert s[k] == s[lo..hi][k - lo];
      assert s[k] in multiset(t[lo..hi]);
      var p :| 0 <= p < hi - lo && t[lo..hi][p] == s[k];
      assert t[lo + p] == s[k];
    }
  }

  /** Sorted left part, a middle of pivot-equal keys and a sorted right part,
      with the left keys at most and the right keys at least the pivot key,
      make a sorted segment. */
  lemma CombineSorted<T>(key: T -> real, s: seq<T>, l: int, j: int, i: int, r: int, kp: real)
    requires 0 <= l && l - 1 <= j < i <= r + 1 && r < |s|
    requires SortedBy(key, s[l..j + 1]) && SortedBy(key, s[i..r + 1])
    requires KeysAtMost(key, s, l, i, kp)
    requires KeysAtLeast(key, s, j + 1, r + 1, kp)
    ensures SortedBy(key, s[l..r + 1])
  {
    forall p, q | l <= p < q <= r
      ensures key(s[p]) <= key(s[q])
    {
      if q <= j {
        assert s[p] == s[l..j + 1][p - l] && s[q] == s[l..j + 1][q - l];
      } else if i <= p {
        assert s[p] == s[i..r + 1][p - i] && s[q] == s[i..r + 1][q - i];
      } else {
        assert key(s[p]) <= kp <= key(s[q]);
      }
    }
  }

  /** The partition loop of quicksort_by_key: Hoare scans around the key of
      the middle element. On exit a[l..i) have keys at most the pivot key,
      a(j..r] at least, and the split is strictly inside [l, r] on both
      sides, so the two recursive calls shrink. The middle element serves as
      sentinel for both scans; the ghost indices `si`, `sj` track a sentinel
      on each side, which is what keeps every scanned index within [l, r]. */
  method HoarePartition<T(==)>(key: T -> real, a: array<T>, l: int, r: int)
    returns (i: int, j: int, ghost pivotKey: real)
    requires 0 <= l <= r < a.Length
    modifies a
    ensures l < i <= r + 1 && l - 1 <= j < r && j < i
    ensures KeysAtMost(key, a[..], l, i, pivotKey)
    ensures KeysAtLeast(key, a[..], j + 1, r + 1, pivotKey)
    ensures multiset(a[..]) == multiset(old(a[..]))
    ensures SameOutside(a[..], old(a[..]), l, r + 1)
  {
    i, j := l, r;
    var m := (l + r) / 2;
    var kp := key(a[m]);
    pivotKey := kp;
    ghost var si, sj := m, m;
    while i <= j
      invariant l <= i <= r + 1 && l - 1 <= j <= r
      invariant KeysAtMost(key, a[..], l, i, kp)
      invariant KeysAtLeast(key, a[..], j + 1, r + 1, kp)
      invariant i <= j ==> i <= si <= r && kp <= key(a[si])
      invariant i <= j ==> l <= sj <= j && key(a[sj]) <= kp
      invariant j < i ==> l < i && j < r
      invariant multiset(a[..]) == multiset(old(a[..]))
      invariant SameOutside(a[..], old(a[..]), l, r + 1)
      decreases if i <= j then j - i + 1 else 0
    {
      i := ScanUp(key, a, l, i, si, kp);
      j := ScanDown(key, a, r, j, sj, kp);
      if i <= j {
        Exchange(key, a, l, r, i, j, kp);
        si, sj := j, i;
        i, j := i + 1, j - 1;
      }
    }
  }

  /** The swap of the partition loop: a[i] (key at least the pivot key) and
      a[j] (key at most) trade places, extending both settled regions. */
  method Exchange<T(==)>(key: T -> real, a: array<T>, l: int, r: int, i: int, j: int, ghost kp: real)
    requires 0 <= l <= i <= j <= r < a.Length
    requires kp <= key(a[i]) && key(a[j]) <= kp
    requires KeysAtMost(key, a[..], l, i, kp)
    requires KeysAtLeast(key, a[..], j + 1, r + 1, kp)
    modifies a
    ensures key(a[i]) <= kp && kp <= key(a[j])
    ensures KeysAtMost(key, a[..], l, i + 1, kp)
    ensures KeysAtLeast(key, a[..], j, r + 1, kp)
    ensures multiset(a[..]) == multiset(old(a[..]))
    ensures SameOutside(a[..], old(a[..]), l, r + 1)
  {
    ghost var before := a[..];
    a[i], a[j] := a[j], a[i];
    SwapPermutation(before, a[..], i, j);
  }

  /** `t` is `s` with positions i and j exchanged. */
  lemma SwapPermutation<T>(s: seq<T>, t: seq<T>, i: int, j: int)
    requires 0 <= i < |s| && 0 <= j < |s|
    requires t == s[i := s[j]][j := s[i]]
    ensures multiset(t) == multiset(s)
  {
  }

  /** The first scan of the partition loop: advances `i` past keys below the
      pivot key. The sentinel `si` stops it within [i, si]. */
  method ScanUp<T>(key: T -> real, a: array<T>, l: int, i0: int, ghost si: int, kp: real) returns (i: int)
    requires 0 <= l <= i0 <= si < a.Length && kp <= key(a[si])
    requires KeysAtMost(key, a[..], l, i0, kp)
    ensures i0 <= i <= si && kp <= key(a[i])
    ensures KeysAtMost(key, a[..], l, i, kp)
  {
    i := i0;
    while key(a[i]) < kp
      invariant i0 <= i <= si
      invariant forall k :: l <= k < i ==> key(a[k]) <= kp
      decreases si - i
    {
      i := i + 1;
    }
  }

  /** The second scan: moves `j` down past keys above the pivot key, stopped
      within [sj, j] by the sentinel `sj`. */
  method ScanDown<T>(key: T -> real, a: array<T>, r: int, j0: int, ghost sj: int, kp: real) returns (j: int)
    requires 0 <= sj <= j0 <= r < a.Length && key(a[sj]) <= kp
    requires KeysAtLeast(key, a[..], j0 + 1, r + 1, kp)
    ensures sj <= j <= j0 && key(a[j]) <= kp
    ensures KeysAtLeast(key, a[..], j + 1, r + 1, kp)
  {
    j := j0;
    while kp < key(a[j])
      invariant sj <= j <= j0
      invariant forall k :: j < k <= r ==> kp <= key(a[k])
      decreases j - sj
    {
      j := j - 1;
    }
  }

  /** quicksort_by_key(a, l, r): sorts a[l..r] by key, only by swapping,
      touching nothing outside [l, r]. */
  method Quicksort<T(==)>(key: T -> real, a: array<T>, l: int, r: int)
    requires 0 <= l <= r < a.Length
    modifies a
    ensures SortedBy(key, a[l..r + 1])
    ensures multiset(a[..]) == multiset(old(a[..]))
    ensures SameOutside(a[..], old(a[..]), l, r + 1)
    decreases r - l
  {
    var i, j, kp := HoarePartition(key, a, l, r);
    ghost var a0 := a[..];
    if l < j {
      Quicksort(key, a, l, j);
    }
    ghost var a1 := a[..];
    SortLeft(key, a0, a1, l, j, i, r, kp);
    if i < r {
      Quicksort(key, a, i, r);
    }
    ghost var a2 := a[..];
    SortRight(key, a1, a2, l, j, i, r, kp);
    CombineSorted(key, a2, l, j, i, r, kp);
  }

  /** The guarded call `if (n > 1) quicksort_by_key(buf, 0, n - 1)` on a
      private copy of `s`: the result is a key-sorted permutation of `s`,
      so its keys are the canonical SortedKeys whatever the tie order. */
  method SortCopy<T(==)>(key: T -> real, s: seq<T>) returns (t: seq<T>)
    ensures SortedBy(key, t)
    ensures multiset(t) == multiset(s)
    ensures Keys(key, t) == SortedKeys(key, s)
  {
    if |s| <= 1 {
      t := s;
    } else {
      var buf := new T[|s|](i requires 0 <= i < |s| => s[i]);
      assert buf[..] == s;
      Quicksort(key, buf, 0, |s| - 1);
      assert buf[0..|s|] == buf[..];
      t := buf[..];
    }
    SortedPermutationKeys(key, s, t);
  }

  /** After the left recursive call the partition bounds still hold. */
  lemma SortLeft<T>(key: T -> real, a0: seq<T>, a1: seq<T>, l: int, j: int, i: int, r: int, kp: real)
    requires 0 <= l && l - 1 <= j < i <= r + 1 && r < |a0| == |a1|
    requires KeysAtMost(key, a0, l, i, kp) && KeysAtLeast(key, a0, j + 1, r + 1, kp)
    requires multiset(a1) == multiset(a0)
    requires SameOutside(a1, a0, l, j + 1)
    requires l < j ==> SortedBy(key, a1[l..j + 1])
    ensures KeysAtMost(key, a1, l, i, kp) && KeysAtLeast(key, a1, j + 1, r + 1, kp)
    ensures SortedBy(key, a1[l..j + 1])
  {
    SegmentPermutation(a1, a0, l, j + 1);
    PermutedBounds(key, a1, a0, l, j + 1, kp);
  }

  /** After the right recursive call the bounds hold and the left part is
      as the left call left it. */
  lemma SortRight<T>(key: T -> real, a1: seq<T>, a2: seq<T>, l: int, j: int, i: int, r: int, kp: real)
    requires 0 <= l && l - 1 <= j < i <= r + 1 && r < |a1| == |a2|
    requires KeysAtMost(key, a1, l, i, kp) && KeysAtLeast(key, a1, j + 1, r + 1, kp)
    requires SortedBy(key, a1[l..j + 1])
    requires multiset(a2) == multiset(a1)
    requires SameOutside(a2, a1, i, r + 1)
    requires i < r ==> SortedBy(key, a2[i..r + 1])
    ensures KeysAtMost(key, a2, l, i, kp) && KeysAtLeast(key, a2, j + 1, r + 1, kp)
    ensures SortedBy(key, a2[l..j + 1]) && SortedBy(key, a2[i..r + 1])
  {
    SegmentPermutation(a2, a1, i, r + 1);
    PermutedBounds(key, a2, a1, i, r + 1, kp);
    assert a2[l..j + 1] == a1[l..j + 1];
  }

  // ---------------------------------------------------------------------
  // Merge
  // ---------------------------------------------------------------------

  /** The keys merge_to_transformed writes from the state where a[0..i)
      and b[0..j) are already written: while both inputs remain, the smaller
      head key goes first and `a` wins ties (`<=`); then the rest of `a`,
      then the rest of `b`. */
  function MergeFrom(ka: seq<real>, kb: seq<real>, i: nat, j: nat): (m: seq<real>)
    requires i <= |ka| && j <= |kb|
    ensures |m| == (|ka| - i) + (|kb| - j)
    decreases (|ka| - i) + (|kb| - j)
  {
    if i < |ka| && (j == |kb| || ka[i] <= kb[j]) then [ka[i]] + MergeFrom(ka, kb, i + 1, j)
    else if j < |kb| then [kb[j]] + MergeFrom(ka, kb, i, j + 1)
    else []
  }

  /** The merged key sequence merge_to_transformed writes. */
  function MergeKeys(ka: seq<real>, kb: seq<real>): (m: seq<real>)
    ensures |m| == |ka| + |kb|
  {
    MergeFrom(ka, kb, 0, 0)
  }

  /** If `x` is at most both remaining heads, it is at most every key the
      merge emits from that state on. */
  lemma {:induction false} MergeFromAbove(ka: seq<real>, kb: seq<real>, i: nat, j: nat, x: real)
    requires Sorted(ka) && Sorted(kb)
    requires i <= |ka| && j <= |kb|
    requires i < |ka| ==> x <= ka[i]
    requires j < |kb| ==> x <= kb[j]
    ensures forall p :: 0 <= p < |MergeFrom(ka, kb, i, j)| ==> x <= MergeFrom(ka, kb, i, j)[p]
    decreases (|ka| - i) + (|kb| - j)
  {
    if i < |ka| && (j == |kb| || ka[i] <= kb[j]) {
      MergeFromAbove(ka, kb, i + 1, j, x);
    } else if j < |kb| {
      MergeFromAbove(ka, kb, i, j + 1, x);
    }
  }

  /** A key at most every element of a sorted sequence keeps it sorted when
      put in front. */
  lemma ConsSorted(h: real, rest: seq<real>)
    requires Sorted(rest)
    requires forall p :: 0 <= p < |rest| ==> h <= rest[p]
    ensures Sorted([h] + rest)
  {
  }

  lemma {:induction false} MergeFromSorted(ka: seq<real>, kb: seq<real>, i: nat, j: nat)
    requires Sorted(ka) && Sorted(kb)
    requires i <= |ka| && j <= |kb|
    ensures Sorted(MergeFrom(ka, kb, i, j))
    decreases (|ka| - i) + (|kb| - j)
  {
    if i < |ka| && (j == |kb| || ka[i] <= kb[j]) {
      MergeFromSorted(ka, kb, i + 1, j);
      MergeFromAbove(ka, kb, i + 1, j, ka[i]);
      ConsSorted(ka[i], MergeFrom(ka, kb, i + 1, j));
    } else if j < |kb| {
      MergeFromSorted(ka, kb, i, j + 1);
      MergeFromAbove(ka, kb, i, j + 1, kb[j]);
      ConsSorted(kb[j], MergeFrom(ka, kb, i, j + 1));
    }
  }

  /** If both inputs are key-sorted, the merged output is non-decreasing. */
  lemma MergeSorted(ka: seq<real>, kb: seq<real>)
    requires Sorted(ka) && Sorted(kb)
    ensures Sorted(MergeKeys(ka, kb))
  {
    MergeFromSorted(ka, kb, 0, 0);
  }

  /** Putting s[k] in front of a permutation of s(k..) and `t` gives a
      permutation of s[k..] and `t`. */
  lemma ConsMultiset(s: seq<real>, k: nat, rest: seq<real>, t: seq<real>)
    requires k < |s|
    requires multiset(rest) == multiset(s[k + 1..]) + multiset(t)
    ensures multiset([s[k]] + rest) == multiset(s[k..]) + multiset(t)
  {
    assert s[k..] == [s[k]] + s[k + 1..];
  }

  lemma {:induction false} MergeFromPermutation(ka: seq<real>, kb: seq<real>, i: nat, j: nat)
    requires i <= |ka| && j <= |kb|
    ensures multiset(MergeFrom(ka, kb, i, j)) == multiset(ka[i..]) + multiset(kb[j..])
    decreases (|ka| - i) + (|kb| - j), 1
  {
    if i < |ka| && (j == |kb| || ka[i] <= kb[j]) {
      StepPermutationA(ka, kb, i, j);
    } else if j < |kb| {
      StepPermutationB(ka, kb, i, j);
    } else {
      assert ka[i..] == [] && kb[j..] == [];
    }
  }

  /** Taking a[i] next keeps the merged keys a permutation of the pending ones. */
  lemma {:induction false} StepPermutationA(ka: seq<real>, kb: seq<real>, i: nat, j: nat)
    requires i < |ka| && j <= |kb| && (j == |kb| || ka[i] <= kb[j])
    ensures multiset(MergeFrom(ka, kb, i, j)) == multiset(ka[i..]) + multiset(kb[j..])
    decreases (|ka| - i) + (|kb| - j), 0
  {
    MergeFromPermutation(ka, kb, i + 1, j);
    ConsMultiset(ka, i, MergeFrom(ka, kb, i + 1, j), kb[j..]);
  }

  /** Taking b[j] next keeps the merged keys a permutation of the pending ones. */
  lemma {:induction false} StepPermutationB(ka: seq<real>, kb: seq<real>, i: nat, j: nat)
    requires i <= |ka| && j < |kb| && !(i < |ka| && ka[i] <= kb[j])
    ensures multiset(MergeFrom(ka, kb, i, j)) == multiset(ka[i..]) + multiset(kb[j..])
    decreases (|ka| - i) + (|kb| - j), 0
  {
    MergeFromPermutation(ka, kb, i, j + 1);
    ConsMultiset(kb, j, MergeFrom(ka, kb, i, j + 1), ka[i..]);
  }

  /** The merged output holds exactly the keys of both inputs. */
  lemma MergePermutation(ka: seq<real>, kb: seq<real>)
    ensures multiset(MergeKeys(ka, kb)) == multiset(ka) + multiset(kb)
  {
    MergeFromPermutation(ka, kb, 0, 0);
    assert ka[0..] == ka && kb[0..] == kb;
  }

  /** Which input an output element of the merge comes from. */
  datatype Origin = FromA(i: nat) | FromB(j: nat)

  /** The order in which the merge takes elements from the state (i, j): the
      same choices as MergeFrom, recording the source of each key instead of
      the key. */
  function Picks(ka: seq<real>, kb: seq<real>, i: nat, j: nat): (ps: seq<Origin>)
    requires i <= |ka| && j <= |kb|
    ensures |ps| == (|ka| - i) + (|kb| - j)
    ensures forall p :: 0 <= p < |ps| ==> (ps[p].FromA? ==> i <= ps[p].i < |ka|) && (ps[p].FromB? ==> j <= ps[p].j < |kb|)
    decreases (|ka| - i) + (|kb| - j)
  {
    if i < |ka| && (j == |kb| || ka[i] <= kb[j]) then [FromA(i)] + Picks(ka, kb, i + 1, j)
    else if j < |kb| then [FromB(j)] + Picks(ka, kb, i, j + 1)
    else []
  }

  /** The key an origin denotes. */
  function KeyAt(ka: seq<real>, kb: seq<real>, o: Origin): real
    requires o.FromA? ==> o.i < |ka|
    requires o.FromB? ==> o.j < |kb|
  {
    match o
    case FromA(i) => ka[i]
    case FromB(j) => kb[j]
  }

  /** The schedule of origins resolves to exactly the merged keys. */
  lemma {:induction false} PicksResolve(ka: seq<real>, kb: seq<real>, i: nat, j: nat)
    requires i <= |ka| && j <= |kb|
    ensures forall p :: 0 <= p < |Picks(ka, kb, i, j)| ==>
              KeyAt(ka, kb, Picks(ka, kb, i, j)[p]) == MergeFrom(ka, kb, i, j)[p]
    decreases (|ka| - i) + (|kb| - j)
  {
    if i < |ka| && (j == |kb| || ka[i] <= kb[j]) {
      PicksResolve(ka, kb, i + 1, j);
    } else if j < |kb| {
      PicksResolve(ka, kb, i, j + 1);
    }
  }

  /** Putting an origin other than y in front of a schedule keeps x ahead of y. */
  lemma ShiftFirst(h: Origin, rest: seq<Origin>, x: Origin, y: Origin)
    requires h != y
    requires forall q :: 0 <= q < |rest| && rest[q] == y ==> x in rest[..q]
    ensures forall q :: 0 <= q < |[h] + rest| && ([h] + rest)[q] == y ==> x in ([h] + rest)[..q]
  {
    var ps := [h] + rest;
    forall q | 0 <= q < |ps| && ps[q] == y
      ensures x in ps[..q]
    {
      assert ps[q] == rest[q - 1];
      assert ps[..q] == [h] + rest[..q - 1];
    }
  }

  /** An origin at the head of a schedule is ahead of every other origin. */
  lemma HeadFirst(h: Origin, rest: seq<Origin>, y: Origin)
    requires h != y
    ensures forall q :: 0 <= q < |[h] + rest| && ([h] + rest)[q] == y ==> h in ([h] + rest)[..q]
  {
    var ps := [h] + rest;
    forall q | 0 <= q < |ps| && ps[q] == y
      ensures h in ps[..q]
    {
      assert ps[..q][0] == h;
    }
  }

  lemma {:induction false} PicksAFirst(ka: seq<real>, kb: seq<real>, i0: nat, j0: nat, i: nat, j: nat)
    requires Sorted(ka) && Sorted(kb)
    requires i0 <= i < |ka| && j0 <= j < |kb|
    requires ka[i] <= kb[j]
    ensures forall q :: 0 <= q < |Picks(ka, kb, i0, j0)| && Picks(ka, kb, i0, j0)[q] == FromB(j) ==>
              FromA(i) in Picks(ka, kb, i0, j0)[..q]
    decreases (|ka| - i0) + (|kb| - j0)
  {
    if ka[i0] <= kb[j0] {
      var rest := Picks(ka, kb, i0 + 1, j0);
      assert Picks(ka, kb, i0, j0) == [FromA(i0)] + rest;
      if i0 < i {
        PicksAFirst(ka, kb, i0 + 1, j0, i, j);
        ShiftFirst(FromA(i0), rest, FromA(i), FromB(j));
      } else {
        HeadFirst(FromA(i0), rest, FromB(j));
      }
    } else {
      var rest := Picks(ka, kb, i0, j0 + 1);
      assert Picks(ka, kb, i0, j0) == [FromB(j0)] + rest;
      assert ka[i0] <= ka[i];
      assert j0 < j;
      PicksAFirst(ka, kb, i0, j0 + 1, i, j);
      ShiftFirst(FromB(j0), rest, FromA(i), FromB(j));
    }
  }

  /** Ties go to `a`: whenever a[i]'s key is at most b[j]'s, a[i] is written
      before b[j]. The schedule resolves to the merged keys (PicksResolve). */
  lemma MergeTakesAFirst(ka: seq<real>, kb: seq<real>, i: nat, j: nat)
    requires Sorted(ka) && Sorted(kb)
    requires i < |ka| && j < |kb| && ka[i] <= kb[j]
    ensures forall q :: 0 <= q < |Picks(ka, kb, 0, 0)| && Picks(ka, kb, 0, 0)[q] == FromB(j) ==>
              FromA(i) in Picks(ka, kb, 0, 0)[..q]
  {
    PicksAFirst(ka, kb, 0, 0, i, j);
  }

  /** The merge state (i, j) with `out` already written: what is written
      followed by what the merge still writes is the whole merged output. */
  predicate Written(out: seq<real>, ka: seq<real>, kb: seq<real>, i: nat, j: nat)
    requires i <= |ka| && j <= |kb|
  {
    out + MergeFrom(ka, kb, i, j) == MergeKeys(ka, kb)
  }

  /** One step of the first merge loop taking from `a`: its head key is at
      most `b`'s, so it is the next merged key. */
  lemma TakeA(out: seq<real>, ka: seq<real>, kb: seq<real>, i: nat, j: nat)
    requires i < |ka| && j < |kb| && ka[i] <= kb[j]
    requires Written(out, ka, kb, i, j)
    ensures Written(out + [ka[i]], ka, kb, i + 1, j)
  {
    Advance(out, ka[i], MergeFrom(ka, kb, i + 1, j), MergeKeys(ka, kb));
  }

  /** One step of the first merge loop taking from `b`: its head key is
      strictly smaller than `a`'s. */
  lemma TakeB(out: seq<real>, ka: seq<real>, kb: seq<real>, i: nat, j: nat)
    requires i < |ka| && j < |kb| && kb[j] < ka[i]
    requires Written(out, ka, kb, i, j)
    ensures Written(out + [kb[j]], ka, kb, i, j + 1)
  {
    Advance(out, kb[j], MergeFrom(ka, kb, i, j + 1), MergeKeys(ka, kb));
  }

  /** Moving the next merged key from the pending part to the written part. */
  lemma Advance(written: seq<real>, x: real, rest: seq<real>, whole: seq<real>)
    requires written + ([x] + rest) == whole
    ensures (written + [x]) + rest == whole
  {
  }

  /** merge_to_transformed: the keys of `a` and `b` merged in global order,
      as written into out[0..|a|+|b|). The output buffer is modelled by the
      sequence of values written into it, in order. The source evaluates
      the key of an element when it reads it; the key is pure, so the model
      takes the key sequences first and runs the three loops on them. */
  method MergeToTransformed<T>(key: T -> real, a: seq<T>, b: seq<T>) returns (out: seq<real>)
    ensures out == MergeKeys(Keys(key, a), Keys(key, b))
    ensures Sorted(Keys(key, a)) && Sorted(Keys(key, b)) ==> Sorted(out)
    ensures multiset(out) == multiset(Keys(key, a)) + multiset(Keys(key, b))
  {
    var ka, kb := Keys(key, a), Keys(key, b);
    var i, j;
    out, i, j := MergeHeads(ka, kb);
    if j == |kb| {
      out := DrainA(ka, kb, out, i);
    } else {
      out := DrainB(ka, kb, out, j);
    }
    MergePermutation(ka, kb);
    if Sorted(ka) && Sorted(kb) {
      MergeSorted(ka, kb);
    }
  }

  /** The first loop of merge_to_transformed: while both inputs remain,
      write the smaller head key, `a` first on ties. It stops when one
      input is used up, with the rest of the merge still to write. */
  method MergeHeads(ka: seq<real>, kb: seq<real>) returns (out: seq<real>, i: nat, j: nat)
    ensures i <= |ka| && j <= |kb| && (i == |ka| || j == |kb|)
    ensures Written(out, ka, kb, i, j)
  {
    i, j := 0, 0;
    out := [];
    assert Written(out, ka, kb, i, j);
    while i < |ka| && j < |kb|
      invariant i <= |ka| && j <= |kb|
      invariant Written(out, ka, kb, i, j)
      decreases (|ka| - i) + (|kb| - j)
    {
      out, i, j := HeadStep(ka, kb, out, i, j);
    }
  }

  /** One pass of the first loop: write the smaller head key, `a` first
      on ties, and advance past it. */
  method HeadStep(ka: seq<real>, kb: seq<real>, out0: seq<real>, i0: nat, j0: nat) returns (out: seq<real>, i: nat, j: nat)
    requires i0 < |ka| && j0 < |kb|
    requires Written(out0, ka, kb, i0, j0)
    ensures i + j == i0 + j0 + 1 && i <= |ka| && j <= |kb|
    ensures ka[i0] <= kb[j0] ==> i == i0 + 1 && j == j0 && out == out0 + [ka[i0]]
    ensures kb[j0] < ka[i0] ==> i == i0 && j == j0 + 1 && out == out0 + [kb[j0]]
    ensures Written(out, ka, kb, i, j)
  {
    var x := ka[i0];
    var y := kb[j0];
    if x <= y {
      TakeA(out0, ka, kb, i0, j0);
      out, i, j := out0 + [x], i0 + 1, j0;
    } else {
      TakeB(out0, ka, kb, i0, j0);
      out, i, j := out0 + [y], i0, j0 + 1;
    }
  }

  /** The second loop: `b` is used up, the rest of `a` follows. */
  method DrainA(ka: seq<real>, kb: seq<real>, out0: seq<real>, i0: nat) returns (out: seq<real>)
    requires i0 <= |ka|
    requires Written(out0, ka, kb, i0, |kb|)
    ensures out == MergeKeys(ka, kb)
  {
    var i := i0;
    out := out0;
    while i < |ka|
      invariant i <= |ka|
      invariant Written(out, ka, kb, i, |kb|)
    {
      var x := ka[i];
      Advance(out, x, MergeFrom(ka, kb, i + 1, |kb|), MergeKeys(ka, kb));
      out, i := out + [x], i + 1;
    }
    assert out + [] == out;
  }

  /** The third loop: `a` is used up, the rest of `b` follows. */
  method DrainB(ka: seq<real>, kb: seq<real>, out0: seq<real>, j0: nat) returns (out: seq<real>)
    requires j0 <= |kb|
    requires Written(out0, ka, kb, |ka|, j0)
    ensures out == MergeKeys(ka, kb)
  {
    var j := j0;
    out := out0;
    while j < |kb|
      invariant j <= |kb|
      invariant Written(out, ka, kb, |ka|, j)
    {
      var y := kb[j];
      Advance(out, y, MergeFrom(ka, kb, |ka|, j + 1), MergeKeys(ka, kb));
      out, j := out + [y], j + 1;
    }
    assert out + [] == out;
  }

  /** The merge of two sorted key sequences is the one sorted arrangement
      of their keys: any sorted sequence holding exactly those keys equals it. */
  lemma MergeIsSort(ka: seq<real>, kb: seq<real>, kc: seq<real>)
    requires Sorted(ka) && Sorted(kb) && Sorted(kc)
    requires multiset(kc) == multiset(ka) + multiset(kb)
    ensures MergeKeys(ka, kb) == kc
  {
    MergeSorted(ka, kb);
    MergePermutation(ka, kb);
    SortedUnique(MergeKeys(ka, kb), kc);
  }

  /** Merging the sorted keys of two partitions gives the sorted keys of
      their concatenation: the merge reconstructs the global order. */
  lemma MergeOfSortedPartitions<T>(key: T -> real, x: seq<T>, y: seq<T>)
    ensures MergeKeys(SortedKeys(key, x), SortedKeys(key, y)) == SortedKeys(key, x + y)
  {
    SortedKeysSpec(key, x);
    SortedKeysSpec(key, y);
    SortedKeysSpec(key, x + y);
    KeysAppend(key, x, y);
    MergeIsSort(SortedKeys(key, x), SortedKeys(key, y), SortedKeys(key, x + y));
  }
}
