/**
  The reduction kernels of cpu_ops.h: a left fold that sums the keys of a
  buffer and a left fold that keeps their running maximum, seeded at
  negative infinity. Sums are exact real sums (the source accumulates in
  double and rounds once to float); keys are abstract.
 */
module CpuOps {
  import opened KeyOrder

  /** A key extended with negative infinity, the seed of the running max. */
  datatype Ext = NegInf | Fin(v: real)

  /** Strict order on extended keys: `x < y`. */
  predicate Below(x: Ext, y: Ext)
  {
    match (x, y)
    case (NegInf, Fin(_)) => true
    case (Fin(a), Fin(b)) => a < b
    case _ => false
  }

  /** `x <= y` on extended keys. */
  predicate AtMost(x: Ext, y: Ext)
  {
    !Below(y, x)
  }

  /** The step `m = (v > m ? v : m)` of cpu_ops.h, also the coordinator's
      combine `aMax > bMax ? aMax : bMax`. */
  function Greater(x: Ext, y: Ext): (r: Ext)
    ensures AtMost(x, r) && AtMost(y, r)
    ensures r == x || r == y
  {
    if Below(y, x) then x else y
  }

  /** Left fold of `+` over the keys of `s`, starting from 0. */
  function SumKeys<T>(key: T -> real, s: seq<T>): real
    decreases |s|
  {
    if |s| == 0 then 0.0 else SumKeys(key, s[..|s| - 1]) + key(s[|s| - 1])
  }

  /** Left fold of Greater over the keys of `s`, starting from NegInf. */
  function MaxKeys<T>(key: T -> real, s: seq<T>): (m: Ext)
    ensures m == NegInf <==> |s| == 0
    ensures forall i :: 0 <= i < |s| ==> AtMost(Fin(key(s[i])), m)
    ensures m.Fin? ==> exists i :: 0 <= i < |s| && m == Fin(key(s[i]))
    decreases |s|
  {
    if |s| == 0 then NegInf
    else
      var prefix := s[..|s| - 1];
      assert forall i :: 0 <= i < |prefix| ==> prefix[i] == s[i];
      Greater(Fin(key(s[|s| - 1])), MaxKeys(key, prefix))
  }

  /** The sum over a concatenation is the sum of the partial sums: the
      decomposition the coordinator relies on when it adds the two halves. */
  lemma {:induction false} SumKeysAppend<T>(key: T -> real, a: seq<T>, b: seq<T>)
    ensures SumKeys(key, a + b) == SumKeys(key, a) + SumKeys(key, b)
    decreases |b|
  {
    if |b| == 0 {
      assert a + b == a;
    } else {
      var b' := b[..|b| - 1];
      assert (a + b)[..|a + b| - 1] == a + b';
      assert (a + b)[|a + b| - 1] == b[|b| - 1];
      SumKeysAppend(key, a, b');
    }
  }

  /** Greater is associative and commutative on extended keys. */
  lemma GreaterShuffle(x: Ext, y: Ext, z: Ext)
    ensures Greater(x, Greater(y, z)) == Greater(y, Greater(x, z))
  {
  }

  /** The max over a concatenation is the pairwise max of the partial maxima. */
  lemma {:induction false} MaxKeysAppend<T>(key: T -> real, a: seq<T>, b: seq<T>)
    ensures MaxKeys(key, a + b) == Greater(MaxKeys(key, a), MaxKeys(key, b))
    decreases |b|
  {
    if |b| == 0 {
      assert a + b == a;
    } else {
      var b' := b[..|b| - 1];
      var x := Fin(key(b[|b| - 1]));
      assert (a + b)[..|a + b| - 1] == a + b';
      assert (a + b)[|a + b| - 1] == b[|b| - 1];
      MaxKeysAppend(key, a, b');
      GreaterShuffle(x, MaxKeys(key, a), MaxKeys(key, b'));
    }
  }

  /** cpu_sum_log_sqrt: sums the keys of data[0..n). */
  method CpuSumLogSqrt<T>(key: T -> real, data: seq<T>, n: nat) returns (s: real)
    requires n <= |data|
    ensures s == SumKeys(key, data[..n])
    ensures n == 0 ==> s == 0.0
  {
    s := 0.0;
    var i := 0;
    while i < n
      invariant 0 <= i <= n
      invariant s == SumKeys(key, data[..i])
    {
      assert data[..i + 1][..i] == data[..i];
      s := s + key(data[i]);
      i := i + 1;
    }
  }

  /** cpu_max_log_sqrt: the largest key of data[0..n), or NegInf if n = 0. */
  method CpuMaxLogSqrt<T>(key: T -> real, data: seq<T>, n: nat) returns (m: Ext)
    requires n <= |data|
    ensures m == MaxKeys(key, data[..n])
    ensures n == 0 ==> m == NegInf
    ensures forall i :: 0 <= i < n ==> AtMost(Fin(key(data[i])), m)
    ensures n > 0 ==> exists i :: 0 <= i < n && m == Fin(key(data[i]))
  {
    m := NegInf;
    var i := 0;
    while i < n
      invariant 0 <= i <= n
      invariant m == MaxKeys(key, data[..i])
    {
      assert data[..i + 1][..i] == data[..i];
      var v := Fin(key(data[i]));
      m := if Below(m, v) then v else m;
      i := i + 1;
    }
    assert forall i :: 0 <= i < n ==> data[..n][i] == data[i];
  }
}
