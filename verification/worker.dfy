/**
  The worker's session loop (worker.cpp): receive a header, validate it,
  regenerate the values of [begin, end), and send back one reply per valid
  header. The loop ends on the first failed receive or the first invalid
  header. Socket setup and logging are not modelled; a receive is an input.
 */
module Worker {
  import opened Wrappers
  import opened KeyOrder
  import opened CpuOps
  import opened CpuSort
  import opened Generator
  import opened Wire

  /** The outcome of the three header checks, in the order they are made. */
  datatype Verdict = Accept(op: Op) | BadMagic | BadOp | BadRange

  /** Magic first, then the op code, then the range; `len` is never read. */
  function Validate(h: Header): (v: Verdict)
    ensures v == BadMagic <==> h.magic != MAGIC
    ensures v == BadOp <==> h.magic == MAGIC && OpOf(h.op).None?
    ensures v == BadRange <==> h.magic == MAGIC && OpOf(h.op).Some? && h.end <= h.begin
    ensures v.Accept? ==> Code(v.op) == h.op && h.begin < h.end
  {
    if h.magic != MAGIC then BadMagic
    else match OpOf(h.op)
      case None => BadOp
      case Some(op) => if h.end <= h.begin then BadRange else Accept(op)
  }

  /** The `len` field has no influence on validation. */
  lemma ValidateIgnoresLen(h: Header, len: u64)
    ensures Validate(h.(len := len)) == Validate(h)
  {
  }

  /** What the worker sends for one valid header: a single float for SUM
      and MAX; for SORT a u64 byte count followed by the sorted values. */
  datatype Reply = SumReply(part: real) | MaxReply(best: Ext) | SortReply(bytes: u64, payload: seq<real>)

  /** `(uint64_t)n * sizeof(float)`, wrapping modulo 2^64. */
  function ByteCount(n: nat): (b: u64)
    ensures n < 0x4000_0000_0000_0000 ==> b as int == 4 * n
  {
    ((4 * n) % 0x1_0000_0000_0000_0000) as u64
  }

  /** A sort as the worker runs it: shuffle, then quicksort by key. The
      shuffle is a permutation and the quicksort produces a key-sorted
      permutation (SortCopy), so all that is known of the composite is that
      it is a key-sorted permutation of its input. */
  ghost predicate SortsByKey(key: real -> real, sorter: seq<real> -> seq<real>)
  {
    forall s :: SortedBy(key, sorter(s)) && multiset(sorter(s)) == multiset(s)
  }

  /** The reply to an accepted header for `op` over [begin, end). */
  function Respond(key: real -> real, sorter: seq<real> -> seq<real>, op: Op, begin: nat, end: nat): (r: Reply)
    requires begin < end
    ensures op == Sum <==> r.SumReply?
    ensures op == Max <==> r.MaxReply?
    ensures r.MaxReply? ==> r.best.Fin?
  {
    var local := Generate(begin, end);
    match op
    case Sum => SumReply(SumKeys(key, local))
    case Max => MaxReply(MaxKeys(key, local))
    case Sort =>
      SortReply(ByteCount(|local|), sorter(local))
  }

  /** The SORT reply: its byte count announces exactly the values sent, and
      the values are the partition's values in key order. */
  lemma RespondSort(key: real -> real, sorter: seq<real> -> seq<real>, begin: nat, end: nat)
    requires SortsByKey(key, sorter)
    requires begin < end && end - begin < 0x4000_0000_0000_0000
    ensures Respond(key, sorter, Sort, begin, end).bytes as int == 4 * (end - begin)
    ensures |Respond(key, sorter, Sort, begin, end).payload| == end - begin
    ensures multiset(Respond(key, sorter, Sort, begin, end).payload) == multiset(Generate(begin, end))
    ensures Keys(key, Respond(key, sorter, Sort, begin, end).payload) == SortedKeys(key, Generate(begin, end))
  {
    var local := Generate(begin, end);
    var sorted := sorter(local);
    assert |sorted| == |multiset(sorted)| == |multiset(local)| == |local|;
    SortedPermutationKeys(key, local, sorted);
  }

  /** The worker's main loop over the headers it receives; None is a
      failed receive. One reply per accepted header, and the session stops
      at the first failed receive or rejected header. */
  function Session(key: real -> real, sorter: seq<real> -> seq<real>, incoming: seq<Option<Header>>): (replies: seq<Reply>)
    ensures |replies| <= |incoming|
    ensures forall i :: 0 <= i < |replies| ==>
              incoming[i].Some? && Validate(incoming[i].value).Accept? &&
              replies[i] == Respond(key, sorter, Validate(incoming[i].value).op,
                                    incoming[i].value.begin as nat, incoming[i].value.end as nat)
    ensures |replies| < |incoming| ==>
              incoming[|replies|].None? || !Validate(incoming[|replies|].value).Accept?
  {
    if |incoming| == 0 then []
    else match incoming[0]
      case None => []
      case Some(h) =>
        match Validate(h)
        case Accept(op) =>
          [Respond(key, sorter, op, h.begin as nat, h.end as nat)] + Session(key, sorter, incoming[1..])
        case _ => []
  }

  /** A session whose headers all arrive and all pass validation answers
      every one of them. */
  lemma {:induction false} SessionAnswersAll(key: real -> real, sorter: seq<real> -> seq<real>, incoming: seq<Option<Header>>)
    requires forall i :: 0 <= i < |incoming| ==> incoming[i].Some? && Validate(incoming[i].value).Accept?
    ensures |Session(key, sorter, incoming)| == |incoming|
  {
    if |incoming| > 0 {
      SessionAnswersAll(key, sorter, incoming[1..]);
    }
  }

  /** Whatever follows a failed receive or a rejected header is never read:
      the replies depend only on the headers up to that point. */
  lemma {:induction false} SessionStops(key: real -> real, sorter: seq<real> -> seq<real>, incoming: seq<Option<Header>>, k: nat)
    requires k < |incoming|
    requires incoming[k].None? || !Validate(incoming[k].value).Accept?
    ensures Session(key, sorter, incoming) == Session(key, sorter, incoming[..k + 1])
  {
    if k > 0 {
      var rest := incoming[1..];
      SessionStops(key, sorter, rest, k - 1);
      assert incoming[..k + 1][1..] == rest[..k];
      assert incoming[..k + 1][0] == incoming[0];
    }
  }

  /** One pass of the loop body for a header that arrived, run with the
      kernels: the verdict, then the reply computed by cpu_sum_log_sqrt,
      cpu_max_log_sqrt or shuffle and quicksort_by_key. `shuffle` stands
      for shuffle_fisher_yates, of which only permutation is assumed. */
  method Serve(key: real -> real, shuffle: seq<real> -> seq<real>, h: Header) returns (r: Option<Reply>)
    requires forall s :: multiset(shuffle(s)) == multiset(s)
    ensures r.None? <==> !Validate(h).Accept?
    ensures r.Some? && Validate(h).op == Sum ==> r.value == SumReply(SumKeys(key, Generate(h.begin as nat, h.end as nat)))
    ensures r.Some? && Validate(h).op == Max ==> r.value == MaxReply(MaxKeys(key, Generate(h.begin as nat, h.end as nat)))
    ensures r.Some? && Validate(h).op == Sort ==>
              r.value.SortReply? && r.value.bytes == ByteCount(h.end as nat - h.begin as nat) &&
              multiset(r.value.payload) == multiset(Generate(h.begin as nat, h.end as nat)) &&
              Keys(key, r.value.payload) == SortedKeys(key, Generate(h.begin as nat, h.end as nat))
  {
    var v := Validate(h);
    if !v.Accept? {
      return None;
    }
    var local := Generate(h.begin as nat, h.end as nat);
    match v.op {
      case Sum =>
        var part := CpuSumLogSqrt(key, local, |local|);
        assert local[..|local|] == local;
        r := Some(SumReply(part));
      case Max =>
        var part := CpuMaxLogSqrt(key, local, |local|);
        assert local[..|local|] == local;
        r := Some(MaxReply(part));
      case Sort =>
        var shuffled := shuffle(local);
        var sorted := SortCopy(key, shuffled);
        SortedPermutationKeys(key, local, sorted);
        r := Some(SortReply(ByteCount(|local|), sorted));
    }
  }
}
