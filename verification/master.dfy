/**
  The coordinator (master.cpp): the single-machine baselines `sum`,
  `max_function` and `sort`, and the split versions `sumSpeedUp`,
  `maxSpeedUp` and `sortSpeedUp`. These keep [0, mid) with mid = N / 2,
  hand [mid, N) to the worker and combine the two results. The socket
  calls are inputs: each split operation is a total function of the
  cached socket and the transport outcomes, and returns the result
  together with the socket cache it leaves behind.
 */
module Master {
  import opened Wrappers
  import opened KeyOrder
  import opened CpuOps
  import opened CpuSort
  import opened Generator
  import opened Wire
  import Worker

  /** The C `int` length parameter. */
  newtype i32 = x: int | -0x8000_0000 <= x < 0x8000_0000

  // ---------------------------------------------------------------------
  // Baselines
  // ---------------------------------------------------------------------

  /** The number of elements a loop `for (i = 0; i < len; ++i)` visits. */
  function Count(len: i32): (n: nat)
    ensures len <= 0 ==> n == 0
    ensures len > 0 ==> n as int == len as int
  {
    if len <= 0 then 0 else len as nat
  }

  /** `sum(data, len)`: the same fold as cpu_sum_log_sqrt over data[0..len). */
  method SumBaseline(key: real -> real, data: seq<real>, len: i32) returns (s: real)
    requires len as int <= |data|
    ensures s == SumKeys(key, data[..Count(len)])
    ensures len <= 0 ==> s == 0.0
  {
    s := 0.0;
    var i: i32 := 0;
    while i < len
      invariant 0 <= i as int <= Count(len)
      invariant s == SumKeys(key, data[..i])
    {
      assert data[..i + 1][..i] == data[..i];
      s := s + key(data[i]);
      i := i + 1;
    }
  }

  /** `max_function(data, len)` (also exported as `max`): the same fold as
      cpu_max_log_sqrt over data[0..len). */
  method MaxBaseline(key: real -> real, data: seq<real>, len: i32) returns (m: Ext)
    requires len as int <= |data|
    ensures m == MaxKeys(key, data[..Count(len)])
    ensures len <= 0 ==> m == NegInf
    ensures forall i :: 0 <= i < Count(len) ==> AtMost(Fin(key(data[i])), m)
  {
    m := NegInf;
    var i: i32 := 0;
    while i < len
      invariant 0 <= i as int <= Count(len)
      invariant m == MaxKeys(key, data[..i])
    {
      assert data[..i + 1][..i] == data[..i];
      var v := Fin(key(data[i]));
      m := if Below(m, v) then v else m;
      i := i + 1;
    }
  }

  /** `sort(data, len, result)`: copies data[0..len), sorts the copy by key
      and writes the keys in order; `data` is left untouched. */
  method SortBaseline(key: real -> real, data: seq<real>, len: i32) returns (result: seq<real>)
    requires 0 <= len as int <= |data|
    ensures result == SortedKeys(key, data[..len])
    ensures Sorted(result)
    ensures multiset(result) == multiset(Keys(key, data[..len]))
  {
    var tmp := SortCopy(key, data[..len]);
    result := WriteKeys(key, tmp);
    SortedKeysSpec(key, data[..len]);
  }

  /** The loop `result[i] = key_log_sqrt(tmp[i])` that ends `sort` and the
      no-worker path of sortSpeedUp: the keys of `s`, in the order of `s`. */
  method WriteKeys(key: real -> real, s: seq<real>) returns (result: seq<real>)
    ensures result == Keys(key, s)
  {
    result := [];
    var i := 0;
    while i < |s|
      invariant 0 <= i <= |s|
      invariant |result| == i
      invariant forall k :: 0 <= k < i ==> result[k] == key(s[k])
    {
      result := result + [key(s[i])];
      i := i + 1;
    }
  }

  // ---------------------------------------------------------------------
  // Worker connection
  // ---------------------------------------------------------------------

  /** The cached worker socket. */
  datatype Sock = Invalid | Open

  /** `get_worker_sock`: dials only when no socket is cached; `connectOk`
      is the outcome of that dial. */
  function GetWorkerSock(s: Sock, connectOk: bool): (c: Sock)
    ensures s == Open ==> c == Open
    ensures s == Invalid ==> (c == Open <==> connectOk)
  {
    if s == Invalid then (if connectOk then Open else Invalid) else s
  }

  /** `reset_worker_sock`: closes and forgets the cached socket. */
  function ResetWorkerSock(s: Sock): (c: Sock)
    ensures c == Invalid
    ensures GetWorkerSock(c, false) == Invalid
  {
    Invalid
  }

  /** The header sent for the worker's half [mid, n) of a task of n values. */
  function RemoteHeader(op: Op, n: nat): (h: Header)
    requires 0 < n < 0x8000_0000
    ensures h.magic == MAGIC && h.op == Code(op)
    ensures h.begin as int == n / 2 && h.end as int == n
    ensures h.len as int == h.end as int - h.begin as int
  {
    Header(MAGIC, Code(op), (n - n / 2) as u64, (n / 2) as u64, n as u64)
  }

  /** Every header the coordinator builds passes the worker's validation,
      and the two halves cover [0, n) without overlap. */
  lemma RemoteHeaderAccepted(op: Op, n: nat)
    requires 0 < n < 0x8000_0000
    ensures Worker.Validate(RemoteHeader(op, n)) == Worker.Accept(op)
    ensures Generate(0, n / 2) + Generate(n / 2, n) == Generate(0, n)
  {
    OpCodes(op);
    GenerateSplit(0, n / 2, n);
  }

  /** The input values of global positions [0, k): data[0..k) when data is
      given (the source's extra test `len >= k` always holds), else the
      generated values. The coordinator's own half is Prefix(data, mid);
      the no-worker fallback of sortSpeedUp sorts Prefix(data, N). */
  function Prefix(data: Option<seq<real>>, k: nat): (a: seq<real>)
    requires data.Some? ==> k <= |data.value|
    ensures |a| == k
    ensures forall i :: 0 <= i < k ==> a[i] == (if data.Some? then data.value[i] else (i + 1) as real)
  {
    match data
    case Some(d) => d[..k]
    case None => Generate(0, k)
  }

  // ---------------------------------------------------------------------
  // sumSpeedUp / maxSpeedUp
  // ---------------------------------------------------------------------

  /** Transport outcomes of one reduction round trip: the dial (consulted
      only when no socket is cached), the header send, and the 4-byte
      reply (None when the receive fails). */
  datatype Link<R> = Link(connectOk: bool, sendOk: bool, reply: Option<R>)

  /** A reduction result and the socket cache left behind. */
  datatype Reduced<R> = Reduced(value: R, sock: Sock)

  /** Whether the round trip with the worker completes. */
  predicate RoundTrip<R>(sock: Sock, link: Link<R>)
  {
    GetWorkerSock(sock, link.connectOk) == Open && link.sendOk && link.reply.Some?
  }

  /** `sumSpeedUp(data, len)`; data None is a null pointer. */
  function SumSpeedUp(key: real -> real, data: Option<seq<real>>, len: i32, sock: Sock, link: Link<real>): (r: Reduced<real>)
    requires data.Some? ==> len as int <= |data.value|
    ensures len <= 0 ==> r == Reduced(0.0, sock)
    ensures len > 0 && RoundTrip(sock, link) ==>
              r == Reduced(SumKeys(key, Prefix(data, len as nat / 2)) + link.reply.value, Open)
    ensures len > 0 && !RoundTrip(sock, link) ==>
              r == Reduced(SumKeys(key, Prefix(data, len as nat / 2)), Invalid)
  {
    if len <= 0 then Reduced(0.0, sock)
    else
      var n := len as nat;
      var a := Prefix(data, n / 2);
      var c := GetWorkerSock(sock, link.connectOk);
      if c == Invalid then Reduced(SumKeys(key, a), c)
      else if !link.sendOk then Reduced(SumKeys(key, a), ResetWorkerSock(c))
      else match link.reply
        case None => Reduced(SumKeys(key, a), ResetWorkerSock(c))
        case Some(bPart) => Reduced(SumKeys(key, a) + bPart, c)
  }

  /** `maxSpeedUp(data, len)`; data None is a null pointer. */
  function MaxSpeedUp(key: real -> real, data: Option<seq<real>>, len: i32, sock: Sock, link: Link<Ext>): (r: Reduced<Ext>)
    requires data.Some? ==> len as int <= |data.value|
    ensures len <= 0 ==> r == Reduced(NegInf, sock)
    ensures len > 0 && RoundTrip(sock, link) ==>
              r == Reduced(Greater(MaxKeys(key, Prefix(data, len as nat / 2)), link.reply.value), Open)
    ensures len > 0 && !RoundTrip(sock, link) ==>
              r == Reduced(MaxKeys(key, Prefix(data, len as nat / 2)), Invalid)
  {
    if len <= 0 then Reduced(NegInf, sock)
    else
      var n := len as nat;
      var a := Prefix(data, n / 2);
      var c := GetWorkerSock(sock, link.connectOk);
      if c == Invalid then Reduced(MaxKeys(key, a), c)
      else if !link.sendOk then Reduced(MaxKeys(key, a), ResetWorkerSock(c))
      else match link.reply
        case None => Reduced(MaxKeys(key, a), ResetWorkerSock(c))
        case Some(bMax) => Reduced(Greater(MaxKeys(key, a), bMax), c)
  }

  /** The worker's answer to the header the coordinator sends for `op`. */
  function WorkerAnswer(key: real -> real, sorter: seq<real> -> seq<real>, op: Op, n: nat): (r: Worker.Reply)
    requires 0 < n < 0x8000_0000
    ensures op == Sum ==> r == Worker.SumReply(SumKeys(key, Generate(n / 2, n)))
    ensures op == Max ==> r == Worker.MaxReply(MaxKeys(key, Generate(n / 2, n)))
  {
    var h := RemoteHeader(op, n);
    RemoteHeaderAccepted(op, n);
    Worker.Respond(key, sorter, op, h.begin as nat, h.end as nat)
  }

  /** End to end: when the worker answers the coordinator's header, the
      split sum is the sum over the local half followed by [mid, n); with
      no data it is the sum over the whole generated range [0, n). */
  lemma SumSpeedUpCorrect(key: real -> real, sorter: seq<real> -> seq<real>, data: Option<seq<real>>, len: i32, sock: Sock, link: Link<real>)
    requires 0 < len && (data.Some? ==> len as int <= |data.value|)
    requires GetWorkerSock(sock, link.connectOk) == Open && link.sendOk
    requires link.reply == Some(WorkerAnswer(key, sorter, Sum, len as nat).part)
    ensures SumSpeedUp(key, data, len, sock, link).sock == Open
    ensures SumSpeedUp(key, data, len, sock, link).value
            == SumKeys(key, Prefix(data, len as nat / 2) + Generate(len as nat / 2, len as nat))
    ensures data.None? ==> SumSpeedUp(key, data, len, sock, link).value == SumKeys(key, Generate(0, len as nat))
  {
    var n := len as nat;
    SumKeysAppend(key, Prefix(data, n / 2), Generate(n / 2, n));
    GenerateSplit(0, n / 2, n);
  }

  /** End to end for the maximum, as SumSpeedUpCorrect. */
  lemma MaxSpeedUpCorrect(key: real -> real, sorter: seq<real> -> seq<real>, data: Option<seq<real>>, len: i32, sock: Sock, link: Link<Ext>)
    requires 0 < len && (data.Some? ==> len as int <= |data.value|)
    requires GetWorkerSock(sock, link.connectOk) == Open && link.sendOk
    requires link.reply == Some(WorkerAnswer(key, sorter, Max, len as nat).best)
    ensures MaxSpeedUp(key, data, len, sock, link).sock == Open
    ensures MaxSpeedUp(key, data, len, sock, link).value
            == MaxKeys(key, Prefix(data, len as nat / 2) + Generate(len as nat / 2, len as nat))
    ensures data.None? ==> MaxSpeedUp(key, data, len, sock, link).value == MaxKeys(key, Generate(0, len as nat))
  {
    var n := len as nat;
    MaxKeysAppend(key, Prefix(data, n / 2), Generate(n / 2, n));
    GenerateSplit(0, n / 2, n);
  }

  // ---------------------------------------------------------------------
  // sortSpeedUp
  // ---------------------------------------------------------------------

  /** What the coordinator receives after a successful header send: the
      u64 byte count is lost, or it arrives and is followed by a payload
      (None when that receive fails; a shorter payload than announced is a
      failed receive as well). */
  datatype SortRecv = CountLost | Counted(bytes: u64, payload: Option<seq<real>>)

  /** Transport outcomes of one sortSpeedUp call. The source retries
      itself after a failed header send (each retry re-dials); a run that
      ends is: `failedSends` rounds whose send fails, then a final round
      whose dial (if one is needed) succeeds iff `connectOk`, whose send
      succeeds, and whose receive gives `recv`. */
  datatype SortNet = SortNet(failedSends: nat, connectOk: bool, recv: SortRecv)

  /** Whether the final round of a run has a socket: a failed send resets
      the cache, so after one the final round always dials. */
  predicate FinalDialOk(sock: Sock, net: SortNet)
  {
    GetWorkerSock(if net.failedSends > 0 then Invalid else sock, net.connectOk) == Open
  }

  /** What sortSpeedUp leaves in `result`: nothing, the keys written in
      order, or the undefined behaviour of `sort(nullptr, len, result)`. */
  datatype Written = Untouched | Wrote(keys: seq<real>) | NullData

  datatype SortOut = SortOut(result: Written, sock: Sock)

  /** The values announced by a well-formed count that were received in
      full: None when the count is not a multiple of 4 or the payload
      receive fails. */
  function ReceivedPayload(bytes: u64, payload: Option<seq<real>>): (b: Option<seq<real>>)
    ensures b.Some? ==> bytes as int % 4 == 0 && |b.value| == bytes as int / 4
    ensures b.None? <==> bytes as int % 4 != 0 || (bytes > 0 && (payload.None? || |payload.value| < bytes as int / 4))
  {
    if bytes % 4 != 0 then None
    else if bytes == 0 then Some([])
    else match payload
      case None => None
      case Some(p) => if |p| < bytes as int / 4 then None else Some(p[..bytes / 4])
  }

  /** The `sort(data, len, result)` fallback after a failed receive;
      SortSpeedUpFallback states what it writes. */
  function Fallback(key: real -> real, data: Option<seq<real>>, n: nat): Written
    requires data.Some? ==> n <= |data.value|
  {
    match data
    case Some(d) => Wrote(SortedKeys(key, d[..n]))
    case None => NullData
  }

  /** `sortSpeedUp(data, len, result)`; data None is a null pointer and
      `hasResult` says whether `result` is non-null. */
  function SortSpeedUp(key: real -> real, data: Option<seq<real>>, len: i32, hasResult: bool, sock: Sock, net: SortNet): (o: SortOut)
    requires data.Some? ==> len as int <= |data.value|
    ensures len <= 0 || !hasResult ==> o == SortOut(Untouched, sock)
    ensures len > 0 && hasResult ==> o.result != Untouched
    ensures o.result == NullData ==> data.None?
    decreases net.failedSends
  {
    if len <= 0 || !hasResult then SortOut(Untouched, sock)
    else
      var n := len as nat;
      var a := Prefix(data, n / 2);
      var c := GetWorkerSock(sock, net.failedSends > 0 || net.connectOk);
      if c == Invalid then
        SortOut(Wrote(SortedKeys(key, Prefix(data, n))), c)
      else if net.failedSends > 0 then
        SortSpeedUp(key, data, len, hasResult, ResetWorkerSock(c), net.(failedSends := net.failedSends - 1))
      else match net.recv
        case CountLost => SortOut(Fallback(key, data, n), ResetWorkerSock(c))
        case Counted(bytes, payload) =>
          match ReceivedPayload(bytes, payload)
          case None => SortOut(Fallback(key, data, n), ResetWorkerSock(c))
          case Some(sortedB) =>
            SortOut(Wrote(MergeKeys(SortedKeys(key, a), Keys(key, sortedB))), c)
  }

  /** With no worker reachable in the final round (the cached socket is
      gone and the dial fails, after any number of failed sends) the whole
      input is sorted locally: the result holds all n keys in order. */
  lemma {:induction false} SortSpeedUpNoWorker(key: real -> real, data: Option<seq<real>>, len: i32, sock: Sock, net: SortNet)
    requires data.Some? ==> len as int <= |data.value|
    requires 0 < len && !FinalDialOk(sock, net)
    ensures SortSpeedUp(key, data, len, true, sock, net) == SortOut(Wrote(SortedKeys(key, Prefix(data, len as nat))), Invalid)
    ensures Sorted(SortSpeedUp(key, data, len, true, sock, net).result.keys)
    ensures |SortSpeedUp(key, data, len, true, sock, net).result.keys| == len as int
    decreases net.failedSends
  {
    if net.failedSends > 0 {
      SortRetry(key, data, len, sock, net);
      SortSpeedUpNoWorker(key, data, len, Invalid, net.(failedSends := net.failedSends - 1));
    } else {
      SortedKeysSpec(key, Prefix(data, len as nat));
    }
  }

  /** A run whose final round has a socket but whose receive fails (the
      count is lost, is not a multiple of 4, or the values fall short)
      resets the socket and falls back to `sort(data, len, result)`: all
      len keys of data[0..len) in order, or the undefined outcome when
      data is null. */
  lemma {:induction false} SortSpeedUpFallback(key: real -> real, data: Option<seq<real>>, len: i32, sock: Sock, net: SortNet)
    requires 0 < len && (data.Some? ==> len as int <= |data.value|)
    requires FinalDialOk(sock, net)
    requires !(net.recv.Counted? && ReceivedPayload(net.recv.bytes, net.recv.payload).Some?)
    ensures data.Some? ==> SortSpeedUp(key, data, len, true, sock, net) == SortOut(Wrote(SortedKeys(key, data.value[..len])), Invalid)
    ensures data.Some? ==> Sorted(SortSpeedUp(key, data, len, true, sock, net).result.keys)
    ensures data.Some? ==> |SortSpeedUp(key, data, len, true, sock, net).result.keys| == len as int
    ensures data.None? ==> SortSpeedUp(key, data, len, true, sock, net) == SortOut(NullData, Invalid)
    decreases net.failedSends
  {
    if net.failedSends > 0 {
      SortRetry(key, data, len, sock, net);
      SortSpeedUpFallback(key, data, len, Invalid, net.(failedSends := net.failedSends - 1));
    } else if data.Some? {
      SortedKeysSpec(key, data.value[..len]);
    }
  }

  /** Whether a run ends on the merge path: the final round has a socket
      and the worker's count and values arrive intact. */
  predicate MergePath(sock: Sock, net: SortNet)
  {
    FinalDialOk(sock, net) && net.recv.Counted? && ReceivedPayload(net.recv.bytes, net.recv.payload).Some?
  }

  /** The worker's values on the merge path. */
  function Received(net: SortNet): (b: seq<real>)
    requires net.recv.Counted? && ReceivedPayload(net.recv.bytes, net.recv.payload).Some?
    ensures |b| == net.recv.bytes as int / 4
  {
    ReceivedPayload(net.recv.bytes, net.recv.payload).value
  }

  /** A failed header send resets the socket and runs the whole call again. */
  lemma SortRetry(key: real -> real, data: Option<seq<real>>, len: i32, sock: Sock, net: SortNet)
    requires 0 < len && (data.Some? ==> len as int <= |data.value|)
    requires net.failedSends > 0
    ensures SortSpeedUp(key, data, len, true, sock, net)
            == SortSpeedUp(key, data, len, true, Invalid, net.(failedSends := net.failedSends - 1))
  {
  }

  /** The merge path writes the sorted local keys merged with the keys of
      the values received, after any number of failed sends. */
  lemma {:induction false} SortMerge(key: real -> real, data: Option<seq<real>>, len: i32, sock: Sock, net: SortNet)
    requires 0 < len && (data.Some? ==> len as int <= |data.value|)
    requires MergePath(sock, net)
    ensures SortSpeedUp(key, data, len, true, sock, net)
            == SortOut(Wrote(MergeKeys(SortedKeys(key, Prefix(data, len as nat / 2)), Keys(key, Received(net)))), Open)
    decreases net.failedSends
  {
    if net.failedSends > 0 {
      SortRetry(key, data, len, sock, net);
      SortMerge(key, data, len, Invalid, net.(failedSends := net.failedSends - 1));
    }
  }

  /** On the merge path, `result` receives mid + bytes/4 keys, which is
      exactly len only when the worker announced len - mid values; the
      count is not checked against len. */
  lemma SortSpeedUpLength(key: real -> real, data: Option<seq<real>>, len: i32, sock: Sock, net: SortNet)
    requires 0 < len && (data.Some? ==> len as int <= |data.value|)
    requires MergePath(sock, net)
    ensures SortSpeedUp(key, data, len, true, sock, net).result.Wrote?
    ensures |SortSpeedUp(key, data, len, true, sock, net).result.keys| == len as int / 2 + net.recv.bytes as int / 4
    ensures |SortSpeedUp(key, data, len, true, sock, net).result.keys| == len as int
            <==> net.recv.bytes as int / 4 == len as int - len as int / 2
  {
    SortMerge(key, data, len, sock, net);
    SortedKeysSpec(key, Prefix(data, len as nat / 2));
  }

  /** On the merge path the output is in key order whenever the worker's
      values are. */
  lemma SortSpeedUpSorted(key: real -> real, data: Option<seq<real>>, len: i32, sock: Sock, net: SortNet)
    requires 0 < len && (data.Some? ==> len as int <= |data.value|)
    requires MergePath(sock, net)
    requires SortedBy(key, Received(net))
    ensures SortSpeedUp(key, data, len, true, sock, net).result.Wrote?
    ensures Sorted(SortSpeedUp(key, data, len, true, sock, net).result.keys)
  {
    SortMerge(key, data, len, sock, net);
    SortedKeysSpec(key, Prefix(data, len as nat / 2));
    SortedByKeys(key, Received(net));
    MergeSorted(SortedKeys(key, Prefix(data, len as nat / 2)), Keys(key, Received(net)));
  }

  /** The reply the worker sends to the coordinator's SORT header
      {MAGIC, SORT, N - mid, mid, N}, as the coordinator receives it. */
  function HonestSortRecv(key: real -> real, sorter: seq<real> -> seq<real>, n: nat): (recv: SortRecv)
    requires 0 < n
    ensures recv.Counted? && recv.payload.Some?
  {
    var r := Worker.Respond(key, sorter, Sort, n / 2, n);
    Counted(r.bytes, Some(r.payload))
  }

  /** The honest reply arrives intact and carries the worker's values in
      key order. */
  lemma HonestSortReceived(key: real -> real, sorter: seq<real> -> seq<real>, n: nat)
    requires Worker.SortsByKey(key, sorter)
    requires 0 < n < 0x8000_0000
    ensures ReceivedPayload(HonestSortRecv(key, sorter, n).bytes, HonestSortRecv(key, sorter, n).payload)
            == HonestSortRecv(key, sorter, n).payload
    ensures Keys(key, HonestSortRecv(key, sorter, n).payload.value) == SortedKeys(key, Generate(n / 2, n))
  {
    var r := Worker.Respond(key, sorter, Sort, n / 2, n);
    Worker.RespondSort(key, sorter, n / 2, n);
    ReceivedInFull(r.bytes, r.payload);
  }

  /** A count of exactly four bytes per value, followed by those values,
      is received as exactly those values. */
  lemma ReceivedInFull(bytes: u64, vals: seq<real>)
    requires bytes as int == 4 * |vals|
    ensures ReceivedPayload(bytes, Some(vals)) == Some(vals)
  {
    assert bytes % 4 == 0 && bytes as int / 4 == |vals|;
    assert vals[..bytes / 4] == vals;
  }

  /** End to end: whatever the number of failed sends before it, a run
      that reaches the worker and gets its reply writes the sorted keys of
      the local half followed by [mid, n); with no data that is the sorted
      keys of the whole generated range [0, n). */
  lemma SortSpeedUpCorrect(key: real -> real, sorter: seq<real> -> seq<real>, data: Option<seq<real>>, len: i32, sock: Sock, net: SortNet)
    requires Worker.SortsByKey(key, sorter)
    requires 0 < len && (data.Some? ==> len as int <= |data.value|)
    requires FinalDialOk(sock, net)
    requires net.recv == HonestSortRecv(key, sorter, len as nat)
    ensures SortSpeedUp(key, data, len, true, sock, net)
            == SortOut(Wrote(SortedKeys(key, Prefix(data, len as nat / 2) + Generate(len as nat / 2, len as nat))), Open)
    ensures data.None? ==> SortSpeedUp(key, data, len, true, sock, net).result == Wrote(SortedKeys(key, Generate(0, len as nat)))
  {
    var n := len as nat;
    HonestSortReceived(key, sorter, n);
    SortMerge(key, data, len, sock, net);
    MergeOfSortedPartitions(key, Prefix(data, n / 2), Generate(n / 2, n));
    GenerateSplit(0, n / 2, n);
  }

  // ---------------------------------------------------------------------
  // The split operations run with the kernels
  // ---------------------------------------------------------------------

  /** sumSpeedUp as the source runs it, with cpu_sum_log_sqrt on the local
      half and `sum` on the fallback paths; it computes SumSpeedUp. */
  method SumSpeedUpRun(key: real -> real, data: Option<seq<real>>, len: i32, sock: Sock, link: Link<real>) returns (r: Reduced<real>)
    requires data.Some? ==> len as int <= |data.value|
    ensures r == SumSpeedUp(key, data, len, sock, link)
  {
    if len <= 0 {
      return Reduced(0.0, sock);
    }
    var n := len as nat;
    var a := Prefix(data, n / 2);
    assert a[..|a|] == a;
    var c := GetWorkerSock(sock, link.connectOk);
    if c == Invalid || !link.sendOk {
      var s := SumBaseline(key, a, (n / 2) as i32);
      return Reduced(s, ResetWorkerSock(c));
    }
    var aPart := CpuSumLogSqrt(key, a, |a|);
    match link.reply {
      case None => r := Reduced(aPart, ResetWorkerSock(c));
      case Some(bPart) => r := Reduced(aPart + bPart, c);
    }
  }

  /** maxSpeedUp as the source runs it, with cpu_max_log_sqrt on the local
      half and `max_function` on the fallback paths; it computes MaxSpeedUp. */
  method MaxSpeedUpRun(key: real -> real, data: Option<seq<real>>, len: i32, sock: Sock, link: Link<Ext>) returns (r: Reduced<Ext>)
    requires data.Some? ==> len as int <= |data.value|
    ensures r == MaxSpeedUp(key, data, len, sock, link)
  {
    if len <= 0 {
      return Reduced(NegInf, sock);
    }
    var n := len as nat;
    var a := Prefix(data, n / 2);
    assert a[..|a|] == a;
    var c := GetWorkerSock(sock, link.connectOk);
    if c == Invalid || !link.sendOk {
      var m := MaxBaseline(key, a, (n / 2) as i32);
      return Reduced(m, ResetWorkerSock(c));
    }
    var aMax := CpuMaxLogSqrt(key, a, |a|);
    match link.reply {
      case None => r := Reduced(aMax, ResetWorkerSock(c));
      case Some(bMax) => r := Reduced(if Below(bMax, aMax) then aMax else bMax, c);
    }
  }

  /** sortSpeedUp as the source runs it: quicksort_by_key on copies and
      merge_to_transformed into `result`, retrying after a failed header
      send; it computes SortSpeedUp. */
  method SortSpeedUpRun(key: real -> real, data: Option<seq<real>>, len: i32, hasResult: bool, sock: Sock, net: SortNet) returns (o: SortOut)
    requires data.Some? ==> len as int <= |data.value|
    ensures o == SortSpeedUp(key, data, len, hasResult, sock, net)
    decreases net.failedSends
  {
    if len <= 0 || !hasResult {
      return SortOut(Untouched, sock);
    }
    var n := len as nat;
    var a := Prefix(data, n / 2);
    var c := GetWorkerSock(sock, net.failedSends > 0 || net.connectOk);
    if c == Invalid {
      var full := SortCopy(key, Prefix(data, n));
      var keys := WriteKeys(key, full);
      return SortOut(Wrote(keys), c);
    }
    if net.failedSends > 0 {
      o := SortSpeedUpRun(key, data, len, hasResult, ResetWorkerSock(c), net.(failedSends := net.failedSends - 1));
      return;
    }
    var received := if net.recv.CountLost? then None else ReceivedPayload(net.recv.bytes, net.recv.payload);
    match received {
      case None =>
        match data {
          case None => o := SortOut(NullData, ResetWorkerSock(c));
          case Some(d) =>
            var keys := SortBaseline(key, d, len);
            o := SortOut(Wrote(keys), ResetWorkerSock(c));
        }
      case Some(sortedB) =>
        var sortedA := SortCopy(key, a);
        var out := MergeToTransformed(key, sortedA, sortedB);
        o := SortOut(Wrote(out), c);
    }
  }

  // ---------------------------------------------------------------------
  // Socket discipline
  // ---------------------------------------------------------------------

  /** Every failure path of the reductions leaves no socket cached, so
      the next call dials again; the success path keeps the socket. */
  lemma ReductionSockets(key: real -> real, data: Option<seq<real>>, len: i32, sock: Sock, link: Link<real>, mlink: Link<Ext>)
    requires 0 < len && (data.Some? ==> len as int <= |data.value|)
    ensures SumSpeedUp(key, data, len, sock, link).sock == Open <==> RoundTrip(sock, link)
    ensures MaxSpeedUp(key, data, len, sock, mlink).sock == Open <==> RoundTrip(sock, mlink)
  {
  }

  /** Every failure path of sortSpeedUp leaves no socket cached; the merge
      path keeps it. */
  lemma {:induction false} SortSockets(key: real -> real, data: Option<seq<real>>, len: i32, sock: Sock, net: SortNet)
    requires 0 < len && (data.Some? ==> len as int <= |data.value|)
    ensures SortSpeedUp(key, data, len, true, sock, net).sock == Open <==> MergePath(sock, net)
    decreases net.failedSends
  {
    if net.failedSends > 0 {
      SortRetry(key, data, len, sock, net);
      SortSockets(key, data, len, Invalid, net.(failedSends := net.failedSends - 1));
    }
  }
}
