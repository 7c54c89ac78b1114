/**
  The value generator `init_local(data, begin, end)` that the worker and the
  coordinator share: global positions [begin, end) hold the values
  begin + 1 .. end, so both sides build the same data without sending it.
  Values are exact; the conversion of large integers to float is not
  modelled.
 */
module Generator {

  /** The values init_local stores for the half-open range [begin, end):
      position i holds begin + i + 1. */
  function Generate(begin: nat, end: nat): (vals: seq<real>)
    requires begin <= end
    ensures |vals| == end - begin
    ensures forall i :: 0 <= i < |vals| ==> vals[i] == (begin + i + 1) as real
  {
    seq(end - begin, i requires 0 <= i < end - begin => (begin + i + 1) as real)
  }

  /** Adjacent ranges generate adjacent values: the coordinator's [0, mid)
      and the worker's [mid, N) together are exactly [0, N). */
  lemma GenerateSplit(a: nat, b: nat, c: nat)
    requires a <= b <= c
    ensures Generate(a, b) + Generate(b, c) == Generate(a, c)
  {
  }
}
