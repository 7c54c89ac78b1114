/**
  The wire protocol of common.h: the operation codes, the magic number and
  the packed 32-byte message header, sent in host (little-endian) order.
 */
module Wire {
  import opened Wrappers

  newtype byte = x: int | 0 <= x < 0x100
  newtype u32 = x: int | 0 <= x < 0x1_0000_0000
  newtype u64 = x: int | 0 <= x < 0x1_0000_0000_0000_0000

  /** 'DPCT' read as a little-endian 32-bit word. */
  const MAGIC: u32 := 0x54435044

  /** sizeof(MsgHeader): packed, so 4 + 4 + 8 + 8 + 8 bytes. */
  const HEADER_SIZE: nat := 32

  datatype Op = Sum | Max | Sort

  /** The numeric value of each Op on the wire. */
  function Code(op: Op): (c: u32)
    ensures 1 <= c <= 3
  {
    match op
    case Sum => 1
    case Max => 2
    case Sort => 3
  }

  /** The Op a wire code names, if any. */
  function OpOf(c: u32): (r: Option<Op>)
    ensures r.Some? <==> 1 <= c <= 3
    ensures r.Some? ==> Code(r.value) == c
  {
    if c == 1 then Some(Sum)
    else if c == 2 then Some(Max)
    else if c == 3 then Some(Sort)
    else None
  }

  /** Codes and operations are in one-to-one correspondence. */
  lemma OpCodes(op: Op)
    ensures OpOf(Code(op)) == Some(op)
    ensures Code(Sum) == 1 && Code(Max) == 2 && Code(Sort) == 3
  {
  }

  /** MsgHeader. `len` counts the values of the remote task; [begin, end)
      is the half-open global index range it covers. */
  datatype Header = Header(magic: u32, op: u32, len: u64, begin: u64, end: u64)

  function Pow256(n: nat): (p: nat)
    ensures p >= 1
  {
    if n == 0 then 1 else 256 * Pow256(n - 1)
  }

  lemma Pow256Widths()
    ensures Pow256(4) == 0x1_0000_0000
    ensures Pow256(8) == 0x1_0000_0000_0000_0000
  {
    assert Pow256(1) == 0x100;
    assert Pow256(2) == 0x1_0000;
    assert Pow256(3) == 0x100_0000;
    assert Pow256(4) == 0x1_0000_0000;
    assert Pow256(5) == 0x100_0000_0000;
    assert Pow256(6) == 0x1_0000_0000_0000;
    assert Pow256(7) == 0x100_0000_0000_0000;
  }

  /** The n-byte little-endian representation of x. */
  function ToLE(x: nat, n: nat): (bs: seq<byte>)
    requires x < Pow256(n)
    ensures |bs| == n
  {
    if n == 0 then [] else [(x % 256) as byte] + ToLE(x / 256, n - 1)
  }

  /** The number a little-endian byte sequence denotes. */
  function FromLE(bs: seq<byte>): (x: nat)
    ensures x < Pow256(|bs|)
  {
    if |bs| == 0 then 0 else bs[0] as nat + 256 * FromLE(bs[1..])
  }

  lemma {:induction false} FromLEToLE(x: nat, n: nat)
    requires x < Pow256(n)
    ensures FromLE(ToLE(x, n)) == x
  {
    if n > 0 {
      FromLEToLE(x / 256, n - 1);
      assert ToLE(x, n)[1..] == ToLE(x / 256, n - 1);
    }
  }

  lemma {:induction false} ToLEFromLE(bs: seq<byte>)
    ensures ToLE(FromLE(bs), |bs|) == bs
  {
    if |bs| > 0 {
      ToLEFromLE(bs[1..]);
      assert bs == [bs[0]] + bs[1..];
    }
  }

  /** The header as it leaves `send_all(c, &h, sizeof(h))`: each field
      little-endian, in declaration order, with no padding. */
  function Encode(h: Header): (bs: seq<byte>)
    ensures |bs| == HEADER_SIZE
  {
    Pow256Widths();
    ToLE(h.magic as nat, 4) + ToLE(h.op as nat, 4) + ToLE(h.len as nat, 8)
      + ToLE(h.begin as nat, 8) + ToLE(h.end as nat, 8)
  }

  /** The header `recv_all(c, &h, sizeof(h))` fills in; a buffer of any
      other size is not a header. */
  function Decode(bs: seq<byte>): (r: Option<Header>)
    ensures r.Some? <==> |bs| == HEADER_SIZE
  {
    if |bs| != HEADER_SIZE then None
    else
      Pow256Widths();
      Some(Header(FromLE(bs[0..4]) as u32, FromLE(bs[4..8]) as u32, FromLE(bs[8..16]) as u64,
                  FromLE(bs[16..24]) as u64, FromLE(bs[24..32]) as u64))
  }

  /** Decoding an encoded header gives the header back. */
  lemma DecodeEncode(h: Header)
    ensures Decode(Encode(h)) == Some(h)
  {
    Pow256Widths();
    var bs := Encode(h);
    assert bs[0..4] == ToLE(h.magic as nat, 4);
    assert bs[4..8] == ToLE(h.op as nat, 4);
    assert bs[8..16] == ToLE(h.len as nat, 8);
    assert bs[16..24] == ToLE(h.begin as nat, 8);
    assert bs[24..32] == ToLE(h.end as nat, 8);
    FromLEToLE(h.magic as nat, 4);
    FromLEToLE(h.op as nat, 4);
    FromLEToLE(h.len as nat, 8);
    FromLEToLE(h.begin as nat, 8);
    FromLEToLE(h.end as nat, 8);
  }

  /** Every 32-byte buffer is the encoding of the header it decodes to. */
  lemma EncodeDecode(bs: seq<byte>)
    requires |bs| == HEADER_SIZE
    ensures Encode(Decode(bs).value) == bs
  {
    ToLEFromLE(bs[0..4]);
    ToLEFromLE(bs[4..8]);
    ToLEFromLE(bs[8..16]);
    ToLEFromLE(bs[16..24]);
    ToLEFromLE(bs[24..32]);
    assert bs == bs[0..4] + bs[4..8] + bs[8..16] + bs[16..24] + bs[24..32];
  }

  /** The magic number goes out as the ASCII bytes 'D', 'P', 'C', 'T'. */
  lemma MagicBytes(h: Header)
    requires h.magic == MAGIC
    ensures Encode(h)[..4] == [('D' as int) as byte, ('P' as int) as byte, ('C' as int) as byte, ('T' as int) as byte]
  {
    Pow256Widths();
    assert Encode(h)[..4] == ToLE(MAGIC as nat, 4);
  }
}
