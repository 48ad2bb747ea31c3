/** The layout of a little-endian machine: a hit is four 32-bit integers followed by three
    64-bit doubles, 40 bytes without padding. */
module LittleEndian {
  import opened Pulse
  import opened HitPipeline
  import opened Words

  function Bytes(n: nat, k: nat): (bs: seq<Byte>)
    ensures |bs| == k
    decreases k
  {
    if k == 0 then [] else [n % 256] + Bytes(n / 256, k - 1)
  }

  function Number(bs: seq<Byte>): nat {
    if bs == [] then 0 else bs[0] + 256 * Number(bs[1..])
  }

  function Power256(k: nat): nat {
    if k == 0 then 1 else 256 * Power256(k - 1)
  }

  lemma {:induction false} BytesRoundTrip(n: nat, k: nat)
    ensures n < Power256(k) ==> Number(Bytes(n, k)) == n
    ensures Number(Bytes(n, k)) < Power256(k)
    decreases k
  {
    if k > 0 {
      BytesRoundTrip(n / 256, k - 1);
      assert Bytes(n, k)[1..] == Bytes(n / 256, k - 1);
    }
  }

  lemma {:induction false} NumberBound(bs: seq<Byte>)
    ensures Number(bs) < Power256(|bs|)
  {
    if bs != [] { NumberBound(bs[1..]); }
  }

  datatype Width = Bits32 | Bits64 {
    function Size(): nat { if Bits32? then 4 else 8 }
  }

  function Bytes32(n: Word32): Count
  {
    Bytes(n, Bits32.Size())
  }

  function Bytes64(n: Word64): (bs: seq<Byte>)
    ensures |bs| == 8
  {
    Bytes(n, Bits64.Size())
  }

  function Int32(bs: Count): Word32 {
    NumberBound(bs);
    assert Power256(4) == 256 * (256 * Power256(2)) && Power256(2) == 256 * (256 * Power256(0));
    Number(bs)
  }

  function Int64(bs: seq<Byte>): Word64
    requires |bs| == 8
  {
    NumberBound(bs);
    Power256Of8();
    Number(bs)
  }

  lemma Power256Of8()
    ensures Power256(4) == 0x1_0000_0000 && Power256(8) == 0x1_0000_0000_0000_0000
  {
  }

  function EncodeHit(h: HitBlock): Chunk {
    Bytes32(h.cobo) + Bytes32(h.asad) + Bytes32(h.aget) + Bytes32(h.chan)
    + Bytes64(h.time) + Bytes64(h.peak) + Bytes64(h.integral)
  }

  function DecodeHit(bs: Chunk): HitBlock {
    HitBlock(Int32(bs[0..4]), Int32(bs[4..8]), Int32(bs[8..12]), Int32(bs[12..16]),
             Int64(bs[16..24]), Int64(bs[24..32]), Int64(bs[32..40]))
  }

  lemma Slices(a: seq<Byte>, b: seq<Byte>, c: seq<Byte>, d: seq<Byte>, e: seq<Byte>, f: seq<Byte>, g: seq<Byte>)
    requires |a| == |b| == |c| == |d| == 4 && |e| == |f| == |g| == 8
    ensures var bs := a + b + c + d + e + f + g;
            && |bs| == 40
            && bs[0..4] == a && bs[4..8] == b && bs[8..12] == c && bs[12..16] == d
            && bs[16..24] == e && bs[24..32] == f && bs[32..40] == g
  {
  }

  lemma Int32RoundTrip(n: Word32)
    ensures Int32(Bytes32(n)) == n
  {
    Power256Of8();
    BytesRoundTrip(n, Bits32.Size());
  }

  lemma Int64RoundTrip(n: Word64)
    ensures Int64(Bytes64(n)) == n
  {
    Power256Of8();
    BytesRoundTrip(n, Bits64.Size());
  }

  lemma DecodeEncodeHit(h: HitBlock)
    ensures DecodeHit(EncodeHit(h)) == h
  {
    Slices(Bytes32(h.cobo), Bytes32(h.asad), Bytes32(h.aget), Bytes32(h.chan),
           Bytes64(h.time), Bytes64(h.peak), Bytes64(h.integral));
    Int32RoundTrip(h.cobo);
    Int32RoundTrip(h.asad);
    Int32RoundTrip(h.aget);
    Int32RoundTrip(h.chan);
    Int64RoundTrip(h.time);
    Int64RoundTrip(h.peak);
    Int64RoundTrip(h.integral);
  }

  /** The value of four bytes, the lowest first. */
  function Lowest4(bs: seq<Byte>): nat
    requires |bs| == 4
  {
    var a: nat, b: nat, c: nat, d: nat := bs[0], bs[1], bs[2], bs[3];
    a + 0x100 * b + 0x1_0000 * c + 0x100_0000 * d
  }

  lemma FourFirst(bs: seq<Byte>)
    requires |bs| >= 4
    ensures Number(bs) == Lowest4(bs[..4]) + 0x1_0000_0000 * Number(bs[4..])
  {
    assert bs[1..][1..] == bs[2..] && bs[2..][1..] == bs[3..] && bs[3..][1..] == bs[4..];
    assert Number(bs[3..]) == bs[3] + 256 * Number(bs[4..]);
    assert Number(bs[2..]) == bs[2] + 256 * Number(bs[3..]);
    assert Number(bs[1..]) == bs[1] + 256 * Number(bs[2..]);
  }

  lemma NumberOfFour(bs: seq<Byte>)
    requires |bs| == 4
    ensures Number(bs) == Lowest4(bs)
  {
    FourFirst(bs);
    assert bs[..4] == bs && bs[4..] == [];
  }

  lemma NumberOfEight(bs: seq<Byte>)
    requires |bs| == 8
    ensures Number(bs) == Lowest4(bs[..4]) + 0x1_0000_0000 * Lowest4(bs[4..])
  {
    FourFirst(bs);
    NumberOfFour(bs[4..]);
  }

  /** Where each member of the structure lies, and in which order its bytes are. */
  lemma HitStructure(h: HitBlock)
    ensures var bs := EncodeHit(h);
            && Lowest4(bs[0..4]) == h.cobo && Lowest4(bs[4..8]) == h.asad
            && Lowest4(bs[8..12]) == h.aget && Lowest4(bs[12..16]) == h.chan
            && Lowest4(bs[16..20]) + 0x1_0000_0000 * Lowest4(bs[20..24]) == h.time
            && Lowest4(bs[24..28]) + 0x1_0000_0000 * Lowest4(bs[28..32]) == h.peak
            && Lowest4(bs[32..36]) + 0x1_0000_0000 * Lowest4(bs[36..40]) == h.integral
  {
    var bs := EncodeHit(h);
    Slices(Bytes32(h.cobo), Bytes32(h.asad), Bytes32(h.aget), Bytes32(h.chan),
           Bytes64(h.time), Bytes64(h.peak), Bytes64(h.integral));
    WordBytes(h.cobo);
    WordBytes(h.asad);
    WordBytes(h.aget);
    WordBytes(h.chan);
    DoubleBytes(h.time, bs, 16);
    DoubleBytes(h.peak, bs, 24);
    DoubleBytes(h.integral, bs, 32);
  }

  lemma WordBytes(n: Word32)
    ensures Lowest4(Bytes32(n)) == n
  {
    NumberOfFour(Bytes32(n));
    Int32RoundTrip(n);
  }

  lemma DoubleBytes(n: Word64, bs: Chunk, k: nat)
    requires k + 8 <= 40 && bs[k..k + 8] == Bytes64(n)
    ensures Lowest4(bs[k..k + 4]) + 0x1_0000_0000 * Lowest4(bs[k + 4..k + 8]) == n
  {
    var own := bs[k..k + 8];
    assert own[..4] == bs[k..k + 4] && own[4..] == bs[k + 4..k + 8];
    NumberOfEight(own);
    Int64RoundTrip(n);
  }

  /** Whatever 64 bits stand for the doubles, this layout can be read again. */
  lemma LayoutReadable(ofQuotient: Quotient -> Word64, ofReal: real -> Word64)
    ensures Readable(Layout(ofQuotient, ofReal, Bytes32, Int32, EncodeHit, DecodeHit))
  {
    forall n: Word32 ensures Int32(Bytes32(n)) == n { Int32RoundTrip(n); }
    forall h: HitBlock ensures DecodeHit(EncodeHit(h)) == h { DecodeEncodeHit(h); }
  }
}
