/** The byte format of a partial Merkle tree: compact integers, hashes, and flag bits packed into bytes. */
module MerkleBlockWire {
  import opened Wrappers
  import opened Basics
  import opened Bits
  import opened MerkleSpec
  import opened PartialMerkleSpec

  /** A 32-byte hash. */
  type Hash256 = s: seq<Byte> | |s| == 32 witness seq(32, _ => 0)

  /* Compact integers */

  function LittleEndian(n: nat, k: nat): (bs: seq<Byte>)
    ensures |bs| == k
  {
    if k == 0 then [] else [n % 256] + LittleEndian(n / 256, k - 1)
  }

  lemma {:induction false} LittleEndianRoundTrip(n: nat, k: nat)
    requires n < Pow256(k)
    ensures Magnitude(LittleEndian(n, k)) == n
  {
    if k > 0 {
      LittleEndianRoundTrip(n / 256, k - 1);
      assert LittleEndian(n, k)[1..] == LittleEndian(n / 256, k - 1);
    }
  }

  const MAX_UINT16: nat := 0xffff
  const MAX_UINT32: nat := 0xffff_ffff
  const MAX_UINT64: nat := 0xffff_ffff_ffff_ffff

  function WriteVarInt(n: nat): seq<Byte>
    requires n <= MAX_UINT64
  {
    if n < 0xfd then [n]
    else if n <= MAX_UINT16 then [0xfd] + LittleEndian(n, 2)
    else if n <= MAX_UINT32 then [0xfe] + LittleEndian(n, 4)
    else [0xff] + LittleEndian(n, 8)
  }

  /** Reads k little-endian bytes that must encode at least min. */
  function ReadWide(bs: seq<Byte>, k: nat, min: nat): Option<(nat, seq<Byte>)> {
    if |bs| < k then None
    else
      var n := Magnitude(bs[..k]);
      if n < min then None else Some((n, bs[k..]))
  }

  function ReadVarInt(bs: seq<Byte>): Option<(nat, seq<Byte>)> {
    if bs == [] then None
    else if bs[0] == 0xff then ReadWide(bs[1..], 8, 0x1_0000_0000)
    else if bs[0] == 0xfe then ReadWide(bs[1..], 4, 0x1_0000)
    else if bs[0] == 0xfd then ReadWide(bs[1..], 2, 0xfd)
    else Some((bs[0], bs[1..]))
  }

  lemma {:induction false} ReadWideRoundTrip(n: nat, k: nat, min: nat, rest: seq<Byte>)
    requires min <= n < Pow256(k)
    ensures ReadWide(LittleEndian(n, k) + rest, k, min) == Some((n, rest))
  {
    var bs := LittleEndian(n, k) + rest;
    assert bs[..k] == LittleEndian(n, k) && bs[k..] == rest;
    LittleEndianRoundTrip(n, k);
  }

  lemma {:induction false} VarIntRoundTrip(n: nat, rest: seq<Byte>)
    requires n <= MAX_UINT64
    ensures ReadVarInt(WriteVarInt(n) + rest) == Some((n, rest))
  {
    hide LittleEndian, Magnitude, ReadWide;
    var out := WriteVarInt(n) + rest;
    if n < 0xfd {
      assert out[1..] == rest;
    } else if n <= MAX_UINT16 {
      assert out[1..] == LittleEndian(n, 2) + rest;
      assert Pow256(2) == 0x1_0000;
      ReadWideRoundTrip(n, 2, 0xfd, rest);
    } else if n <= MAX_UINT32 {
      assert out[1..] == LittleEndian(n, 4) + rest;
      assert Pow256(4) == 0x1_0000_0000 by { assert Pow256(2) == 0x1_0000; }
      ReadWideRoundTrip(n, 4, 0x1_0000, rest);
    } else {
      assert out[1..] == LittleEndian(n, 8) + rest;
      assert Pow256(8) == 0x1_0000_0000_0000_0000 by {
        assert Pow256(2) == 0x1_0000;
        assert Pow256(4) == 0x1_0000_0000;
        assert Pow256(6) == 0x1_0000_0000_0000;
      }
      ReadWideRoundTrip(n, 8, 0x1_0000_0000, rest);
    }
  }

  /* Hashes */

  function WriteHashes(hs: seq<Hash256>): seq<Byte> {
    if hs == [] then [] else hs[0] + WriteHashes(hs[1..])
  }

  function ReadHashes(bs: seq<Byte>, count: nat): Option<(seq<Hash256>, seq<Byte>)>
    decreases count
  {
    if count == 0 then Some(([], bs))
    else if |bs| < 32 then None
    else
      match ReadHashes(bs[32..], count - 1)
      case None => None
      case Some((hs, rest)) => var h: Hash256 := bs[..32]; Some(([h] + hs, rest))
  }

  lemma {:induction false} HashesRoundTrip(hs: seq<Hash256>, rest: seq<Byte>)
    ensures ReadHashes(WriteHashes(hs) + rest, |hs|) == Some((hs, rest))
  {
    var out := WriteHashes(hs) + rest;
    if hs == [] {
      assert out == rest;
    } else {
      assert out[..32] == hs[0] && out[32..] == WriteHashes(hs[1..]) + rest;
      HashesRoundTrip(hs[1..], rest);
      assert [hs[0]] + hs[1..] == hs;
    }
  }

  /* Flag bits */

  /** Number of bytes that hold n flag bits. */
  function BytesFor(n: nat): nat { (n + 7) / 8 }

  /** Flag p of a byte string: bs[p/8] & (1 << p%8) != 0 */
  predicate FlagAt(bs: seq<Byte>, p: nat)
    requires p / 8 < |bs|
  {
    Bit(bs[p / 8], p % 8)
  }

  /** x | (1 << i) */
  function SetBit(x: nat, i: nat): nat {
    if Bit(x, i) then x else x + Pow2(i)
  }

  lemma {:induction false} SetBitHalf(x: nat, i: nat)
    requires i > 0
    ensures SetBit(x, i) / 2 == SetBit(x / 2, i - 1) && SetBit(x, i) % 2 == x % 2
  {
    ShrHalf(x, i - 1);
  }

  /** Setting a bit changes no other bit. */
  lemma {:induction false} SetBitBits(x: nat, i: nat, j: nat)
    ensures Bit(SetBit(x, i), j) <==> j == i || Bit(x, j)
  {
    if i > 0 {
      SetBitHalf(x, i);
      if j > 0 {
        SetBitBits(x / 2, i - 1, j - 1);
        ShrHalf(SetBit(x, i), j - 1);
        ShrHalf(x, j - 1);
      }
    } else if j > 0 {
      assert SetBit(x, 0) / 2 == x / 2;
      ShrHalf(SetBit(x, 0), j - 1);
      ShrHalf(x, j - 1);
    }
  }

  lemma {:induction false} SetBitFits(x: nat, i: nat, k: nat)
    requires x < Pow2(k) && i < k
    ensures SetBit(x, i) < Pow2(k)
  {
    var half := Pow2(k - 1);
    assert Pow2(k) == 2 * half && x / 2 < half;
    if i > 0 {
      SetBitFits(x / 2, i - 1, k - 1);
      SetBitHalf(x, i);
    } else {
      assert SetBit(x, 0) / 2 == x / 2;
    }
  }

  /** bs holds exactly the given flags, with the spare bits of the last byte clear. */
  ghost predicate Packed(bits: seq<bool>, bs: seq<Byte>) {
    |bs| == BytesFor(|bits|) &&
    forall p: nat :: p < 8 * |bs| ==> (FlagAt(bs, p) <==> p < |bits| && bits[p])
  }

  method PackBits(bits: seq<bool>) returns (bs: seq<Byte>)
    ensures Packed(bits, bs)
  {
    var buf := new Byte[BytesFor(|bits|)](_ => 0);
    forall p: nat | p < 8 * buf.Length
      ensures !Bit(buf[p / 8], p % 8)
    {
      ZeroHasNoBits(p % 8);
    }
    var p := 0;
    while p < |bits|
      invariant 0 <= p <= |bits|
      invariant forall q: nat :: q < 8 * buf.Length ==> (Bit(buf[q / 8], q % 8) <==> q < p && bits[q])
    {
      if bits[p] {
        ghost var before := buf[..];
        var k, i := p / 8, p % 8;
        assert Pow2(8) == 256;
        SetBitFits(buf[k], i, 8);
        buf[k] := SetBit(buf[k], i);
        forall q: nat | q < 8 * buf.Length
          ensures Bit(buf[q / 8], q % 8) <==> q == p || Bit(before[q / 8], q % 8)
        {
          if q / 8 == k {
            SetBitBits(before[k], i, q % 8);
          }
        }
      }
      p := p + 1;
    }
    bs := buf[..];
  }

  lemma {:induction false} ZeroHasNoBits(k: nat)
    ensures Shr(0, k) == 0
  {
    if k > 0 {
      ZeroHasNoBits(k - 1);
    }
  }

  /** All flags of a byte string, as the reader unpacks them. */
  function Unpacked(bs: seq<Byte>): (bits: seq<bool>)
    ensures |bits| == 8 * |bs|
    ensures forall p: nat :: p < |bits| ==> (bits[p] <==> FlagAt(bs, p))
  {
    seq(8 * |bs|, p requires 0 <= p < 8 * |bs| => FlagAt(bs, p))
  }

  method UnpackBits(bs: seq<Byte>) returns (bits: seq<bool>)
    ensures bits == Unpacked(bs)
  {
    var buf := new bool[8 * |bs|];
    for p: nat := 0 to buf.Length
      invariant forall q: nat :: q < p ==> (buf[q] <==> FlagAt(bs, q))
    {
      buf[p] := Bit(bs[p / 8], p % 8);
    }
    bits := buf[..];
  }

  /** Unpacking returns the flags followed by the clear spare bits of the last byte. */
  lemma {:induction false} PackedRoundTrip(bits: seq<bool>, bs: seq<Byte>)
    requires Packed(bits, bs)
    ensures Unpacked(bs) == bits + seq(8 * BytesFor(|bits|) - |bits|, _ => false)
  {
  }

  /* The whole message */

  function Encode(txs: nat, hashes: seq<Hash256>, flags: seq<Byte>): seq<Byte>
    requires txs <= MAX_UINT64 && |hashes| <= MAX_UINT64 && |flags| <= MAX_UINT64
  {
    WriteVarInt(txs) + (WriteVarInt(|hashes|) + (WriteHashes(hashes) + (WriteVarInt(|flags|) + flags)))
  }

  /** Unserialize; the flag bytes are limited to 2^32 - 1. */
  function Decode(bs: seq<Byte>): Option<(nat, Proof<Hash256>)> {
    match ReadVarInt(bs)
    case None => None
    case Some((txs, r1)) =>
      match ReadVarInt(r1)
      case None => None
      case Some((count, r2)) =>
        match ReadHashes(r2, count)
        case None => None
        case Some((hashes, r3)) =>
          match ReadVarInt(r3)
          case None => None
          case Some((len, r4)) =>
            if len > MAX_UINT32 || |r4| < len then None
            else Some((txs, Proof(Unpacked(r4[..len]), hashes)))
  }

  method Serialize(txs: nat, p: Proof<Hash256>) returns (out: seq<Byte>)
    requires txs <= MAX_UINT64 && |p.hashes| <= MAX_UINT64 && BytesFor(|p.bits|) <= MAX_UINT32
    ensures Decode(out) ==
            Some((txs, Proof(p.bits + seq(8 * BytesFor(|p.bits|) - |p.bits|, _ => false), p.hashes)))
  {
    var flags := PackBits(p.bits);
    out := Encode(txs, p.hashes, flags);
    DecodeOfEncode(txs, p.hashes, flags);
    PackedRoundTrip(p.bits, flags);
  }

  lemma {:induction false} DecodeOfEncode(txs: nat, hashes: seq<Hash256>, flags: seq<Byte>)
    requires txs <= MAX_UINT64 && |hashes| <= MAX_UINT64 && |flags| <= MAX_UINT32
    ensures Decode(Encode(txs, hashes, flags)) == Some((txs, Proof(Unpacked(flags), hashes)))
  {
    hide ReadVarInt, WriteVarInt, ReadHashes, WriteHashes, Unpacked;
    var r3 := WriteVarInt(|flags|) + flags;
    var r2 := WriteHashes(hashes) + r3;
    var r1 := WriteVarInt(|hashes|) + r2;
    VarIntRoundTrip(txs, r1);
    VarIntRoundTrip(|hashes|, r2);
    HashesRoundTrip(hashes, r3);
    VarIntRoundTrip(|flags|, flags);
    assert flags[..|flags|] == flags;
  }

  /**
   A proof that is built, serialized, unserialized and extracted reports the Merkle root and exactly
   the matched transactions; what is needed of the block is that no two sibling nodes are equal.
   */
  lemma {:induction false} SentProofIsAccepted(hash: (Hash256, Hash256) -> Hash256, zero: Hash256, txids: seq<Hash256>,
                            matches: seq<bool>, flags: seq<Byte>)
    requires DistinctSiblings(hash, txids)
    requires 0 < |txids| <= MAX_UINT64 && |matches| == |txids|
    requires Packed(ProofFor(hash, txids, matches).bits, flags) && |flags| <= MAX_UINT32
    ensures var p := ProofFor(hash, txids, matches);
            |p.hashes| <= MAX_UINT64 &&
            var received := Decode(Encode(|txids|, p.hashes, flags));
            received.Some? && received.value.0 == |txids| &&
            Reports(ExtractAll(hash, zero, received.value.0, received.value.1, false), hash, txids, matches)
  {
    hide ProofFor, ExtractAll, Decode, Encode, Reports, DistinctSiblings, Unpacked;
    var p := ProofFor(hash, txids, matches);
    FitsMessage(hash, txids, matches);
    DecodeOfEncode(|txids|, p.hashes, flags);
    PackedRoundTrip(p.bits, flags);
    ProofIsAccepted(hash, zero, txids, matches, seq(8 * BytesFor(|p.bits|) - |p.bits|, _ => false));
  }

  lemma {:induction false} FitsMessage(hash: (Hash256, Hash256) -> Hash256, txids: seq<Hash256>, matches: seq<bool>)
    requires txids != []
    ensures var p := ProofFor(hash, txids, matches);
            |p.hashes| <= |txids| && BytesFor(|p.bits|) == (|p.bits| + 7) / 8 &&
            (8 * BytesFor(|p.bits|) + 7) / 8 == (|p.bits| + 7) / 8
  {
    hide Build, LeavesBefore;
    HeightIsLeast(|txids|);
    BuildIsSmall(hash, txids, matches, Height(|txids|), 0);
    TopLeaves(|txids|, Height(|txids|));
  }
}
