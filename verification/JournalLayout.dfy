/** The byte layout of journal headers (k64_xfs_format.h:99-107, k64_xfs_journal.c:8-55), for any checksum function. */
module JournalLayout {
  import opened Blocks
  import opened Journal

  const MAGIC: U32 := 0x584A4E4C

  /** n bytes of v, least significant first. */
  function Little(v: nat, n: nat): (b: seq<Byte>)
    ensures |b| == n
  {
    if n == 0 then [] else [v % 256] + Little(v / 256, n - 1)
  }

  function Value(b: seq<Byte>): nat {
    if b == [] then 0 else b[0] + 256 * Value(b[1..])
  }

  function Pow256(n: nat): nat { if n == 0 then 1 else 256 * Pow256(n - 1) }

  lemma {:induction false} ValueOfLittle(v: nat, n: nat)
    requires v < Pow256(n)
    ensures Value(Little(v, n)) == v
    decreases n
  {
    if n > 0 {
      ValueOfLittle(v / 256, n - 1);
      assert Little(v, n)[1..] == Little(v / 256, n - 1);
    }
  }

  lemma {:induction false} Widths()
    ensures Pow256(4) == U32_LIMIT && Pow256(8) == U64_LIMIT
  {
    assert Pow256(1) == 256 && Pow256(2) == 0x1_0000 && Pow256(3) == 0x100_0000 && Pow256(4) == U32_LIMIT;
    assert Pow256(5) == 256 * U32_LIMIT && Pow256(6) == 0x1_0000 * U32_LIMIT && Pow256(7) == 0x100_0000 * U32_LIMIT;
  }

  type Crc = seq<Byte> -> U32

  /** The 36 header bytes with a given checksum field. */
  function Fields(h: Header, sum: U32): (b: seq<Byte>)
    ensures |b| == 36
  {
    Little(MAGIC, 4) + Little(h.txId, 8) + Little(h.kind, 4) + Little(h.target, 8) + Little(h.payloadSize, 4) + Little(h.payloadCrc, 4)
    + Little(sum, 4)
  }

  /** The checksum is taken over the header with a zero checksum field. */
  function Encode(crc: Crc, h: Header): Block {
    Fields(h, crc(Fields(h, 0))) + seq(BLOCK_SIZE - 36, _ => 0)
  }

  function Word32(b: Block, at: nat): (v: nat)
    requires at + 4 <= 36
  {
    Value(b[at..at + 4])
  }

  function Word64(b: Block, at: nat): (v: nat)
    requires at + 8 <= 36
  {
    Value(b[at..at + 8])
  }

  lemma {:induction false} ValueBound(b: seq<Byte>)
    ensures Value(b) < Pow256(|b|)
  {
    if b != [] {
      ValueBound(b[1..]);
    }
  }

  /** A header whose magic and checksum are right. */
  function Decode(crc: Crc, b: Block): Option<Header> {
    Widths();
    ValueBound(b[4..12]); ValueBound(b[12..16]); ValueBound(b[16..24]); ValueBound(b[24..28]); ValueBound(b[28..32]);
    var h := Header(Word64(b, 4), Word32(b, 12), Word64(b, 16), Word32(b, 24), Word32(b, 28));
    if Word32(b, 0) == MAGIC && Word32(b, 32) == crc(b[..32] + [0, 0, 0, 0]) then Some(h) else None
  }

  function JournalCodec(crc: Crc, payloadCrc: Block -> U32): Codec {
    Codec((h: Header) => Encode(crc, h), (b: Block) => Decode(crc, b), payloadCrc)
  }

  lemma EncodedParts(crc: Crc, h: Header, b: Block)
    requires b == Encode(crc, h)
    ensures b[0..4] == Little(MAGIC, 4) && b[4..12] == Little(h.txId, 8) && b[12..16] == Little(h.kind, 4)
    ensures b[16..24] == Little(h.target, 8) && b[24..28] == Little(h.payloadSize, 4) && b[28..32] == Little(h.payloadCrc, 4)
    ensures b[32..36] == Little(crc(Fields(h, 0)), 4) && b[..32] == Fields(h, 0)[..32]
  {
  }

  lemma {:induction false} HeaderRoundTrip(crc: Crc, h: Header)
    ensures Decode(crc, Encode(crc, h)) == Some(h)
  {
    var b := Encode(crc, h);
    EncodedParts(crc, h, b);
    Widths();
    ValueOfLittle(MAGIC, 4);
    ValueOfLittle(h.txId, 8);
    ValueOfLittle(h.kind, 4);
    ValueOfLittle(h.target, 8);
    ValueOfLittle(h.payloadSize, 4);
    ValueOfLittle(h.payloadCrc, 4);
    ValueOfLittle(crc(Fields(h, 0)), 4);
    assert Little(0, 4) == [0, 0, 0, 0];
    assert Fields(h, 0) == Fields(h, 0)[..32] + [0, 0, 0, 0];
  }

  /** The layout is one the journal's guarantees hold for. */
  lemma {:induction false} LayoutIsLawful(crc: Crc, payloadCrc: Block -> U32)
    ensures Lawful(JournalCodec(crc, payloadCrc))
  {
    var c := JournalCodec(crc, payloadCrc);
    forall h ensures c.decode(c.encode(h)) == Some(h) {
      HeaderRoundTrip(crc, h);
    }
    assert ZeroBlock()[0..4] == [0, 0, 0, 0];
    assert Value([0, 0, 0, 0]) == 0 by {
      assert [0, 0, 0, 0][1..] == [0, 0, 0] && [0, 0, 0][1..] == [0, 0] && [0, 0][1..] == [0] && [0][1..] == [];
    }
  }
}
