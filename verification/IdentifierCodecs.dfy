/** Bit strings and packed digits of 3GPP identifiers, at the widths the encoders and decoders use. */
module IdentifierCodecs {

  /** The last `unused` bits of the last byte are padding. */
  datatype BitString = BitString(buf: seq<bv8>, unused: bv32)

  // gNB identifier, section 9.3.1.6 of 3GPP TS 38.413

  /** `unused` counts the bits missing from 32. */
  datatype GnbId = GnbId(nbId: bv32, unused: bv32)

  /** Between 22 and 32 bits, and no bit beyond them. */
  predicate ValidGnbId(id: GnbId)
  {
    id.unused < 11 && (id.unused > 0 ==> id.nbId >> (32 - id.unused) == 0)
  }

  predicate GnbBits(s: BitString)
  {
    (|s.buf| == 3 && s.unused < 3) || (|s.buf| == 4 && s.unused < 8)
  }

  /** Between 22 and 32 bits, with zeros for padding. */
  predicate WellFormedGnbBits(s: BitString)
  {
    GnbBits(s) && s.buf[|s.buf| - 1] & ((1 << s.unused) - 1) == 0
  }

  function LowByte(x: bv32): bv8
  {
    (x & 0xFF) as bv8
  }

  /** The bytes as the leading ones of a 32-bit word, most significant first. */
  function LeadingWord(buf: seq<bv8>): bv32
    requires |buf| == 3 || |buf| == 4
  {
    (buf[0] as bv32 << 24) | (buf[1] as bv32 << 16) | (buf[2] as bv32 << 8)
    | (if |buf| == 4 then buf[3] as bv32 else 0)
  }

  /** The bits that do not fill the last byte, moved up over the padding. */
  function LastByte(nbId: bv32, unused: bv32): bv8
    requires unused < 8
  {
    LowByte((nbId & (0xFF >> unused)) << unused)
  }

  /** The byte assignments of the encoder. */
  function EncodeGnbId(id: GnbId): (s: BitString)
    requires ValidGnbId(id)
  {
    if id.unused > 7 then
      var u := id.unused - 8;
      BitString([LowByte(id.nbId >> (16 - u)), LowByte(id.nbId >> (8 - u)), LastByte(id.nbId, u)], u)
    else
      var u := id.unused;
      BitString([LowByte(id.nbId >> (24 - u)), LowByte(id.nbId >> (16 - u)), LowByte(id.nbId >> (8 - u)),
                 LastByte(id.nbId, u)], u)
  }

  function JoinThree(b0: bv8, b1: bv8, b2: bv8, u: bv32): bv32
    requires u < 3
  {
    (b0 as bv32 << (16 - u)) | (b1 as bv32 << (8 - u)) | (b2 as bv32 >> u)
  }

  function JoinFour(b0: bv8, b1: bv8, b2: bv8, b3: bv8, u: bv32): bv32
    requires u < 8
  {
    (b0 as bv32 << (24 - u)) | (b1 as bv32 << (16 - u)) | (b2 as bv32 << (8 - u)) | (b3 as bv32 >> u)
  }

  /** The decoder does not look at the padding. */
  function DecodeGnbId(s: BitString): GnbId
    requires GnbBits(s)
  {
    if |s.buf| == 3 then GnbId(JoinThree(s.buf[0], s.buf[1], s.buf[2], s.unused), s.unused + 8)
    else GnbId(JoinFour(s.buf[0], s.buf[1], s.buf[2], s.buf[3], s.unused), s.unused)
  }

  lemma LeftAlignedThree(x: bv32, u: bv32)
    requires u < 3 && x >> (24 - u) == 0
    ensures (((x >> (16 - u)) & 0xFF) << 24) | (((x >> (8 - u)) & 0xFF) << 16)
            | ((((x & (0xFF >> u)) << u) & 0xFF) << 8)
         == x << (u + 8)
  {
  }

  lemma LeftAlignedFour(x: bv32, u: bv32)
    requires u < 8 && (u > 0 ==> x >> (32 - u) == 0)
    ensures (((x >> (24 - u)) & 0xFF) << 24) | (((x >> (16 - u)) & 0xFF) << 16) | (((x >> (8 - u)) & 0xFF) << 8)
            | (((x & (0xFF >> u)) << u) & 0xFF)
         == x << u
  {
  }

  lemma PaddingIsZero(x: bv32, u: bv32)
    requires u < 8
    ensures LastByte(x, u) & ((1 << u) - 1) == 0
  {
  }

  lemma GnbPadding(id: GnbId)
    requires ValidGnbId(id)
    ensures WellFormedGnbBits(EncodeGnbId(id))
  {
    PaddingIsZero(id.nbId, if id.unused > 7 then id.unused - 8 else id.unused);
  }

  /** The encoding is the identifier left aligned, most significant byte first, in the fewest bytes, and
      padded with zeros. */
  lemma GnbEncodingIsLeftAligned(id: GnbId)
    requires ValidGnbId(id)
    ensures var b := EncodeGnbId(id).buf;
            && |b| == (if id.unused > 7 then 3 else 4)
            && (b[0] as bv32 << 24) | (b[1] as bv32 << 16) | (b[2] as bv32 << 8)
               | (if |b| == 4 then b[3] as bv32 else 0)
               == id.nbId << id.unused
    ensures EncodeGnbId(id).unused == (if id.unused > 7 then id.unused - 8 else id.unused)
    ensures WellFormedGnbBits(EncodeGnbId(id))
  {
    if id.unused > 7 {
      LeftAlignedThree(id.nbId, id.unused - 8);
    } else {
      LeftAlignedFour(id.nbId, id.unused);
    }
    GnbPadding(id);
  }

  lemma DecodeEncodeGnbId(id: GnbId)
    requires ValidGnbId(id)
    ensures DecodeGnbId(EncodeGnbId(id)) == id
  {
  }

  lemma ThreeBack(b0: bv8, b1: bv8, b2: bv8, u: bv32)
    requires u < 3
    ensures JoinThree(b0, b1, b2, u) >> (24 - u) == 0
    ensures LowByte(JoinThree(b0, b1, b2, u) >> (16 - u)) == b0
    ensures LowByte(JoinThree(b0, b1, b2, u) >> (8 - u)) == b1
    ensures LastByte(JoinThree(b0, b1, b2, u), u) == b2 <==> b2 & ((1 << u) - 1) == 0
  {
  }

  lemma FourBack(b0: bv8, b1: bv8, b2: bv8, b3: bv8, u: bv32)
    requires u < 8
    ensures u > 0 ==> JoinFour(b0, b1, b2, b3, u) >> (32 - u) == 0
    ensures LowByte(JoinFour(b0, b1, b2, b3, u) >> (24 - u)) == b0
    ensures LowByte(JoinFour(b0, b1, b2, b3, u) >> (16 - u)) == b1
    ensures LowByte(JoinFour(b0, b1, b2, b3, u) >> (8 - u)) == b2
    ensures LastByte(JoinFour(b0, b1, b2, b3, u), u) == b3 <==> b3 & ((1 << u) - 1) == 0
  {
  }

  lemma JoinedThree(b0: bv8, b1: bv8, b2: bv8, u: bv32)
    requires u < 3
    ensures JoinThree(b0, b1, b2, u) == ((b0 as bv32 << 24) | (b1 as bv32 << 16) | (b2 as bv32 << 8)) >> (u + 8)
  {
  }

  lemma JoinedFour(b0: bv8, b1: bv8, b2: bv8, b3: bv8, u: bv32)
    requires u < 8
    ensures JoinFour(b0, b1, b2, b3, u)
         == ((b0 as bv32 << 24) | (b1 as bv32 << 16) | (b2 as bv32 << 8) | b3 as bv32) >> u
  {
  }

  /** Whatever the padding, the decoder shifts the bytes, most significant first, down over the bits that are
      not used. */
  lemma GnbDecodingShiftsDown(s: BitString)
    requires GnbBits(s)
    ensures var id, b := DecodeGnbId(s), s.buf;
            && id.unused == s.unused + (if |b| == 3 then 8 else 0)
            && id.nbId == ((b[0] as bv32 << 24) | (b[1] as bv32 << 16) | (b[2] as bv32 << 8)
                           | (if |b| == 4 then b[3] as bv32 else 0)) >> id.unused
  {
    if |s.buf| == 3 {
      JoinedThree(s.buf[0], s.buf[1], s.buf[2], s.unused);
    } else {
      JoinedFour(s.buf[0], s.buf[1], s.buf[2], s.buf[3], s.unused);
    }
  }

  lemma EncodeDecodeThree(s: BitString)
    requires GnbBits(s) && |s.buf| == 3
    ensures ValidGnbId(DecodeGnbId(s))
    ensures EncodeGnbId(DecodeGnbId(s)) == s <==> WellFormedGnbBits(s)
  {
    ThreeBack(s.buf[0], s.buf[1], s.buf[2], s.unused);
  }

  lemma SameFour(id: GnbId, s: BitString)
    requires ValidGnbId(id) && |s.buf| == 4 && id.unused == s.unused < 8
    requires LowByte(id.nbId >> (24 - s.unused)) == s.buf[0]
    requires LowByte(id.nbId >> (16 - s.unused)) == s.buf[1]
    requires LowByte(id.nbId >> (8 - s.unused)) == s.buf[2]
    ensures EncodeGnbId(id) == s <==> LastByte(id.nbId, s.unused) == s.buf[3]
  {
  }

  lemma DecodedFour(s: BitString) returns (id: GnbId)
    requires GnbBits(s) && |s.buf| == 4
    ensures id == DecodeGnbId(s) && ValidGnbId(id) && id.unused == s.unused
    ensures LowByte(id.nbId >> (24 - s.unused)) == s.buf[0]
    ensures LowByte(id.nbId >> (16 - s.unused)) == s.buf[1]
    ensures LowByte(id.nbId >> (8 - s.unused)) == s.buf[2]
    ensures LastByte(id.nbId, s.unused) == s.buf[3] <==> WellFormedGnbBits(s)
  {
    FourBack(s.buf[0], s.buf[1], s.buf[2], s.buf[3], s.unused);
    id := DecodeGnbId(s);
  }

  lemma EncodeDecodeFour(s: BitString)
    requires GnbBits(s) && |s.buf| == 4
    ensures ValidGnbId(DecodeGnbId(s))
    ensures EncodeGnbId(DecodeGnbId(s)) == s <==> WellFormedGnbBits(s)
  {
    var id := DecodedFour(s);
    SameFour(id, s);
  }

  /** Whatever the decoder accepts is an identifier, and encodes to the same string exactly when the padding
      is zero. */
  lemma EncodeDecodeIffPadded(s: BitString)
    requires GnbBits(s)
    ensures ValidGnbId(DecodeGnbId(s))
    ensures EncodeGnbId(DecodeGnbId(s)) == s <==> WellFormedGnbBits(s)
  {
    if |s.buf| == 3 {
      EncodeDecodeThree(s);
    } else {
      EncodeDecodeFour(s);
    }
  }

  /** The codec is a bijection between identifiers and well-formed strings. */
  lemma GnbCodecIsBijection()
    ensures forall id :: ValidGnbId(id) ==> WellFormedGnbBits(EncodeGnbId(id)) && DecodeGnbId(EncodeGnbId(id)) == id
    ensures forall s :: WellFormedGnbBits(s) ==> ValidGnbId(DecodeGnbId(s)) && EncodeGnbId(DecodeGnbId(s)) == s
  {
    forall id | ValidGnbId(id)
      ensures WellFormedGnbBits(EncodeGnbId(id)) && DecodeGnbId(EncodeGnbId(id)) == id
    {
      GnbPadding(id);
      DecodeEncodeGnbId(id);
    }
    forall s | WellFormedGnbBits(s) ensures ValidGnbId(DecodeGnbId(s)) && EncodeGnbId(DecodeGnbId(s)) == s {
      EncodeDecodeIffPadded(s);
    }
  }

  lemma BitsOfLastByte(unused: bv32)
    requires unused < 11
    ensures unused % 8 == if unused > 7 then unused - 8 else unused
  {
  }

  method StoreThree(buf: array<bv8>, nbId: bv32, u: bv32)
    requires buf.Length == 3 && u < 3
    modifies buf
    ensures buf[..] == [LowByte(nbId >> (16 - u)), LowByte(nbId >> (8 - u)), LastByte(nbId, u)]
  {
    buf[0] := LowByte(nbId >> (16 - u));
    buf[1] := LowByte(nbId >> (8 - u));
    buf[2] := LastByte(nbId, u);
  }

  method StoreFour(buf: array<bv8>, nbId: bv32, u: bv32)
    requires buf.Length == 4 && u < 8
    modifies buf
    ensures buf[..] == [LowByte(nbId >> (24 - u)), LowByte(nbId >> (16 - u)), LowByte(nbId >> (8 - u)),
                        LastByte(nbId, u)]
  {
    buf[0] := LowByte(nbId >> (24 - u));
    buf[1] := LowByte(nbId >> (16 - u));
    buf[2] := LowByte(nbId >> (8 - u));
    buf[3] := LastByte(nbId, u);
  }

  method FillGnbId(id: GnbId) returns (buf: array<bv8>, bitsUnused: bv32)
    requires ValidGnbId(id)
    ensures fresh(buf) && BitString(buf[..], bitsUnused) == EncodeGnbId(id)
  {
    bitsUnused := id.unused % 8;
    BitsOfLastByte(id.unused);
    if id.unused > 7 {
      buf := new bv8[3];
      StoreThree(buf, id.nbId, id.unused - 8);
    } else {
      buf := new bv8[4];
      StoreFour(buf, id.nbId, id.unused);
    }
  }

  // NR cell identity, section 9.3.1.7 of 3GPP TS 38.413

  const NR_CELL_IDS: bv64 := 0x10_0000_0000

  function Byte64(x: bv64): bv8
  {
    (x & 0xFF) as bv8
  }

  /** Least significant byte first; the fifth byte holds four bits above the padding. */
  function EncodeNrCellId(val: bv64): (s: BitString)
    requires val < NR_CELL_IDS
    ensures |s.buf| == 5 && s.unused == 4 && s.buf[4] & 0x0F == 0
  {
    BitString([Byte64(val), Byte64(val >> 8), Byte64(val >> 16), Byte64(val >> 24), Byte64((val >> 32) << 4)], 4)
  }

  method FillNrCellId(val: bv64) returns (buf: array<bv8>, bitsUnused: bv32)
    requires val < NR_CELL_IDS
    ensures fresh(buf) && BitString(buf[..], bitsUnused) == EncodeNrCellId(val)
  {
    bitsUnused := 4;
    buf := new bv8[5];
    buf[0] := Byte64(val);
    buf[1] := Byte64(val >> 8);
    buf[2] := Byte64(val >> 16);
    buf[3] := Byte64(val >> 24);
    buf[4] := Byte64((val >> 32) << 4);
  }

  lemma NrBytes(val: bv64)
    requires val < NR_CELL_IDS
    ensures Byte64(val) as bv64 | (Byte64(val >> 8) as bv64 << 8) | (Byte64(val >> 16) as bv64 << 16)
            | (Byte64(val >> 24) as bv64 << 24) | ((Byte64((val >> 32) << 4) >> 4) as bv64 << 32)
         == val
  {
  }

  /** The stored bytes hold the whole value, least significant byte first, whether or not the decoder gets it
      back. */
  lemma NrEncodingHoldsValue(val: bv64)
    requires val < 0x10_0000_0000
    ensures var b := EncodeNrCellId(val).buf;
            && b[0] as bv64 | (b[1] as bv64 << 8) | (b[2] as bv64 << 16) | (b[3] as bv64 << 24)
               | ((b[4] >> 4) as bv64 << 32) == val
            && b[4] & 0x0F == 0
  {
    NrBytes(val);
  }

  /** A byte shifted by 24 is a 32-bit `int`, which is sign-extended where a 64-bit operand meets it. */
  function SignExtend(x: bv32): bv64
  {
    if x & 0x8000_0000 == 0 then x as bv64 else 0xFFFF_FFFF_0000_0000 | x as bv64
  }

  function JoinFive(b0: bv8, b1: bv8, b2: bv8, b3: bv8, b4: bv8): bv64
  {
    ((b4 >> 4) as bv64 << 32) | SignExtend(b3 as bv32 << 24) | SignExtend(b2 as bv32 << 16)
    | SignExtend(b1 as bv32 << 8) | b0 as bv64
  }

  function DecodeNrCellId(s: BitString): bv64
    requires |s.buf| == 5 && s.unused == 4
  {
    JoinFive(s.buf[0], s.buf[1], s.buf[2], s.buf[3], s.buf[4])
  }

  /** Bit 31 makes the decoder set every bit above it, so exactly the values without it survive. */
  lemma NrCellIdRoundTripIffBit31Clear(val: bv64)
    requires val < NR_CELL_IDS
    ensures DecodeNrCellId(EncodeNrCellId(val)) == val <==> val & 0x8000_0000 == 0
    ensures val & 0x8000_0000 != 0 ==> DecodeNrCellId(EncodeNrCellId(val)) == 0xFFFF_FFFF_0000_0000 | val
  {
  }

  /** The bytes put together, least significant first, with the fourth as given. */
  function Together(b0: bv8, b1: bv8, b2: bv8, top: bv64, b4: bv8): bv64
  {
    ((b4 >> 4) as bv64 << 32) | top | (b2 as bv64 << 16) | (b1 as bv64 << 8) | b0 as bv64
  }

  lemma JoinedLow(b0: bv8, b1: bv8, b2: bv8, b3: bv8, b4: bv8)
    requires b3 < 0x80
    ensures JoinFive(b0, b1, b2, b3, b4) == Together(b0, b1, b2, b3 as bv64 << 24, b4)
  {
  }

  lemma JoinedHigh(b0: bv8, b1: bv8, b2: bv8, b3: bv8, b4: bv8)
    requires b3 >= 0x80
    ensures JoinFive(b0, b1, b2, b3, b4) == Together(b0, b1, b2, 0xFFFF_FFFF_0000_0000 | (b3 as bv64 << 24), b4)
  {
  }

  /** The decoder's value for every string: the bytes put together, with all upper bits set if the fourth byte
      has its own top bit set. */
  lemma NrDecodingSetsUpperBits(s: BitString)
    requires |s.buf| == 5 && s.unused == 4
    ensures s.buf[3] < 0x80 ==>
              DecodeNrCellId(s) == Together(s.buf[0], s.buf[1], s.buf[2], s.buf[3] as bv64 << 24, s.buf[4])
    ensures s.buf[3] >= 0x80 ==>
              DecodeNrCellId(s) == Together(s.buf[0], s.buf[1], s.buf[2],
                                            0xFFFF_FFFF_0000_0000 | (s.buf[3] as bv64 << 24), s.buf[4])
  {
    if s.buf[3] < 0x80 {
      JoinedLow(s.buf[0], s.buf[1], s.buf[2], s.buf[3], s.buf[4]);
    } else {
      JoinedHigh(s.buf[0], s.buf[1], s.buf[2], s.buf[3], s.buf[4]);
    }
  }

  lemma FiveBack(b0: bv8, b1: bv8, b2: bv8, b3: bv8, b4: bv8) returns (val: bv64)
    requires b3 < 0x80
    ensures val == JoinFive(b0, b1, b2, b3, b4) && val < 0x10_0000_0000
    ensures Byte64(val) == b0 && Byte64(val >> 8) == b1 && Byte64(val >> 16) == b2 && Byte64(val >> 24) == b3
    ensures Byte64((val >> 32) << 4) == b4 <==> b4 & 0x0F == 0
  {
    val := JoinFive(b0, b1, b2, b3, b4);
  }

  lemma FiveTooLarge(b0: bv8, b1: bv8, b2: bv8, b3: bv8, b4: bv8)
    requires b3 >= 0x80
    ensures JoinFive(b0, b1, b2, b3, b4) >= 0x10_0000_0000
  {
  }

  lemma DecodedFive(s: BitString) returns (val: bv64)
    requires |s.buf| == 5 && s.unused == 4 && s.buf[3] < 0x80
    ensures val == DecodeNrCellId(s) && val < NR_CELL_IDS
    ensures Byte64(val) == s.buf[0] && Byte64(val >> 8) == s.buf[1] && Byte64(val >> 16) == s.buf[2]
    ensures Byte64(val >> 24) == s.buf[3] && (Byte64((val >> 32) << 4) == s.buf[4] <==> s.buf[4] & 0x0F == 0)
  {
    val := FiveBack(s.buf[0], s.buf[1], s.buf[2], s.buf[3], s.buf[4]);
  }

  lemma SameFive(val: bv64, s: BitString)
    requires val < NR_CELL_IDS && |s.buf| == 5 && s.unused == 4
    requires Byte64(val) == s.buf[0] && Byte64(val >> 8) == s.buf[1] && Byte64(val >> 16) == s.buf[2]
    requires Byte64(val >> 24) == s.buf[3]
    ensures EncodeNrCellId(val) == s <==> Byte64((val >> 32) << 4) == s.buf[4]
  {
  }

  lemma NrCellIdEncodesBackIffByteBelow128(s: BitString)
    requires |s.buf| == 5 && s.unused == 4
    ensures DecodeNrCellId(s) < NR_CELL_IDS <==> s.buf[3] < 0x80
    ensures s.buf[3] < 0x80 ==> (EncodeNrCellId(DecodeNrCellId(s)) == s <==> s.buf[4] & 0x0F == 0)
  {
    if s.buf[3] < 0x80 {
      var val := DecodedFive(s);
      SameFive(val, s);
    } else {
      FiveTooLarge(s.buf[0], s.buf[1], s.buf[2], s.buf[3], s.buf[4]);
    }
  }
}
