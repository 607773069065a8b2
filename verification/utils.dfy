/** The value types shared by the counting engine (src/utils.rs): a genomic
    position, a read's strand, the per-site candidate with its local tally, and
    the eight-valued bucket key of the global table. */
module Utils {

  /** Values of Rust's `u32` are the naturals below this bound. */
  const U32_LIMIT: nat := 0x1_0000_0000

  /** Values of `usize` on the 64-bit targets the program is built for. */
  const USIZE_LIMIT: nat := 0x1_0000_0000_0000_0000

  type U32 = x: nat | x < U32_LIMIT

  /** A chromosome name and a coordinate on it; equality is field-wise. */
  datatype Position = Position(chrom: string, pos: U32)

  /** `Position::new`: stores both fields unchanged. */
  function NewPosition(chrom: string, pos: U32): (p: Position)
    ensures p.chrom == chrom && p.pos == pos
  {
    Position(chrom, pos)
  }

  /** Two positions are the same exactly when chromosome and coordinate agree
      (the derived `PartialEq`). */
  lemma PositionEquality(a: Position, b: Position)
    ensures a == b <==> a.chrom == b.chrom && a.pos == b.pos
  {
  }

  datatype Direction = Forward | Reverse {
    /** `Direction::as_str` */
    function AsStr(): (s: string)
      ensures this == Forward <==> s == "forward"
      ensures this == Reverse <==> s == "reverse"
    {
      match this
      case Forward => "forward"
      case Reverse => "reverse"
    }
  }

  /** The two directions render differently, so the text identifies the direction. */
  lemma AsStrInjective(a: Direction, b: Direction)
    ensures a.AsStr() == b.AsStr() <==> a == b
  {
  }

  /** `NumberOfNucleotides`: how often each base character was seen. */
  type Counts = map<char, nat>

  /** How often base `b` was seen; a base never seen counts 0. */
  function Get(c: Counts, b: char): nat {
    if b in c then c[b] else 0
  }

  /** A key of a candidate's local tally: the read direction and the CpG offset. */
  type TallyKey = (Direction, U32)

  type Tally = map<TallyKey, Counts>

  /** A candidate CpG site (`MethPos`): its position, its methylation level and the
      bases counted so far at the site, keyed by direction and offset. */
  datatype MethPos = MethPos(position: Position, methylation: int, methBases: Tally)

  /** `MethPos::new`: a fresh candidate keeps position and methylation and starts
      with an empty tally. */
  function NewMethPos(position: Position, methylation: int): (m: MethPos)
    ensures m.position == position && m.methylation == methylation
    ensures m.methBases == map[]
  {
    MethPos(position, methylation, map[])
  }

  /** Writing through `meth_bases_mut`: only the tally can change. */
  function WithMethBases(m: MethPos, t: Tally): (m': MethPos)
    ensures m'.position == m.position && m'.methylation == m.methylation
    ensures m'.methBases == t
  {
    m.(methBases := t)
  }

  /** The key of the global table (`PosType`). */
  datatype PosType = PosType(direction: Direction, methylation: bool, cpgPosition: U32)

  /** `PosType::new`: stores exactly the three components. */
  function NewPosType(direction: Direction, methylation: bool, cpgPosition: U32): (p: PosType)
    ensures p.direction == direction && p.methylation == methylation
    ensures p.cpgPosition == cpgPosition
  {
    PosType(direction, methylation, cpgPosition)
  }

  /** The eight keys with a CpG offset of 0 or 1, in the order the report lists them:
      Forward before Reverse, methylated before unmethylated, offset 0 before 1. */
  const AllPosTypes: seq<PosType> := [
    PosType(Forward, true, 0), PosType(Forward, true, 1),
    PosType(Forward, false, 0), PosType(Forward, false, 1),
    PosType(Reverse, true, 0), PosType(Reverse, true, 1),
    PosType(Reverse, false, 0), PosType(Reverse, false, 1)
  ]

  /** Every key with offset 0 or 1 is one of the eight listed ones, and only those are listed. */
  lemma AllPosTypesComplete()
    ensures forall p: PosType :: p.cpgPosition <= 1 <==> p in AllPosTypes
  {
    forall p: PosType | p.cpgPosition <= 1
      ensures p in AllPosTypes
    {
      var base := (if p.direction == Forward then 0 else 4) + (if p.methylation then 0 else 2);
      assert p == AllPosTypes[base + p.cpgPosition];
    }
  }

  /** The eight listed keys are pairwise different, so there are exactly eight buckets. */
  lemma AllPosTypesDistinct()
    ensures forall i, j :: 0 <= i < j < |AllPosTypes| ==> AllPosTypes[i] != AllPosTypes[j]
  {
  }
}
