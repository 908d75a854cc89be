/** The 64-bit layout of a Snowflake identifier.

    From the most significant bit down, an identifier holds:
      1 bit   always 0 (the sign bit of a Java `long`)
      41 bits milliseconds since START_TIME
      5 bits  data-center id
      5 bits  worker id
      12 bits sequence number within the millisecond

    The generator computes the identifier with shifts and a bitwise or over
    `long` values. The model works on integers: `Encode` is the sum of the
    shifted fields, and `PackedWordIsSum` shows, over 64-bit words, that the
    shift-and-or expression equals that sum whenever every field is in range.
 */
module Layout {

  /** The custom epoch: 2019-03-17T01:29:47.353Z in milliseconds. */
  const START_TIME: int := 1552786187353

  /** A Java `long` as a 64-bit two's-complement word. */
  type Word = bv64

  /** `-1L`. */
  const ALL_ONES: Word := 0xFFFF_FFFF_FFFF_FFFF

  /** Bit widths and shift amounts, `long` constants in the generator. */
  const WORKER_ID_BITS: Word := 5
  const DATA_CENTER_ID_BITS: Word := 5
  const SEQUENCE_BITS: Word := 12

  const WORKER_ID_SHIFT: Word := SEQUENCE_BITS
  const DATA_CENTER_ID_SHIFT: Word := SEQUENCE_BITS + WORKER_ID_BITS
  const TIMESTAMP_LEFT_SHIFT: Word := SEQUENCE_BITS + WORKER_ID_BITS + DATA_CENTER_ID_BITS

  /** `~(-1L << bits)`: the lowest `bits` bits set. */
  function LowMask(bits: Word): Word
    requires bits <= 64
  {
    !(ALL_ONES << bits)
  }

  /** `MAX_WORKER_ID`, `MAX_DATA_CENTER_ID` and `SEQUENCE_MASK` as integers;
      `LowMasksHaveExpectedValues` ties them to the masks computed from the widths. */
  const MAX_WORKER_ID: int := 31
  const MAX_DATA_CENTER_ID: int := 31
  const SEQUENCE_MASK: int := 4095

  /** `1 << WORKER_ID_SHIFT`, `1 << DATA_CENTER_ID_SHIFT`, `1 << TIMESTAMP_LEFT_SHIFT`;
      `UnitsMatchShifts` checks them. */
  const WORKER_ID_UNIT: int := 0x1000
  const DATA_CENTER_ID_UNIT: int := 0x2_0000
  const TIMESTAMP_UNIT: int := 0x40_0000

  /** `1L << 41`: relative timestamps below this fit their field. */
  const TIMESTAMP_LIMIT: int := 0x200_0000_0000
  /** `1 << 63`: identifiers below this are non-negative as a `long`. */
  const ID_LIMIT: int := 0x8000_0000_0000_0000

  /** Every field of an identifier fits its bit width. */
  predicate Fits(relTime: int, dataCenterId: int, workerId: int, sequence: int)
  {
    0 <= relTime < TIMESTAMP_LIMIT &&
    0 <= dataCenterId <= MAX_DATA_CENTER_ID &&
    0 <= workerId <= MAX_WORKER_ID &&
    0 <= sequence <= SEQUENCE_MASK
  }

  /** The identifier built from its four fields: the value of
      `(relTime << 22) | (dataCenterId << 17) | (workerId << 12) | sequence`. */
  function Encode(relTime: int, dataCenterId: int, workerId: int, sequence: int): (id: int)
    requires Fits(relTime, dataCenterId, workerId, sequence)
    ensures 0 <= id < ID_LIMIT
  {
    relTime * TIMESTAMP_UNIT + dataCenterId * DATA_CENTER_ID_UNIT + workerId * WORKER_ID_UNIT + sequence
  }

  /** `id >> 22`: the relative timestamp of a non-negative identifier. */
  function TimestampOf(id: int): int
    requires 0 <= id
  {
    id / TIMESTAMP_UNIT
  }

  /** `(id >> 17) & 31`. */
  function DataCenterIdOf(id: int): int
    requires 0 <= id
  {
    id / DATA_CENTER_ID_UNIT % (MAX_DATA_CENTER_ID + 1)
  }

  /** `(id >> 12) & 31`. */
  function WorkerIdOf(id: int): int
    requires 0 <= id
  {
    id / WORKER_ID_UNIT % (MAX_WORKER_ID + 1)
  }

  /** `id & 4095`. */
  function SequenceOf(id: int): int
    requires 0 <= id
  {
    id % (SEQUENCE_MASK + 1)
  }

  /** The fields sit in disjoint bit ranges, so each is recovered exactly. */
  lemma DecodeEncode(relTime: int, dataCenterId: int, workerId: int, sequence: int)
    requires Fits(relTime, dataCenterId, workerId, sequence)
    ensures TimestampOf(Encode(relTime, dataCenterId, workerId, sequence)) == relTime
    ensures DataCenterIdOf(Encode(relTime, dataCenterId, workerId, sequence)) == dataCenterId
    ensures WorkerIdOf(Encode(relTime, dataCenterId, workerId, sequence)) == workerId
    ensures SequenceOf(Encode(relTime, dataCenterId, workerId, sequence)) == sequence
  {
    var id := Encode(relTime, dataCenterId, workerId, sequence);
    var low := dataCenterId * DATA_CENTER_ID_UNIT + workerId * WORKER_ID_UNIT + sequence;
    assert 0 <= low < TIMESTAMP_UNIT;
    assert id / TIMESTAMP_UNIT == relTime;
    assert id / DATA_CENTER_ID_UNIT == relTime * 32 + dataCenterId;
    assert id / WORKER_ID_UNIT == (relTime * 32 + dataCenterId) * 32 + workerId;
  }

  /** Two identifiers are equal only when all four fields are. */
  lemma EncodeInjective(t1: int, d1: int, w1: int, s1: int, t2: int, d2: int, w2: int, s2: int)
    requires Fits(t1, d1, w1, s1) && Fits(t2, d2, w2, s2)
    requires Encode(t1, d1, w1, s1) == Encode(t2, d2, w2, s2)
    ensures t1 == t2 && d1 == d2 && w1 == w2 && s1 == s2
  {
    DecodeEncode(t1, d1, w1, s1);
    DecodeEncode(t2, d2, w2, s2);
  }

  /** Generators whose (data-center id, worker id) differ never issue the same identifier. */
  lemma DistinctNodesNeverCollide(t1: int, d1: int, w1: int, s1: int, t2: int, d2: int, w2: int, s2: int)
    requires Fits(t1, d1, w1, s1) && Fits(t2, d2, w2, s2)
    requires d1 != d2 || w1 != w2
    ensures Encode(t1, d1, w1, s1) != Encode(t2, d2, w2, s2)
  {
    if Encode(t1, d1, w1, s1) == Encode(t2, d2, w2, s2) {
      EncodeInjective(t1, d1, w1, s1, t2, d2, w2, s2);
    }
  }

  /** For one node, the identifier order is the lexicographic order of
      (relative timestamp, sequence). */
  lemma EncodeOrdered(dataCenterId: int, workerId: int, t1: int, s1: int, t2: int, s2: int)
    requires Fits(t1, dataCenterId, workerId, s1) && Fits(t2, dataCenterId, workerId, s2)
    ensures Encode(t1, dataCenterId, workerId, s1) < Encode(t2, dataCenterId, workerId, s2)
            <==> t1 < t2 || (t1 == t2 && s1 < s2)
  {
  }

  // ---------------------------------------------------------------------
  // The same layout over 64-bit words, as the `long` arithmetic computes it.
  // ---------------------------------------------------------------------

  /** The masks computed from the bit widths are the constants used above. */
  lemma LowMasksHaveExpectedValues()
    ensures LowMask(WORKER_ID_BITS) == 31 && LowMask(WORKER_ID_BITS) as int == MAX_WORKER_ID
    ensures LowMask(DATA_CENTER_ID_BITS) == 31 && LowMask(DATA_CENTER_ID_BITS) as int == MAX_DATA_CENTER_ID
    ensures LowMask(SEQUENCE_BITS) == 4095 && LowMask(SEQUENCE_BITS) as int == SEQUENCE_MASK
  {
  }

  /** The integer units and limits are the powers of two that the shifts give. */
  lemma UnitsMatchShifts()
    ensures ((1 as Word) << WORKER_ID_SHIFT) as int == WORKER_ID_UNIT
    ensures ((1 as Word) << DATA_CENTER_ID_SHIFT) as int == DATA_CENTER_ID_UNIT
    ensures ((1 as Word) << TIMESTAMP_LEFT_SHIFT) as int == TIMESTAMP_UNIT
    ensures ((1 as Word) << 41) as int == TIMESTAMP_LIMIT
    ensures ((1 as Word) << 63) as int == ID_LIMIT
  {
  }

  /** The identifier expression over words. */
  function PackWord(relTime: Word, dataCenterId: Word, workerId: Word, sequence: Word): Word
  {
    (relTime << TIMESTAMP_LEFT_SHIFT) | (dataCenterId << DATA_CENTER_ID_SHIFT) |
    (workerId << WORKER_ID_SHIFT) | sequence
  }

  /** With every field in range the shifted fields share no bit, so the or is
      their sum; the sign bit stays clear; shifting and masking recovers each field. */
  lemma PackedWordIsSum(relTime: Word, dataCenterId: Word, workerId: Word, sequence: Word)
    requires relTime < 0x200_0000_0000 && dataCenterId < 32 && workerId < 32 && sequence < 4096
    ensures PackWord(relTime, dataCenterId, workerId, sequence) ==
            relTime * 0x40_0000 + dataCenterId * 0x2_0000 + workerId * 0x1000 + sequence
    ensures PackWord(relTime, dataCenterId, workerId, sequence) < 0x8000_0000_0000_0000
    ensures PackWord(relTime, dataCenterId, workerId, sequence) >> TIMESTAMP_LEFT_SHIFT == relTime
    ensures (PackWord(relTime, dataCenterId, workerId, sequence) >> DATA_CENTER_ID_SHIFT) & LowMask(DATA_CENTER_ID_BITS) == dataCenterId
    ensures (PackWord(relTime, dataCenterId, workerId, sequence) >> WORKER_ID_SHIFT) & LowMask(WORKER_ID_BITS) == workerId
    ensures PackWord(relTime, dataCenterId, workerId, sequence) & LowMask(SEQUENCE_BITS) == sequence
  {
    LowMasksHaveExpectedValues();
  }

  /** `x & SEQUENCE_MASK` is the remainder modulo 4096 of the word read as unsigned,
      which for a two's-complement `long` is its Euclidean remainder. */
  lemma MaskIsRemainder(x: Word)
    ensures x & LowMask(SEQUENCE_BITS) == x % 4096
  {
    LowMasksHaveExpectedValues();
  }
}
