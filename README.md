# Snowflake sequence generator, modelled in Dafny

The class `cn.ms.sequence.Sequence` issues 64-bit identifiers in the style of
Twitter's Snowflake. Each identifier packs four fields, from the top bit down:
- a sign bit that is always 0;
- 41 bits of milliseconds since a fixed epoch (`START_TIME`);
- a 5-bit data-center id;
- a 5-bit worker id;
- a 12-bit sequence number that counts the identifiers issued within one millisecond.

One generator holds two mutable fields: `sequence` and `lastTimestamp`.
Each call of `nextId()` does three things:
- It reads the clock and guards against the clock moving backwards. A small backward jump is waited out. A larger one, or a clock that is still behind after the wait, makes the call fail.
- It updates the per-millisecond counter. Within the same millisecond the sequence goes up by one modulo 4096. When it wraps to 0, the generator polls the clock until the next millisecond. In a new millisecond the sequence restarts at 0.
- It packs the fields into the identifier.

The project has three modules:

- `Layout` (`layout.dfy`): the bit layout. It holds the constants, the
  encoding `Encode` and the field decoders. Its lemmas show that the
  fields are disjoint and recovered exactly, that identifiers are
  non-negative, and that for one node the identifier order is the
  lexicographic order of (timestamp, sequence). The source computes
  identifiers with `long` shifts and ors. `PackWord` models that expression
  over 64-bit words, and `PackedWordIsSum` shows that it equals the
  integer sum that `Encode` uses.
- `Generation` (`generation.dfy`): one call of `nextId()` as pure functions.
  `Guard` is the clock-rollback guard. `Advance` is the per-millisecond
  counter. `NextMillisIndex` is the clock poll of `tilNextMillis`.
  `NextId` is the whole call, and `Issued` a run of calls. Their
  contracts and the lemmas beside them state what the source promises.
- `Snowflake` (`sequence.dfy`): the generator as a class. Its fields are
  those of the source: `workerId`, `dataCenterId`, `clock`, `timeOffset`,
  `sequence` and `lastTimestamp`. The methods `NextId` and `TilNextMillis`
  follow the source statement by statement. Each is proved equal to its
  `Generation` function. `NextId` is also proved to return an identifier
  strictly larger than the previous one. The clock is a `TimeSource`
  object: a fixed sequence of readings and a cursor. Each read of the
  clock takes the reading at the cursor and moves the cursor on.

## Model

| member | source | states |
|---|---|---|
| `Layout.Encode` | src/main/java/cn/ms/sequence/Sequence.java:156-159 | with every field in range, the identifier is non-negative and below 2^63 (the sign bit is 0) |
| `Layout.DecodeEncode` | src/main/java/cn/ms/sequence/Sequence.java:9-21 | the relative timestamp (bits 22 and up), the data-center id (bits 17-21), the worker id (bits 12-16) and the sequence (bits 0-11) are each recovered exactly from the identifier |
| `Layout.EncodeInjective` | src/main/java/cn/ms/sequence/Sequence.java:9-21 | two identifiers are equal only if all four fields are equal |
| `Layout.DistinctNodesNeverCollide` | src/main/java/cn/ms/sequence/Sequence.java:22 | generators whose (data-center id, worker id) pairs differ never issue the same identifier, whatever their timestamps and sequences |
| `Layout.EncodeOrdered` | src/main/java/cn/ms/sequence/Sequence.java:156-159 | for one node, identifier `a` is smaller than identifier `b` if and only if `a`'s (timestamp, sequence) is lexicographically smaller |
| `Layout.LowMasksHaveExpectedValues` | src/main/java/cn/ms/sequence/Sequence.java:50-63 | `~(-1L << 5)` is 31 (the largest worker id and data-center id) and `~(-1L << 12)` is 4095 (`SEQUENCE_MASK`) |
| `Layout.UnitsMatchShifts` | src/main/java/cn/ms/sequence/Sequence.java:56-58 | the multipliers the integer model uses are 2^12, 2^17 and 2^22, the values of `1 << WORKER_ID_SHIFT`, `1 << DATA_CENTER_ID_SHIFT` and `1 << TIMESTAMP_LEFT_SHIFT`; the timestamp field ends at 2^41 and the sign bit is 2^63 |
| `Layout.PackedWordIsSum` | src/main/java/cn/ms/sequence/Sequence.java:156-159 | over 64-bit words, with fields in range, the shift-and-or expression equals the sum of the shifted fields; the sign bit is clear; shifting and masking recovers each field |
| `Layout.MaskIsRemainder` | src/main/java/cn/ms/sequence/Sequence.java:140 | `x & SEQUENCE_MASK` is `x` modulo 4096 |
| `Generation.ConfigError` | src/main/java/cn/ms/sequence/Sequence.java:97-102 | construction is refused if and only if the worker id or the data-center id lies outside 0..31; the worker id is checked first; each error carries the largest accepted id (31), the number its message names besides 0 |
| `Generation.NextMillisIndex` | src/main/java/cn/ms/sequence/Sequence.java:176-184 | the clock poll ends at the first reading after the start that is strictly later than `lastTimestamp`; every reading it skips is not later |
| `Generation.Guard` | src/main/java/cn/ms/sequence/Sequence.java:119-135 | the guard refuses if and only if the reading is behind `lastTimestamp` by more than `timeOffset`, or is behind and still behind at the next reading; both refusals report the first offset, after consuming one reading (too far behind) or two (still behind after the wait); otherwise the call goes on with a reading at or after `lastTimestamp`: a reading already at or after it is used as it is, and after a tolerated backward jump the one re-read reading is used |
| `Generation.Advance` | src/main/java/cn/ms/sequence/Sequence.java:137-149 | the new (`lastTimestamp`, `sequence`) is strictly later in lexicographic order, with the sequence in 0..4095. In the same millisecond without wrapping, the sequence becomes old + 1 and the timestamp stays. On a wrap, the new timestamp is the first later reading, strictly greater than the old one, and the sequence is 0. In a different millisecond, that millisecond becomes the timestamp and the sequence is 0 |
| `Generation.NextId` | src/main/java/cn/ms/sequence/Sequence.java:115-159 | a call fails if and only if one of the two rollback cases holds; a failure changes neither `sequence` nor `lastTimestamp` and reports the first offset; a success moves the state strictly forward into a valid state (so `lastTimestamp` never decreases and the sequence stays within 0..4095) and returns the identifier that encodes it |
| `Generation.FirstCallStartsSequenceAtZero` | src/main/java/cn/ms/sequence/Sequence.java:67-68 | from the initial state (`lastTimestamp = -1`, `sequence = 0`), the first call always succeeds, with the first reading and sequence 0 |
| `Generation.IssuedIdDecodes` | src/main/java/cn/ms/sequence/Sequence.java:149-159 | the identifier returned is non-negative and decodes to the new `lastTimestamp`, the generator's data-center id and worker id, and the new sequence |
| `Generation.IssuedIncreasing` | src/main/java/cn/ms/sequence/Sequence.java:22 | the identifiers returned by any run of calls on one generator strictly increase, so they are all distinct, and each is larger than the identifier issued before the run |
| `Snowflake.TimeSource.Read` | src/main/java/cn/ms/sequence/Sequence.java:191-193 | a clock read returns the next reading and moves past it |
| `Snowflake.Sequence.constructor` | src/main/java/cn/ms/sequence/Sequence.java:96-108 | a generator built from accepted ids stores all four arguments unchanged and starts with `lastTimestamp = -1` and `sequence = 0` |
| `Snowflake.Sequence.Create` | src/main/java/cn/ms/sequence/Sequence.java:96-108 | construction fails with the validation's error exactly when an id is outside 0..31; otherwise it gives a fresh generator that holds the arguments |
| `Snowflake.Sequence.CreateDefault` | src/main/java/cn/ms/sequence/Sequence.java:84-86 | the two-argument constructor: the uncached clock and a tolerance of 5 ms |
| `Snowflake.Sequence.TilNextMillis` | src/main/java/cn/ms/sequence/Sequence.java:176-184 | the polling loop returns the first reading later than `lastTimestamp` and consumes exactly the readings up to it |
| `Snowflake.Sequence.NextId` | src/main/java/cn/ms/sequence/Sequence.java:115-160 | the result and new state are those of `Generation.NextId`; a failure is a rollback error and leaves the state unchanged; a success moves the state strictly forward and returns a larger identifier than the previous call |

## Left out

- `IdWorkerRadix` only renders an identifier as text with JDK formatting calls. It has no logic of its own.
- `timeGen()` and the cached `SystemClock` are modelled as one `TimeSource`: a sequence of readings consumed in order. The `clock` flag is stored, but the model does not tell the two sources apart.
- `synchronized`: each call of `NextId` is one atomic step. Concurrent callers are not modelled. In the source, `this.wait(offset << 1)` releases the generator's monitor, so another `nextId()` can run during the wait and change `lastTimestamp` and `sequence` before the re-check at Sequence.java:132; the model does not capture that interleaving.
- `this.wait(offset << 1)` is modelled as moving on to the next clock reading. How long the wait takes in real time is not modelled.
- The wrapping of `InterruptedException` thrown by that wait is not modelled.
- `main` only prints the current time.
- Clock progress (liveness): `NextId` and `TilNextMillis` require that some future reading is later than `lastTimestamp`. The source relies on the real clock moving forward. `Generation.Issued`, a run of calls, stops where the readings offer no later millisecond.
- Snowflake.Sequence.NextId: requires every clock reading to lie in [`START_TIME`, `START_TIME` + 2^41). Java gives a reading before the epoch a negative identifier. Java lets a reading after 2^41 ms (about 69 years) carry into the sign bit. Neither case is modelled.
- Layout.Encode: it is stated over integers. `PackedWordIsSum` proves the same layout over 64-bit words. The link between a word and its integer value is not proved, because the solver cannot reason across that conversion within the resource limit.
- Java constructors throw `IllegalArgumentException`. Here `Create` and `CreateDefault` return an error value instead, and the Dafny constructor requires ids that pass validation.
- Both constructors document ids as being in 0..31. This model follows the code's check (`> MAX_*` or `< 0`), which matches that range. A single 10-bit node id is not modelled: the code keeps two 5-bit ids (Sequence.java:65-66, 97-102).
