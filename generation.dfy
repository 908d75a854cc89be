/** What one call of the generator's `nextId()` does, as functions of the
    generator's state and of the clock.

    The clock is a sequence of millisecond readings. A call consumes
    readings from a cursor onward, one per read of the clock: one for the
    first reading, one more after waiting out a small backward jump, and one
    per poll while it waits for the next millisecond.
 */
module Generation {
  import opened Layout

  /** The exceptions the generator throws, with the number each message
      names: the largest accepted id, or the backward jump in milliseconds. */
  datatype Error =
    | WorkerIdOutOfRange(maxWorkerId: int)
    | DataCenterIdOutOfRange(maxDataCenterId: int)
    | ClockMovedBackwards(offset: int)

  datatype Result<T> = Ok(value: T) | Err(error: Error)

  datatype Option<T> = None | Some(value: T)

  /** `lastTimestamp` before the first identifier is issued. */
  const NO_TIMESTAMP: int := -1

  /** The tolerated backward jump of the two-argument constructor, in milliseconds. */
  const DEFAULT_TIME_OFFSET: int := 5

  /** The configuration a generator is constructed with. */
  datatype Config = Config(workerId: int, dataCenterId: int, timeOffset: int)

  /** The mutable part of a generator. */
  datatype State = State(lastTimestamp: int, sequence: int)

  /** The state before the first identifier is issued. */
  const INITIAL: State := State(NO_TIMESTAMP, 0)

  /** The constructor's validation: the worker id is checked first, then the data-center id. */
  function ConfigError(workerId: int, dataCenterId: int): (e: Option<Error>)
    ensures e.None? <==> 0 <= workerId <= MAX_WORKER_ID && 0 <= dataCenterId <= MAX_DATA_CENTER_ID
    ensures e == Some(WorkerIdOutOfRange(MAX_WORKER_ID)) <==> !(0 <= workerId <= MAX_WORKER_ID)
    ensures e == Some(DataCenterIdOutOfRange(MAX_DATA_CENTER_ID)) <==>
              0 <= workerId <= MAX_WORKER_ID && !(0 <= dataCenterId <= MAX_DATA_CENTER_ID)
  {
    if workerId > MAX_WORKER_ID || workerId < 0 then Some(WorkerIdOutOfRange(MAX_WORKER_ID))
    else if dataCenterId > MAX_DATA_CENTER_ID || dataCenterId < 0 then Some(DataCenterIdOutOfRange(MAX_DATA_CENTER_ID))
    else None
  }

  /** A clock reading the layout can hold: at or after START_TIME and within
      the 41-bit range after it. */
  predicate InEpoch(t: int)
  {
    START_TIME <= t < START_TIME + TIMESTAMP_LIMIT
  }

  predicate ReadingsInEpoch(readings: seq<int>)
  {
    forall i :: 0 <= i < |readings| ==> InEpoch(readings[i])
  }

  /** Some reading at or after `from` is later than `last`: the clock moves
      past `last` eventually. */
  predicate Reaches(readings: seq<int>, from: nat, last: int)
  {
    exists j :: from <= j < |readings| && readings[j] > last
  }

  /** A state the generator can be in: ids issued so far lie in the epoch and
      the sequence fits its 12 bits. */
  predicate ValidState(s: State)
  {
    (s.lastTimestamp == NO_TIMESTAMP || InEpoch(s.lastTimestamp)) &&
    0 <= s.sequence <= SEQUENCE_MASK
  }

  predicate ValidConfig(c: Config)
  {
    ConfigError(c.workerId, c.dataCenterId).None?
  }

  /** The lexicographic order on (lastTimestamp, sequence). */
  predicate Before(a: State, b: State)
  {
    a.lastTimestamp < b.lastTimestamp ||
    (a.lastTimestamp == b.lastTimestamp && a.sequence < b.sequence)
  }

  /** The identifier that a state stands for: the one issued when the
      generator entered it. */
  function IdOf(c: Config, s: State): int
    requires ValidConfig(c) && ValidState(s) && s.lastTimestamp != NO_TIMESTAMP
  {
    Encode(s.lastTimestamp - START_TIME, c.dataCenterId, c.workerId, s.sequence)
  }

  // ---------------------------------------------------------------------
  // tilNextMillis
  // ---------------------------------------------------------------------

  /** The index of the reading that ends the wait for a millisecond later
      than `last`: the first reading from `from` onward that exceeds it. */
  function NextMillisIndex(readings: seq<int>, from: nat, last: int): (k: nat)
    requires Reaches(readings, from, last)
    ensures from <= k < |readings| && readings[k] > last
    ensures forall j :: from <= j < k ==> readings[j] <= last
    decreases |readings| - from
  {
    if readings[from] > last then from
    else
      assert forall j :: from <= j < |readings| && readings[j] > last ==> from + 1 <= j;
      NextMillisIndex(readings, from + 1, last)
  }

  // ---------------------------------------------------------------------
  // The clock-rollback guard
  // ---------------------------------------------------------------------

  /** What the guard decides: go on with `timestamp`, or refuse reporting
      `offset`; `cursor` is the position after the readings it consumed. */
  datatype Guarded =
    | Proceed(timestamp: int, cursor: nat)
    | Refuse(offset: int, cursor: nat)

  /** Reads the clock. A reading behind `last` by more than `timeOffset`
      refuses; one behind by at most that much waits (the clock moves on to
      its next reading) and reads again, and refuses if the clock is still
      behind. Both refusals report the first reading's offset. Otherwise the
      call goes on with a reading at or after `last`; when that reading equals
      `last`, the clock still passes `last` at some later reading. */
  function Guard(last: int, timeOffset: int, readings: seq<int>, cursor: nat): (g: Guarded)
    requires Reaches(readings, cursor, last)
    ensures var t := readings[cursor];
            g.Refuse? <==> t < last && (last - t > timeOffset || readings[cursor + 1] < last)
    ensures g.Refuse? ==> g.offset == last - readings[cursor]
    ensures g.Refuse? ==> g.cursor == if last - readings[cursor] > timeOffset then cursor + 1 else cursor + 2
    ensures readings[cursor] < last && g.Proceed? ==> g == Proceed(readings[cursor + 1], cursor + 2)
    ensures g.Proceed? ==>
              && cursor < g.cursor <= |readings|
              && g.timestamp == readings[g.cursor - 1] && g.timestamp >= last
              && (g.timestamp == last ==> Reaches(readings, g.cursor, last))
    ensures readings[cursor] >= last ==> g == Proceed(readings[cursor], cursor + 1)
  {
    var timestamp := readings[cursor];
    if timestamp < last then
      var offset := last - timestamp;
      if offset > timeOffset then Refuse(offset, cursor + 1)
      else
        var again := readings[cursor + 1];
        if again < last then Refuse(offset, cursor + 2)
        else Proceed(again, cursor + 2)
    else Proceed(timestamp, cursor + 1)
  }

  // ---------------------------------------------------------------------
  // The per-millisecond counter
  // ---------------------------------------------------------------------

  /** The new state after the guard let `timestamp` through, and the
      position in the clock after it. Within the same millisecond the
      sequence goes up by one modulo 4096 (`(sequence + 1) & SEQUENCE_MASK`,
      see `MaskIsRemainder`); when it wraps to 0 the generator polls the clock
      until it passes `lastTimestamp`. In any other millisecond the sequence
      restarts at 0. */
  function Advance(s: State, timestamp: int, readings: seq<int>, cursor: nat): (r: (State, nat))
    requires ValidState(s) && timestamp >= s.lastTimestamp
    requires timestamp == s.lastTimestamp ==> Reaches(readings, cursor, s.lastTimestamp)
    ensures 0 <= r.0.sequence <= SEQUENCE_MASK && Before(s, r.0)
    ensures timestamp != s.lastTimestamp ==> r == (State(timestamp, 0), cursor)
    ensures timestamp == s.lastTimestamp && s.sequence < SEQUENCE_MASK ==>
              r == (State(s.lastTimestamp, s.sequence + 1), cursor)
    ensures timestamp == s.lastTimestamp && s.sequence == SEQUENCE_MASK ==>
              && r.0.sequence == 0 && r.0.lastTimestamp > s.lastTimestamp
              && cursor < r.1 <= |readings| && r.0.lastTimestamp == readings[r.1 - 1]
              && forall j :: cursor <= j < r.1 - 1 ==> readings[j] <= s.lastTimestamp
  {
    if s.lastTimestamp == timestamp then
      var sequence := (s.sequence + 1) % (SEQUENCE_MASK + 1);
      if sequence == 0 then
        var k := NextMillisIndex(readings, cursor, s.lastTimestamp);
        (State(readings[k], sequence), k + 1)
      else (State(timestamp, sequence), cursor)
    else (State(timestamp, 0), cursor)
  }

  // ---------------------------------------------------------------------
  // One call of nextId()
  // ---------------------------------------------------------------------

  /** The outcome of one call: what it returns, the state afterwards and the
      position in the clock after the readings it consumed. */
  datatype Step = Step(result: Result<int>, state: State, cursor: nat)

  /** One call of `nextId()`: guard, counter, encoding. The call fails
      exactly in the two rollback cases, and then leaves `lastTimestamp` and
      `sequence` as they were. A successful call moves (`lastTimestamp`,
      `sequence`) strictly forward in lexicographic order, so `lastTimestamp`
      never decreases; the sequence stays within 0..4095; and the identifier
      returned is the one that encodes the new state. */
  function NextId(c: Config, s: State, readings: seq<int>, cursor: nat): (st: Step)
    requires ValidConfig(c) && ValidState(s) && ReadingsInEpoch(readings)
    requires Reaches(readings, cursor, s.lastTimestamp)
    ensures var t := readings[cursor];
            st.result.Err? <==>
              t < s.lastTimestamp && (s.lastTimestamp - t > c.timeOffset || readings[cursor + 1] < s.lastTimestamp)
    ensures st.result.Err? ==>
              st.state == s && st.result.error == ClockMovedBackwards(s.lastTimestamp - readings[cursor])
    ensures st.result.Ok? ==>
              && Before(s, st.state)
              && ValidState(st.state) && st.state.lastTimestamp != NO_TIMESTAMP
              && st.result.value == IdOf(c, st.state)
    ensures cursor < st.cursor <= |readings|
  {
    match Guard(s.lastTimestamp, c.timeOffset, readings, cursor)
    case Refuse(offset, next) => Step(Err(ClockMovedBackwards(offset)), s, next)
    case Proceed(timestamp, next) =>
      var (n, after) := Advance(s, timestamp, readings, next);
      Step(Ok(Encode(n.lastTimestamp - START_TIME, c.dataCenterId, c.workerId, n.sequence)), n, after)
  }

  /** The first call always succeeds, with the first reading and sequence 0. */
  lemma FirstCallStartsSequenceAtZero(c: Config, readings: seq<int>, cursor: nat)
    requires ValidConfig(c) && ReadingsInEpoch(readings) && cursor < |readings|
    ensures Reaches(readings, cursor, NO_TIMESTAMP)
    ensures NextId(c, INITIAL, readings, cursor).result.Ok?
    ensures NextId(c, INITIAL, readings, cursor).state == State(readings[cursor], 0)
  {
    assert readings[cursor] > NO_TIMESTAMP;
  }

  /** The identifier returned decodes back to the reading, the node ids and
      the sequence of the new state. */
  lemma IssuedIdDecodes(c: Config, s: State, readings: seq<int>, cursor: nat)
    requires ValidConfig(c) && ValidState(s) && ReadingsInEpoch(readings)
    requires Reaches(readings, cursor, s.lastTimestamp)
    ensures var st := NextId(c, s, readings, cursor);
            st.result.Ok? ==>
              && 0 <= st.result.value < ID_LIMIT
              && TimestampOf(st.result.value) + START_TIME == st.state.lastTimestamp
              && DataCenterIdOf(st.result.value) == c.dataCenterId
              && WorkerIdOf(st.result.value) == c.workerId
              && SequenceOf(st.result.value) == st.state.sequence
  {
    var st := NextId(c, s, readings, cursor);
    if st.result.Ok? {
      DecodeEncode(st.state.lastTimestamp - START_TIME, c.dataCenterId, c.workerId, st.state.sequence);
    }
  }

  /** The identifiers returned by `n` calls in a row, in order; a refused
      call returns none. The calls stop early once no reading left passes
      `lastTimestamp`, where the real clock would keep the generator waiting. */
  function Issued(c: Config, s: State, readings: seq<int>, cursor: nat, n: nat): seq<int>
    requires ValidConfig(c) && ValidState(s) && ReadingsInEpoch(readings)
    decreases n
  {
    if n == 0 || !Reaches(readings, cursor, s.lastTimestamp) then []
    else
      var st := NextId(c, s, readings, cursor);
      var rest := Issued(c, st.state, readings, st.cursor, n - 1);
      if st.result.Ok? then [st.result.value] + rest else rest
  }

  /** The identifiers of a run of calls strictly increase, so they are all
      distinct, and each is larger than the one issued before the run. */
  lemma {:induction false} IssuedIncreasing(c: Config, s: State, readings: seq<int>, cursor: nat, n: nat)
    requires ValidConfig(c) && ValidState(s) && ReadingsInEpoch(readings)
    ensures forall i, j :: 0 <= i < j < |Issued(c, s, readings, cursor, n)| ==>
              Issued(c, s, readings, cursor, n)[i] < Issued(c, s, readings, cursor, n)[j]
    ensures s.lastTimestamp != NO_TIMESTAMP ==>
              forall i :: 0 <= i < |Issued(c, s, readings, cursor, n)| ==> IdOf(c, s) < Issued(c, s, readings, cursor, n)[i]
    decreases n
  {
    if n > 0 && Reaches(readings, cursor, s.lastTimestamp) {
      var st := NextId(c, s, readings, cursor);
      var rest := Issued(c, st.state, readings, st.cursor, n - 1);
      IssuedIncreasing(c, st.state, readings, st.cursor, n - 1);
      if st.result.Ok? {
        var ids := [st.result.value] + rest;
        assert Issued(c, s, readings, cursor, n) == ids;
        assert st.state.lastTimestamp != NO_TIMESTAMP && ids[0] == IdOf(c, st.state);
        forall i | 0 < i < |ids|
          ensures ids[0] < ids[i]
        {
          assert ids[i] == rest[i - 1];
        }
        if s.lastTimestamp != NO_TIMESTAMP {
          EncodeOrdered(c.dataCenterId, c.workerId,
                        s.lastTimestamp - START_TIME, s.sequence,
                        st.state.lastTimestamp - START_TIME, st.state.sequence);
        }
      }
    }
  }
}
