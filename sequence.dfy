/** The generator object and the clock it reads. */
module Snowflake {
  import opened Layout
  import opened Generation

  /** The millisecond clock, as the sequence of readings it will give. Each
      read returns the reading at `cursor` and moves on to the next one. */
  class TimeSource {
    const readings: seq<int>
    var cursor: nat

    ghost predicate Valid()
      reads this
    {
      cursor <= |readings| && ReadingsInEpoch(readings)
    }

    /** The clock moves past `last` at some reading not yet taken. */
    ghost predicate WillPass(last: int)
      reads this
    {
      Reaches(readings, cursor, last)
    }

    constructor (readings: seq<int>)
      requires ReadingsInEpoch(readings)
      ensures Valid() && this.readings == readings && cursor == 0
    {
      this.readings := readings;
      cursor := 0;
    }

    /** One reading of the clock. */
    method Read() returns (t: int)
      requires Valid() && cursor < |readings|
      modifies this
      ensures Valid() && cursor == old(cursor) + 1
      ensures t == readings[old(cursor)] && InEpoch(t)
    {
      t := readings[cursor];
      cursor := cursor + 1;
    }
  }

  /** A Snowflake identifier generator for one (data-center id, worker id) node. */
  class Sequence {
    const workerId: int
    const dataCenterId: int
    /** Selects the cached clock source; both sources are the same `TimeSource` here. */
    const clock: bool
    /** The backward clock jump, in milliseconds, that `NextId` waits out instead of refusing. */
    const timeOffset: int
    var sequence: int
    var lastTimestamp: int

    function Config(): Config
      reads this
    {
      Generation.Config(workerId, dataCenterId, timeOffset)
    }

    function Snapshot(): State
      reads this
    {
      State(lastTimestamp, sequence)
    }

    ghost predicate Valid()
      reads this
    {
      ValidConfig(Config()) && ValidState(Snapshot())
    }

    /** The identifier issued last; it exists once the first one is issued. */
    ghost function LastId(): int
      reads this
      requires Valid() && lastTimestamp != NO_TIMESTAMP
    {
      IdOf(Config(), Snapshot())
    }

    /** Construction with node ids the validation accepts. */
    constructor (workerId: int, dataCenterId: int, clock: bool, timeOffset: int)
      requires ConfigError(workerId, dataCenterId).None?
      ensures Valid()
      ensures this.workerId == workerId && this.dataCenterId == dataCenterId
      ensures this.clock == clock && this.timeOffset == timeOffset
      ensures Snapshot() == INITIAL
    {
      this.workerId := workerId;
      this.dataCenterId := dataCenterId;
      this.clock := clock;
      this.timeOffset := timeOffset;
      sequence := 0;
      lastTimestamp := NO_TIMESTAMP;
    }

    /** The four-argument constructor: fails on a worker id or a data-center
        id outside 0..31, the worker id checked first; otherwise a fresh
        generator holding the given values, with no identifier issued yet. */
    static method Create(workerId: int, dataCenterId: int, clock: bool, timeOffset: int)
      returns (r: Result<Sequence>)
      ensures r.Err? <==> !(0 <= workerId <= MAX_WORKER_ID && 0 <= dataCenterId <= MAX_DATA_CENTER_ID)
      ensures r.Err? ==> Some(r.error) == ConfigError(workerId, dataCenterId)
      ensures r.Ok? ==> fresh(r.value) && r.value.Valid()
      ensures r.Ok? ==> r.value.workerId == workerId && r.value.dataCenterId == dataCenterId
      ensures r.Ok? ==> r.value.clock == clock && r.value.timeOffset == timeOffset
      ensures r.Ok? ==> r.value.Snapshot() == INITIAL
    {
      var e := ConfigError(workerId, dataCenterId);
      if e.Some? {
        return Err(e.value);
      }
      var g := new Sequence(workerId, dataCenterId, clock, timeOffset);
      r := Ok(g);
    }

    /** The two-argument constructor: the uncached clock and a tolerance of 5 ms. */
    static method CreateDefault(workerId: int, dataCenterId: int) returns (r: Result<Sequence>)
      ensures r.Err? <==> !(0 <= workerId <= MAX_WORKER_ID && 0 <= dataCenterId <= MAX_DATA_CENTER_ID)
      ensures r.Err? ==> Some(r.error) == ConfigError(workerId, dataCenterId)
      ensures r.Ok? ==> fresh(r.value) && r.value.Valid()
      ensures r.Ok? ==> r.value.workerId == workerId && r.value.dataCenterId == dataCenterId
      ensures r.Ok? ==> !r.value.clock && r.value.timeOffset == DEFAULT_TIME_OFFSET
      ensures r.Ok? ==> r.value.Snapshot() == INITIAL
    {
      r := Create(workerId, dataCenterId, false, DEFAULT_TIME_OFFSET);
    }

    /** Polls the clock until it reads a millisecond later than `last`, and
        returns that reading. */
    method TilNextMillis(time: TimeSource, last: int) returns (timestamp: int)
      requires time.Valid() && time.WillPass(last)
      modifies time
      ensures time.Valid()
      ensures time.cursor == NextMillisIndex(time.readings, old(time.cursor), last) + 1
      ensures timestamp == time.readings[time.cursor - 1] && timestamp > last
    {
      ghost var k := NextMillisIndex(time.readings, time.cursor, last);
      timestamp := time.Read();
      while timestamp <= last
        invariant time.Valid()
        invariant old(time.cursor) < time.cursor <= k + 1
        invariant timestamp == time.readings[time.cursor - 1]
        decreases k + 1 - time.cursor
      {
        timestamp := time.Read();
      }
    }

    /** Issues the next identifier, or refuses when the clock has moved back
        more than `timeOffset`, or is still behind after waiting. */
    method NextId(time: TimeSource) returns (r: Result<int>)
      requires Valid() && time.Valid() && time.WillPass(lastTimestamp)
      modifies this, time
      ensures Valid() && time.Valid()
      ensures Step(r, Snapshot(), time.cursor) ==
              Generation.NextId(Config(), old(Snapshot()), time.readings, old(time.cursor))
      ensures r.Err? ==> r.error.ClockMovedBackwards? && Snapshot() == old(Snapshot())
      ensures r.Ok? ==> Before(old(Snapshot()), Snapshot()) && r.value == LastId()
      ensures r.Ok? && old(lastTimestamp) != NO_TIMESTAMP ==> old(LastId()) < r.value
    {
      var timestamp := time.Read();
      if timestamp < lastTimestamp {
        var offset := lastTimestamp - timestamp;
        if offset > timeOffset {
          return Err(ClockMovedBackwards(offset));
        }
        // Waiting twice the offset: the clock moves on to its next reading.
        timestamp := time.Read();
        if timestamp < lastTimestamp {
          return Err(ClockMovedBackwards(offset));
        }
      }
      if lastTimestamp == timestamp {
        // `(sequence + 1) & SEQUENCE_MASK`, see Layout.MaskIsRemainder.
        sequence := (sequence + 1) % (SEQUENCE_MASK + 1);
        if sequence == 0 {
          timestamp := TilNextMillis(time, lastTimestamp);
        }
      } else {
        sequence := 0;
      }
      lastTimestamp := timestamp;
      r := Ok(Encode(timestamp - START_TIME, dataCenterId, workerId, sequence));
      if old(lastTimestamp) != NO_TIMESTAMP {
        EncodeOrdered(dataCenterId, workerId,
                      old(lastTimestamp) - START_TIME, old(sequence),
                      lastTimestamp - START_TIME, sequence);
      }
    }
  }
}
