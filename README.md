# Sonyflake in Dafny

Sonyflake is a distributed generator of unique 64-bit IDs, in the style of
Twitter's Snowflake. From the most significant bit down, an ID holds:

- one unused bit, which is always 0;
- 39 bits of elapsed time, in 10-millisecond units since a configurable start time;
- 8 bits of sequence number, for IDs issued within the same unit;
- 16 bits of machine ID.

A generator keeps a logical clock: the last elapsed time it used, plus the
sequence number within that unit. On each `NextID` call it reads the wall
clock once to decide; when a unit is used up it reads it once more to size
the sleep.

- If the wall clock shows a later unit, it moves to that unit at sequence 0.
- Otherwise it takes the next sequence number. This includes a wall clock that
  was set back: the generator keeps issuing IDs at its own logical time.
- When the 256 sequence numbers of a unit are used up, the logical clock moves
  on by one unit. The call then sleeps until the wall clock reaches it.

Once the elapsed time no longer fits in 39 bits, every call fails with
"over the time limit".

The model has six modules.

- `GoInts` writes out Go's fixed-width integer semantics over mathematical
  integers:
  - `uint16`/`uint64` shifts that drop the high bits;
  - wrapping addition;
  - two's-complement conversions;
  - bitwise AND/OR, defined bit by bit;
  - Go's division and remainder, which truncate toward zero.
- `Results` holds the errors and the `Option`/`Result` wrappers.
- `Clock` is the 10 ms quantiser and the back-off sleep arithmetic. An instant
  is an integer count of nanoseconds since 1970, equal to UnixNano inside the
  int64 range.
- `Codec` is the bit layout: `toID` and the decoders `elapsedTime`,
  `ElapsedTime`, `SequenceNumber`, `MachineID` and `Decompose`.
- `MachineIDs` holds `isPrivateIPv4` and the packing of the low 16 bits of the
  private address.
- `Generator` holds the settings, the `Sonyflake` class with `NextID`, and
  `NewSonyflake`. `NextID` is modelled twice:
  - as the class method, which updates `elapsedTime` and `sequence` in place;
  - as the pure step `Advance` on a `Stamp` (logical time, sequence), with
    `Run` iterating it over a series of clock readings.

  The method's contract ties it to `Advance`. The lemmas about `Advance` and
  `Run` carry the order, uniqueness and exhaustion properties.

The environment is passed in as parameters:

- `NextID` takes the current elapsed time (`CurrentElapsedTime(startTime, now)`)
  in place of calling `time.Now()`. It returns the overtime, in units, that the
  call sleeps for, in place of calling `time.Sleep`. The sleep duration is
  `Clock.SleepTime(overtime, now)` at the instant of the second clock reading.
- `NewSonyflake` takes the clock reading and the outcome of the
  private-address search.

The package documentation (sonyflake.go:5, 29) describes the time part as the
time since the start time in units of 10 msec. The model follows the code,
which is more precise. The elapsed time is the difference of two separately quantised
instants, `toSonyflakeTime(now) - startTime`. It is not the quantised
difference `floor((now - start) / 10ms)`; `Clock.ElapsedTimeCountsUnitBoundaries`
shows an input where the two disagree, and `Clock.CurrentElapsedTimeBounds`
shows they differ by at most one unit. Quantisation truncates toward zero, as
Go's `/` does, so instants before 1970 round up.

## Model

| member | source | states |
|---|---|---|
| Codec.LayoutConstants | sonyflake.go:18-25 | the machine-ID field is 16 bits wide; the time limit is 1<<39; the two masks are (1<<8 - 1)<<16 and 1<<16 - 1 |
| Codec.ToIDLayout | sonyflake.go:143-151 | toID fails with OverTheTimeLimit exactly when the elapsed time is at least 2^39; otherwise the ID is time·2^24 + sequence·2^16 + machineID, below 2^63 (the top bit is 0) |
| Codec.DecodersAsArithmetic | sonyflake.go:193-209 | elapsedTime is id / 2^24, SequenceNumber is (id / 2^16) mod 2^8, MachineID is id mod 2^16, and the msb is id / 2^63 |
| Codec.SequenceNumberAsArithmetic | sonyflake.go:199-202 | id & maskSequence >> 16 is bits 16 to 23 of the ID |
| Codec.DecomposeBounds | sonyflake.go:212-224 | every ID decomposes into parts within their widths, and the msb is 0 exactly when the time part is below 2^39 |
| Codec.DecodeToID | sonyflake.go:143-151 | round trip: decomposing a generated ID gives back its time, sequence and machine ID, with msb 0 |
| Codec.ToIDOfDecoded | sonyflake.go:193-209 | round trip the other way: re-encoding the parts of any ID whose msb is 0 gives that ID |
| Codec.ToIDOrdered | sonyflake.go:148-150 | with one machine ID, IDs compare exactly as their (time, sequence) pairs compare lexicographically |
| Codec.ElapsedDurationOfToID | sonyflake.go:188-190 | ElapsedTime of a generated ID is its time part times 10^7 ns, with no wrap-around |
| Codec.ElapsedDurationWraps | sonyflake.go:188-190 | for an ID whose time part exceeds what an int64 of nanoseconds holds, the uint64 product read as a Duration is negative |
| Clock.ToSonyflakeTimeTruncates | sonyflake.go:128-132 | toSonyflakeTime of an instant at or after 1970 is the floor of its count of 10 ms units; before 1970 it is the ceiling |
| Clock.ToSonyflakeTimeMonotone | sonyflake.go:130-136 | a later instant is never in an earlier unit |
| Clock.SleepEndsAtUnitStart | sonyflake.go:138-141 | now + sleepTime(overtime) is exactly the start of unit toSonyflakeTime(now) + overtime |
| Clock.SleepTimeBounds | sonyflake.go:138-141 | for overtime >= 1 and a clock at or after 1970, the sleep is more than overtime - 1 units and at most overtime units |
| Clock.SleepReachesLogicalTime | sonyflake.go:116-121 | when overtime is the logical elapsed time minus the current one, the sleep ends at the start of the logical unit |
| Clock.CurrentElapsedTimeBounds | sonyflake.go:130-136 | for a start at or after 1970 and no later than now, the elapsed time is the whole number of units between them, or one more |
| Clock.ElapsedTimeCountsUnitBoundaries | sonyflake.go:134-136 | with a start time 5 ms into a unit, 7 ms later the elapsed time is 1, although 7 ms is less than one unit |
| MachineIDs.IsPrivateIPv4MatchesRfc1918 | sonyflake.go:172-175 | isPrivateIPv4 holds exactly for a non-nil address in 10.0.0.0/8, 172.16.0.0/12 or 192.168.0.0/16 (section 3 of RFC 1918) |
| MachineIDs.Lower16BitsOctets | sonyflake.go:183 | uint16(ip[2])<<8 + uint16(ip[3]) is ip[2]·256 + ip[3] with no wrap-around; its high and low bytes are the two octets; it is the address modulo 2^16 |
| MachineIDs.Lower16BitPrivateIP | sonyflake.go:177-184 | the error of the address search is passed on; otherwise the result is the third and fourth octets packed |
| Generator.MaskedIncrement | sonyflake.go:112 | (sequence + 1) & maskSequence on uint16 is (sequence + 1) mod 256 |
| Generator.AdvanceBranches | sonyflake.go:102-122 | a later clock reading sets the time to it with sequence 0 and no sleep; otherwise the sequence becomes (old + 1) mod 256, the time stays unless that is 0, in which case the time moves on by exactly one unit and the overtime is at least 1 |
| Generator.AdvanceMonotone | sonyflake.go:102-122 | one call keeps the sequence within 8 bits, never moves the logical clock back, never leaves it behind the wall clock, strictly advances (time, sequence), and never has a negative overtime |
| Generator.RollbackKeepsLogicalClock | sonyflake.go:106-118 | with the clock set back, a call stays at or one unit after the logical time (never at the clock reading), and its ID is larger than the previous one |
| Generator.FirstCallStartsAtSequenceZero | sonyflake.go:102-118 | a new generator (sequence 1<<8 - 1) issues sequence 0 on its first call: at the clock reading if positive, else at unit 1 after sleeping |
| Generator.RunIncreasing | sonyflake.go:95-126 | over any series of calls the (time, sequence) stamps stay valid and strictly increase |
| Generator.RunIDsIncreasing | sonyflake.go:93-151 | over any series of calls with one machine ID: a call whose ID is issued follows only calls whose IDs were issued and smaller (uniqueness and order); once a call fails with the time limit, every later one fails |
| Generator.RunWithinUnit | sonyflake.go:106-112 | calls that read the logical unit give stamps (time, sequence) at that unit with sequence numbers counting up one by one after the last |
| Generator.ExhaustingAUnit | sonyflake.go:102-122 | of 257 calls reading the same later unit t, the first 256 issue sequences 0 to 255 at t, and the 257th moves to t + 1 at sequence 0 after a one-unit overtime |
| Generator.TimeLimitIsFinal | sonyflake.go:143-146 | a generator at time 2^39 - 1 with its sequence used up fails on its next call, whichever unit that call reads, and on every call after it |
| Generator.TwentyMillisecondsAfterDefaultStart | sonyflake.go:74-75 | with the default start time 2014-09-01 UTC and machine ID 1, calls 20 ms later issue (time 2, sequence 0, machine 1) and then (time 2, sequence 1, machine 1) |
| Generator.Sonyflake.constructor | sonyflake.go:67 | new(Sonyflake): every field zero |
| Generator.Sonyflake.NextID | sonyflake.go:95-126 | the new (time, sequence) and the overtime are the step Advance from the old ones; the stamp strictly increases; the result is toID of the new state, failing exactly when the time reached 2^39; start time and machine ID are unchanged |
| Generator.NewSonyflake | sonyflake.go:66-91 | nil exactly when the start time is after now, the machine-ID provider (or the private-IP default) fails, or the check rejects the ID; otherwise a fresh generator at time 0, sequence 255, with the quantised start time (2014-09-01 when zero) and the resolved machine ID |
| GoInts.AndLowMask | sonyflake.go:207-208 | x & (1<<k - 1) is x mod 2^k |
| GoInts.AndShiftedMask | sonyflake.go:200-201 | masking (y<<j + z) with m<<j, for z below 2^j, is (y & m)<<j |
| GoInts.OrDisjoint | sonyflake.go:148-150 | a<<k OR b (Go's bitwise or), for b below 2^k, is a·2^k + b |
| GoInts.Add16 | sonyflake.go:112 | uint16 addition is exact below 2^16 and wraps by 2^16 above |
| GoInts.Uint64 | sonyflake.go:148 | uint64(x) keeps a non-negative x and adds 2^64 to a negative int64 |
| GoInts.Int64 | sonyflake.go:189 | a uint64 read as int64 converts back to the same uint64 |
| GoInts.QuoRem | sonyflake.go:130-141 | Go's / and % satisfy a == (a / b)·b + a % b, with the remainder taking the sign of a and smaller than b in magnitude |

## Left out

- The mutex: each `NextID` call is atomic in the model. Concurrent callers are not modelled.
- `time.Now` and `time.Sleep` are not modelled. `NextID` takes the current elapsed time and returns the overtime. `NewSonyflake` takes the clock reading. `Clock.SleepTime` computes the sleep for a given second clock reading.
- `privateIPv4`, the search over network interfaces, is not modelled. Its outcome, an address or an error, is an input to `NewSonyflake` and `Lower16BitPrivateIP`.
- `Decompose` returns a record with one field per key, in place of a `map[string]uint64`.
- `time.Time` is represented as an unbounded integer count of nanoseconds since 1970-01-01 UTC. Inside the int64 range this equals UnixNano; the zero `time.Time` (year 1) lies outside it and is kept as its exact count. The calendar date of the default start time is written as its nanosecond constant.
- The int64 wrap-around of `elapsedTime`, of `overtime` and of `overtime * sonyflakeTimeUnit` is not modelled; they are unbounded integers. The logical clock exceeds the highest clock reading so far by at most one unit per 256 calls. Against the current reading, after the clock is set back, `overtime` also carries the size of the set-back. `overtime * sonyflakeTimeUnit` leaves the int64 range only for a set-back of about 292 years. None of these bounds is proved here.
- `Generator.Sonyflake.NextID`: it states nothing about the length of the sleep itself, because that uses a second clock reading. `Clock.SleepReachesLogicalTime` states that property for a given reading.
- The caller-supplied machine-ID provider is a Dafny function, called once, so it is deterministic. The uint16 it returns alongside an error is ignored, as `NewSonyflake` discards it.
