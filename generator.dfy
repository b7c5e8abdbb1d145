/**
 * The ID generator: construction from settings and the NextID state machine.
 *
 * A generator keeps its logical clock (elapsedTime, the last elapsed time
 * used) and the sequence number within it. Each NextID call reads the
 * current elapsed time once; a later unit starts a fresh sequence, an equal or
 * earlier one (the clock has not moved on, or was set back) takes the next
 * sequence number, and when those run out the logical clock moves one unit on
 * and the call sleeps until the wall clock reaches it.
 *
 * The wall clock is an input: NextID takes the current elapsed time and, in
 * place of sleeping, returns the overtime in units that the sleep covers.
 */
module Generator {
  import opened GoInts
  import opened Results
  import opened Clock
  import opened Codec
  import opened MachineIDs

  /** The 8-bit sequence mask, 2^8 - 1, as a uint16. */
  const SequenceMask: uint16 := 0xFF

  /**
   * Settings: the start time (zero selects 2014-09-01 UTC), the machine-ID
   * provider (None: the lower 16 bits of the private IP address) and the
   * optional machine-ID check.
   */
  datatype Settings = Settings(
    startTime: Time,
    machineID: Option<() -> Result<uint16>>,
    checkMachineID: Option<uint16 -> bool>)

  /** The part of the generator that NextID changes: the logical clock and the sequence within it. */
  datatype Stamp = Stamp(elapsedTime: int, sequence: uint16)

  /** What NextID keeps true: no negative logical time, and a sequence within its 8 bits. */
  predicate ValidStamp(s: Stamp) {
    0 <= s.elapsedTime && s.sequence <= SequenceMask
  }

  /** Lexicographic order on (elapsedTime, sequence), the order the IDs of one machine follow. */
  predicate Before(a: Stamp, b: Stamp) {
    a.elapsedTime < b.elapsedTime || (a.elapsedTime == b.elapsedTime && a.sequence < b.sequence)
  }

  /** The outcome of one call: the new stamp, and the overtime slept (0 when the call does not sleep). */
  datatype Step = Step(stamp: Stamp, overtime: int)

  /** The next sequence number within a unit, wrapping after 255. */
  function NextSequence(sequence: uint16): (r: uint16) {
    (sequence + 1) % 0x100
  }

  /** Go's (sequence + 1) & maskSequence on uint16 computes the next sequence number. */
  lemma MaskedIncrement(sequence: uint16)
    ensures And16(Add16(sequence, 1), SequenceMask) == NextSequence(sequence)
  {
    var x := Add16(sequence, 1);
    assert Pow2(8) - 1 == SequenceMask by { Pow2Values(); }
    AndLowMask(x, 8, 16);
    if sequence + 1 < TWO16 {
      assert x == sequence + 1;
    } else {
      assert x == 0 && sequence + 1 == 0x100 * 0x100;
    }
  }

  /** The state change of one NextID call whose clock reads `current` elapsed units. */
  function Advance(s: Stamp, current: int): (r: Step) {
    if s.elapsedTime < current then
      Step(Stamp(current, 0), 0)
    else
      var sequence := NextSequence(s.sequence);
      if sequence == 0 then Step(Stamp(s.elapsedTime + 1, 0), s.elapsedTime + 1 - current)
      else Step(Stamp(s.elapsedTime, sequence), 0)
  }

  /**
   * The three branches of NextID. A later clock reading starts that unit at
   * sequence 0 with no sleep. Otherwise the sequence becomes (old + 1) & 0xFF;
   * the logical clock stays unless that is 0, in which case it moves on by
   * exactly one unit and the call sleeps for the overtime, at least one unit.
   */
  lemma AdvanceBranches(s: Stamp, current: int)
    ensures var r := Advance(s, current);
      && (s.elapsedTime < current ==> r == Step(Stamp(current, 0), 0))
      && (s.elapsedTime >= current ==>
            && r.stamp.sequence == (s.sequence + 1) % 0x100
            && (r.stamp.sequence != 0 ==> r.stamp.elapsedTime == s.elapsedTime && r.overtime == 0)
            && (r.stamp.sequence == 0 ==>
                  r.stamp.elapsedTime == s.elapsedTime + 1 && r.overtime == r.stamp.elapsedTime - current >= 1))
  {
  }

  /**
   * One call keeps the stamp valid, never moves the logical clock back, never
   * leaves it behind the wall clock, and strictly advances the stamp.
   */
  lemma AdvanceMonotone(s: Stamp, current: int)
    requires ValidStamp(s)
    ensures var r := Advance(s, current);
      && ValidStamp(r.stamp)
      && s.elapsedTime <= r.stamp.elapsedTime && current <= r.stamp.elapsedTime
      && Before(s, r.stamp)
      && r.overtime >= 0
  {
    AdvanceBranches(s, current);
  }

  /**
   * A call whose clock reading is behind the logical clock (a clock set back)
   * keeps the logical clock: the new stamp is at or after it, never at the
   * wall-clock reading, and the ID it yields is larger than the previous one.
   */
  lemma RollbackKeepsLogicalClock(s: Stamp, current: int, machineID: uint16)
    requires ValidStamp(s) && current < s.elapsedTime && s.elapsedTime + 1 < TimeLimit
    ensures var r := Advance(s, current).stamp;
      && current < s.elapsedTime <= r.elapsedTime <= s.elapsedTime + 1
      && ToID(r.elapsedTime, r.sequence, machineID).Ok?
      && ToID(s.elapsedTime, s.sequence, machineID).value < ToID(r.elapsedTime, r.sequence, machineID).value
  {
    var r := Advance(s, current).stamp;
    assert ValidStamp(r) && s.elapsedTime <= r.elapsedTime <= s.elapsedTime + 1 && Before(s, r) by {
      AdvanceBranches(s, current);
      AdvanceMonotone(s, current);
    }
    ToIDOrdered(s.elapsedTime, s.sequence, r.elapsedTime, r.sequence, machineID);
  }

  /**
   * A new generator (elapsed time 0, sequence 255) issues sequence 0 on its
   * first call: at the clock reading when that is positive, otherwise at unit 1
   * after sleeping until then.
   */
  lemma FirstCallStartsAtSequenceZero(current: int)
    ensures Advance(Stamp(0, SequenceMask), current) ==
      if current > 0 then Step(Stamp(current, 0), 0) else Step(Stamp(1, 0), 1 - current)
  {
    AdvanceBranches(Stamp(0, SequenceMask), current);
  }

  /** The stamps after each of a series of calls with the given clock readings. */
  function Run(s: Stamp, currents: seq<int>): (r: seq<Stamp>)
    ensures |r| == |currents|
    decreases |currents|
  {
    if currents == [] then []
    else
      var next := Advance(s, currents[0]).stamp;
      [next] + Run(next, currents[1..])
  }

  /** Across any series of calls the stamps stay valid and strictly increase. */
  lemma {:induction false} RunIncreasing(s: Stamp, currents: seq<int>)
    requires ValidStamp(s)
    ensures forall i :: 0 <= i < |currents| ==> ValidStamp(Run(s, currents)[i]) && Before(s, Run(s, currents)[i])
    ensures forall i, j :: 0 <= i < j < |currents| ==> Before(Run(s, currents)[i], Run(s, currents)[j])
    decreases |currents|
  {
    if currents != [] {
      var next := Advance(s, currents[0]).stamp;
      AdvanceMonotone(s, currents[0]);
      var inner := Run(next, currents[1..]);
      RunIncreasing(next, currents[1..]);
      var r := Run(s, currents);
      assert r == [next] + inner;
      forall i | 0 <= i < |r|
        ensures ValidStamp(r[i]) && Before(s, r[i]) && (i > 0 ==> Before(next, r[i]))
      {
        if i > 0 {
          assert r[i] == inner[i - 1];
        }
      }
      forall i, j | 0 <= i < j < |r|
        ensures Before(r[i], r[j])
      {
        assert r[j] == inner[j - 1];
        if i > 0 {
          assert r[i] == inner[i - 1];
        }
      }
    }
  }

  /**
   * The IDs of two stamps, the first issued earlier: if the later one is
   * issued, so was the earlier one, with a smaller ID; if the earlier one
   * failed with the time limit, the later one fails too.
   */
  predicate IssuedInOrder(earlier: Stamp, later: Stamp, machineID: uint16) {
    var a := ToID(earlier.elapsedTime, earlier.sequence, machineID);
    var b := ToID(later.elapsedTime, later.sequence, machineID);
    (a.Err? ==> b.Err?) && (b.Ok? ==> a.Ok? && a.value < b.value)
  }

  /**
   * Uniqueness and order of the IDs: with one machine ID, over any series of
   * calls, a call whose ID is issued follows only calls whose IDs were issued
   * and were smaller; once a call fails with the time limit every later one does.
   */
  lemma RunIDsIncreasing(s: Stamp, currents: seq<int>, machineID: uint16)
    requires ValidStamp(s)
    ensures forall i, j :: 0 <= i < j < |currents| ==>
      IssuedInOrder(Run(s, currents)[i], Run(s, currents)[j], machineID)
  {
    RunIncreasing(s, currents);
    var r := Run(s, currents);
    forall i, j | 0 <= i < j < |r|
      ensures IssuedInOrder(r[i], r[j], machineID)
    {
      assert ValidStamp(r[i]) && ValidStamp(r[j]) && Before(r[i], r[j]);
      ToIDLayout(r[i].elapsedTime, r[i].sequence, machineID);
      ToIDLayout(r[j].elapsedTime, r[j].sequence, machineID);
      if r[j].elapsedTime < TimeLimit {
        ToIDOrdered(r[i].elapsedTime, r[i].sequence, r[j].elapsedTime, r[j].sequence, machineID);
      }
    }
  }

  /** Successive calls that read the logical unit t give the stamps (t, sequence + 1), (t, sequence + 2), … in turn. */
  lemma {:induction false} RunWithinUnit(t: int, sequence: uint16, currents: seq<int>)
    requires 0 <= t && sequence as int + |currents| <= SequenceMask as int
    requires forall i :: 0 <= i < |currents| ==> currents[i] == t
    ensures forall i :: 0 <= i < |currents| ==> Run(Stamp(t, sequence), currents)[i] == Stamp(t, sequence + i + 1)
    decreases |currents|
  {
    if currents != [] {
      var s0 := Stamp(t, sequence);
      assert currents[0] == t;
      AdvanceBranches(s0, t);
      var next := Advance(s0, t).stamp;
      assert next == Stamp(t, sequence + 1);
      var inner := Run(next, currents[1..]);
      RunWithinUnit(t, sequence + 1, currents[1..]);
      var r := Run(s0, currents);
      assert r == [next] + inner;
      forall i | 0 < i < |r|
        ensures r[i] == Stamp(t, sequence + i + 1)
      {
        assert r[i] == inner[i - 1];
      }
    }
  }

  /**
   * Sequence exhaustion: of 257 calls that all read unit t after the logical
   * clock, the first 256 issue sequences 0 to 255 at t, and the 257th moves the
   * logical clock to t + 1 at sequence 0, sleeping for one unit.
   */
  lemma ExhaustingAUnit(s: Stamp, t: int)
    requires ValidStamp(s) && s.elapsedTime < t
    ensures forall i :: 0 <= i < 256 ==> Run(s, seq(257, _ => t))[i] == Stamp(t, i)
    ensures Run(s, seq(257, _ => t))[256] == Stamp(t + 1, 0)
    ensures Advance(Run(s, seq(257, _ => t))[255], t).overtime == 1
  {
    var currents := seq(257, _ => t);
    var r := Run(s, currents);
    var first := Stamp(t, 0);
    assert Advance(s, t).stamp == first;
    assert r == [first] + Run(first, currents[1..]);
    var middle := currents[1..256];
    RunWithinUnit(t, 0, middle);
    RunSplit(first, middle, currents[256..]);
    assert currents[1..] == middle + currents[256..];
    forall i | 0 < i < 256
      ensures r[i] == Stamp(t, i)
    {
      assert r[i] == Run(first, middle)[i - 1];
    }
    AdvanceBranches(Stamp(t, 255), t);
    assert r[256] == Run(Stamp(t, 255), currents[256..])[0];
  }

  /** A series of calls split in two: the second part starts from where the first ended. */
  lemma {:induction false} RunSplit(s: Stamp, xs: seq<int>, ys: seq<int>)
    requires xs != []
    ensures Run(s, xs + ys) == Run(s, xs) + Run(Run(s, xs)[|xs| - 1], ys)
    decreases |xs|
  {
    var next := Advance(s, xs[0]).stamp;
    assert (xs + ys)[1..] == xs[1..] + ys;
    if |xs| > 1 {
      RunSplit(next, xs[1..], ys);
      assert Run(s, xs)[|xs| - 1] == Run(next, xs[1..])[|xs| - 2];
    }
  }

  /**
   * Time-limit exhaustion: a generator at the last representable unit with its
   * sequence used up fails on its next call, whichever unit that call reads,
   * and on every call after it.
   */
  lemma TimeLimitIsFinal(s: Stamp, currents: seq<int>, machineID: uint16)
    requires s.elapsedTime == TimeLimit - 1 && s.sequence == SequenceMask
    requires |currents| > 0
    ensures forall i :: 0 <= i < |currents| ==>
      ToID(Run(s, currents)[i].elapsedTime, Run(s, currents)[i].sequence, machineID) == Err(OverTheTimeLimit)
  {
    var r := Run(s, currents);
    AdvanceBranches(s, currents[0]);
    assert r[0].elapsedTime >= TimeLimit;
    RunIncreasing(s, currents);
    forall i | 0 <= i < |r|
      ensures ToID(r[i].elapsedTime, r[i].sequence, machineID) == Err(OverTheTimeLimit)
    {
      assert i == 0 || Before(r[0], r[i]);
    }
  }

  /**
   * With the default start time and machine ID 1, a new generator called 20 ms
   * after 2014-09-01 00:00:00 UTC issues (time 2, sequence 0, machine 1), and a
   * second call at the same instant issues (time 2, sequence 1, machine 1).
   */
  lemma TwentyMillisecondsAfterDefaultStart(now: Time, machineID: uint16)
    requires now == DefaultStartTime + 20_000_000 && machineID == 1
    ensures var current := CurrentElapsedTime(ToSonyflakeTime(DefaultStartTime), now);
      var first := Advance(Stamp(0, SequenceMask), current).stamp;
      var second := Advance(first, current).stamp;
      && current == 2
      && ToID(first.elapsedTime, first.sequence, machineID).Ok?
      && Decompose(ToID(first.elapsedTime, first.sequence, machineID).value) ==
         Parts(ToID(first.elapsedTime, first.sequence, machineID).value, 0, 2, 0, 1)
      && ToID(second.elapsedTime, second.sequence, machineID).Ok?
      && Decompose(ToID(second.elapsedTime, second.sequence, machineID).value) ==
         Parts(ToID(second.elapsedTime, second.sequence, machineID).value, 0, 2, 1, 1)
  {
    var current := CurrentElapsedTime(ToSonyflakeTime(DefaultStartTime), now);
    assert current == 2 by {
      assert ToSonyflakeTime(DefaultStartTime) == 140_952_960_000;
    }
    var first := Advance(Stamp(0, SequenceMask), current).stamp;
    var second := Advance(first, current).stamp;
    assert first == Stamp(2, 0) && second == Stamp(2, 1) by {
      FirstCallStartsAtSequenceZero(current);
      AdvanceBranches(Stamp(2, 0), current);
    }
    DecodeToID(first.elapsedTime, first.sequence, machineID);
    DecodeToID(second.elapsedTime, second.sequence, machineID);
  }

  /** The machine ID construction resolves: the caller's provider, or else the private-IP default. */
  function ResolveMachineID(st: Settings, privateIP: Result<IPv4>): (r: Result<uint16>) {
    match st.machineID
    case None => Lower16BitPrivateIP(privateIP)
    case Some(provider) => provider()
  }

  /** The start time in Sonyflake units: the settings' own, or 2014-09-01 UTC when it is zero. */
  function StartTimeUnits(st: Settings): (r: int) {
    if IsZero(st.startTime) then ToSonyflakeTime(DefaultStartTime) else ToSonyflakeTime(st.startTime)
  }

  /** Sonyflake: one generator's state. The mutex that serialises NextID is not modelled; each call is atomic. */
  class Sonyflake {
    var startTime: int
    var elapsedTime: int
    var sequence: uint16
    var machineID: uint16

    ghost predicate Valid()
      reads this
    {
      ValidStamp(State())
    }

    function State(): (r: Stamp)
      reads this
    {
      Stamp(elapsedTime, sequence)
    }

    /** new(Sonyflake): every field starts at zero. */
    constructor ()
      ensures startTime == 0 && elapsedTime == 0 && sequence == 0 && machineID == 0
    {
      startTime, elapsedTime, sequence, machineID := 0, 0, 0, 0;
    }

    /**
     * NextID, given the current elapsed time. Returns the ID (or the time-limit
     * error) and the overtime the call sleeps for, 0 when it does not sleep.
     * On the error the state change stands.
     */
    method NextID(current: int) returns (id: Result<uint64>, overtime: int)
      requires Valid()
      modifies this`elapsedTime, this`sequence
      ensures Valid()
      ensures Step(State(), overtime) == Advance(old(State()), current)
      ensures old(elapsedTime) <= elapsedTime && current <= elapsedTime
      ensures Before(old(State()), State())
      ensures id == ToID(elapsedTime, sequence, machineID)
      ensures id.Err? <==> elapsedTime >= TimeLimit
      ensures startTime == old(startTime) && machineID == old(machineID)
    {
      if elapsedTime < current {
        elapsedTime := current;
        sequence := 0;
        overtime := 0;
      } else {
        MaskedIncrement(sequence);
        sequence := And16(Add16(sequence, 1), SequenceMask);
        overtime := 0;
        if sequence == 0 {
          elapsedTime := elapsedTime + 1;
          overtime := elapsedTime - current;
        }
      }
      AdvanceMonotone(old(State()), current);
      ToIDLayout(elapsedTime, sequence, machineID);
      id := ToID(elapsedTime, sequence, machineID);
    }
  }

  /**
   * NewSonyflake, given the clock reading and the outcome of the private-IP
   * search. Returns null exactly when the start time is after now, the
   * machine ID cannot be resolved, or the check rejects it; otherwise a new
   * generator at elapsed time 0 with its sequence at 255.
   */
  method NewSonyflake(st: Settings, now: Time, privateIP: Result<IPv4>) returns (sf: Sonyflake?)
    ensures sf == null <==>
      || After(st.startTime, now)
      || ResolveMachineID(st, privateIP).Err?
      || (st.checkMachineID.Some? && !st.checkMachineID.value(ResolveMachineID(st, privateIP).value))
    ensures sf != null ==>
      && fresh(sf) && sf.Valid()
      && sf.startTime == StartTimeUnits(st)
      && sf.machineID == ResolveMachineID(st, privateIP).value
      && sf.elapsedTime == 0 && sf.sequence == SequenceMask
  {
    sf := new Sonyflake();
    sf.sequence := SequenceMask;

    if After(st.startTime, now) {
      return null;
    }
    sf.startTime := StartTimeUnits(st);

    var resolved := ResolveMachineID(st, privateIP);
    if resolved.Err? || (st.checkMachineID.Some? && !st.checkMachineID.value(resolved.value)) {
      return null;
    }
    sf.machineID := resolved.value;
  }
}
