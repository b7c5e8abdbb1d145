/**
 * The Sonyflake bit layout. From the most significant bit down, an ID holds
 * one unused bit (0), 39 bits of elapsed time in 10-msec units, 8 bits of
 * sequence number and 16 bits of machine ID. The encoder and the decoders
 * are written with the shifts and masks of the Go code, over Go's uint64.
 */
module Codec {
  import opened GoInts
  import opened Results
  import opened Clock

  const BitLenTime: nat := 39
  const BitLenSequence: nat := 8
  const BitLenMachineID: nat := 63 - BitLenTime - BitLenSequence

  /** The first elapsed time that no longer fits in the time field, 1 << BitLenTime. */
  const TimeLimit: int := 0x80_0000_0000

  /** The sequence mask: 8 one-bits moved up past the machine-ID field, (2^8 - 1) * 2^16. */
  const MaskSequence: uint64 := 0xFF_0000

  /** The machine-ID mask: the 16 low one-bits, 2^16 - 1. */
  const MaskMachineID: uint64 := 0xFFFF

  /** The literal limit and masks are the shifted constants of the layout: 1<<39, (1<<8 - 1)<<16 and 1<<16 - 1. */
  lemma LayoutConstants()
    ensures BitLenMachineID == 16 && BitLenSequence + BitLenMachineID == 24
    ensures TimeLimit == Pow2(BitLenTime)
    ensures MaskSequence == Shl64(Pow2(BitLenSequence) - 1, BitLenMachineID)
    ensures MaskMachineID == Pow2(BitLenMachineID) - 1
  {
    Pow2Values();
  }

  /** The value of an ID as a number: time, sequence and machine ID side by side. */
  function Layout(time: nat, sequence: nat, machineID: nat): (r: nat) {
    time * 0x100_0000 + sequence * 0x1_0000 + machineID
  }

  /** toID: packs the three fields, failing once the elapsed time needs more than 39 bits. */
  function ToID(elapsedTime: int, sequence: uint16, machineID: uint16): (r: Result<uint64>) {
    if elapsedTime >= TimeLimit then Err(OverTheTimeLimit)
    else Ok(Or64(Or64(Shl64(Uint64(elapsedTime), BitLenSequence + BitLenMachineID),
                      Shl64(sequence, BitLenMachineID)),
                 machineID))
  }

  /** elapsedTime: the time field of an ID (bits 24 and up). */
  function ElapsedTime(id: uint64): (r: uint64) {
    Shr64(id, BitLenSequence + BitLenMachineID)
  }

  /** SequenceNumber: the sequence field of an ID (bits 16 to 23). */
  function SequenceNumber(id: uint64): (r: uint64) {
    Shr64(And64(id, MaskSequence), BitLenMachineID)
  }

  /** MachineID: the machine-ID field of an ID (bits 0 to 15). */
  function MachineID(id: uint64): (r: uint64) {
    And64(id, MaskMachineID)
  }

  /** The most significant bit of an ID. */
  function Msb(id: uint64): (r: uint64) {
    Shr64(id, 63)
  }

  /** ElapsedTime: the time field as a time.Duration in nanoseconds (uint64 product, read as int64). */
  function ElapsedDuration(id: uint64): (r: int64) {
    Int64((ElapsedTime(id) * SonyflakeTimeUnit) % TWO64)
  }

  /** The parts Decompose reports, one field per key of its map. */
  datatype Parts = Parts(id: uint64, msb: uint64, time: uint64, sequence: uint64, machineID: uint64)

  /** Decompose: all parts of an ID. */
  function Decompose(id: uint64): (r: Parts) {
    Parts(id, Msb(id), ElapsedTime(id), SequenceNumber(id), MachineID(id))
  }

  /** The decoders read fixed bit ranges: each is a division and remainder by a power of two. */
  lemma DecodersAsArithmetic(id: uint64)
    ensures ElapsedTime(id) == id / 0x100_0000
    ensures SequenceNumber(id) == (id / 0x1_0000) % 0x100
    ensures MachineID(id) == id % 0x1_0000
    ensures Msb(id) == id / TWO63
  {
    assert ElapsedTime(id) == id / 0x100_0000 by {
      assert Pow2(24) == 0x100_0000 by { Pow2Values(); }
    }
    assert Msb(id) == id / TWO63 by {
      assert Pow2(63) == TWO63 by { Pow2Values(); }
    }
    assert MachineID(id) == id % 0x1_0000 by {
      assert Pow2(16) - 1 == MaskMachineID by { Pow2Values(); }
      AndLowMask(id, 16, 64);
    }
    SequenceNumberAsArithmetic(id);
  }

  /** The sequence decoder masks bits 16 to 23 and shifts them down. */
  lemma SequenceNumberAsArithmetic(id: uint64)
    ensures SequenceNumber(id) == (id / 0x1_0000) % 0x100
  {
    var y, z := id / 0x1_0000, id % 0x1_0000;
    var p := Pow2(16);
    assert p == 0x1_0000 && Pow2(8) - 1 == 255 by { Pow2Values(); }
    assert id == y * p + z && MaskSequence == 255 * p;
    AndShiftedMask(y, z, 255, 16, 64);
    var a := AndBits(y, 255, 48);
    assert And64(id, MaskSequence) == a * p;
    DivModUnique(a * p, p, a, 0);
    AndLowMask(y, 8, 48);
  }

  /** Every ID decomposes into fields within their widths; the unused bit is 0 exactly when the time fits 39 bits. */
  lemma DecomposeBounds(id: uint64)
    ensures var p := Decompose(id);
      && p.id == id && p.msb <= 1 && p.time < 0x100_0000_0000
      && p.sequence < 0x100 && p.machineID < 0x1_0000
      && (p.msb == 0 <==> p.time < TimeLimit)
  {
    DecodersAsArithmetic(id);
  }

  /**
   * toID fails exactly when the elapsed time reaches 2^39; otherwise the ID is
   * the fields laid side by side, and its unused top bit is 0.
   */
  lemma ToIDLayout(elapsedTime: int, sequence: uint16, machineID: uint16)
    requires 0 <= elapsedTime && sequence < 0x100
    ensures ToID(elapsedTime, sequence, machineID) ==
      if elapsedTime < TimeLimit then Ok(Layout(elapsedTime, sequence, machineID)) else Err(OverTheTimeLimit)
    ensures elapsedTime < TimeLimit ==> Layout(elapsedTime, sequence, machineID) < TWO63
  {
    if elapsedTime < TimeLimit {
      Pow2Values();
      var t, s, m := elapsedTime, sequence as nat, machineID as nat;
      assert Shl64(Uint64(t), 24) == t * Pow2(24);
      assert Shl64(s, 16) == s * Pow2(16);
      OrDisjoint(t, s * Pow2(16), 24, 64);
      var hi := t * 0x100 + s;
      assert hi * Pow2(16) == t * Pow2(24) + s * Pow2(16);
      OrDisjoint(hi, m, 16, 64);
    }
  }

  /** The fields of the number Layout(t, s, m) are read back by division and remainder. */
  lemma LayoutFields(t: nat, s: nat, m: nat)
    requires s < 0x100 && m < 0x1_0000
    ensures var id := Layout(t, s, m);
      id / 0x100_0000 == t && (id / 0x1_0000) % 0x100 == s && id % 0x1_0000 == m
  {
    var id := Layout(t, s, m);
    DivModUnique(id, 0x100_0000, t, s * 0x1_0000 + m);
    DivModUnique(id, 0x1_0000, t * 0x100 + s, m);
    DivModUnique(t * 0x100 + s, 0x100, t, s);
  }

  /** Round trip: decoding a generated ID gives back its fields, with the unused bit 0. */
  lemma DecodeToID(elapsedTime: int, sequence: uint16, machineID: uint16)
    requires 0 <= elapsedTime < TimeLimit && sequence < 0x100
    ensures ToID(elapsedTime, sequence, machineID).Ok?
    ensures Decompose(ToID(elapsedTime, sequence, machineID).value) ==
      Parts(ToID(elapsedTime, sequence, machineID).value, 0, elapsedTime, sequence, machineID)
  {
    ToIDLayout(elapsedTime, sequence, machineID);
    var id: uint64 := Layout(elapsedTime, sequence, machineID);
    DecodersAsArithmetic(id);
    LayoutFields(elapsedTime, sequence, machineID);
  }

  /** Round trip the other way: re-encoding the fields of any ID whose top bit is 0 gives that ID. */
  lemma ToIDOfDecoded(id: uint64)
    requires Msb(id) == 0
    ensures SequenceNumber(id) < 0x100 && MachineID(id) < 0x1_0000
    ensures ToID(ElapsedTime(id), SequenceNumber(id), MachineID(id)) == Ok(id)
  {
    DecodersAsArithmetic(id);
    var t, s, m := ElapsedTime(id), SequenceNumber(id), MachineID(id);
    ToIDLayout(t, s, m);
    var y := id / 0x1_0000;
    assert id == y * 0x1_0000 + m;
    assert y == (y / 0x100) * 0x100 + s;
    assert y / 0x100 == t by {
      DivModUnique(id, 0x100_0000, y / 0x100, s * 0x1_0000 + m);
    }
  }

  /** With the machine ID fixed, IDs are ordered exactly as their (time, sequence) pairs are, lexicographically. */
  lemma ToIDOrdered(t1: int, s1: uint16, t2: int, s2: uint16, machineID: uint16)
    requires 0 <= t1 < TimeLimit && s1 < 0x100 && 0 <= t2 < TimeLimit && s2 < 0x100
    ensures ToID(t1, s1, machineID).value < ToID(t2, s2, machineID).value <==> t1 < t2 || (t1 == t2 && s1 < s2)
  {
    ToIDLayout(t1, s1, machineID);
    ToIDLayout(t2, s2, machineID);
  }

  /** The Duration of a generated ID is its elapsed time in nanoseconds, with no wrap-around. */
  lemma ElapsedDurationOfToID(elapsedTime: int, sequence: uint16, machineID: uint16)
    requires 0 <= elapsedTime < TimeLimit && sequence < 0x100
    ensures ToID(elapsedTime, sequence, machineID).Ok?
    ensures ElapsedDuration(ToID(elapsedTime, sequence, machineID).value) == elapsedTime * SonyflakeTimeUnit
  {
    DecodeToID(elapsedTime, sequence, machineID);
    var d := elapsedTime * SonyflakeTimeUnit;
    MulLe(elapsedTime, TimeLimit, SonyflakeTimeUnit);
    assert 0 <= d < TWO63;
    DivModUnique(d, TWO64, 0, d);
  }

  /**
   * For every ID whose time part times 10^7 ns reaches 2^63, the uint64
   * product does not wrap (the time part is below 2^40) but, read as a
   * Duration, it is negative.
   */
  lemma ElapsedDurationWraps(id: uint64)
    requires ElapsedTime(id) * SonyflakeTimeUnit >= TWO63
    ensures ElapsedDuration(id) < 0
  {
    DecodersAsArithmetic(id);
    var d := ElapsedTime(id) * SonyflakeTimeUnit;
    MulLe(ElapsedTime(id), 0x100_0000_0000, SonyflakeTimeUnit);
    DivModUnique(d, TWO64, 0, d);
  }
}
