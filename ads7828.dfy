/** The ADS7828 driver: an 8-channel, 12-bit analog-to-digital converter
    reached over I2C.

    A transaction writes one command byte (single-ended input, channel,
    reference select, power-down bits) and reads two bytes back.  The driver
    keeps the last reading of every channel in an 8-slot buffer that `Poll`
    refreshes; -1 stands for "no valid sample".

    The I2C transport is not modelled: what the device does in one
    transaction is an `Exchange` given to the method as a parameter, and the
    bus operations the driver issues are returned as a trace of `BusOp`s.
 */
module Hal {
  import opened JavaInt

  /** Number of input channels (`NUM_CHANNELS`). */
  const NUM_CHANNELS: nat := 8

  /** The reading that stands for "never sampled" or "transaction failed". */
  const SENTINEL: Short := -1

  // ---------------------------------------------------------------------
  // Device address
  // ---------------------------------------------------------------------

  /** A 7-bit address of the pattern 0b10010XY, where X and Y are the
      levels of the A1 and A0 pins. */
  predicate ValidAddress(addr: int)
  {
    0 <= addr < 0x80 && addr / 4 == 0x12  // 0x12 == 0b10010
  }

  /** The pattern admits exactly four addresses, 0x48 to 0x4B. */
  lemma ValidAddressExactly(addr: int)
    ensures ValidAddress(addr) <==> addr in {0x48, 0x49, 0x4A, 0x4B}
  {
  }

  /** An address given MSB-aligned in one byte, the lowest bit (the R/W bit)
      clear, as the unit test enumerates them. */
  predicate ValidAlignedAddress(addr8: int)
  {
    0 <= addr8 < 0x100 && addr8 % 2 == 0 && ValidAddress(addr8 / 2)
  }

  /** Exactly 0x90, 0x92, 0x94 and 0x96 are valid aligned addresses. */
  lemma ValidAlignedAddressExactly(addr8: int)
    ensures ValidAlignedAddress(addr8) <==> addr8 in {0x90, 0x92, 0x94, 0x96}
  {
    ValidAddressExactly(addr8 / 2);
  }

  // ---------------------------------------------------------------------
  // Command byte
  // ---------------------------------------------------------------------

  /** The command byte's layout: bit 7 single-ended input, bits 6..4 the
      channel, bit 3 the internal reference, bit 2 "stay powered on",
      bits 1..0 clear. */
  function CommandByte(channel: bv8, usingIntRef: bv8): (cmd: bv8)
    requires channel < 8 && usingIntRef <= 1
    ensures cmd >= 0x80
  {
    0x80 | (channel << 4) | (usingIntRef << 3) | 0x04
  }

  /** Each field of the command byte holds what the layout says. */
  lemma CommandByteFields(channel: bv8, usingIntRef: bv8)
    requires channel < 8 && usingIntRef <= 1
    ensures (CommandByte(channel, usingIntRef) >> 7) & 1 == 1
    ensures (CommandByte(channel, usingIntRef) >> 4) & 7 == channel
    ensures (CommandByte(channel, usingIntRef) >> 3) & 1 == usingIntRef
    ensures (CommandByte(channel, usingIntRef) >> 2) & 1 == 1
    ensures CommandByte(channel, usingIntRef) & 3 == 0
  {
  }

  /** The 16 (channel, reference) pairs give 16 distinct command bytes. */
  lemma {:induction false} CommandByteInjective(c1: bv8, r1: bv8, c2: bv8, r2: bv8)
    requires c1 < 8 && r1 <= 1 && c2 < 8 && r2 <= 1
    ensures CommandByte(c1, r1) == CommandByte(c2, r2) <==> c1 == c2 && r1 == r2
  {
    CommandByteFields(c1, r1);
    CommandByteFields(c2, r2);
  }

  /** As a Java `byte` the command is negative: -128 + 16 * channel
      + 8 * reference + 4. */
  lemma CommandByteValue(channel: bv8, usingIntRef: bv8)
    requires channel < 8 && usingIntRef <= 1
    ensures ByteValue(CommandByte(channel, usingIntRef))
            == -0x80 + 16 * channel as int + 8 * usingIntRef as int + 4
  {
    var cmd := CommandByte(channel, usingIntRef);
    assert cmd == 0x84 + channel * 16 + usingIntRef * 8;
    assert cmd as int == 0x84 + channel as int * 16 + usingIntRef as int * 8 by {
      BytePartsValue(channel, usingIntRef);
    }
  }

  /** Helper: the unsigned value of 0x84 + 16 c + 8 r, without wrap-around. */
  lemma BytePartsValue(c: bv8, r: bv8)
    requires c < 8 && r <= 1
    ensures (0x84 + c * 16 + r * 8) as int == 0x84 + c as int * 16 + r as int * 8
  {
    assert 0x84 + c * 16 + r * 8 == (0x84 + c * 16 + r * 8) as bv8;
  }

  // ---------------------------------------------------------------------
  // Decoding the two bytes read back
  // ---------------------------------------------------------------------

  /** `(short) ((rawReading[0] << 8) | rawReading[1])`: both bytes are
      promoted to `int` with sign extension before the shift and the `|`. */
  function Decode(hi: bv8, lo: bv8): (reading: Short)
  {
    ShortValue(NarrowToShort((Widen(hi) << 8) | Widen(lo)))
  }

  /** With the low byte in [0, 127] the high byte lands in bits 15..8:
      the reading is hi * 256 + lo. */
  lemma {:induction false} DecodeNonNegativeLow(hi: bv8, lo: bv8)
    requires lo < 0x80
    ensures Decode(hi, lo) == ByteValue(hi) * 0x100 + ByteValue(lo)
  {
    DecodeWordNonNegativeLow(hi, lo);
    WordValue(hi, lo);
  }

  /** Helper: with lo below 0x80 the 16-bit word is hi followed by lo. */
  lemma DecodeWordNonNegativeLow(hi: bv8, lo: bv8)
    requires lo < 0x80
    ensures NarrowToShort((Widen(hi) << 8) | Widen(lo)) == ((hi as bv16) << 8) | (lo as bv16)
  {
  }

  /** Helper: the number a 16-bit word denotes whose two bytes are hi and
      lo, when lo is below 0x80. */
  lemma WordValue(hi: bv8, lo: bv8)
    requires lo < 0x80
    ensures ShortValue(((hi as bv16) << 8) | (lo as bv16)) == ByteValue(hi) * 0x100 + ByteValue(lo)
  {
    var w := ((hi as bv16) << 8) | (lo as bv16);
    assert w as int == hi as int * 0x100 + lo as int;
    assert (w < 0x8000) == (hi < 0x80);
  }

  /** The 12-bit promise: a high byte in [0, 15] and a low byte in [0, 127]
      give a reading in [0, 4095]. */
  lemma {:induction false} DecodeTwelveBit(hi: bv8, lo: bv8)
    requires hi < 0x10 && lo < 0x80
    ensures 0 <= Decode(hi, lo) < 0x1000
    ensures Decode(hi, lo) == hi as int * 0x100 + lo as int
  {
    DecodeNonNegativeLow(hi, lo);
  }

  /** With the low byte in [-128, -1] its sign extension covers the high
      byte: the reading is the low byte's own (negative) value, whatever the
      high byte. */
  lemma {:induction false} DecodeNegativeLow(hi: bv8, lo: bv8)
    requires lo >= 0x80
    ensures Decode(hi, lo) == ByteValue(lo)
    ensures -0x80 <= Decode(hi, lo) < 0
  {
    DecodeWordNegativeLow(hi, lo);
    var w: bv16 := 0xFF00 | (lo as bv16);
    assert w as int == 0xFF00 + lo as int;
  }

  /** Helper: with lo at or above 0x80 the 16-bit word is lo sign-extended. */
  lemma DecodeWordNegativeLow(hi: bv8, lo: bv8)
    requires lo >= 0x80
    ensures NarrowToShort((Widen(hi) << 8) | Widen(lo)) == 0xFF00 | (lo as bv16)
  {
  }

  /** A decoded reading is -1 exactly when the low byte is 0xFF: such a
      sample cannot be told apart from the failure sentinel. */
  lemma {:induction false} DecodeSentinel(hi: bv8, lo: bv8)
    ensures Decode(hi, lo) == SENTINEL <==> lo == 0xFF
  {
    if lo < 0x80 {
      DecodeNonNegativeLow(hi, lo);
    } else {
      DecodeNegativeLow(hi, lo);
    }
  }

  /** The decode as written breaks the 12-bit promise: the device's code
      384, sent as bytes 0x01 and 0x80, reads as -128. */
  lemma DecodeSignExtensionCounterexample()
    ensures Decode(0x01, 0x80) == -128
    ensures IntendedDecode(0x01, 0x80) == 384
  {
    DecodeNegativeLow(0x01, 0x80);
  }

  /** The evidently intended decode: the 12-bit code held in the low nibble
      of the first byte and all of the second, read as unsigned. */
  function IntendedDecode(hi: bv8, lo: bv8): (reading: int)
    ensures 0 <= reading < 0x1000
  {
    (hi & 0x0F) as int * 0x100 + lo as int
  }

  /** Where the device sends a 12-bit code with the low byte below 0x80,
      the decode as written and the intended one agree. */
  lemma {:induction false} IntendedDecodeAgrees(hi: bv8, lo: bv8)
    requires hi < 0x10 && lo < 0x80
    ensures Decode(hi, lo) == IntendedDecode(hi, lo)
  {
    DecodeTwelveBit(hi, lo);
    assert hi & 0x0F == hi;
  }

  /** The decode as written equals the intended one exactly on 12-bit
      replies whose low byte is below 0x80: every other byte pair is read
      wrongly. */
  lemma {:induction false} IntendedDecodeAgreesExactly(hi: bv8, lo: bv8)
    ensures Decode(hi, lo) == IntendedDecode(hi, lo) <==> hi < 0x10 && lo < 0x80
  {
    if lo >= 0x80 {
      DecodeNegativeLow(hi, lo);
    } else if hi < 0x10 {
      IntendedDecodeAgrees(hi, lo);
    } else {
      DecodeNonNegativeLow(hi, lo);
    }
  }

  /** The intended decode recovers every 12-bit code the device can send,
      split into its high nibble and its low byte. */
  lemma {:induction false} IntendedDecodeRoundTrip(code: int)
    requires 0 <= code < 0x1000
    ensures IntendedDecode((code / 0x100) as bv8, (code % 0x100) as bv8) == code
  {
    var hi := (code / 0x100) as bv8;
    var lo := (code % 0x100) as bv8;
    assert hi as int == code / 0x100 && lo as int == code % 0x100;
    LowNibbleKept(hi);
  }

  /** Helper: masking a byte below 0x10 with 0x0F keeps it as it is. */
  lemma LowNibbleKept(h: bv8)
    requires h < 0x10
    ensures h & 0x0F == h
  {
  }

  // ---------------------------------------------------------------------
  // One transaction: write the command byte, read two bytes
  // ---------------------------------------------------------------------

  /** What the device does in reply to the two-byte read: it fails, or it
      fills the buffer `rawReading[0], rawReading[1]`. */
  datatype ReadReply = ReadFailed | ReadOk(b0: bv8, b1: bv8)

  /** The outcome of one transaction on the bus: whether the command write
      succeeded, and what the read that follows it returns. */
  datatype Exchange = Exchange(writeOk: bool, reply: ReadReply)

  /** The bus operations the driver issues. */
  datatype BusOp = Write(b: bv8) | Read(count: nat)

  /** The reading a transaction yields: the sentinel when either step fails,
      otherwise the decoded pair of bytes. */
  function Reading(ex: Exchange): (reading: Short)
  {
    if !ex.writeOk then SENTINEL
    else match ex.reply
      case ReadFailed => SENTINEL
      case ReadOk(b0, b1) => Decode(b0, b1)
  }

  /** The bus operations of a transaction: the command write, and a 2-byte
      read only when the write succeeded. */
  function TransactionOps(cmd: bv8, ex: Exchange): (ops: seq<BusOp>)
  {
    if ex.writeOk then [Write(cmd), Read(2)] else [Write(cmd)]
  }

  /** A transaction yields the sentinel exactly when the write fails, the
      read fails, or the low byte read is 0xFF. */
  lemma {:induction false} ReadingSentinel(ex: Exchange)
    ensures Reading(ex) == SENTINEL
            <==> !ex.writeOk || ex.reply.ReadFailed? || ex.reply.b1 == 0xFF
  {
    if ex.writeOk && ex.reply.ReadOk? {
      DecodeSentinel(ex.reply.b0, ex.reply.b1);
    }
  }

  /** A device that answers with a 12-bit code (high byte in [0, 15], low
      byte in [0, 127]) gives that code as the reading. */
  lemma {:induction false} ReadingTwelveBit(ex: Exchange)
    requires ex.writeOk && ex.reply.ReadOk?
    requires ex.reply.b0 < 0x10 && ex.reply.b1 < 0x80
    ensures Reading(ex) == ex.reply.b0 as int * 0x100 + ex.reply.b1 as int
    ensures 0 <= Reading(ex) < 0x1000
  {
    DecodeTwelveBit(ex.reply.b0, ex.reply.b1);
  }

  // ---------------------------------------------------------------------
  // The poll cycle
  // ---------------------------------------------------------------------

  /** The buffer contents after a poll in which channel i's transaction had
      outcome `bus[i]`. */
  function PollReadings(bus: seq<Exchange>): (rs: seq<Short>)
    requires |bus| == NUM_CHANNELS
    ensures |rs| == NUM_CHANNELS
  {
    seq(NUM_CHANNELS, i requires 0 <= i < NUM_CHANNELS => Reading(bus[i]))
  }

  /** The bus operations of the first n channels of a poll, channel 0 first. */
  function PollOps(usingIntRef: bv8, bus: seq<Exchange>, n: nat): (ops: seq<BusOp>)
    requires usingIntRef <= 1 && n <= |bus| && n <= NUM_CHANNELS
  {
    if n == 0 then []
    else PollOps(usingIntRef, bus, n - 1)
         + TransactionOps(CommandByte((n - 1) as bv8, usingIntRef), bus[n - 1])
  }

  /** The command bytes written, in order, in a trace of bus operations. */
  function Commands(ops: seq<BusOp>): (cmds: seq<bv8>)
  {
    if ops == [] then []
    else Commands(ops[..|ops| - 1])
         + (match ops[|ops| - 1] case Write(b) => [b] case Read(_) => [])
  }

  /** Commands distributes over concatenation. */
  lemma {:induction false} CommandsAppend(a: seq<BusOp>, b: seq<BusOp>)
    ensures Commands(a + b) == Commands(a) + Commands(b)
    decreases |b|
  {
    if b != [] {
      var b' := b[..|b| - 1];
      assert (a + b)[..|a + b| - 1] == a + b';
      CommandsAppend(a, b');
    } else {
      assert a + b == a;
    }
  }

  /** The commands of channels 0 .. n-1, in that order. */
  function ChannelCommands(usingIntRef: bv8, n: nat): (cmds: seq<bv8>)
    requires usingIntRef <= 1 && n <= NUM_CHANNELS
    ensures |cmds| == n
  {
    if n == 0 then [] else ChannelCommands(usingIntRef, n - 1) + [CommandByte((n - 1) as bv8, usingIntRef)]
  }

  /** Position k of ChannelCommands holds channel k's command. */
  lemma {:induction false} ChannelCommandsAt(usingIntRef: bv8, n: nat, k: nat)
    requires usingIntRef <= 1 && k < n <= NUM_CHANNELS
    ensures ChannelCommands(usingIntRef, n)[k] == CommandByte(k as bv8, usingIntRef)
  {
    if k < n - 1 {
      ChannelCommandsAt(usingIntRef, n - 1, k);
    }
  }

  /** A poll writes exactly one command per channel, for channels 0, 1,
      ... in ascending order, all with the same reference select. */
  lemma {:induction false} PollCommandsAscending(usingIntRef: bv8, bus: seq<Exchange>, n: nat)
    requires usingIntRef <= 1 && n <= |bus| && n <= NUM_CHANNELS
    ensures Commands(PollOps(usingIntRef, bus, n)) == ChannelCommands(usingIntRef, n)
  {
    if n > 0 {
      PollCommandsAscending(usingIntRef, bus, n - 1);
      var cmd := CommandByte((n - 1) as bv8, usingIntRef);
      CommandsAppend(PollOps(usingIntRef, bus, n - 1), TransactionOps(cmd, bus[n - 1]));
      TransactionCommands(cmd, bus[n - 1]);
    }
  }

  /** A transaction writes exactly its command byte. */
  lemma TransactionCommands(cmd: bv8, ex: Exchange)
    ensures Commands(TransactionOps(cmd, ex)) == [cmd]
  {
    assert [Write(cmd)][..0] == [];
    assert Commands([Write(cmd)]) == [cmd];
    if ex.writeOk {
      assert [Write(cmd), Read(2)][..1] == [Write(cmd)];
      assert Commands([Write(cmd), Read(2)]) == Commands([Write(cmd)]) + [];
    }
  }

  /** A channel whose transaction fails reads -1 after the poll; the others
      hold what their own transactions returned. */
  lemma PollIsolatesFailures(bus: seq<Exchange>, failed: nat)
    requires |bus| == NUM_CHANNELS && failed < NUM_CHANNELS
    requires !bus[failed].writeOk || bus[failed].reply.ReadFailed?
    ensures PollReadings(bus)[failed] == SENTINEL
    ensures forall i :: 0 <= i < NUM_CHANNELS && i != failed ==>
              PollReadings(bus)[i] == Reading(bus[i])
  {
  }

  /** A slot depends on its own channel's transaction only: two polls whose
      channel i fared alike leave the same value in slot i, however the
      other channels fared. */
  lemma PollSlotIndependent(bus1: seq<Exchange>, bus2: seq<Exchange>, i: nat)
    requires |bus1| == NUM_CHANNELS && |bus2| == NUM_CHANNELS && i < NUM_CHANNELS
    requires bus1[i] == bus2[i]
    ensures PollReadings(bus1)[i] == PollReadings(bus2)[i]
  {
  }

  /** When every channel's device answers with a 12-bit code, the poll
      leaves each slot holding its own channel's code, in [0, 4095]. */
  lemma {:induction false} PollTwelveBit(bus: seq<Exchange>)
    requires |bus| == NUM_CHANNELS
    requires forall i :: 0 <= i < NUM_CHANNELS ==>
               bus[i].writeOk && bus[i].reply.ReadOk? &&
               bus[i].reply.b0 < 0x10 && bus[i].reply.b1 < 0x80
    ensures forall i :: 0 <= i < NUM_CHANNELS ==>
              PollReadings(bus)[i] == bus[i].reply.b0 as int * 0x100 + bus[i].reply.b1 as int &&
              0 <= PollReadings(bus)[i] < 0x1000
  {
    forall i | 0 <= i < NUM_CHANNELS
      ensures PollReadings(bus)[i] == bus[i].reply.b0 as int * 0x100 + bus[i].reply.b1 as int
      ensures 0 <= PollReadings(bus)[i] < 0x1000
    {
      ReadingTwelveBit(bus[i]);
    }
  }

  // ---------------------------------------------------------------------
  // The driver object
  // ---------------------------------------------------------------------

  /** The I2C device handle the driver was built on. */
  datatype I2CDevice = I2CDevice(address: int)

  class ADS7828 {
    /** The I2C handle; never reassigned. */
    const i2c: I2CDevice
    /** 1 selects the internal 2.5 V reference, 0 an external one. */
    var usingIntRef: bv8
    /** The most recent reading of each channel. */
    const channelReadings: array<Short>

    ghost predicate Valid()
      reads this
    {
      channelReadings.Length == NUM_CHANNELS && usingIntRef <= 1
    }

    /** Builds a driver on a device whose address has the ADS7828 pattern;
        the internal reference is selected and no channel has a reading. */
    constructor (dev: I2CDevice)
      requires ValidAddress(dev.address)
      ensures Valid() && fresh(channelReadings)
      ensures i2c == dev && usingIntRef == 1
      ensures channelReadings[..] == seq(NUM_CHANNELS, _ => SENTINEL)
      ensures forall c: bv8 :: c < NUM_CHANNELS as bv8 ==> GetChannelReading(c) == SENTINEL
    {
      i2c := dev;
      usingIntRef := 1;
      var readings := new Short[NUM_CHANNELS];
      var i := 0;
      while i < NUM_CHANNELS
        invariant 0 <= i <= NUM_CHANNELS
        invariant forall k :: 0 <= k < i ==> readings[k] == SENTINEL
      {
        readings[i] := SENTINEL;
        i := i + 1;
      }
      channelReadings := readings;
    }

    /** Selects the internal (true) or an external (false) reference for the
        transactions that follow; nothing else changes. */
    method SetUsingIntRef(useIntRef: bool)
      requires Valid()
      modifies this
      ensures Valid()
      ensures usingIntRef == if useIntRef then 1 else 0
      ensures channelReadings[..] == old(channelReadings[..])
    {
      usingIntRef := if useIntRef then 1 else 0;
    }

    /** One transaction on `channel`: builds the command byte as Java does,
        writes it, then reads two bytes and decodes them.  Only the low three
        bits of `channel` reach the command byte. */
    method PerformReadChannel(channel: bv8, ex: Exchange) returns (r: Short, ops: seq<BusOp>)
      requires Valid()
      ensures r == Reading(ex)
      ensures ops == TransactionOps(CommandByte(channel & 7, usingIntRef), ex)
    {
      var commandByte: bv8;
      commandByte := NarrowToByte(1 << 7);
      commandByte := NarrowToByte(Widen(commandByte) | (Widen(channel) << 4));
      commandByte := NarrowToByte(Widen(commandByte) | (Widen(usingIntRef) << 3));
      commandByte := NarrowToByte(Widen(commandByte) | (1 << 2));
      assert commandByte == CommandByte(channel & 7, usingIntRef);

      ops := [Write(commandByte)];
      if !ex.writeOk {
        return SENTINEL, ops;
      }

      ops := ops + [Read(2)];
      match ex.reply {
        case ReadFailed =>
          return SENTINEL, ops;
        case ReadOk(b0, b1) =>
          r := Decode(b0, b1);
      }
    }

    /** The last reading stored for `channel`; no bus operation. */
    function GetChannelReading(channel: bv8): (r: Short)
      requires Valid() && channel < NUM_CHANNELS as bv8
      reads this, channelReadings
      ensures r == channelReadings[channel as int]
    {
      channelReadings[channel]
    }

    /** Refreshes every slot: one transaction per channel in ascending
        order, `bus[i]` being channel i's outcome; a failed channel only
        sets its own slot to -1. */
    method Poll(bus: seq<Exchange>) returns (ops: seq<BusOp>)
      requires Valid() && |bus| == NUM_CHANNELS
      modifies channelReadings
      ensures Valid()
      ensures channelReadings[..] == PollReadings(bus)
      ensures forall c: bv8 :: c < NUM_CHANNELS as bv8 ==> GetChannelReading(c) == Reading(bus[c])
      ensures ops == PollOps(usingIntRef, bus, NUM_CHANNELS)
    {
      ops := [];
      var i: bv8 := 0;
      while i < NUM_CHANNELS as bv8
        invariant i <= NUM_CHANNELS as bv8
        invariant forall k :: 0 <= k < i as int ==> channelReadings[k] == Reading(bus[k])
        invariant ops == PollOps(usingIntRef, bus, i as int)
      {
        var r, o := PerformReadChannel(i, bus[i]);
        assert i & 7 == i;
        channelReadings[i] := r;
        ops := ops + o;
        i := i + 1;
      }
    }
  }
}
