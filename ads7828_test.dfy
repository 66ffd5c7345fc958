/** The unit test's view of the driver: a mock I2C device that decodes the
    command byte it is sent, and the enumeration of bus addresses the test
    checks against the list of valid ones.
 */
module HalTest {
  import opened JavaInt
  import opened Hal

  /** The channel the mock reads out of a command byte: `(b >> 4) & 0x7`,
      on `b` promoted to `int`. */
  function SelectedChannel(b: bv8): (c: bv32)
    ensures c < 8
  {
    ShiftRight(Widen(b), 4) & 0x7
  }

  /** The reference select the mock reads out of a command byte:
      `(b >> 3) & 0x1` (0 external, 1 internal). */
  function SelectedVref(b: bv8): (v: bv32)
    ensures v <= 1
  {
    ShiftRight(Widen(b), 3) & 0x1
  }

  /** The mock recovers the channel and the reference select from every
      command byte the driver builds, although the byte is negative in Java
      and the shifts copy its sign bit: the masks remove those copies. */
  lemma {:induction false} MockDecodesCommand(channel: bv8, usingIntRef: bv8)
    requires channel < 8 && usingIntRef <= 1
    ensures SelectedChannel(CommandByte(channel, usingIntRef)) == channel as bv32
    ensures SelectedVref(CommandByte(channel, usingIntRef)) == usingIntRef as bv32
  {
    var cmd := CommandByte(channel, usingIntRef);
    assert Widen(cmd) == 0xFFFF_FF00 | cmd as bv32;
    ShiftRightMasked(Widen(cmd));
    assert (Widen(cmd) >> 4) & 0x7 == (cmd as bv32 >> 4) & 0x7;
    assert (Widen(cmd) >> 3) & 0x1 == (cmd as bv32 >> 3) & 0x1;
  }

  /** Helper: the bits the mock keeps after its shifts are the same whether
      the shift copies the sign bit or not. */
  lemma ShiftRightMasked(x: bv32)
    ensures ShiftRight(x, 4) & 0x7 == (x >> 4) & 0x7
    ensures ShiftRight(x, 3) & 0x1 == (x >> 3) & 0x1
  {
    var s1 := ShiftRightOne(x);
    var s2 := ShiftRightOne(s1);
    var s3 := ShiftRightOne(s2);
    var s4 := ShiftRightOne(s3);
    assert ShiftRight(x, 1) == s1;
    assert ShiftRight(x, 2) == s2;
    assert ShiftRight(x, 3) == s3;
    assert ShiftRight(x, 4) == s4;
    ShiftRightOneMasked(x);
  }

  lemma ShiftRightOneMasked(x: bv32)
    ensures ShiftRightOne(ShiftRightOne(ShiftRightOne(ShiftRightOne(x)))) & 0x7 == (x >> 4) & 0x7
    ensures ShiftRightOne(ShiftRightOne(ShiftRightOne(x))) & 0x1 == (x >> 3) & 0x1
  {
  }

  /** Seen by the mock, the commands of one poll select channels 0 to 7 in
      turn, each with the driver's reference select. */
  lemma {:induction false} PollSelectsChannelsInOrder(usingIntRef: bv8, bus: seq<Exchange>)
    requires usingIntRef <= 1 && |bus| == NUM_CHANNELS
    ensures |Commands(PollOps(usingIntRef, bus, NUM_CHANNELS))| == NUM_CHANNELS
    ensures forall k :: 0 <= k < NUM_CHANNELS ==>
              SelectedChannel(Commands(PollOps(usingIntRef, bus, NUM_CHANNELS))[k]) == k as bv32 &&
              SelectedVref(Commands(PollOps(usingIntRef, bus, NUM_CHANNELS))[k]) == usingIntRef as bv32
  {
    PollCommandsAscending(usingIntRef, bus, NUM_CHANNELS);
    var cmds := Commands(PollOps(usingIntRef, bus, NUM_CHANNELS));
    forall k | 0 <= k < NUM_CHANNELS
      ensures SelectedChannel(cmds[k]) == k as bv32 && SelectedVref(cmds[k]) == usingIntRef as bv32
    {
      ChannelCommandsAt(usingIntRef, NUM_CHANNELS, k);
      MockDecodesCommand(k as bv8, usingIntRef);
    }
  }

  class MockI2CDevice {
    /** What the mock ADC would convert on each channel. */
    const sensorReadings: array<Short>
    /** The bus address it answers `getAddress()` with. */
    const address: int
    /** The channel selected by the last command byte. */
    var chSel: bv32
    /** The reference selected by the last command byte. */
    var vrefSel: bv32

    /** A mock at `addr` with channel 0 and the external reference selected
        and every channel converting 1234. */
    constructor (addr: int)
      ensures address == addr && chSel == 0 && vrefSel == 0
      ensures fresh(sensorReadings)
      ensures sensorReadings[..] == seq(NUM_CHANNELS, _ => 1234)
    {
      address := addr;
      chSel := 0;
      vrefSel := 0;
      var readings := new Short[NUM_CHANNELS];
      var i := 0;
      while i < NUM_CHANNELS
        invariant 0 <= i <= NUM_CHANNELS
        invariant forall k :: 0 <= k < i ==> readings[k] == 1234
      {
        readings[i] := 1234;
        i := i + 1;
      }
      sensorReadings := readings;
    }

    /** Receives a command byte: selects the channel and the reference it
        encodes; the address and the sensor readings stay as they were. */
    method Write(b: bv8)
      modifies this
      ensures chSel == SelectedChannel(b) && vrefSel == SelectedVref(b)
      ensures sensorReadings[..] == old(sensorReadings[..])
    {
      chSel := SelectedChannel(b);
      vrefSel := SelectedVref(b);
    }
  }

  /** The addresses the test lists as valid, MSB-aligned. */
  const VALID_ADDRESSES: seq<int> := [0x90, 0x92, 0x94, 0x96]

  /** The test's addresses are MSB-aligned: none of them meets the driver's
      7-bit address precondition itself, but each one shifted right by one
      does.  A mock whose `getAddress()` gives one of them therefore does
      not meet the constructor's precondition. */
  lemma AlignedAddressesAreNotSevenBit(addr8: int)
    requires addr8 in VALID_ADDRESSES
    ensures !ValidAddress(addr8) && ValidAddress(addr8 / 2)
  {
  }

  /** The address test as written: the even values below 0x100 are tried
      in ascending order, and an address is a failure when construction
      succeeds although the list does not hold it, or fails although the
      list holds it.  The first failure ends the test, because the
      `AssertionError` it raises is not a `RuntimeException` and escapes the
      catch.  The constructor contains no check, so construction always
      succeeds: the very first address, 0x00, fails and no other is tried. */
  method TestInvalidSensorAddrAsWritten() returns (failures: seq<int>)
    ensures failures == [0x00]
  {
    var validAddresses: seq<int> := [];
    validAddresses := validAddresses + [0x90];
    validAddresses := validAddresses + [0x92];
    validAddresses := validAddresses + [0x94];
    validAddresses := validAddresses + [0x96];

    failures := [];
    var addr := 0;
    while addr < 0x100 && failures == []
      invariant 0 <= addr <= 0x100 && addr % 2 == 0
      invariant validAddresses == VALID_ADDRESSES
      invariant failures == [] <==> addr == 0
      invariant addr > 0 ==> failures == [0x00]
    {
      var admitted := true;
      if admitted != (addr in validAddresses) {
        failures := failures + [addr];
      }
      addr := addr + 2;
    }
  }

  /** The address test with the check the test expects the constructor to
      make: construction is taken to succeed exactly when the 7-bit address
      precondition holds of the MSB-aligned address shifted right by one
      (`ValidAlignedAddress`).  As in the test, the first failure would end
      the loop; none occurs, so every even address below 0x100 is tried. */
  method TestInvalidSensorAddr() returns (failures: seq<int>)
    ensures failures == []
  {
    var validAddresses: seq<int> := [];
    validAddresses := validAddresses + [0x90];
    validAddresses := validAddresses + [0x92];
    validAddresses := validAddresses + [0x94];
    validAddresses := validAddresses + [0x96];

    failures := [];
    var addr := 0;
    while addr < 0x100 && failures == []
      invariant 0 <= addr <= 0x100 && addr % 2 == 0
      invariant validAddresses == VALID_ADDRESSES
      invariant failures == []
    {
      var admitted := ValidAlignedAddress(addr);
      if admitted != (addr in validAddresses) {
        failures := failures + [addr];
      }
      addr := addr + 2;
    }
  }
}
