# ADS7828 driver model

A Dafny model of the flight computer's ADS7828 driver. The ADS7828 is an
8-channel, 12-bit analog-to-digital converter reached over I2C. The model
also covers the parts of its unit test that state something about the
driver: the mock device's command decoder and the address enumeration.

- `java_int.dfy` (module `JavaInt`) models Java's integral types.
  A `byte`, `short` or `int` is its two's-complement bit pattern (`bv8`,
  `bv16`, `bv32`). `Widen` is the sign-extending promotion of a `byte` to
  `int`. `NarrowToByte` and `NarrowToShort` are the `(byte)` and `(short)`
  casts. `ShiftRight` is Java's arithmetic `>>`, written as the one-bit
  shift applied n times. `ByteValue`, `ShortValue` and `IntValue` give the
  signed number a pattern denotes. Each conversion and the shift is
  specified by what it does to that number, after sections 5.1.2, 5.1.3
  and 15.19 of the Java Language Specification.
- `ads7828.dfy` (module `Hal`) holds the driver:
  - the address pattern `0b10010XY`;
  - the command-byte layout;
  - the decode of the two bytes read back;
  - one write-then-read transaction;
  - the poll cycle;
  - the class `ADS7828`. It has the `usingIntRef` field, the I2C handle
    and the 8-slot `channelReadings` array. Its methods update the array
    in place, as the Java does.
- `ads7828_test.dfy` (module `HalTest`) holds the test's `MockI2CDevice`
  as a class. It also holds the functions for its `(b >> 4) & 0x7` and
  `(b >> 3) & 0x1` decoding, and the loop of `testInvalidSensorAddr`.

The transport is an oracle. An `Exchange` says whether the command write
succeeded and what the 2-byte read returned (`ReadFailed` or
`ReadOk(b0, b1)`). `PerformReadChannel` takes one `Exchange`. `Poll` takes
eight, the i-th being channel i's. Both return the bus operations they
issue as a trace of `Write(cmd)` and `Read(2)`. The trace is how the
contracts say that no read follows a failed write, and that channels are
visited in ascending order.

Where the code and its comments disagree, the model follows the code:

- The constructor's comment makes a valid address a precondition, and the
  constructor checks nothing. So `ADS7828.constructor` *requires*
  `ValidAddress` and has no failure path. The unit test expects a
  `RuntimeException` for every other address, which this constructor never
  throws. The test's addresses are MSB-aligned 8-bit values, while
  `ValidAddress` is about 7-bit ones: `ValidAddress(0x90)` is false.
  A mock whose `getAddress()` is 0x90, 0x92, 0x94 or 0x96 therefore does
  not meet the constructor's precondition (`AlignedAddressesAreNotSevenBit`).
  `TestInvalidSensorAddrAsWritten` runs the loop with a constructor that
  always succeeds. As in the test, the first failure ends the loop: the
  `AssertionError` of `Assert.fail` is not a `RuntimeException` and escapes
  the catch. So address 0x00 fails and no other address is tried.
  `TestInvalidSensorAddr` runs it with the 7-bit precondition applied to
  addr / 2 (`ValidAlignedAddress`) as the check the test expects. It proves
  that among the even values below 0x100 that check admits exactly the
  test's list {0x90, 0x92, 0x94, 0x96}. See "## Findings".
- The decode promises a 12-bit reading. As written, the call
  `(short)((rawReading[0] << 8) | rawReading[1])` sign-extends the low
  byte. A low byte in 0x80..0xFF therefore gives that byte's negative value
  and loses the high byte (`DecodeNegativeLow`). For example, bytes
  0x01, 0x80 read as -128. Bytes 0x0F, 0xFF read as -1, which cannot be
  told apart from the failure sentinel (`DecodeSentinel`,
  `ReadingSentinel`). The 12-bit promise holds when the low byte is below
  0x80 (`DecodeTwelveBit`, `ReadingTwelveBit`, `PollTwelveBit`). The
  driver is modelled as written; `IntendedDecode` is the unsigned decode
  the comment promises (see "## Findings").
- `performReadChannel` accepts any `byte` channel. `channel << 4` is ORed
  into a byte whose bit 7 is already set, so only the channel's low three
  bits reach the command. `PerformReadChannel` states this as
  `CommandByte(channel & 7, usingIntRef)`.

## Model

| member | source | states |
|---|---|---|
| `JavaInt.Widen` | src/org/rocketproplab/marginalstability/flightcomputer/hal/ADS7828.java:104-107 | the promotion of a `byte` operand to `int` keeps its signed value |
| `JavaInt.NarrowToByte` | src/org/rocketproplab/marginalstability/flightcomputer/hal/ADS7828.java:104-107 | the `(byte)` cast keeps the value of every `int` that fits in a byte |
| `JavaInt.WidenNarrowRoundTrip` | src/org/rocketproplab/marginalstability/flightcomputer/hal/ADS7828.java:104-107 | casting a promoted byte back to `byte` gives the original byte |
| `JavaInt.NarrowToShort` | src/org/rocketproplab/marginalstability/flightcomputer/hal/ADS7828.java:133 | the `(short)` cast keeps the value of every `int` that fits in a short |
| `JavaInt.ShiftRight` | test/org/rocketproplab/marginalstability/flightcomputer/hal/ADS7828Test.java:50-53 | Java's `>>` by n below 32 divides the signed value by 2^n, rounding towards minus infinity |
| `JavaInt.ShiftRightOneValue` | test/org/rocketproplab/marginalstability/flightcomputer/hal/ADS7828Test.java:50-53 | the one-bit arithmetic shift halves the signed value, rounding down |
| `Hal.ValidAddress` | src/org/rocketproplab/marginalstability/flightcomputer/hal/ADS7828.java:38-45 | definition: a 7-bit address of the form 0b10010XY; `ValidAddressExactly` lists its four values |
| `Hal.ValidAddressExactly` | src/org/rocketproplab/marginalstability/flightcomputer/hal/ADS7828.java:38-45 | the 7-bit pattern 0b10010XY admits exactly 0x48, 0x49, 0x4A and 0x4B |
| `Hal.ValidAlignedAddress` | test/org/rocketproplab/marginalstability/flightcomputer/hal/ADS7828Test.java:149-151 | definition: an even byte below 0x100 whose upper seven bits form a valid address, as the test enumerates them; `ValidAlignedAddressExactly` lists its four values |
| `Hal.ValidAlignedAddressExactly` | test/org/rocketproplab/marginalstability/flightcomputer/hal/ADS7828Test.java:140-151 | an even byte with R/W bit clear is a valid MSB-aligned address iff it is 0x90, 0x92, 0x94 or 0x96 |
| `Hal.CommandByte` | src/org/rocketproplab/marginalstability/flightcomputer/hal/ADS7828.java:103-107 | the command layout always has bit 7 (single-ended input) set |
| `Hal.CommandByteFields` | src/org/rocketproplab/marginalstability/flightcomputer/hal/ADS7828.java:103-107 | bit 7 is 1, bits 6..4 are the channel, bit 3 the reference select, bit 2 is 1, bits 1..0 are 0 |
| `Hal.CommandByteInjective` | src/org/rocketproplab/marginalstability/flightcomputer/hal/ADS7828.java:103-107 | two (channel, reference) pairs give the same byte iff they are equal: 16 distinct commands |
| `Hal.CommandByteValue` | src/org/rocketproplab/marginalstability/flightcomputer/hal/ADS7828.java:103-107 | as a Java byte the command is -128 + 16·channel + 8·reference + 4, always negative |
| `Hal.Decode` | src/org/rocketproplab/marginalstability/flightcomputer/hal/ADS7828.java:133 | definition: the decode as written, the two promoted bytes ORed after an 8-bit shift of the first, cast to `short`; the lemmas below give its value for every byte pair |
| `Hal.DecodeNonNegativeLow` | src/org/rocketproplab/marginalstability/flightcomputer/hal/ADS7828.java:133 | with the low byte in [0, 127] the reading is hi·256 + lo, hi taken signed |
| `Hal.DecodeTwelveBit` | src/org/rocketproplab/marginalstability/flightcomputer/hal/ADS7828.java:94-95 | high byte in [0, 15] and low byte in [0, 127] give hi·256 + lo, within [0, 4095] |
| `Hal.DecodeNegativeLow` | src/org/rocketproplab/marginalstability/flightcomputer/hal/ADS7828.java:132-133 | with the low byte negative the reading is that byte's value, in [-128, -1], whatever the high byte |
| `Hal.DecodeSignExtensionCounterexample` | src/org/rocketproplab/marginalstability/flightcomputer/hal/ADS7828.java:94-95 | the device's code 384, sent as bytes 0x01 and 0x80, decodes to -128, while the intended decode gives 384 |
| `Hal.IntendedDecode` | src/org/rocketproplab/marginalstability/flightcomputer/hal/ADS7828.java:94-95 | the promised decode: the result is always a 12-bit reading in [0, 4095] |
| `Hal.IntendedDecodeAgrees` | src/org/rocketproplab/marginalstability/flightcomputer/hal/ADS7828.java:133 | with the high byte in [0, 15] and the low byte below 0x80 the decode as written equals the intended one |
| `Hal.IntendedDecodeAgreesExactly` | src/org/rocketproplab/marginalstability/flightcomputer/hal/ADS7828.java:133 | the decode as written equals the intended one iff the high byte is in [0, 15] and the low byte below 0x80 |
| `Hal.IntendedDecodeRoundTrip` | src/org/rocketproplab/marginalstability/flightcomputer/hal/ADS7828.java:94-95 | every 12-bit code, split into its high nibble and low byte, is recovered by the intended decode |
| `Hal.DecodeSentinel` | src/org/rocketproplab/marginalstability/flightcomputer/hal/ADS7828.java:132-133 | a decoded reading is -1 iff the low byte is 0xFF |
| `Hal.Reading` | src/org/rocketproplab/marginalstability/flightcomputer/hal/ADS7828.java:109-134 | definition: the value one transaction returns, -1 on a failed write or read and the decoded bytes otherwise; `ReadingSentinel` and `ReadingTwelveBit` characterise it |
| `Hal.TransactionOps` | src/org/rocketproplab/marginalstability/flightcomputer/hal/ADS7828.java:109-124 | definition: a transaction writes its command byte and issues the 2-byte read only if the write succeeded; `TransactionCommands` states its command |
| `Hal.ReadingSentinel` | src/org/rocketproplab/marginalstability/flightcomputer/hal/ADS7828.java:109-134 | a transaction yields -1 iff the write fails, the read fails, or the low byte is 0xFF |
| `Hal.ReadingTwelveBit` | src/org/rocketproplab/marginalstability/flightcomputer/hal/ADS7828.java:123-134 | a successful transaction whose device sends a 12-bit code yields that code, within [0, 4095] |
| `Hal.TransactionCommands` | src/org/rocketproplab/marginalstability/flightcomputer/hal/ADS7828.java:109-124 | a transaction writes exactly one command byte, whether the read follows or not |
| `Hal.PollReadings` | src/org/rocketproplab/marginalstability/flightcomputer/hal/ADS7828.java:157-161 | the buffer a poll leaves, eight slots, slot i being channel i's transaction reading |
| `Hal.PollOps` | src/org/rocketproplab/marginalstability/flightcomputer/hal/ADS7828.java:157-161 | definition: the trace of a poll's first n channels, transactions appended in ascending channel order; `PollCommandsAscending` states its commands |
| `Hal.ChannelCommandsAt` | src/org/rocketproplab/marginalstability/flightcomputer/hal/ADS7828.java:158-159 | the k-th command of the cycle is channel k's command |
| `Hal.PollCommandsAscending` | src/org/rocketproplab/marginalstability/flightcomputer/hal/ADS7828.java:157-161 | the commands a poll writes are those of channels 0..7 in ascending order, one each |
| `Hal.PollIsolatesFailures` | src/org/rocketproplab/marginalstability/flightcomputer/hal/ADS7828.java:157-161 | after a poll a failed channel holds -1 and every other slot holds its own transaction's reading |
| `Hal.PollSlotIndependent` | src/org/rocketproplab/marginalstability/flightcomputer/hal/ADS7828.java:157-161 | slot i after a poll depends on channel i's transaction alone: buses that agree at i leave the same slot i |
| `Hal.PollTwelveBit` | src/org/rocketproplab/marginalstability/flightcomputer/hal/ADS7828.java:157-161 | if every channel's device sends a 12-bit code, every slot holds its own channel's code, within [0, 4095] |
| `Hal.ADS7828.constructor` | src/org/rocketproplab/marginalstability/flightcomputer/hal/ADS7828.java:47-58 | requires a valid address; afterwards the handle is the one given, `usingIntRef` is 1, the new 8-slot buffer is all -1, and `GetChannelReading` gives -1 on every channel ("uninitialized") |
| `Hal.ADS7828.SetUsingIntRef` | src/org/rocketproplab/marginalstability/flightcomputer/hal/ADS7828.java:73-75 | `usingIntRef` becomes 1 iff the argument is true; the buffer and the handle are untouched; it stays 0 or 1 |
| `Hal.ADS7828.PerformReadChannel` | src/org/rocketproplab/marginalstability/flightcomputer/hal/ADS7828.java:97-135 | the chain of Java or-assignments writes the layout's byte for channel & 7 and the current reference; the read happens only after a successful write; the result is the exchange's reading, -1 on either failure |
| `Hal.ADS7828.GetChannelReading` | src/org/rocketproplab/marginalstability/flightcomputer/hal/ADS7828.java:136-148 | returns the channel's stored slot, issuing no bus operation; with the constructor's and `Poll`'s ensures, that is -1 before any poll and channel c's last transaction reading (-1 on error) after one |
| `Hal.ADS7828.Poll` | src/org/rocketproplab/marginalstability/flightcomputer/hal/ADS7828.java:157-161 | slot i becomes the reading of channel i's transaction for all eight channels, and `GetChannelReading(c)` then returns it; the trace is the eight transactions in ascending order; the invariant is kept |
| `HalTest.SelectedChannel` | test/org/rocketproplab/marginalstability/flightcomputer/hal/ADS7828Test.java:50 | the mock's channel decode lies in [0, 7] for every byte, negative ones included |
| `HalTest.SelectedVref` | test/org/rocketproplab/marginalstability/flightcomputer/hal/ADS7828Test.java:53 | the mock's reference decode is 0 or 1 for every byte |
| `HalTest.MockDecodesCommand` | test/org/rocketproplab/marginalstability/flightcomputer/hal/ADS7828Test.java:48-54 | decoding the driver's command byte recovers its channel and its reference select, despite Java's sign-copying shift |
| `HalTest.PollSelectsChannelsInOrder` | src/org/rocketproplab/marginalstability/flightcomputer/hal/ADS7828.java:157-161 | seen by the mock, the eight commands of a poll select channels 0..7 in turn, all with the driver's reference |
| `HalTest.MockI2CDevice.constructor` | test/org/rocketproplab/marginalstability/flightcomputer/hal/ADS7828Test.java:26-41 | the mock has the given address, `chSel` and `vrefSel` are 0, and all 8 sensor readings are 1234 |
| `HalTest.MockI2CDevice.Write` | test/org/rocketproplab/marginalstability/flightcomputer/hal/ADS7828Test.java:48-54 | sets `chSel` and `vrefSel` to the byte's decoded fields; the address and the sensor readings are unchanged |
| `HalTest.AlignedAddressesAreNotSevenBit` | test/org/rocketproplab/marginalstability/flightcomputer/hal/ADS7828Test.java:140-151 | each listed address fails the constructor's 7-bit precondition, and meets it once shifted right by one |
| `HalTest.TestInvalidSensorAddrAsWritten` | test/org/rocketproplab/marginalstability/flightcomputer/hal/ADS7828Test.java:136-169 | with construction always succeeding, the test stops at its first failure, address 0x00, and records no other: the failures are exactly [0x00] |
| `HalTest.TestInvalidSensorAddr` | test/org/rocketproplab/marginalstability/flightcomputer/hal/ADS7828Test.java:136-169 | with the 7-bit precondition applied to addr / 2 as the constructor's check, the check and the test's list agree on every even address 0..254: no failure |

## Left out

- The pi4j I2C transport is left out. An `Exchange` oracle stands for what the device does in one transaction.
- The repeated-start timing question (ADS7828.java:118-120) is left out.
- The `System.err` messages and `printStackTrace` calls on I/O errors only print diagnostics, so they are left out.
- Exceptions in general are left out; an I/O failure appears only as a failed step in the `Exchange`.
- The driver ignores the byte count that `I2CDevice.read` returns. A short read leaves zeros in `rawReading`. The oracle's `ReadOk(b0, b1)` carries the buffer as the read left it, so a short read is an oracle reply with zero bytes.
- The `PollingSensor` interface and whoever calls `poll()` on a cadence are not part of this model.
- `Vector3` is left out: it holds only floating-point fields.
- Conversion of codes to volts and differential input mode are left out: the driver implements neither.
- Concurrent calls of `setUsingIntRef` during a poll are left out, because the model is sequential.
- The mock's other `write`, `read` and `ioctl` overloads are left out. They only call `Assert.fail` or return -1. The empty `testSomething` is left out too.
- `getAddress()` has no member of its own. The mock's `address` is a `const` that the constructor sets from its argument.
- JavaInt.ShiftRight: requires a distance below 32. Java masks the distance to its low five bits; the driver's test only shifts by 3 and 4.
- Hal.ADS7828.GetChannelReading: requires a channel in [0, 7]. Java throws `ArrayIndexOutOfBoundsException` outside that range, and exceptions are not modelled.
- HalTest.TestInvalidSensorAddr: the test expects the constructor to throw for an invalid address. The constructor never throws, so this member stands the 7-bit precondition applied to addr / 2 (`ValidAlignedAddress`) in for the check; `TestInvalidSensorAddrAsWritten` is the loop against the constructor as it is.

## Findings

| source | as written | input that shows it | evidently intended | confidence | as-written member | corrected member |
|---|---|---|---|---|---|---|
| src/org/rocketproplab/marginalstability/flightcomputer/hal/ADS7828.java:133 | ORing the promoted bytes before the `(short)` cast sign-extends the low byte, so a low byte of 0x80..0xFF overwrites the high byte | bytes 0x01, 0x80 (code 384) read as -128 | the 12-bit unsigned code `(hi & 0x0F) * 256 + (lo & 0xFF)`, in [0, 4095] | not executed | `Hal.DecodeSignExtensionCounterexample` | `Hal.IntendedDecode` |
| test/org/rocketproplab/marginalstability/flightcomputer/hal/ADS7828Test.java:155-167 | the test expects the constructor to throw for every address outside the list, but the constructor (ADS7828.java:47-58) checks nothing | address 0x00: construction succeeds and the test fails there | the constructor rejects an address unless the 7-bit pattern holds of addr / 2 | not executed | `HalTest.TestInvalidSensorAddrAsWritten` | `HalTest.TestInvalidSensorAddr` |
