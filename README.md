# ThermaQ BLE protocol decoder, modelled in Dafny

ThermaQ Blue-class thermometers are dual-channel thermocouple devices made by
ETI Ltd. They expose their state as Bluetooth Low Energy GATT characteristics
in a reverse-engineered binary format. `app.py` reads these characteristics
and decodes them. This project models the byte-level decoding: every piece is
a total, stateless function from a byte buffer to a record or an enumeration.

- `bytes.dfy` (module `Bytes`): bytes, unsigned 32-bit words, and the
  little-endian word that `struct.unpack('<f', ...)` reads from four bytes,
  with its inverse.
- `bits.dfy` (module `Bits`): single bits of a number, and how a run of low
  bits relates to the remainder modulo a power of two.
- `binary32.dfy` (module `Binary32`): the sign, exponent and significand
  fields of an IEEE 754 binary32 float (section 3.4 of IEEE 754-2008). It also
  defines the NaN test on those fields. Two independent forms of the test are
  proved equal to it: one read bit by bit, and one read straight off the four
  wire bytes.
- `classifiers.dfy` (module `Classifiers`): `getProbeType`,
  `getNotificationType` and `getCommandType`, their printed names, and the
  wire codes. The string `getProbeType(i, d)` returns is
  `ProbeTypeName(GetProbeType(i, d))`, the string `getNotificationType(d)`
  returns is `NotificationName(GetNotificationType(d))`, and the list
  `getCommandType(d)` returns is
  `[WireCode(GetCommandType(d)), CommandName(GetCommandType(d))]`.
- `packets.dfy` (module `Packets`): the five fixed-layout packets decoded in
  `main`. These are the device configuration (7 bytes), a channel
  configuration (20 bytes), a channel reading (4 bytes), the trim record (14
  bytes) and the command/notification pair (2 bytes). The record packets
  have an encoder, and round-trip lemmas in both directions show that the
  fields are disjoint and cover the packet. A reading has no encoder of its
  own: `Bytes.LeBytes` plays that part, since the contracts of
  `Packets.Channel1Reading` and `Packets.Channel2Reading` say a temperature
  carries exactly the four bytes it was read from.

Float fields stay raw 32-bit words. Python's `round(x, 2)` keeps a NaN a NaN
and never turns a float into one, so the "Disabled" and "No Probe" decisions
depend only on the NaN test of the word.

Buffer lengths are preconditions. The Python never checks a length: indexing
raises `IndexError` and `struct.unpack` raises `struct.error`. Each decoder
therefore requires what the Python needs:
- at least 7 bytes for the device configuration, which indexes up to 6;
- at least 8 bytes for a channel configuration, because both floats need
  bytes 0..8 but the name slice `[8:20]` is simply cut short on a shorter
  buffer;
- exactly 4 bytes for a reading, because the whole buffer is unpacked as one
  float;
- at least 14 bytes for the trim record, which indexes up to 13;
- at least 2 bytes for the command/notification pair.

Notes on the comments in app.py (the model follows the code):
- The comment at app.py:70-71 says the high nibble is reached by shifting
  left; the code shifts right.
- The comment at app.py:76-79 numbers the probe types from 0; the code tests
  for 1 and 2, so nibble 0 is "Unknown".
- The example byte 17 (0001 0001) in the comment at app.py:72-73 holds nibble
  1 for both channels. The code therefore reports a pluggable K-type probe on
  both channels (`Classifiers.ProbeTypeExamples`).

## Model

| member | source | states |
|---|---|---|
| `Bytes.LeWord` | app.py:265 | the word read from four bytes has the first byte as its low 8 bits and the last byte as its high 8 bits |
| `Bytes.LeWordOfLeBytes` | app.py:265 | encoding any 32-bit word into four little-endian bytes and reading it back gives the word |
| `Bytes.LeBytesOfLeWord` | app.py:265 | reading four bytes as a word and re-encoding gives the same four bytes |
| `Bytes.LeWordInjective` | app.py:265 | two 4-byte buffers give the same word iff they are equal |
| `Binary32.Pack` | app.py:267 | a word built from a sign bit, biased exponent and significand returns those three fields |
| `Binary32.PackFields` | app.py:267 | sign, exponent and significand together make up the whole word |
| `Binary32.IsNaN` | app.py:222-230 | `math.isnan` on a float's bits: the word without its sign bit lies above the infinity 0x7F800000 |
| `Binary32.IsNaNOfLeWord` | app.py:265-267 | the NaN test on the assembled word (exponent all ones and significand nonzero) agrees with the test read off the four bytes |
| `Binary32.IsNaNMatchesBits` | app.py:267 | the NaN test on the fields (exponent 255, significand nonzero) holds iff bits 23..30 are all one and some bit of 0..22 is one |
| `Binary32.IsNaNIgnoresSign` | app.py:267 | NaN-ness does not depend on the sign bit, and holds iff the exponent is 255 and the significand nonzero |
| `Binary32.QuietNaNAndInfinity` | app.py:267 | 0x7FC00000 (bytes 00 00 C0 7F) is a NaN; the infinity 0x7F800000 is not |
| `Classifiers.ProbeNibble` | app.py:74-85 | the selected nibble is always in 0..15 |
| `Classifiers.GetProbeType` | app.py:67-90 | pluggable K-type iff the selected nibble is 1, fixed K-type iff it is 2, unknown otherwise (0 included) |
| `Classifiers.ProbeTypeName` | app.py:86-90 | the returned string is "Unknown" iff the probe type is unknown |
| `Classifiers.ProbeTypeNamesDistinct` | app.py:86-90 | the three probe types have pairwise distinct names |
| `Classifiers.ProbeNibblesOfPacked` | app.py:68-85 | in a packed byte, index 0 reads the low nibble and index 1 the high nibble, so the channels do not interfere |
| `Classifiers.ProbeNibbleIsShiftAndMask` | app.py:74-85 | on a byte, the arithmetic nibble equals the shift-right-by-4 and mask-with-15 of the bits |
| `Classifiers.ProbeTypeExamples` | app.py:72-73 | byte 17 is pluggable on both channels, 0x21 is fixed on channel 2, 0 is unknown on both |
| `Classifiers.GetNotificationType` | app.py:93-114 | the result is the unknown notification iff the code is 6 or outside 0..8 |
| `Classifiers.NotificationCodeRoundTrip` | app.py:93-114 | each of the nine notifications decodes from its code, and a code decodes back to itself iff it is in 0..8 |
| `Classifiers.NotificationName` | app.py:94-114 | the returned string is "UNKNOWN NOTIFICATION" iff the notification is the unknown one |
| `Classifiers.NotificationNamesDistinct` | app.py:95-114 | the nine notifications have pairwise distinct names |
| `Classifiers.GetCommandType` | app.py:117-127 | the result is no command iff the byte is outside 0..3 |
| `Classifiers.WireCode` | app.py:118-127 | the list's first element is a multiple of 16 in 0..64, and 0 iff there is no command |
| `Classifiers.CommandName` | app.py:118-127 | the list's second element is "None" iff there is no command |
| `Classifiers.WireCodeOfCommandByte` | app.py:117-127 | the wire code of command byte d is 16 * (d + 1) for d in 0..3 and 0 otherwise |
| `Classifiers.WireCodesDistinct` | app.py:118-127 | wire code 0 iff no command; wire codes and names are pairwise distinct |
| `Classifiers.CommandByteRoundTrip` | app.py:117-127 | every command decodes from its byte, and bytes 0..3 decode back to themselves |
| `Packets.DecodeDeviceConfig` | app.py:176-183 | channel 2 is enabled iff byte 5 is nonzero |
| `Packets.DeviceConfigRoundTrip` | app.py:176-183 | every device configuration survives encoding then decoding, so each field has its own offset |
| `Packets.DeviceConfigCoversPacket` | app.py:176-183 | decoding then re-encoding a buffer of at least 7 bytes gives back its first 7 bytes, except byte 5, which becomes 0 or 1 |
| `Packets.UnitOf` | app.py:185-193 | Celsius iff byte 0 is 0, Fahrenheit iff it is 1, unknown otherwise |
| `Packets.AutoPowerOffOf` | app.py:199-203 | power-off is disabled iff byte 3 is 0, and otherwise it carries byte 3 as the minutes |
| `Packets.Channel1ProbeType` | app.py:209 | channel 1's probe type depends only on the low nibble of byte 6 |
| `Packets.Channel2ProbeType` | app.py:210-211 | channel 2's probe type is reported iff channel 2 is enabled, and comes from the high nibble of byte 6 |
| `Packets.DecodeChannelConfig` | app.py:215-221 | on every buffer of at least 8 bytes, alarm-high is the word of bytes 0..4, alarm-low the word of bytes 4..8, and the name is bytes 8..20, cut short at the end of a shorter buffer |
| `Packets.ChannelConfigRoundTrip` | app.py:216-221 | any two alarm words and 12-byte name survive encoding then decoding, so the three fields do not overlap |
| `Packets.ChannelConfigCoversPacket` | app.py:216-221 | decoding then re-encoding a 20-byte buffer gives it back, so the fields cover all 20 bytes |
| `Packets.AlarmOf` | app.py:222-230 | an alarm is disabled iff its word is a NaN, and otherwise it keeps the word |
| `Packets.AlarmsOfBuffer` | app.py:216-230 | alarm-high is disabled iff bytes 0..4 are a NaN pattern, and alarm-low iff bytes 4..8 are |
| `Packets.Channel1Reading` | app.py:263-271 | never disabled; no probe iff the four bytes are a NaN pattern; otherwise the value carries exactly those bytes |
| `Packets.Channel2Reading` | app.py:274-284 | disabled iff channel 2 is disabled, whatever the payload; otherwise no probe iff NaN, else the value of those bytes |
| `Packets.EnabledChannel2ReadsLikeChannel1` | app.py:265-284 | an enabled channel 2 is classified exactly as channel 1 |
| `Packets.QuietNaNIsNoProbe` | app.py:265-284 | the bytes 00 00 C0 7F read as no probe, or as disabled when channel 2 is off |
| `Packets.DecodeTrim` | app.py:287-298 | offsets are bytes 0..4 and 7..11, and date bytes are 4, 5, 6 and 11, 12, 13 |
| `Packets.TrimRoundTrip` | app.py:290-298 | every trim record survives encoding then decoding, so the six regions are disjoint |
| `Packets.TrimCoversPacket` | app.py:290-298 | decoding then re-encoding a 14-byte buffer gives it back, so the six regions cover it |
| `Packets.DecodeCommandNotification` | app.py:303-312 | the command is none iff byte 0 > 3, and the notification is unknown iff byte 1 is 6 or > 8 |
| `Packets.CommandNotificationRoundTrip` | app.py:306-312 | every (command, notification) pair survives encoding then decoding, and a packet survives decoding then encoding iff byte 0 <= 4 and byte 1 <= 8 |
| `Packets.CommandAndNotificationIndependent` | app.py:306-312 | the command depends only on byte 0 and the notification only on byte 1 |
| `Packets.CommandNotificationExamples` | app.py:306-312 | 00 07 gives (Measure, Checkpoint), and 03 0A gives (Factory Reset, unknown notification) |

## Left out

- BLE transport: connecting, reading and writing characteristics, notification handlers, scanning and dumping services (app.py:134-171, 314-369). These are I/O and concurrency. The decoders take the bytes a read would return.
- The device `ADDRESS` chosen by platform (app.py:13-17), the standard-service UUIDs built from bleak's `uuid16_dict` (app.py:19-53) and the literal custom-service UUIDs (app.py:55-64). These are connection constants with no decoding logic, and `uuid16_dict` is a table from a foreign library.
- The standard text characteristics and the battery level (app.py:151-171). The text characteristics are converted byte by byte with `chr` (a Latin-1 reading) and printed, and the battery level is byte 0 printed as a percentage. Neither involves a packet layout.
- Float values: `struct.unpack('<f')` as a number, `decodeTemp`, `round(..., 2)` and `auto_power_off/60` (app.py:130-131, 203, 218-221, 265-266, 291, 297). These are floating point. Floats stay raw 32-bit words, and only the bit-level NaN test is modelled.
- UTF-8 decoding of a channel's name with `bytes.decode()` (app.py:217, 241). This is a library call. The name is kept as its raw byte slice, and a name that is not valid UTF-8 (which raises in the Python) is not modelled.
- All printing and string formatting. This includes the unit symbols, the "Diabled" spelling and the "a/b/c" date format. Only the classification outcomes and the names the three classifier functions return are kept.
- Other firmware formats: a big-endian fixed-point reading and a trim record without dates. Neither occurs in app.py, so neither is modelled.
- Channel 2's configuration (app.py:239-260). It is decoded by the same code as channel 1's, so `Packets.DecodeChannelConfig` covers both.
