/** The fixed-layout characteristic values `main` in app.py decodes: the
    device configuration, a channel's alarm and name configuration, a
    channel's temperature reading, the trim (calibration) record and the
    command/notification pair. Each decoder reads fields purely by position;
    floats stay 32-bit words (see `Binary32`). Each decoder requires what the
    Python needs to avoid an `IndexError` or `struct.error`: a buffer long
    enough for the highest index it reads, and exactly four bytes where the
    whole buffer goes to `struct.unpack('<f', ...)`. Each record packet has an
    encoder, and the round-trip lemmas say which bytes every field owns. */
module Packets {
  import opened Bytes
  import opened Binary32
  import opened Classifiers

  datatype Option<T> = None | Some(value: T)

  // ---------------------------------------------------------------------
  // Device configuration, 7 bytes

  /** The device configuration as read off the characteristic: the two
      bytes of unknown meaning are kept, and byte 5 is already a bool. */
  datatype DeviceConfig = DeviceConfig(
    tempUnit: byte,
    measurementInterval: byte,
    unknownByte1: byte,
    autoPowerOff: byte,
    unknownByte2: byte,
    channel2Enabled: bool,
    probeType: byte)

  const DeviceConfigLength: nat := 7

  function DecodeDeviceConfig(s: seq<byte>): (c: DeviceConfig)
    requires |s| >= DeviceConfigLength
    ensures c.channel2Enabled <==> s[5] != 0
  {
    DeviceConfig(s[0], s[1], s[2], s[3], s[4], s[5] != 0, s[6])
  }

  function EncodeDeviceConfig(c: DeviceConfig): (s: seq<byte>)
    ensures |s| == DeviceConfigLength
  {
    [c.tempUnit, c.measurementInterval, c.unknownByte1, c.autoPowerOff,
     c.unknownByte2, if c.channel2Enabled then 1 else 0, c.probeType]
  }

  /** Every field sits at its own offset: any configuration survives
      encoding and decoding. */
  lemma DeviceConfigRoundTrip(c: DeviceConfig)
    ensures DecodeDeviceConfig(EncodeDeviceConfig(c)) == c
  {}

  /** The seven fields cover the first seven bytes: re-encoding a decoded
      buffer gives those bytes back, except byte 5, which comes back as 0 or
      1; bytes after the seventh are never read. */
  lemma DeviceConfigCoversPacket(s: seq<byte>)
    requires |s| >= DeviceConfigLength
    ensures EncodeDeviceConfig(DecodeDeviceConfig(s))
         == s[..DeviceConfigLength][5 := if s[5] == 0 then 0 else 1]
    ensures s[5] <= 1 ==> EncodeDeviceConfig(DecodeDeviceConfig(s)) == s[..DeviceConfigLength]
  {}

  datatype TempUnit = Celsius | Fahrenheit | UnknownUnit

  /** Byte 0: 0 is degrees Celsius, 1 Fahrenheit, anything else unknown. */
  function UnitOf(c: DeviceConfig): (u: TempUnit)
    ensures u == Celsius <==> c.tempUnit == 0
    ensures u == Fahrenheit <==> c.tempUnit == 1
  {
    if c.tempUnit == 0 then Celsius
    else if c.tempUnit == 1 then Fahrenheit
    else UnknownUnit
  }

  datatype AutoPowerOff = PowerOffDisabled | AfterMinutes(minutes: nat)

  /** Byte 3: 0 switches automatic power-off off, otherwise the minutes. */
  function AutoPowerOffOf(c: DeviceConfig): (a: AutoPowerOff)
    ensures a == PowerOffDisabled <==> c.autoPowerOff == 0
    ensures a.AfterMinutes? ==> a.minutes == c.autoPowerOff
  {
    if c.autoPowerOff == 0 then PowerOffDisabled else AfterMinutes(c.autoPowerOff)
  }

  /** Channel 1's probe type comes from the low nibble of byte 6. */
  function Channel1ProbeType(c: DeviceConfig): (p: ProbeType)
    ensures p == GetProbeType(0, c.probeType % 16)
  {
    GetProbeType(0, c.probeType)
  }

  /** Channel 2's probe type, from the high nibble of byte 6, is reported
      only while channel 2 is enabled. */
  function Channel2ProbeType(c: DeviceConfig): (p: Option<ProbeType>)
    ensures p.None? <==> !c.channel2Enabled
    ensures p.Some? ==> p.value == GetProbeType(0, c.probeType / 16)
  {
    if c.channel2Enabled then Some(GetProbeType(1, c.probeType)) else None
  }

  // ---------------------------------------------------------------------
  // Channel configuration, 20 bytes

  /** A channel's configuration: the raw words of the two alarm floats and
      the bytes of the name. */
  datatype ChannelConfig = ChannelConfig(alarmHigh: word, alarmLow: word, name: seq<byte>)

  const ChannelConfigLength: nat := 20
  const NameLength: nat := 12

  /** Alarm-high is bytes 0..4, alarm-low bytes 4..8 and the name the slice
      `[8:20]`, which Python cuts short on a shorter buffer; the two floats
      need all of bytes 0..8. */
  function DecodeChannelConfig(s: seq<byte>): (c: ChannelConfig)
    requires |s| >= 8
    ensures |c.name| == if |s| < ChannelConfigLength then |s| - 8 else NameLength
    ensures c.name == s[8..if |s| < ChannelConfigLength then |s| else ChannelConfigLength]
    ensures LeBytes(c.alarmHigh) == s[0..4] && LeBytes(c.alarmLow) == s[4..8]
  {
    LeBytesOfLeWord(s[0..4]);
    LeBytesOfLeWord(s[4..8]);
    ChannelConfig(LeWord(s[0..4]), LeWord(s[4..8]),
                  s[8..if |s| < ChannelConfigLength then |s| else ChannelConfigLength])
  }

  function EncodeChannelConfig(c: ChannelConfig): (s: seq<byte>)
    requires |c.name| == NameLength
    ensures |s| == ChannelConfigLength
  {
    LeBytes(c.alarmHigh) + LeBytes(c.alarmLow) + c.name
  }

  /** The two alarms and the 12-byte name do not overlap: any configuration
      survives encoding and decoding. */
  lemma ChannelConfigRoundTrip(c: ChannelConfig)
    requires |c.name| == NameLength
    ensures DecodeChannelConfig(EncodeChannelConfig(c)) == c
  {
    var s := EncodeChannelConfig(c);
    assert s[0..4] == LeBytes(c.alarmHigh);
    assert s[4..8] == LeBytes(c.alarmLow);
    assert s[8..ChannelConfigLength] == c.name;
    LeWordOfLeBytes(c.alarmHigh);
    LeWordOfLeBytes(c.alarmLow);
  }

  /** Together the three fields cover all 20 bytes. */
  lemma ChannelConfigCoversPacket(s: seq<byte>)
    requires |s| == ChannelConfigLength
    ensures EncodeChannelConfig(DecodeChannelConfig(s)) == s
  {
    LeBytesOfLeWord(s[0..4]);
    LeBytesOfLeWord(s[4..8]);
    assert s == s[0..4] + s[4..8] + s[8..ChannelConfigLength];
  }

  datatype Alarm = AlarmDisabled | AlarmAt(bits: word)

  /** An alarm threshold is disabled when its float is NaN (`round` keeps a
      NaN a NaN and any other float a non-NaN). */
  function AlarmOf(bits: word): (a: Alarm)
    ensures a == AlarmDisabled <==> IsNaN(bits)
    ensures a.AlarmAt? ==> a.bits == bits
  {
    if IsNaN(bits) then AlarmDisabled else AlarmAt(bits)
  }

  /** Read off the buffer: each alarm is disabled exactly when its own four
      bytes hold a NaN, whatever the other alarm and the name hold. */
  lemma AlarmsOfBuffer(s: seq<byte>)
    requires |s| >= 8
    ensures AlarmOf(DecodeChannelConfig(s).alarmHigh) == AlarmDisabled <==> IsNaNBytes(s[0..4])
    ensures AlarmOf(DecodeChannelConfig(s).alarmLow) == AlarmDisabled <==> IsNaNBytes(s[4..8])
  {
    IsNaNOfLeWord(s[0..4]);
    IsNaNOfLeWord(s[4..8]);
  }

  // ---------------------------------------------------------------------
  // Channel readings, 4 bytes

  const ReadingLength: nat := 4

  datatype Reading = Disabled | NoProbe | Temperature(bits: word)

  /** Channel 1's reading: a NaN means no probe is plugged in; the channel
      is never reported as disabled. */
  function Channel1Reading(s: seq<byte>): (r: Reading)
    requires |s| == ReadingLength
    ensures r != Disabled
    ensures r == NoProbe <==> IsNaNBytes(s)
    ensures r.Temperature? ==> s == LeBytes(r.bits)
  {
    IsNaNOfLeWord(s);
    LeBytesOfLeWord(s);
    var bits := LeWord(s);
    if IsNaN(bits) then NoProbe else Temperature(bits)
  }

  /** Channel 2's reading: disabled whenever channel 2 is disabled in the
      device configuration, whatever the payload; otherwise as channel 1.
      The payload is unpacked first either way, so it must be 4 bytes. */
  function Channel2Reading(channel2Enabled: bool, s: seq<byte>): (r: Reading)
    requires |s| == ReadingLength
    ensures r == Disabled <==> !channel2Enabled
    ensures r == NoProbe <==> channel2Enabled && IsNaNBytes(s)
    ensures r.Temperature? ==> s == LeBytes(r.bits)
  {
    IsNaNOfLeWord(s);
    LeBytesOfLeWord(s);
    var bits := LeWord(s);
    if !channel2Enabled then Disabled
    else if IsNaN(bits) then NoProbe
    else Temperature(bits)
  }

  /** An enabled channel 2 is read exactly like channel 1. */
  lemma EnabledChannel2ReadsLikeChannel1(s: seq<byte>)
    requires |s| == ReadingLength
    ensures Channel2Reading(true, s) == Channel1Reading(s)
  {}

  /** The quiet NaN 7FC00000, sent least significant byte first, reads as
      "no probe" on channel 1 and on an enabled channel 2. */
  lemma QuietNaNIsNoProbe()
    ensures Channel1Reading([0x00, 0x00, 0xC0, 0x7F]) == NoProbe
    ensures Channel2Reading(true, [0x00, 0x00, 0xC0, 0x7F]) == NoProbe
    ensures Channel2Reading(false, [0x00, 0x00, 0xC0, 0x7F]) == Disabled
  {}

  // ---------------------------------------------------------------------
  // Trim record, 14 bytes

  /** The three bytes printed as `a/b/c` after a channel's trim. */
  datatype TrimDate = TrimDate(day: byte, month: byte, year: byte)

  datatype ChannelTrim = ChannelTrim(offset: word, dateSet: TrimDate)

  datatype Trim = Trim(channel1: ChannelTrim, channel2: ChannelTrim)

  const TrimLength: nat := 14

  /** Channel 1: offset float in bytes 0..4, date in bytes 4, 5, 6;
      channel 2: offset float in bytes 7..11, date in bytes 11, 12, 13. */
  function DecodeTrim(s: seq<byte>): (t: Trim)
    requires |s| >= TrimLength
    ensures t.channel1.dateSet == TrimDate(s[4], s[5], s[6])
    ensures t.channel2.dateSet == TrimDate(s[11], s[12], s[13])
    ensures LeBytes(t.channel1.offset) == s[0..4]
    ensures LeBytes(t.channel2.offset) == s[7..11]
  {
    LeBytesOfLeWord(s[0..4]);
    LeBytesOfLeWord(s[7..11]);
    Trim(ChannelTrim(LeWord(s[0..4]), TrimDate(s[4], s[5], s[6])),
         ChannelTrim(LeWord(s[7..11]), TrimDate(s[11], s[12], s[13])))
  }

  function EncodeChannelTrim(c: ChannelTrim): (s: seq<byte>)
    ensures |s| == 7
  {
    LeBytes(c.offset) + [c.dateSet.day, c.dateSet.month, c.dateSet.year]
  }

  function EncodeTrim(t: Trim): (s: seq<byte>)
    ensures |s| == TrimLength
  {
    EncodeChannelTrim(t.channel1) + EncodeChannelTrim(t.channel2)
  }

  /** The six regions are disjoint: any trim record survives encoding and
      decoding. */
  lemma TrimRoundTrip(t: Trim)
    ensures DecodeTrim(EncodeTrim(t)) == t
  {
    var s := EncodeTrim(t);
    assert s[0..4] == LeBytes(t.channel1.offset);
    assert s[7..11] == LeBytes(t.channel2.offset);
    LeWordOfLeBytes(t.channel1.offset);
    LeWordOfLeBytes(t.channel2.offset);
  }

  /** The six regions cover all 14 bytes. */
  lemma TrimCoversPacket(s: seq<byte>)
    requires |s| == TrimLength
    ensures EncodeTrim(DecodeTrim(s)) == s
  {
    var t := DecodeTrim(s);
    assert EncodeChannelTrim(t.channel1) == s[0..7];
    assert EncodeChannelTrim(t.channel2) == s[7..14];
    assert s == s[0..7] + s[7..14];
  }

  // ---------------------------------------------------------------------
  // Command and notification, 2 bytes

  const CommandNotificationLength: nat := 2

  /** Byte 0 is the command and byte 1 the notification, each classified
      on its own. */
  function DecodeCommandNotification(s: seq<byte>): (r: (Command, Notification))
    requires |s| >= CommandNotificationLength
    ensures r.0 == NoCommand <==> s[0] > 3
    ensures r.1 == UnknownNotification <==> s[1] == 6 || s[1] > 8
  {
    (GetCommandType(s[0]), GetNotificationType(s[1]))
  }

  function EncodeCommandNotification(c: Command, n: Notification): (s: seq<byte>)
    ensures |s| == CommandNotificationLength
  {
    [CommandByte(c), NotificationCode(n)]
  }

  /** Any command and notification survive encoding and decoding, and a
      packet survives decoding and encoding exactly when both of its bytes
      are codes of the tables. */
  lemma CommandNotificationRoundTrip(c: Command, n: Notification, s: seq<byte>)
    requires |s| == CommandNotificationLength
    ensures DecodeCommandNotification(EncodeCommandNotification(c, n)) == (c, n)
    ensures var r := DecodeCommandNotification(s);
      EncodeCommandNotification(r.0, r.1) == s <==> s[0] <= 4 && s[1] <= 8
  {
    CommandByteRoundTrip(c, s[0]);
    NotificationCodeRoundTrip(n, s[1]);
    var r := DecodeCommandNotification(s);
    if s[0] <= 4 && s[1] <= 8 {
      CommandByteRoundTrip(r.0, s[0]);
      assert EncodeCommandNotification(r.0, r.1) == [s[0], s[1]];
    } else if s[0] > 4 {
      assert EncodeCommandNotification(r.0, r.1)[0] != s[0];
    } else {
      assert EncodeCommandNotification(r.0, r.1)[1] != s[1];
    }
  }

  /** Changing one byte never changes the other field's classification. */
  lemma CommandAndNotificationIndependent(s: seq<byte>, t: seq<byte>)
    requires |s| >= CommandNotificationLength && |t| >= CommandNotificationLength
    ensures s[0] == t[0] ==> DecodeCommandNotification(s).0 == DecodeCommandNotification(t).0
    ensures s[1] == t[1] ==> DecodeCommandNotification(s).1 == DecodeCommandNotification(t).1
  {}

  /** The packets 00 07 and 03 0A. */
  lemma CommandNotificationExamples()
    ensures DecodeCommandNotification([0x00, 0x07]) == (Measure, Checkpoint)
    ensures DecodeCommandNotification([0x03, 0x0A]) == (FactoryReset, UnknownNotification)
  {}
}
