/** The three lookup tables of app.py: the probe type packed into the device
    configuration, the notification byte and the command byte. Each takes a
    Python integer, so each takes an `int` here; the packet decoders pass it a
    byte. */
module Classifiers {

  datatype ProbeType = PluggableK | FixedK | UnknownProbe

  /** The nibble a channel's probe type is stored in. Python's `>> 4` on an
      int is floor division by 16 and `& 15` keeps the value modulo 16; with a
      positive divisor Dafny's `/` and `%` are exactly those. Index 1 selects
      the high nibble and every other index the low one. */
  function ProbeNibble(probeIndex: int, probeData: int): (n: int)
    ensures 0 <= n < 16
  {
    (if probeIndex == 1 then probeData / 16 else probeData) % 16
  }

  /** `getProbeType`: 1 is a pluggable K-type thermocouple, 2 a fixed one,
      and every other nibble (0 included) is unknown. */
  function GetProbeType(probeIndex: int, probeData: int): (p: ProbeType)
    ensures p == PluggableK <==> ProbeNibble(probeIndex, probeData) == 1
    ensures p == FixedK <==> ProbeNibble(probeIndex, probeData) == 2
  {
    var probeType := ProbeNibble(probeIndex, probeData);
    if probeType != 1 then
      if probeType != 2 then UnknownProbe else FixedK
    else
      PluggableK
  }

  /** The string `getProbeType` returns; "Unknown" is the unknown probe's alone. */
  function ProbeTypeName(p: ProbeType): (name: string)
    ensures name == "Unknown" <==> p == UnknownProbe
  {
    match p
    case PluggableK => "Pluggable K Type"
    case FixedK => "Fixed K Type"
    case UnknownProbe => "Unknown"
  }

  /** The three probe types print as three different names. */
  lemma ProbeTypeNamesDistinct(p: ProbeType, q: ProbeType)
    ensures ProbeTypeName(p) == ProbeTypeName(q) <==> p == q
  {}

  /** A byte packing channel 1's nibble low and channel 2's high: the encoder
      the probe-type byte is read back with. */
  function PackProbeNibbles(channel1: int, channel2: int): (b: int)
    requires 0 <= channel1 < 16 && 0 <= channel2 < 16
    ensures 0 <= b < 256
  {
    16 * channel2 + channel1
  }

  /** Index 0 reads back the low nibble and index 1 the high nibble of a
      packed byte, so the two channels' probe types never interfere. */
  lemma ProbeNibblesOfPacked(channel1: int, channel2: int)
    requires 0 <= channel1 < 16 && 0 <= channel2 < 16
    ensures ProbeNibble(0, PackProbeNibbles(channel1, channel2)) == channel1
    ensures ProbeNibble(1, PackProbeNibbles(channel1, channel2)) == channel2
  {}

  /** On a byte, the arithmetic nibble is the source's shift-and-mask on the
      eight bits. */
  lemma ProbeNibbleIsShiftAndMask(probeIndex: int, b: bv8)
    ensures ProbeNibble(probeIndex, b as int)
         == ((if probeIndex == 1 then b >> 4 else b) & 15) as int
  {
    MaskIsModulo(b);
    if probeIndex == 1 {
      ShiftIsDivision(b);
      MaskIsModulo(b >> 4);
    }
  }

  lemma MaskIsModulo(b: bv8)
    ensures (b & 15) as int == b as int % 16
  {}

  lemma ShiftIsDivision(b: bv8)
    ensures (b >> 4) as int == b as int / 16
  {}

  /** The packed byte 17 (0001 0001) holds nibble 1 for both channels, so
      both read as pluggable; 0x21 gives channel 2 a fixed probe. */
  lemma ProbeTypeExamples()
    ensures GetProbeType(0, 17) == PluggableK && GetProbeType(1, 17) == PluggableK
    ensures GetProbeType(0, 0x21) == PluggableK && GetProbeType(1, 0x21) == FixedK
    ensures GetProbeType(0, 0) == UnknownProbe && GetProbeType(1, 0) == UnknownProbe
  {}

  datatype Notification =
    | NoNotification
    | ButtonPressed
    | Shutdown
    | InvalidSetting
    | InvalidCommand
    | CommunicationError
    | UnknownNotification
    | Checkpoint
    | RequestRefresh

  /** `getNotificationType`: the codes 0 to 8 in order, with 6 and everything
      outside 0..8 reported as an unknown notification. */
  function GetNotificationType(notificationData: int): (n: Notification)
    ensures n == UnknownNotification <==> notificationData == 6 || !(0 <= notificationData <= 8)
  {
    match notificationData
    case 0 => NoNotification
    case 1 => ButtonPressed
    case 2 => Shutdown
    case 3 => InvalidSetting
    case 4 => InvalidCommand
    case 5 => CommunicationError
    case 6 => UnknownNotification
    case 7 => Checkpoint
    case 8 => RequestRefresh
    case _ => UnknownNotification
  }

  /** The string `getNotificationType` returns; "UNKNOWN NOTIFICATION" is
      the unknown notification's alone. */
  function NotificationName(n: Notification): (name: string)
    ensures name == "UNKNOWN NOTIFICATION" <==> n == UnknownNotification
  {
    match n
    case NoNotification => "NONE"
    case ButtonPressed => "BUTTON PRESSED"
    case Shutdown => "SHUTDOWN"
    case InvalidSetting => "INVALID SETTING"
    case InvalidCommand => "INVALID COMMAND"
    case CommunicationError => "COMMUNICATION_ERROR"
    case UnknownNotification => "UNKNOWN NOTIFICATION"
    case Checkpoint => "CHECKPOINT"
    case RequestRefresh => "REQUEST REFRESH"
  }

  /** The code a notification is sent as; the unknown notification's own
      code is 6. */
  function NotificationCode(n: Notification): (code: int)
    ensures 0 <= code <= 8
  {
    match n
    case NoNotification => 0
    case ButtonPressed => 1
    case Shutdown => 2
    case InvalidSetting => 3
    case InvalidCommand => 4
    case CommunicationError => 5
    case UnknownNotification => 6
    case Checkpoint => 7
    case RequestRefresh => 8
  }

  /** Every notification is decoded from its code, and a code decodes back to
      itself exactly when it lies in 0..8: the table is total and one-to-one
      on its range. */
  lemma NotificationCodeRoundTrip(n: Notification, code: int)
    ensures GetNotificationType(NotificationCode(n)) == n
    ensures NotificationCode(GetNotificationType(code)) == code <==> 0 <= code <= 8
  {}

  /** The nine notifications print as nine different names. */
  lemma NotificationNamesDistinct(n: Notification, m: Notification)
    ensures NotificationName(n) == NotificationName(m) <==> n == m
  {}

  datatype Command = Measure | Identify | SetDefaults | NoCommand | FactoryReset

  /** `getCommandType`, whose result pairs `WireCode` with `CommandName`. */
  function GetCommandType(commandData: int): (c: Command)
    ensures c == NoCommand <==> !(0 <= commandData <= 3)
  {
    if commandData == 0 then Measure
    else if commandData == 1 then Identify
    else if commandData == 2 then SetDefaults
    else if commandData != 3 then NoCommand
    else FactoryReset
  }

  /** The first element of the list `getCommandType` returns: the byte
      written to the command characteristic, with the command in its high
      nibble and 0 for no command. */
  function WireCode(c: Command): (code: int)
    ensures code % 16 == 0 && 0 <= code / 16 <= 4
    ensures code == 0 <==> c == NoCommand
  {
    match c
    case Measure => 16
    case Identify => 32
    case SetDefaults => 48
    case NoCommand => 0
    case FactoryReset => 64
  }

  /** The second element of the list `getCommandType` returns; "None" is
      no command's alone. */
  function CommandName(c: Command): (name: string)
    ensures name == "None" <==> c == NoCommand
  {
    match c
    case Measure => "Measure"
    case Identify => "Identify"
    case SetDefaults => "Set Defaults"
    case NoCommand => "None"
    case FactoryReset => "Factory Reset"
  }

  /** The wire code of command byte d is 16 * (d + 1) for the four commands
      and 0 otherwise. */
  lemma WireCodeOfCommandByte(commandData: int)
    ensures WireCode(GetCommandType(commandData))
         == if 0 <= commandData <= 3 then 16 * (commandData + 1) else 0
  {}

  /** Wire code 0 means no command, and the codes tell commands apart. */
  lemma WireCodesDistinct(c: Command, d: Command)
    ensures WireCode(c) == 0 <==> c == NoCommand
    ensures WireCode(c) == WireCode(d) <==> c == d
    ensures CommandName(c) == CommandName(d) <==> c == d
  {}

  /** A command byte that decodes as `c`; 4 stands for every byte outside 0..3. */
  function CommandByte(c: Command): (b: int)
    ensures 0 <= b <= 4
  {
    match c
    case Measure => 0
    case Identify => 1
    case SetDefaults => 2
    case FactoryReset => 3
    case NoCommand => 4
  }

  /** Every command is decoded from its byte, and the bytes 0..3 decode back
      to themselves. */
  lemma CommandByteRoundTrip(c: Command, commandData: int)
    ensures GetCommandType(CommandByte(c)) == c
    ensures 0 <= commandData <= 3 ==> CommandByte(GetCommandType(commandData)) == commandData
  {}
}
