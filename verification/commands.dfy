/** The commands the driver sends to the board. Each is built as a payload whose
    first byte is a placeholder; sending replaces that byte with the output-report
    header 0x52. Command codes are decimal constants spelled into the hex string,
    so code 11 becomes the byte 0x11. */
module Commands {
  import opened Bytes

  /** Header byte of every output report. */
  const OutputReport: byte := 0x52

  const CommandLight := 11
  const CommandReporting := 12
  const CommandRegister := 16
  const CommandReadRegister := 17

  /** Reporting mode "continuous", and the report type asked for. */
  const ContinuousReporting: byte := 0x04
  const Extension8Bytes := 32

  /** The command payloads the driver builds. */
  datatype Command =
    | SetLight(on: bool)   // power-button LED on or off
    | RequestCalibration   // read 24 bytes of calibration memory at 0xA40024
    | EnableExtension      // write-register command at 0xA40040
    | SetReportType        // continuous reporting of 8-byte extension reports

  /** The payload as its hex string spells it, placeholder byte first. */
  function Payload(c: Command): (p: seq<byte>)
    ensures |p| >= 3 && p[0] == 0x00
  {
    match c
    case SetLight(on) => [0x00, DecimalAsHex(CommandLight), if on then 0x10 else 0x00]
    case RequestCalibration => [0x00, DecimalAsHex(CommandReadRegister), 0x04, 0xA4, 0x00, 0x24, 0x00, 0x18]
    case EnableExtension => [0x00, DecimalAsHex(CommandRegister), 0x04, 0xA4, 0x00, 0x40, 0x00]
    case SetReportType => [0x00, DecimalAsHex(CommandReporting), ContinuousReporting, DecimalAsHex(Extension8Bytes)]
  }

  /** What send writes for payload `p`: `"52" + data_hex[2:]`, the header followed
      by everything after the payload's first byte. */
  function OutputBytes(p: seq<byte>): (w: seq<byte>)
    ensures |w| == if |p| == 0 then 1 else |p|
    ensures w[0] == OutputReport && (|p| > 0 ==> w[1..] == p[1..])
  {
    [OutputReport] + if |p| == 0 then [] else p[1..]
  }

  /** The bytes on the wire for each command. */
  lemma WireBytes()
    ensures OutputBytes(Payload(SetLight(true))) == [0x52, 0x11, 0x10]
    ensures OutputBytes(Payload(SetLight(false))) == [0x52, 0x11, 0x00]
    ensures OutputBytes(Payload(RequestCalibration)) == [0x52, 0x17, 0x04, 0xA4, 0x00, 0x24, 0x00, 0x18]
    ensures OutputBytes(Payload(EnableExtension)) == [0x52, 0x16, 0x04, 0xA4, 0x00, 0x40, 0x00]
    ensures OutputBytes(Payload(SetReportType)) == [0x52, 0x12, 0x04, 0x32]
  {
  }

  /** The command code of a payload read back from its second byte. */
  function CodeOf(w: seq<byte>): Option<nat>
  {
    if |w| < 2 then None else HexAsDecimal(w[1])
  }

  /** Every command goes out as an output report whose second byte reads back as
      the decimal command code it was built from, and different commands never
      produce the same bytes. */
  lemma {:induction false} WireIdentifiesCommand(c: Command, c': Command)
    ensures OutputBytes(Payload(c))[0] == OutputReport
    ensures CodeOf(OutputBytes(Payload(c))) == Some(
      match c
      case SetLight(_) => CommandLight
      case RequestCalibration => CommandReadRegister
      case EnableExtension => CommandRegister
      case SetReportType => CommandReporting)
    ensures c != c' ==> OutputBytes(Payload(c)) != OutputBytes(Payload(c'))
  {
    var w, w' := OutputBytes(Payload(c)), OutputBytes(Payload(c'));
    HexDecimalInverse(w[1], CommandLight);
    HexDecimalInverse(w[1], CommandReadRegister);
    HexDecimalInverse(w[1], CommandRegister);
    HexDecimalInverse(w[1], CommandReporting);
  }
}
