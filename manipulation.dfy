/** The manipulation window: it holds the field overrides the capture
    callback writes into its synthetic packets, fills its text boxes from
    them when it opens, parses the boxes back when Send is pressed and then
    arms the capture window. The text boxes and combo boxes are fields the
    user may assign at any time; the .NET conversions it calls are oracles. */
module Manipulation {
  import opened Common
  import opened Packets
  import opened Capture

  // ---------------------------------------------------------------------
  // StringToByteArray: "AB-CD-EF" to bytes, two hex digits per byte with one
  // separator character between bytes.

  /** C# `char` arithmetic wraps modulo 2^16. */
  const CharRange: int := 0x1_0000

  /** The value StringToByteArray computes for one digit: a character above
      '9' counts from 'A' = 10, any other from '0'. The result is a C# char,
      so a character outside the expected ranges is misread: below '0' the
      negative difference wraps to just under 2^16, and every character of
      the 16-bit range above '9' counts from 'A' = 10, so ':' is 3 and
      lower-case 'a' is 42. */
  function DigitValue(c: char): (v: nat)
    ensures v < CharRange
    ensures '0' <= c <= '9' ==> v == c as int - '0' as int
    ensures 'A' <= c <= 'F' ==> v == c as int - 'A' as int + 10
    ensures c < '0' ==> v == CharRange - ('0' as int - c as int)
    ensures '9' < c && (c as int) < CharRange ==> v == c as int - 'A' as int + 10
  {
    if c > '9' then (c as int - 'A' as int + 10) % CharRange else (c as int - '0' as int) % CharRange
  }

  /** The number of bytes StringToByteArray reads from a string. */
  function PayloadLength(s: string): nat {
    (|s| + 1) / 3
  }

  /** Byte `i` is read from positions 3i and 3i+1, both inside the string. */
  lemma ReadsInBounds(s: string, i: nat)
    requires i < PayloadLength(s)
    ensures 3 * i + 1 < |s|
  {
  }

  /** One byte per three characters, rounded up for the missing final
      separator: the empty string and a single character give no bytes. */
  lemma ParseHexLength(s: string)
    ensures |ParseHex(s)| == (|s| + 1) / 3
    ensures |s| <= 1 ==> ParseHex(s) == []
    ensures |s| == 2 ==> |ParseHex(s)| == 1
  {
  }

  /** Lower-case digits are not hex digits to StringToByteArray: "ab" reads
      as 16 * 42 + 43 = 715, truncated to 0xCB, not 0xAB. */
  lemma LowerCaseDigitsMisread()
    ensures DigitValue('a') == 42 && DigitValue('f') == 47
    ensures ParseHex("ab") == [0xCB]
  {
    ReadsInBounds("ab", 0);
    assert ParseHex("ab")[0] == ByteAt("ab", 0) == (16 * 42 + 43) % 256;
  }

  /** Byte `i`: the two digit values combined and truncated to a byte. */
  function ByteAt(s: string, i: nat): uint8
    requires 3 * i + 1 < |s|
  {
    (16 * DigitValue(s[3 * i]) + DigitValue(s[3 * i + 1])) % 256
  }

  /** The bytes StringToByteArray returns. */
  function ParseHex(s: string): seq<uint8> {
    seq(PayloadLength(s), i requires 0 <= i < PayloadLength(s) => ReadsInBounds(s, i); ByteAt(s, i))
  }

  /** ManipulationForm.StringToByteArray. */
  method StringToByteArray(s: string) returns (arr: array<uint8>)
    ensures arr[..] == ParseHex(s)
  {
    var length := (|s| + 1) / 3;
    arr := new uint8[length];
    for i := 0 to length
      invariant forall j :: 0 <= j < i ==> 3 * j + 1 < |s| && arr[j] == ByteAt(s, j)
    {
      ReadsInBounds(s, i);
      var sixteen := s[3 * i] as int;
      if sixteen > '9' as int {
        sixteen := (sixteen - 'A' as int + 10) % CharRange;
      } else {
        sixteen := (sixteen - '0' as int) % CharRange;
      }
      var ones := s[3 * i + 1] as int;
      if ones > '9' as int {
        ones := (ones - 'A' as int + 10) % CharRange;
      } else {
        ones := (ones - '0' as int) % CharRange;
      }
      arr[i] := (16 * sixteen + ones) % 256;
    }
  }

  /** The character after each pair of digits is never looked at: changing
      it leaves the bytes as they were. */
  lemma SeparatorIgnored(s: string, i: nat, ch: char)
    requires 3 * i + 2 < |s|
    ensures ParseHex(s[3 * i + 2 := ch]) == ParseHex(s)
  {
    var t := s[3 * i + 2 := ch];
    forall j | 0 <= j < PayloadLength(s)
      ensures ParseHex(t)[j] == ParseHex(s)[j]
    {
      ReadsInBounds(s, j);
      assert t[3 * j] == s[3 * j] && t[3 * j + 1] == s[3 * j + 1];
    }
  }

  // ---------------------------------------------------------------------
  // BitConverter.ToString: uppercase hex pairs separated by '-'.

  function HexDigit(n: nat): (c: char)
    requires n < 16
    ensures '0' <= c <= '9' || 'A' <= c <= 'F'
  {
    if n < 10 then ('0' as int + n) as char else ('A' as int + n - 10) as char
  }

  function High(b: uint8): nat { b / 16 }
  function Low(b: uint8): nat { b % 16 }

  /** `BitConverter.ToString(bytes)`; the empty array gives "". */
  function FormatHex(bs: seq<uint8>): string
    decreases |bs|
  {
    if |bs| == 0 then ""
    else if |bs| == 1 then [HexDigit(High(bs[0])), HexDigit(Low(bs[0]))]
    else [HexDigit(High(bs[0])), HexDigit(Low(bs[0])), '-'] + FormatHex(bs[1..])
  }

  /** Three characters per byte, less the missing final separator. */
  lemma {:induction false} FormatHexLength(bs: seq<uint8>)
    ensures |FormatHex(bs)| == if bs == [] then 0 else 3 * |bs| - 1
    decreases |bs|
  {
    if |bs| > 1 {
      FormatHexLength(bs[1..]);
    }
  }

  /** Byte `i` is written at positions 3i and 3i+1, followed by '-' unless it is last. */
  lemma {:induction false} FormatHexAt(bs: seq<uint8>, i: nat)
    requires i < |bs|
    ensures |FormatHex(bs)| == 3 * |bs| - 1
    ensures FormatHex(bs)[3 * i] == HexDigit(High(bs[i]))
    ensures FormatHex(bs)[3 * i + 1] == HexDigit(Low(bs[i]))
    ensures i + 1 < |bs| ==> FormatHex(bs)[3 * i + 2] == '-'
    decreases i
  {
    FormatHexLength(bs);
    if i > 0 {
      FormatHexAt(bs[1..], i - 1);
      var rest := FormatHex(bs[1..]);
      assert FormatHex(bs) == [HexDigit(High(bs[0])), HexDigit(Low(bs[0])), '-'] + rest;
      assert bs[1..][i - 1] == bs[i];
    }
  }

  /** Reading a digit back gives its value. */
  lemma DigitValueOfHexDigit(n: nat)
    requires n < 16
    ensures DigitValue(HexDigit(n)) == n
  {
  }

  /** Byte `i` of a formatted sequence reads back as itself. */
  lemma RoundTripAt(bs: seq<uint8>, i: nat)
    requires i < |bs|
    ensures 3 * i + 1 < |FormatHex(bs)|
    ensures ByteAt(FormatHex(bs), i) == bs[i]
  {
    FormatHexAt(bs, i);
    var s := FormatHex(bs);
    DigitValueOfHexDigit(High(bs[i]));
    DigitValueOfHexDigit(Low(bs[i]));
    assert DigitValue(s[3 * i]) == High(bs[i]);
    assert DigitValue(s[3 * i + 1]) == Low(bs[i]);
    DigitsMakeByte(bs[i]);
  }

  /** The two digits of a byte give the byte back. */
  lemma DigitsMakeByte(b: uint8)
    ensures (16 * High(b) + Low(b)) % 256 == b
  {
  }

  /** StringToByteArray inverts BitConverter.ToString. */
  lemma ParseFormatRoundTrip(bs: seq<uint8>)
    ensures ParseHex(FormatHex(bs)) == bs
  {
    var s := FormatHex(bs);
    FormatHexLength(bs);
    assert PayloadLength(s) == |bs|;
    forall i | 0 <= i < |bs|
      ensures ParseHex(s)[i] == bs[i]
    {
      RoundTripAt(bs, i);
    }
  }

  /** BitConverter.ToString never writes a space. */
  lemma {:induction false} FormatHexHasNoSpace(bs: seq<uint8>)
    ensures ' ' !in FormatHex(bs)
    decreases |bs|
  {
    if |bs| > 1 {
      FormatHexHasNoSpace(bs[1..]);
    }
  }

  /** A payload shown by Load and parsed back by Send (after the trimming of
      spaces) is the payload itself. */
  lemma PayloadSurvivesReload(bs: seq<uint8>)
    ensures ParseHex(Trim(FormatHex(bs), ' ')) == bs
  {
    FormatHexHasNoSpace(bs);
    TrimAbsent(FormatHex(bs), ' ');
    ParseFormatRoundTrip(bs);
  }

  // ---------------------------------------------------------------------
  // The send-mode combo box: index 0 is "loop", index 1 is "one send".

  /** ManipulationForm_Load: the index selected from the capture window's flag. */
  function LoadIndex(oneSend: bool): int {
    if oneSend then 0 else 1
  }

  /** buttonSend_Click: the value the handler gives `manipulatedOneSend` for
      each index, or None when it leaves the flag alone. */
  function SendModeFor(index: int): Option<bool> {
    if index == 0 then Some(false) else if index == 1 then Some(true) else None
  }

  /** Opening the window and pressing Send without touching the combo box
      inverts the send mode: Load selects index 0 for "one send", which Send
      reads as "loop", and vice versa. */
  lemma LoadThenSendFlipsMode(oneSend: bool)
    ensures SendModeFor(LoadIndex(oneSend)) == Some(!oneSend)
  {
  }

  // ---------------------------------------------------------------------
  // Parsing the text boxes.

  /** The outcome of a .NET conversion: a value, a FormatException, or any
      other exception (overflow, null argument, invalid cast). */
  datatype Conversion<T> = Converted(value: T) | FormatFault | OtherFault

  /** The conversions buttonSend_Click calls: PhysicalAddress.Parse,
      IPAddress.Parse, Convert.ToInt32, Convert.ToUInt16 and Convert.ToUInt32. */
  datatype Converters = Converters(
    physicalAddress: string -> Conversion<HwAddress>,
    ipAddress: string -> Conversion<IpAddress>,
    toInt32: string -> Conversion<int32>,
    toUInt16: string -> Conversion<uint16>,
    toUInt32: string -> Conversion<uint32>)

  /** The texts of the thirteen text boxes. */
  datatype FormTexts = FormTexts(
    sourceHw: string, destinationHw: string,
    sourceIp: string, destinationIp: string, timeToLive: string,
    tcpSourcePort: string, tcpDestinationPort: string, windowSize: string,
    acknowledgmentNumber: string, sequenceNumber: string, tcpPayload: string,
    udpSourcePort: string, udpDestinationPort: string)

  /** Titles of the message boxes the handlers show. */
  const SendModeMessage: string := "Select send mode"
  const EthErrorTitle: string := "Error ETH packet"
  const TcpErrorTitle: string := "Error TCP packet"
  const UdpErrorTitle: string := "Error UDP packet"
  const SendErrorTitle: string := "Error btnSend_Click"

  /** A box text as the handler converts it: spaces trimmed at both ends. */
  function BoxValue(text: string): string {
    Trim(text, ' ')
  }

  /** A hardware-address box: trimmed, with ':' separators turned into '-'. */
  function HwBoxValue(text: string): string {
    ReplaceChar(Trim(text, ' '), ':', '-')
  }

  /** The message box that ends the handler when a conversion of a section
      fails: the section's own title for a FormatException, the outer
      handler's title for anything else. */
  function FaultTitle<T>(c: Conversion<T>, sectionTitle: string): string {
    if c.FormatFault? then sectionTitle else SendErrorTitle
  }

  function SourceHwOf(t: FormTexts, cv: Converters): Conversion<HwAddress> { cv.physicalAddress(HwBoxValue(t.sourceHw)) }
  function DestinationHwOf(t: FormTexts, cv: Converters): Conversion<HwAddress> { cv.physicalAddress(HwBoxValue(t.destinationHw)) }
  function SourceIpOf(t: FormTexts, cv: Converters): Conversion<IpAddress> { cv.ipAddress(BoxValue(t.sourceIp)) }
  function DestinationIpOf(t: FormTexts, cv: Converters): Conversion<IpAddress> { cv.ipAddress(BoxValue(t.destinationIp)) }
  function TimeToLiveOf(t: FormTexts, cv: Converters): Conversion<int32> { cv.toInt32(BoxValue(t.timeToLive)) }
  function TcpSourceOf(t: FormTexts, cv: Converters): Conversion<uint16> { cv.toUInt16(BoxValue(t.tcpSourcePort)) }
  function TcpDestinationOf(t: FormTexts, cv: Converters): Conversion<uint16> { cv.toUInt16(BoxValue(t.tcpDestinationPort)) }
  function WindowSizeOf(t: FormTexts, cv: Converters): Conversion<uint16> { cv.toUInt16(BoxValue(t.windowSize)) }
  function AcknowledgmentOf(t: FormTexts, cv: Converters): Conversion<uint32> { cv.toUInt32(BoxValue(t.acknowledgmentNumber)) }
  function SequenceOf(t: FormTexts, cv: Converters): Conversion<uint32> { cv.toUInt32(BoxValue(t.sequenceNumber)) }
  function UdpSourceOf(t: FormTexts, cv: Converters): Conversion<uint16> { cv.toUInt16(BoxValue(t.udpSourcePort)) }
  function UdpDestinationOf(t: FormTexts, cv: Converters): Conversion<uint16> { cv.toUInt16(BoxValue(t.udpDestinationPort)) }

  /** The UDP section only runs when the UDP source-port box and, as the
      handler is written, the TCP destination-port box are non-empty. */
  predicate UdpGuard(t: FormTexts) {
    t.udpSourcePort != "" && t.tcpDestinationPort != ""
  }

  /** All five TCP conversions succeed. */
  predicate TcpConverts(t: FormTexts, cv: Converters) {
    && TcpSourceOf(t, cv).Converted? && TcpDestinationOf(t, cv).Converted? && WindowSizeOf(t, cv).Converted?
    && AcknowledgmentOf(t, cv).Converted? && SequenceOf(t, cv).Converted?
  }

  /** The title of the TCP section's failure, if any: the first failing
      conversion in box order decides it. */
  function TcpStop(t: FormTexts, cv: Converters): (stop: Option<string>)
    ensures stop.None? <==> TcpConverts(t, cv)
  {
    if !TcpSourceOf(t, cv).Converted? then Some(FaultTitle(TcpSourceOf(t, cv), TcpErrorTitle))
    else if !TcpDestinationOf(t, cv).Converted? then Some(FaultTitle(TcpDestinationOf(t, cv), TcpErrorTitle))
    else if !WindowSizeOf(t, cv).Converted? then Some(FaultTitle(WindowSizeOf(t, cv), TcpErrorTitle))
    else if !AcknowledgmentOf(t, cv).Converted? then Some(FaultTitle(AcknowledgmentOf(t, cv), TcpErrorTitle))
    else if !SequenceOf(t, cv).Converted? then Some(FaultTitle(SequenceOf(t, cv), TcpErrorTitle))
    else None
  }

  /** The Ethernet section's failure, if any. */
  function EthStop(t: FormTexts, cv: Converters): (stop: Option<string>)
    ensures stop.None? <==> SourceHwOf(t, cv).Converted? && DestinationHwOf(t, cv).Converted?
  {
    if !SourceHwOf(t, cv).Converted? then Some(FaultTitle(SourceHwOf(t, cv), EthErrorTitle))
    else if !DestinationHwOf(t, cv).Converted? then Some(FaultTitle(DestinationHwOf(t, cv), EthErrorTitle))
    else None
  }

  /** The UDP section's failure, if any. */
  function UdpStop(t: FormTexts, cv: Converters): (stop: Option<string>)
    ensures stop.None? <==> !UdpGuard(t) || (UdpSourceOf(t, cv).Converted? && UdpDestinationOf(t, cv).Converted?)
  {
    if !UdpGuard(t) then None
    else if !UdpSourceOf(t, cv).Converted? then Some(FaultTitle(UdpSourceOf(t, cv), UdpErrorTitle))
    else if !UdpDestinationOf(t, cv).Converted? then Some(FaultTitle(UdpDestinationOf(t, cv), UdpErrorTitle))
    else None
  }

  /** The first failing packet section, in handler order (Ethernet, TCP,
      UDP; IP errors are swallowed). */
  function SectionStop(t: FormTexts, cv: Converters): Option<string> {
    if EthStop(t, cv).Some? then EthStop(t, cv)
    else if TcpStop(t, cv).Some? then TcpStop(t, cv)
    else UdpStop(t, cv)
  }

  /** Reference definition of buttonSend_Click's outcome: the title of the
      error box that ends it, or None when it arms the capture window.
      `selectedValue` is `Convert.ToInt32(LoopSendingCBox.SelectedValue)`,
      None when that conversion throws; it is only read in loop mode with a
      read timeout selected. */
  function SendStop(t: FormTexts, modeIndex: int, timeoutIndex: int, cv: Converters,
                    selectedValue: Option<int32>): Option<string>
  {
    if modeIndex == 0 && timeoutIndex != -1 && selectedValue.None? then Some(SendErrorTitle)
    else SectionStop(t, cv)
  }

  /** The overrides after a Send that armed the capture window: every
      Ethernet and TCP field converted from its box, the IP fields as far as
      their conversions got, and the UDP ports when the UDP section ran. */
  function SentOverrides(o: MutationTemplate, t: FormTexts, cv: Converters): MutationTemplate
    requires SectionStop(t, cv).None?
  {
    IpAfter(o, t, cv).(
      sourceHw := Some(SourceHwOf(t, cv).value), destinationHw := Some(DestinationHwOf(t, cv).value),
      sourceTcpPort := TcpSourceOf(t, cv).value, destinationTcpPort := TcpDestinationOf(t, cv).value,
      windowSize := WindowSizeOf(t, cv).value, acknowledgmentNumber := AcknowledgmentOf(t, cv).value,
      sequenceNumber := SequenceOf(t, cv).value,
      sourceUdpPort := if UdpGuard(t) then UdpSourceOf(t, cv).value else o.sourceUdpPort,
      destinationUdpPort := if UdpGuard(t) then UdpDestinationOf(t, cv).value else o.destinationUdpPort)
  }

  /** What the capture callback transmits once a Send armed it with the
      boxes `t` on overrides `o`: the layer follows the decision table over
      the sent overrides, a synthetic Ethernet packet carries the two parsed
      hardware addresses, a TCP packet the five converted TCP fields, and a
      UDP packet the two converted UDP ports when the UDP section ran and the
      ports already held otherwise. */
  lemma ArmedSendCarriesOverrides(o: MutationTemplate, t: FormTexts, cv: Converters,
                                  frame: RawFrame, d: Decoded, rnd: Randoms)
    requires SectionStop(t, cv).None?
    ensures var p := BuildOutgoing(frame, d, SentOverrides(o, t, cv), rnd, None);
            && LayerOf(p) == ExpectedLayer(d, SentOverrides(o, t, cv))
            && (p.SynthEth? ==> p.sourceHw == Some(SourceHwOf(t, cv).value)
                                && p.destinationHw == Some(DestinationHwOf(t, cv).value))
            && (p.SynthTcp? ==> p.sourcePort == TcpSourceOf(t, cv).value
                                && p.destinationPort == TcpDestinationOf(t, cv).value
                                && p.windowSize == WindowSizeOf(t, cv).value
                                && p.acknowledgmentNumber == AcknowledgmentOf(t, cv).value
                                && p.sequenceNumber == SequenceOf(t, cv).value)
            && (p.SynthUdp? && UdpGuard(t) ==> p.sourcePort == UdpSourceOf(t, cv).value
                                               && p.destinationPort == UdpDestinationOf(t, cv).value)
            && (p.SynthUdp? && !UdpGuard(t) ==> p.sourcePort == o.sourceUdpPort
                                                && p.destinationPort == o.destinationUdpPort)
  {
    BuildFollowsTable(frame, d, SentOverrides(o, t, cv), rnd);
  }

  /** Send arms exactly when the mode value converts (if it is read), both
      hardware addresses parse, all TCP boxes convert and, when the UDP
      section runs, both UDP boxes convert. */
  lemma SendArmsIff(t: FormTexts, modeIndex: int, timeoutIndex: int, cv: Converters, selectedValue: Option<int32>)
    ensures SendStop(t, modeIndex, timeoutIndex, cv, selectedValue).None? <==>
            && (modeIndex == 0 && timeoutIndex != -1 ==> selectedValue.Some?)
            && SourceHwOf(t, cv).Converted? && DestinationHwOf(t, cv).Converted?
            && TcpConverts(t, cv)
            && (UdpGuard(t) ==> UdpSourceOf(t, cv).Converted? && UdpDestinationOf(t, cv).Converted?)
  {
  }

  /** Whatever the IP boxes hold, the outcome of Send is the same. */
  lemma IpBoxesNeverDecide(t: FormTexts, sourceIp: string, destinationIp: string, timeToLive: string,
                           modeIndex: int, timeoutIndex: int, cv: Converters, selectedValue: Option<int32>)
    ensures SendStop(t.(sourceIp := sourceIp, destinationIp := destinationIp, timeToLive := timeToLive),
                     modeIndex, timeoutIndex, cv, selectedValue)
            == SendStop(t, modeIndex, timeoutIndex, cv, selectedValue)
  {
    var u := t.(sourceIp := sourceIp, destinationIp := destinationIp, timeToLive := timeToLive);
    assert SourceHwOf(u, cv) == SourceHwOf(t, cv) && DestinationHwOf(u, cv) == DestinationHwOf(t, cv);
    assert UdpSourceOf(u, cv) == UdpSourceOf(t, cv) && UdpDestinationOf(u, cv) == UdpDestinationOf(t, cv);
    assert TcpStop(u, cv) == TcpStop(t, cv);
  }

  /** An empty UDP source-port box skips the UDP section, whatever the UDP
      destination-port box holds. */
  lemma EmptyUdpSourceSkipsUdp(t: FormTexts, destination: string,
                               modeIndex: int, timeoutIndex: int, cv: Converters, selectedValue: Option<int32>)
    requires t.udpSourcePort == ""
    ensures SendStop(t.(udpDestinationPort := destination), modeIndex, timeoutIndex, cv, selectedValue)
            == SendStop(t, modeIndex, timeoutIndex, cv, selectedValue)
  {
    assert TcpStop(t.(udpDestinationPort := destination), cv) == TcpStop(t, cv);
  }

  /** `Convert.ToUInt16("")` throws a FormatException, so the UDP guard's
      test of the TCP destination-port box never decides anything: an empty
      TCP destination box (its trimmed text is then "") already stops the
      handler in the TCP section, and once the TCP section has passed the
      guard is the UDP source-port box alone. */
  lemma UdpGuardReducesToUdpSource(t: FormTexts, cv: Converters)
    requires cv.toUInt16("") == FormatFault
    ensures t.tcpDestinationPort == "" ==> TcpStop(t, cv).Some?
    ensures TcpStop(t, cv).None? ==> (UdpGuard(t) <==> t.udpSourcePort != "")
  {
    if t.tcpDestinationPort == "" {
      assert BoxValue(t.tcpDestinationPort) == "";
      assert !TcpDestinationOf(t, cv).Converted?;
    }
  }

  /** The IP overrides after the IP section: each assignment happens only if
      it and the conversions before it succeed. */
  function IpAfter(o: MutationTemplate, t: FormTexts, cv: Converters): MutationTemplate {
    if !SourceIpOf(t, cv).Converted? then o
    else if !DestinationIpOf(t, cv).Converted? then o.(sourceIp := Some(SourceIpOf(t, cv).value))
    else if !TimeToLiveOf(t, cv).Converted? then
      o.(sourceIp := Some(SourceIpOf(t, cv).value), destinationIp := Some(DestinationIpOf(t, cv).value))
    else
      o.(sourceIp := Some(SourceIpOf(t, cv).value), destinationIp := Some(DestinationIpOf(t, cv).value),
         timeToLive := TimeToLiveOf(t, cv).value)
  }

  /** The IP section changes only the three IP overrides. */
  lemma IpAfterTouchesIpOnly(o: MutationTemplate, t: FormTexts, cv: Converters)
    ensures IpAfter(o, t, cv).(sourceIp := o.sourceIp, destinationIp := o.destinationIp, timeToLive := o.timeToLive) == o
  {
  }

  // ---------------------------------------------------------------------
  // Load: filling the boxes from the overrides.

  /** The texts after ManipulationForm_Load. `hwText` and `numberText` stand
      for `PhysicalAddress.ToString()` and the integer `ToString()`. A null
      hardware address, IP address or payload throws; the exception is
      caught, so the boxes from that one on keep their texts. */
  function LoadedTexts(t: FormTexts, o: MutationTemplate, payload: Option<seq<uint8>>,
                       hwText: HwAddress -> string, numberText: int -> string): FormTexts
  {
    if o.sourceHw.None? then t
    else if o.destinationHw.None? then t.(sourceHw := hwText(o.sourceHw.value))
    else if o.sourceIp.None? then t.(sourceHw := hwText(o.sourceHw.value), destinationHw := hwText(o.destinationHw.value))
    else if o.destinationIp.None? then
      t.(sourceHw := hwText(o.sourceHw.value), destinationHw := hwText(o.destinationHw.value),
         sourceIp := o.sourceIp.value.text)
    else if payload.None? then
      t.(sourceHw := hwText(o.sourceHw.value), destinationHw := hwText(o.destinationHw.value),
         sourceIp := o.sourceIp.value.text, destinationIp := o.destinationIp.value.text,
         timeToLive := numberText(o.timeToLive),
         tcpSourcePort := numberText(o.sourceTcpPort), tcpDestinationPort := numberText(o.destinationTcpPort),
         windowSize := numberText(o.windowSize), acknowledgmentNumber := numberText(o.acknowledgmentNumber),
         sequenceNumber := numberText(o.sequenceNumber))
    else
      FormTexts(hwText(o.sourceHw.value), hwText(o.destinationHw.value),
                o.sourceIp.value.text, o.destinationIp.value.text, numberText(o.timeToLive),
                numberText(o.sourceTcpPort), numberText(o.destinationTcpPort), numberText(o.windowSize),
                numberText(o.acknowledgmentNumber), numberText(o.sequenceNumber), FormatHex(payload.value),
                numberText(o.sourceUdpPort), numberText(o.destinationUdpPort))
  }

  /** When every reference override is set, Load shows the payload so that
      Send reads it back unchanged. */
  lemma LoadedPayloadReadsBack(t: FormTexts, o: MutationTemplate, payload: seq<uint8>,
                               hwText: HwAddress -> string, numberText: int -> string)
    requires o.sourceHw.Some? && o.destinationHw.Some? && o.sourceIp.Some? && o.destinationIp.Some?
    ensures ParseHex(BoxValue(LoadedTexts(t, o, Some(payload), hwText, numberText).tcpPayload)) == payload
  {
    PayloadSurvivesReload(payload);
  }

  /** A window opened on a frame without Ethernet (no hardware address set)
      keeps every box as it was. */
  lemma LoadWithoutEthernetKeepsTexts(t: FormTexts, o: MutationTemplate, payload: Option<seq<uint8>>,
                                      hwText: HwAddress -> string, numberText: int -> string)
    requires o.sourceHw.None?
    ensures LoadedTexts(t, o, payload, hwText, numberText) == t
  {
  }

  /** No override set: the initial override values, all references null and
      all numbers zero. */
  const NoOverrides: MutationTemplate := MutationTemplate(None, None, None, None, 0, 0, 0, 0, 0, 0, 0, 0)

  // ---------------------------------------------------------------------

  class ManipulationForm {
    /** The capture window it edits. */
    const captureForm: CaptureForm
    /** The public override fields (sourcehw ... destinationPort), grouped. */
    var overrides: MutationTemplate
    var tcpDataPayload: Option<seq<uint8>>
    /** Selected indices of the send-mode and read-timeout combo boxes. */
    var loopSendingIndex: int
    var readTimeoutIndex: int
    var texts: FormTexts
    var closed: bool
    /** Titles of the message boxes shown so far. */
    var messages: seq<string>

    /** `new ManipulationForm()` followed by the assignment of `captureForm`;
        the designer's initial box texts and read-timeout selection are
        parameters. */
    constructor (captureForm: CaptureForm, initialTexts: FormTexts, initialTimeoutIndex: int)
      ensures this.captureForm == captureForm
      ensures overrides == NoOverrides && tcpDataPayload.None?
      ensures loopSendingIndex == 0 && readTimeoutIndex == initialTimeoutIndex
      ensures texts == initialTexts && !closed && messages == []
    {
      this.captureForm := captureForm;
      overrides := NoOverrides;
      tcpDataPayload := None;
      loopSendingIndex := 0;
      readTimeoutIndex := initialTimeoutIndex;
      texts := initialTexts;
      closed := false;
      messages := [];
    }

    /** ManipulationForm_Load. */
    method Load(hwText: HwAddress -> string, numberText: int -> string)
      modifies this`loopSendingIndex, this`texts
      ensures loopSendingIndex == LoadIndex(captureForm.manipulatedOneSend)
      ensures texts == LoadedTexts(old(texts), overrides, tcpDataPayload, hwText, numberText)
    {
      if captureForm.manipulatedOneSend {
        loopSendingIndex := 0;
      } else {
        loopSendingIndex := 1;
      }
      if overrides.sourceHw.None? { return; }
      texts := texts.(sourceHw := hwText(overrides.sourceHw.value));
      if overrides.destinationHw.None? { return; }
      texts := texts.(destinationHw := hwText(overrides.destinationHw.value));
      if overrides.sourceIp.None? { return; }
      texts := texts.(sourceIp := overrides.sourceIp.value.text);
      if overrides.destinationIp.None? { return; }
      texts := texts.(destinationIp := overrides.destinationIp.value.text);
      texts := texts.(timeToLive := numberText(overrides.timeToLive));
      texts := texts.(tcpSourcePort := numberText(overrides.sourceTcpPort));
      texts := texts.(tcpDestinationPort := numberText(overrides.destinationTcpPort));
      texts := texts.(windowSize := numberText(overrides.windowSize));
      texts := texts.(acknowledgmentNumber := numberText(overrides.acknowledgmentNumber));
      texts := texts.(sequenceNumber := numberText(overrides.sequenceNumber));
      if tcpDataPayload.None? { return; }
      texts := texts.(tcpPayload := FormatHex(tcpDataPayload.value));
      texts := texts.(udpSourcePort := numberText(overrides.sourceUdpPort));
      texts := texts.(udpDestinationPort := numberText(overrides.destinationUdpPort));
    }

    /** The send-mode part of buttonSend_Click. Returns false when reading
        the combo box value throws. */
    method ApplySendMode(selectedValue: Option<int32>) returns (ok: bool)
      modifies this`messages, captureForm`manipulatedOneSend, captureForm`readTimeout
      ensures ok <==> !(loopSendingIndex == 0 && readTimeoutIndex != -1 && selectedValue.None?)
      ensures messages == old(messages) + if loopSendingIndex == -1 then [SendModeMessage] else []
      ensures captureForm.manipulatedOneSend ==
              if SendModeFor(loopSendingIndex).Some? then SendModeFor(loopSendingIndex).value
              else old(captureForm.manipulatedOneSend)
      ensures captureForm.readTimeout ==
              if loopSendingIndex == 0 && readTimeoutIndex == -1 then DefaultReadTimeout
              else if loopSendingIndex == 0 && selectedValue.Some? then selectedValue.value
              else old(captureForm.readTimeout)
    {
      ok := true;
      if loopSendingIndex == -1 {
        messages := messages + [SendModeMessage];
      } else if loopSendingIndex == 0 {
        captureForm.manipulatedOneSend := false;
        if readTimeoutIndex == -1 {
          captureForm.readTimeout := DefaultReadTimeout;
        } else if selectedValue.Some? {
          captureForm.readTimeout := selectedValue.value;
        } else {
          ok := false;
        }
      } else if loopSendingIndex == 1 {
        captureForm.manipulatedOneSend := true;
      }
    }

    /** The Ethernet section: both hardware addresses, source first. */
    method ReadEthernet(cv: Converters) returns (stop: Option<string>)
      modifies this`overrides
      ensures stop == EthStop(texts, cv)
      ensures overrides == (if !SourceHwOf(texts, cv).Converted? then old(overrides)
                            else if !DestinationHwOf(texts, cv).Converted? then old(overrides).(sourceHw := Some(SourceHwOf(texts, cv).value))
                            else old(overrides).(sourceHw := Some(SourceHwOf(texts, cv).value),
                                                 destinationHw := Some(DestinationHwOf(texts, cv).value)))
    {
      var source := SourceHwOf(texts, cv);
      if !source.Converted? {
        return Some(FaultTitle(source, EthErrorTitle));
      }
      overrides := overrides.(sourceHw := Some(source.value));
      var destination := DestinationHwOf(texts, cv);
      if !destination.Converted? {
        return Some(FaultTitle(destination, EthErrorTitle));
      }
      overrides := overrides.(destinationHw := Some(destination.value));
      stop := None;
    }

    /** The IP section: every exception is swallowed. */
    method ReadIp(cv: Converters)
      modifies this`overrides
      ensures overrides == IpAfter(old(overrides), texts, cv)
    {
      var source := SourceIpOf(texts, cv);
      if !source.Converted? { return; }
      overrides := overrides.(sourceIp := Some(source.value));
      var destination := DestinationIpOf(texts, cv);
      if !destination.Converted? { return; }
      overrides := overrides.(destinationIp := Some(destination.value));
      var ttl := TimeToLiveOf(texts, cv);
      if !ttl.Converted? { return; }
      overrides := overrides.(timeToLive := ttl.value);
    }

    /** The TCP section: five numbers in box order, then the payload. Each
        field takes its converted value when it and every conversion before
        it succeed; the payload conversion cannot fail. */
    method ReadTcp(cv: Converters) returns (stop: Option<string>)
      modifies this`overrides, this`tcpDataPayload
      ensures stop == TcpStop(texts, cv)
      ensures var t := texts;
              && overrides.(sourceTcpPort := old(overrides).sourceTcpPort, destinationTcpPort := old(overrides).destinationTcpPort,
                            windowSize := old(overrides).windowSize, acknowledgmentNumber := old(overrides).acknowledgmentNumber,
                            sequenceNumber := old(overrides).sequenceNumber) == old(overrides)
              && overrides.sourceTcpPort == (if TcpSourceOf(t, cv).Converted? then TcpSourceOf(t, cv).value else old(overrides).sourceTcpPort)
              && overrides.destinationTcpPort ==
                 (if TcpSourceOf(t, cv).Converted? && TcpDestinationOf(t, cv).Converted? then TcpDestinationOf(t, cv).value
                  else old(overrides).destinationTcpPort)
              && overrides.windowSize ==
                 (if TcpSourceOf(t, cv).Converted? && TcpDestinationOf(t, cv).Converted? && WindowSizeOf(t, cv).Converted?
                  then WindowSizeOf(t, cv).value else old(overrides).windowSize)
              && overrides.acknowledgmentNumber ==
                 (if TcpSourceOf(t, cv).Converted? && TcpDestinationOf(t, cv).Converted? && WindowSizeOf(t, cv).Converted?
                     && AcknowledgmentOf(t, cv).Converted?
                  then AcknowledgmentOf(t, cv).value else old(overrides).acknowledgmentNumber)
              && overrides.sequenceNumber == (if TcpConverts(t, cv) then SequenceOf(t, cv).value else old(overrides).sequenceNumber)
              && tcpDataPayload == if TcpConverts(t, cv) then Some(ParseHex(BoxValue(t.tcpPayload))) else old(tcpDataPayload)
    {
      var c16 := TcpSourceOf(texts, cv);
      if !c16.Converted? { return Some(FaultTitle(c16, TcpErrorTitle)); }
      overrides := overrides.(sourceTcpPort := c16.value);
      c16 := TcpDestinationOf(texts, cv);
      if !c16.Converted? { return Some(FaultTitle(c16, TcpErrorTitle)); }
      overrides := overrides.(destinationTcpPort := c16.value);
      c16 := WindowSizeOf(texts, cv);
      if !c16.Converted? { return Some(FaultTitle(c16, TcpErrorTitle)); }
      overrides := overrides.(windowSize := c16.value);
      var c32 := AcknowledgmentOf(texts, cv);
      if !c32.Converted? { return Some(FaultTitle(c32, TcpErrorTitle)); }
      overrides := overrides.(acknowledgmentNumber := c32.value);
      c32 := SequenceOf(texts, cv);
      if !c32.Converted? { return Some(FaultTitle(c32, TcpErrorTitle)); }
      overrides := overrides.(sequenceNumber := c32.value);
      var payload := StringToByteArray(BoxValue(texts.tcpPayload));
      tcpDataPayload := Some(payload[..]);
      stop := None;
    }

    /** The UDP section, run only under UdpGuard. */
    method ReadUdp(cv: Converters) returns (stop: Option<string>)
      modifies this`overrides
      ensures stop == UdpStop(texts, cv)
      ensures overrides == (if !UdpGuard(texts) || !UdpSourceOf(texts, cv).Converted? then old(overrides)
                            else if !UdpDestinationOf(texts, cv).Converted? then old(overrides).(sourceUdpPort := UdpSourceOf(texts, cv).value)
                            else old(overrides).(sourceUdpPort := UdpSourceOf(texts, cv).value,
                                                 destinationUdpPort := UdpDestinationOf(texts, cv).value))
    {
      stop := None;
      if UdpGuard(texts) {
        var source := UdpSourceOf(texts, cv);
        if !source.Converted? { return Some(FaultTitle(source, UdpErrorTitle)); }
        overrides := overrides.(sourceUdpPort := source.value);
        var destination := UdpDestinationOf(texts, cv);
        if !destination.Converted? { return Some(FaultTitle(destination, UdpErrorTitle)); }
        overrides := overrides.(destinationUdpPort := destination.value);
      }
    }

    /** The Ethernet, IP, TCP and UDP sections in order, up to the first
        failure. */
    method ReadSections(cv: Converters) returns (stop: Option<string>)
      modifies this`overrides, this`tcpDataPayload
      ensures stop == SectionStop(texts, cv)
      ensures stop.None? ==> overrides == SentOverrides(old(overrides), texts, cv)
      ensures stop.None? ==> tcpDataPayload == Some(ParseHex(BoxValue(texts.tcpPayload)))
    {
      stop := ReadEthernet(cv);
      if stop.Some? { return; }
      ghost var afterEth := overrides;
      ReadIp(cv);
      assert overrides == IpAfter(old(overrides), texts, cv).(sourceHw := afterEth.sourceHw, destinationHw := afterEth.destinationHw);
      stop := ReadTcp(cv);
      if stop.Some? { return; }
      stop := ReadUdp(cv);
    }

    /** buttonSend_Click: set the send mode, convert the boxes section by
        section and, when nothing stopped the handler, arm the capture window
        and close. A failure shows one error box and leaves the window open. */
    method ButtonSend(cv: Converters, selectedValue: Option<int32>) returns (armed: bool)
      modifies this`messages, this`overrides, this`tcpDataPayload, this`closed
      modifies captureForm`manipulated, captureForm`manipulatedOneSend, captureForm`readTimeout
      ensures armed <==> SendStop(texts, loopSendingIndex, readTimeoutIndex, cv, selectedValue).None?
      ensures messages == old(messages) + (if loopSendingIndex == -1 then [SendModeMessage] else [])
                          + (if armed then [] else [SendStop(texts, loopSendingIndex, readTimeoutIndex, cv, selectedValue).value])
      ensures captureForm.manipulated == (armed || old(captureForm.manipulated))
      ensures closed == (armed || old(closed))
      ensures captureForm.manipulatedOneSend ==
              if SendModeFor(loopSendingIndex).Some? then SendModeFor(loopSendingIndex).value
              else old(captureForm.manipulatedOneSend)
      ensures captureForm.readTimeout ==
              if loopSendingIndex == 0 && readTimeoutIndex == -1 then DefaultReadTimeout
              else if loopSendingIndex == 0 && selectedValue.Some? then selectedValue.value
              else old(captureForm.readTimeout)
      ensures armed ==> overrides == SentOverrides(old(overrides), texts, cv)
      ensures armed ==> tcpDataPayload == Some(ParseHex(BoxValue(texts.tcpPayload)))
    {
      armed := false;
      var ok := ApplySendMode(selectedValue);
      if !ok {
        messages := messages + [SendErrorTitle];
        return;
      }
      var stop := ReadSections(cv);
      if stop.Some? {
        messages := messages + [stop.value];
        return;
      }
      captureForm.manipulated := true;
      closed := true;
      armed := true;
    }

    /** buttonClose_Click: disarm the capture window and close. */
    method ButtonClose()
      modifies this`closed, captureForm`manipulated
      ensures !captureForm.manipulated && closed
    {
      captureForm.manipulated := false;
      closed := true;
    }
  }
}
