/** Values that the capture pipeline passes around: captured frames, what the
    packet library reports about them, the display record built for each
    frame, and the synthetic packets of the mutation engine. The packet
    library itself (parsing, random packets, checksums, transmission) is not
    part of this model; its answers are inputs. */
module Packets {
  import opened Common

  /** A captured frame as delivered by the capture device: timestamp,
      link-layer type and bytes. Never changed once captured. */
  datatype RawFrame = RawFrame(timeval: int, linkLayerType: nat, data: seq<uint8>)

  /** A hardware (MAC) address. */
  datatype HwAddress = HwAddress(bytes: seq<uint8>)

  /** An IP address, represented by the text its `ToString()` gives. */
  datatype IpAddress = IpAddress(text: string)

  /** Source and destination address of an IP packet; the capture worker
      copies both from the same IP layer, so they are present together. */
  datatype IpPair = IpPair(source: IpAddress, destination: IpAddress)

  /** What parsing a frame and extracting its layers reports:
      whether the outermost packet is Ethernet, the name of the Ethernet type
      of the extracted Ethernet layer (if any) and the addresses of the
      extracted IP layer (if any). */
  datatype Decoded = Decoded(isEthernet: bool, ethType: Option<string>, ip: Option<IpPair>)

  /** Parsing either throws or yields a decoded packet. */
  datatype ParseResult = ParseFailed | Parsed(packet: Decoded)

  /** Name of the default Ethernet type value, shown for a frame without an
      Ethernet layer (the wrapper's `Type` property is never assigned). */
  const DefaultTypeName: string := "None"

  /** The display record of one processed frame (CaptureForm.PacketWrapper):
      its sequence number, the frame, the IP pair and the Ethernet type name.
      The worker assigns the three properties right after construction and
      never again, so it is a value here. */
  datatype PacketWrapper = PacketWrapper(count: int32, p: RawFrame, ip: Option<IpPair>, typeName: string) {
    function Length(): nat { |p.data| }
    function Timeval(): int { p.timeval }
  }

  /** The wrapper the worker builds for a parsed frame. */
  function Wrap(count: int32, frame: RawFrame, d: Decoded): PacketWrapper {
    PacketWrapper(count, frame, d.ip, if d.ethType.Some? then d.ethType.value else DefaultTypeName)
  }

  // ---------------------------------------------------------------------
  // Mutation

  /** The field overrides kept by the manipulation form and read by the
      capture callback when it builds the packet to transmit. */
  datatype MutationTemplate = MutationTemplate(
    sourceHw: Option<HwAddress>, destinationHw: Option<HwAddress>,
    sourceIp: Option<IpAddress>, destinationIp: Option<IpAddress>, timeToLive: int32,
    sourceTcpPort: uint16, destinationTcpPort: uint16, windowSize: uint16,
    acknowledgmentNumber: uint32, sequenceNumber: uint32,
    sourceUdpPort: uint16, destinationUdpPort: uint16)

  /** The randomly generated packets the library's `RandomPacket` calls
      return; `seed` stands for every random field the callback does not
      overwrite, and the TCP flags are kept because the callback inverts them. */
  datatype RandomTcp = RandomTcp(seed: nat, syn: bool, fin: bool, ack: bool)
  datatype Randoms = Randoms(eth: nat, ip: nat, tcp: RandomTcp, udp: nat)

  /** The packet value handed to the device for transmission. */
  datatype Outgoing =
    | Original(frame: RawFrame)
    | SynthEth(ethSeed: nat, sourceHw: Option<HwAddress>, destinationHw: Option<HwAddress>)
    | SynthIp(ipSeed: nat, source: IpAddress, destination: IpAddress, timeToLive: int32)
    | SynthTcp(tcpSeed: nat, sourcePort: uint16, destinationPort: uint16, syn: bool, fin: bool, ack: bool,
               windowSize: uint16, acknowledgmentNumber: uint32, sequenceNumber: uint32)
    | SynthUdp(udpSeed: nat, sourcePort: uint16, destinationPort: uint16)

  /** Capture statistics as reported by the device. */
  datatype Statistics = Statistics(received: nat, dropped: nat, interfaceDropped: nat)

  /** A capture device; only its name is used by the modelled code. */
  datatype CaptureDevice = CaptureDevice(name: string)
}
