/** The capture window (CaptureForm): the capture-device callback that
    optionally transmits a mutated packet and then hands the frame to the
    ingest queue, and the background worker that swaps the queue out, numbers
    each frame, filters it and collects the accepted wrappers for display.
    The two threads, the queue lock, the 250 ms sleep and the marshalling of
    the filter onto the UI thread become atomic sequential steps here. */
module Capture {
  import opened Common
  import opened Packets
  import opened Filter
  import DeviceList

  /** Times the callback transmits the mutated packet per captured frame. */
  const Burst: nat := 1000

  /** `new TimeSpan(0, 0, 2)`, in 100 ns ticks as `DateTime` counts them. */
  const StatisticsInterval: int := 20_000_000

  /** Initial value of the public `readTimeout` field. */
  const DefaultReadTimeout: int32 := 1000

  // ---------------------------------------------------------------------
  // The ingest queue over any interleaving of arrivals and worker drains.

  datatype QueueOp = Arrive(frame: RawFrame) | Drain

  /** The active queue and the batches the worker has taken so far. */
  datatype QueueState = QueueState(active: seq<RawFrame>, batches: seq<seq<RawFrame>>)

  /** The state after a sequence of operations, starting from an empty queue.
      An arrival appends to the active queue; a drain that finds the queue
      empty only sleeps, otherwise it takes the whole queue as one batch and
      installs an empty one. */
  function RunQueue(ops: seq<QueueOp>): QueueState
    decreases |ops|
  {
    if ops == [] then QueueState([], [])
    else
      var st := RunQueue(ops[..|ops| - 1]);
      match ops[|ops| - 1]
      case Arrive(f) => st.(active := st.active + [f])
      case Drain => if st.active == [] then st else QueueState([], st.batches + [st.active])
  }

  /** The frames delivered by the arrivals of `ops`, in order. */
  function Arrivals(ops: seq<QueueOp>): seq<RawFrame>
    decreases |ops|
  {
    if ops == [] then []
    else
      var rest := Arrivals(ops[..|ops| - 1]);
      match ops[|ops| - 1]
      case Arrive(f) => rest + [f]
      case Drain => rest
  }

  function Flatten(batches: seq<seq<RawFrame>>): seq<RawFrame>
    decreases |batches|
  {
    if batches == [] then [] else Flatten(batches[..|batches| - 1]) + batches[|batches| - 1]
  }

  /** Every arrived frame is, exactly once and in arrival order, either in
      one of the drained batches or still in the active queue. */
  lemma {:induction false} QueueConservesFrames(ops: seq<QueueOp>)
    ensures Flatten(RunQueue(ops).batches) + RunQueue(ops).active == Arrivals(ops)
    decreases |ops|
  {
    if ops != [] {
      var init := ops[..|ops| - 1];
      QueueConservesFrames(init);
      var st := RunQueue(init);
      if ops[|ops| - 1].Arrive? {
        var f := ops[|ops| - 1].frame;
        assert RunQueue(ops) == st.(active := st.active + [f]);
        assert Arrivals(ops) == Arrivals(init) + [f];
        assert Flatten(st.batches) + (st.active + [f]) == (Flatten(st.batches) + st.active) + [f];
      } else if st.active != [] {
        var bs := st.batches + [st.active];
        assert RunQueue(ops) == QueueState([], bs);
        assert bs[..|bs| - 1] == st.batches;
        assert Flatten(bs) == Flatten(st.batches) + st.active;
      }
    }
  }

  /** The worker never takes an empty batch. */
  lemma {:induction false} BatchesNonEmpty(ops: seq<QueueOp>)
    ensures forall i :: 0 <= i < |RunQueue(ops).batches| ==> RunQueue(ops).batches[i] != []
    decreases |ops|
  {
    if ops != [] {
      BatchesNonEmpty(ops[..|ops| - 1]);
    }
  }

  /** One arrival appends to the active queue. */
  lemma RunQueueArrive(ops: seq<QueueOp>, f: RawFrame)
    ensures RunQueue(ops + [Arrive(f)]) == RunQueue(ops).(active := RunQueue(ops).active + [f])
  {
    assert (ops + [Arrive(f)])[..|ops|] == ops;
  }

  /** One drain takes the whole active queue as a batch, unless it is empty. */
  lemma RunQueueDrain(ops: seq<QueueOp>)
    ensures var st := RunQueue(ops);
            RunQueue(ops + [Drain]) == if st.active == [] then st else QueueState([], st.batches + [st.active])
  {
    assert (ops + [Drain])[..|ops|] == ops;
  }

  // ---------------------------------------------------------------------
  // What the worker does with one batch.

  /** The wrappers the batch adds to the display queue and the value of
      `packetCount` afterwards. */
  datatype BatchResult = BatchResult(accepted: seq<PacketWrapper>, nextCount: int32)

  /** The display filter as the worker applies it: a wrapper is added only
      when OutThis returns true; an exception it throws is caught by the
      filter's own `try` and the wrapper is dropped. */
  function FilterOf(crit: Criteria): PacketWrapper -> bool {
    w => Accepts(crit, w)
  }

  /** The worker's `foreach` over a swapped-out batch, inside its single
      `try`: every parsed frame gets the current number, the number is
      incremented whether or not `keep` (the filter) accepts, and the first
      frame whose parse throws ends the whole batch. */
  function ProcessBatch(batch: seq<RawFrame>, count: int32, keep: PacketWrapper -> bool, parse: RawFrame -> ParseResult): BatchResult
    decreases |batch|
  {
    if batch == [] || parse(batch[0]).ParseFailed? then BatchResult([], count)
    else Prepend(keep, Wrap(count, batch[0], parse(batch[0]).packet),
                 ProcessBatch(batch[1..], Increment32(count), keep, parse))
  }

  /** Adds one numbered wrapper in front of the rest of the batch's result. */
  function Prepend(keep: PacketWrapper -> bool, w: PacketWrapper, rest: BatchResult): BatchResult {
    BatchResult(if keep(w) then [w] + rest.accepted else rest.accepted, rest.nextCount)
  }

  /** Position of the first frame whose parse throws, or the batch length. */
  function FirstFailure(batch: seq<RawFrame>, parse: RawFrame -> ParseResult): (k: nat)
    ensures k <= |batch|
    ensures forall i :: 0 <= i < k ==> parse(batch[i]).Parsed?
    ensures k < |batch| ==> parse(batch[k]).ParseFailed?
    decreases |batch|
  {
    if batch == [] || parse(batch[0]).ParseFailed? then 0
    else 1 + FirstFailure(batch[1..], parse)
  }

  /** `count` after `n` increments. */
  function CountAfter(count: int32, n: nat): int32
    decreases n
  {
    if n == 0 then count else CountAfter(Increment32(count), n - 1)
  }

  /** The wrappers of frames that all parse, numbered from `count` on. */
  function Numbered(frames: seq<RawFrame>, count: int32, parse: RawFrame -> ParseResult): (ws: seq<PacketWrapper>)
    requires forall i :: 0 <= i < |frames| ==> parse(frames[i]).Parsed?
    ensures |ws| == |frames|
    decreases |frames|
  {
    if frames == [] then []
    else [Wrap(count, frames[0], parse(frames[0]).packet)] + Numbered(frames[1..], Increment32(count), parse)
  }

  /** The wrappers among `ws` that the filter accepts, in order. */
  function Kept(keep: PacketWrapper -> bool, ws: seq<PacketWrapper>): seq<PacketWrapper>
    decreases |ws|
  {
    if ws == [] then []
    else if keep(ws[0]) then [ws[0]] + Kept(keep, ws[1..])
    else Kept(keep, ws[1..])
  }

  /** The i-th numbered wrapper carries the i-th frame and the number reached
      after i increments. */
  lemma {:induction false} NumberedAt(frames: seq<RawFrame>, count: int32, parse: RawFrame -> ParseResult, i: nat)
    requires forall j :: 0 <= j < |frames| ==> parse(frames[j]).Parsed?
    requires i < |frames|
    ensures Numbered(frames, count, parse)[i] == Wrap(CountAfter(count, i), frames[i], parse(frames[i]).packet)
    ensures var w := Numbered(frames, count, parse)[i];
            && w.count == CountAfter(count, i) && w.p == frames[i] && w.ip == parse(frames[i]).packet.ip
            && (parse(frames[i]).packet.ethType.Some? ==> w.typeName == parse(frames[i]).packet.ethType.value)
            && (parse(frames[i]).packet.ethType.None? ==> w.typeName == DefaultTypeName)
    decreases i
  {
    if i > 0 {
      NumberedAt(frames[1..], Increment32(count), parse, i - 1);
    }
  }

  /** A batch is processed as: number the frames before the first parse
      failure consecutively, keep those the filter accepts; the counter
      advances once per numbered frame, accepted or not. */
  lemma {:induction false} ProcessBatchSpec(batch: seq<RawFrame>, count: int32, keep: PacketWrapper -> bool, parse: RawFrame -> ParseResult)
    ensures var k := FirstFailure(batch, parse);
            && ProcessBatch(batch, count, keep, parse).accepted == Kept(keep, Numbered(batch[..k], count, parse))
            && ProcessBatch(batch, count, keep, parse).nextCount == CountAfter(count, k)
    decreases |batch|
  {
    if batch != [] && parse(batch[0]).Parsed? {
      ProcessBatchSpec(batch[1..], Increment32(count), keep, parse);
      var k := FirstFailure(batch, parse);
      assert batch[..k][1..] == batch[1..][..k - 1];
    }
  }

  /** A parse failure at position k: the result is that of the first k frames
      alone, so nothing after k is numbered or displayed. */
  lemma FailureDropsRestOfBatch(batch: seq<RawFrame>, count: int32, keep: PacketWrapper -> bool, parse: RawFrame -> ParseResult, k: nat)
    requires k < |batch| && parse(batch[k]).ParseFailed?
    requires forall i :: 0 <= i < k ==> parse(batch[i]).Parsed?
    ensures ProcessBatch(batch, count, keep, parse) == ProcessBatch(batch[..k], count, keep, parse)
    ensures ProcessBatch(batch, count, keep, parse).nextCount == CountAfter(count, k)
  {
    ProcessBatchSpec(batch, count, keep, parse);
    ProcessBatchSpec(batch[..k], count, keep, parse);
    assert FirstFailure(batch, parse) == k;
    assert FirstFailure(batch[..k], parse) == k;
    assert batch[..k][..k] == batch[..k];
  }

  /** Without wrap-around, n increments add n. */
  lemma {:induction false} CountAfterNoWrap(count: int32, n: nat)
    requires count + n <= MaxInt32
    ensures CountAfter(count, n) == count + n
    decreases n
  {
    if n > 0 {
      CountAfterNoWrap(Increment32(count), n - 1);
    }
  }

  /** All (displayed) numbers of `acc` lie in [lo, hi). */
  predicate NumbersWithin(acc: seq<PacketWrapper>, lo: int, hi: int) {
    forall i :: 0 <= i < |acc| ==> lo <= acc[i].count < hi
  }

  predicate NumbersIncrease(acc: seq<PacketWrapper>) {
    forall i, j :: 0 <= i < j < |acc| ==> acc[i].count < acc[j].count
  }

  /** While the counter does not wrap, the numbers accepted from one batch
      lie in [count, count + |batch|) and strictly increase. */
  lemma {:induction false} AcceptedNumbersIncrease(batch: seq<RawFrame>, count: int32, keep: PacketWrapper -> bool, parse: RawFrame -> ParseResult)
    requires count + |batch| <= MaxInt32
    ensures NumbersWithin(ProcessBatch(batch, count, keep, parse).accepted, count, count + |batch|)
    ensures NumbersIncrease(ProcessBatch(batch, count, keep, parse).accepted)
    decreases |batch|
  {
    if batch != [] && parse(batch[0]).Parsed? {
      var w := Wrap(count, batch[0], parse(batch[0]).packet);
      var next := Increment32(count);
      assert next == count + 1;
      var rest := ProcessBatch(batch[1..], next, keep, parse).accepted;
      AcceptedNumbersIncrease(batch[1..], next, keep, parse);
      assert NumbersWithin(rest, count + 1, count + |batch|);
      if keep(w) {
        var acc := [w] + rest;
        assert ProcessBatch(batch, count, keep, parse).accepted == acc;
        assert forall i :: 1 <= i < |acc| ==> acc[i] == rest[i - 1];
        assert NumbersWithin(acc, count, count + |batch|);
        assert NumbersIncrease(acc);
      } else {
        assert ProcessBatch(batch, count, keep, parse).accepted == rest;
      }
    }
  }

  /** One frame of the worker's loop, read off ProcessBatch at position i. */
  lemma ProcessBatchStep(batch: seq<RawFrame>, i: nat, count: int32, keep: PacketWrapper -> bool, parse: RawFrame -> ParseResult)
    requires i < |batch|
    ensures parse(batch[i]).ParseFailed? ==> ProcessBatch(batch[i..], count, keep, parse) == BatchResult([], count)
    ensures parse(batch[i]).Parsed? ==>
              var w := Wrap(count, batch[i], parse(batch[i]).packet);
              var rest := ProcessBatch(batch[i + 1..], Increment32(count), keep, parse);
              ProcessBatch(batch[i..], count, keep, parse)
              == BatchResult(if keep(w) then [w] + rest.accepted else rest.accepted, rest.nextCount)
  {
    assert batch[i..][0] == batch[i] && batch[i..][1..] == batch[i + 1..];
  }

  /** The filter is consulted on every numbered frame: Kept holds exactly
      the accepted members, in their order. */
  lemma {:induction false} KeptMembers(keep: PacketWrapper -> bool, ws: seq<PacketWrapper>, w: PacketWrapper)
    ensures w in Kept(keep, ws) <==> w in ws && keep(w)
    decreases |ws|
  {
    if ws != [] {
      KeptMembers(keep, ws[1..], w);
      assert w in ws <==> w == ws[0] || w in ws[1..];
    }
  }

  /** With the display filter: a wrapper of the batch is displayed exactly
      when the filter criteria accept it. */
  lemma KeptByFilter(crit: Criteria, ws: seq<PacketWrapper>, w: PacketWrapper)
    ensures w in Kept(FilterOf(crit), ws) <==> w in ws && SourceOk(crit, w) && DestinationOk(crit, w) && TypeOk(crit, w)
  {
    KeptMembers(FilterOf(crit), ws, w);
    AcceptsIff(crit, w);
  }

  // ---------------------------------------------------------------------
  // Display order

  /** The display source `packetStrings.Reverse()`. */
  function Reversed(s: seq<PacketWrapper>): seq<PacketWrapper>
    decreases |s|
  {
    if s == [] then [] else [s[|s| - 1]] + Reversed(s[..|s| - 1])
  }

  /** The display lists the accepted wrappers most recent first. */
  lemma {:induction false} ReversedAt(s: seq<PacketWrapper>, k: nat)
    requires k < |s|
    ensures |Reversed(s)| == |s| && Reversed(s)[k] == s[|s| - 1 - k]
    decreases |s|
  {
    if k > 0 {
      ReversedAt(s[..|s| - 1], k - 1);
    } else if |s| > 1 {
      ReversedAt(s[..|s| - 1], 0);
    }
  }

  // ---------------------------------------------------------------------
  // Mutation: which packet the callback transmits.

  /** Where an exception interrupts the construction inside the callback's
      `try`: in the Ethernet part (RandomPacket and the hardware-address
      setters), the IP part, the TCP part or the UDP part. */
  datatype BuildFault = EthStep | IpStep | TcpStep | UdpStep

  /** The value of `packet` when the callback's `try` block ends, for a frame
      parsed as `d`. Each layer is built from its own random packet and
      replaces the previous choice; a fault keeps the last value assigned. */
  function BuildOutgoing(frame: RawFrame, d: Decoded, t: MutationTemplate, rnd: Randoms, fault: Option<BuildFault>): Outgoing {
    if !d.isEthernet || fault == Some(EthStep) then Original(frame)
    else
      var eth := SynthEth(rnd.eth, t.sourceHw, t.destinationHw);
      if fault == Some(IpStep) || !(t.sourceIp.Some? && t.destinationIp.Some?) then eth
      else
        var ip := SynthIp(rnd.ip, t.sourceIp.value, t.destinationIp.value, t.timeToLive);
        if fault == Some(TcpStep) then ip
        else
          var afterTcp :=
            if t.sourceTcpPort != 0 && t.destinationTcpPort != 0 then
              SynthTcp(rnd.tcp.seed, t.sourceTcpPort, t.destinationTcpPort,
                       !rnd.tcp.syn, !rnd.tcp.fin, !rnd.tcp.ack,
                       t.windowSize, t.acknowledgmentNumber, t.sequenceNumber)
            else ip;
          if fault == Some(UdpStep) then afterTcp
          else if t.sourceUdpPort != 0 && t.destinationUdpPort != 0 then
            SynthUdp(rnd.udp, t.sourceUdpPort, t.destinationUdpPort)
          else afterTcp
  }

  /** Which layer is transmitted, stated as a decision table: the original
      packet unless it is Ethernet; then UDP if the IP and UDP overrides are
      set; else TCP if the IP and TCP overrides are set; else IP if the IP
      overrides are set; else Ethernet. */
  datatype Layer = OriginalLayer | EthLayer | IpLayer | TcpLayer | UdpLayer

  function ExpectedLayer(d: Decoded, t: MutationTemplate): Layer {
    var ipSet := t.sourceIp.Some? && t.destinationIp.Some?;
    if !d.isEthernet then OriginalLayer
    else if !ipSet then EthLayer
    else if t.sourceUdpPort != 0 && t.destinationUdpPort != 0 then UdpLayer
    else if t.sourceTcpPort != 0 && t.destinationTcpPort != 0 then TcpLayer
    else IpLayer
  }

  function LayerOf(p: Outgoing): Layer {
    match p
    case Original(_) => OriginalLayer
    case SynthEth(_, _, _) => EthLayer
    case SynthIp(_, _, _, _) => IpLayer
    case SynthTcp(_, _, _, _, _, _, _, _, _) => TcpLayer
    case SynthUdp(_, _, _) => UdpLayer
  }

  /** Without an exception the transmitted layer follows the decision table,
      and its fields are the overrides (TCP flags inverted from the random
      packet's). */
  lemma BuildFollowsTable(frame: RawFrame, d: Decoded, t: MutationTemplate, rnd: Randoms)
    ensures var p := BuildOutgoing(frame, d, t, rnd, None);
            && LayerOf(p) == ExpectedLayer(d, t)
            && (p.Original? ==> p.frame == frame)
            && (p.SynthEth? ==> p.sourceHw == t.sourceHw && p.destinationHw == t.destinationHw)
            && (p.SynthIp? ==> Some(p.source) == t.sourceIp && Some(p.destination) == t.destinationIp
                               && p.timeToLive == t.timeToLive)
            && (p.SynthTcp? ==> p.sourcePort == t.sourceTcpPort && p.destinationPort == t.destinationTcpPort
                                && p.syn == !rnd.tcp.syn && p.fin == !rnd.tcp.fin && p.ack == !rnd.tcp.ack
                                && p.windowSize == t.windowSize
                                && p.acknowledgmentNumber == t.acknowledgmentNumber
                                && p.sequenceNumber == t.sequenceNumber)
            && (p.SynthUdp? ==> p.sourcePort == t.sourceUdpPort && p.destinationPort == t.destinationUdpPort)
  {
  }

  /** An exception in one part of the construction leaves the packet chosen
      before that part: the original for the Ethernet part, the synthetic
      Ethernet packet for the IP part, the IP packet for the TCP part. */
  lemma FaultKeepsEarlierChoice(frame: RawFrame, d: Decoded, t: MutationTemplate, rnd: Randoms)
    ensures BuildOutgoing(frame, d, t, rnd, Some(EthStep)) == Original(frame)
    ensures d.isEthernet ==> BuildOutgoing(frame, d, t, rnd, Some(IpStep)) == SynthEth(rnd.eth, t.sourceHw, t.destinationHw)
    ensures d.isEthernet && t.sourceIp.Some? && t.destinationIp.Some? ==>
              BuildOutgoing(frame, d, t, rnd, Some(TcpStep))
              == SynthIp(rnd.ip, t.sourceIp.value, t.destinationIp.value, t.timeToLive)
  {
  }

  /** How many of the Burst sends happen when the send at position k throws
      (None: none throws). A throw at position 0 also stands for
      `UpdateCalculatedValues` throwing before the loop. */
  function SentCount(sendFaultAt: Option<nat>): (n: nat)
    ensures n <= Burst
    ensures n == Burst <==> sendFaultAt.None? || sendFaultAt.value >= Burst
  {
    match sendFaultAt
    case None => Burst
    case Some(k) => if k < Burst then k else Burst
  }

  /** The packets of `n` sends of `p`, one after another. */
  function Repeat(p: Outgoing, n: nat): seq<Outgoing>
    decreases n
  {
    if n == 0 then [] else Repeat(p, n - 1) + [p]
  }

  /** n sends transmit n copies of the same packet. */
  lemma {:induction false} RepeatAt(p: Outgoing, n: nat)
    ensures |Repeat(p, n)| == n
    ensures forall i :: 0 <= i < n ==> Repeat(p, n)[i] == p
    decreases n
  {
    if n > 0 {
      RepeatAt(p, n - 1);
    }
  }

  // ---------------------------------------------------------------------

  class CaptureForm {
    /** ParsePacket followed by Extract, as seen by this model. */
    const parse: RawFrame -> ParseResult

    var backgroundThreadStop: bool
    var packetQueue: seq<RawFrame>
    /** The arrivals and worker turns seen so far. */
    ghost var queueOps: seq<QueueOp>

    var lastStatisticsOutput: int
    var device: Option<CaptureDevice>
    var openTimeout: int32
    var deviceName: string
    var packetStrings: seq<PacketWrapper>
    var displayed: seq<PacketWrapper>
    var packetCount: int32
    var captureStatistics: Option<Statistics>
    var shownStatistics: Option<Statistics>
    var statisticsUiNeedsUpdate: bool

    var manipulated: bool
    var manipulatedOneSend: bool
    var readTimeout: int32

    /** Texts of the three filter boxes. */
    var filterSourceIp: string
    var filterDestinationIp: string
    var filterType: string

    /** Every packet handed to the device's SendPacket, in order. */
    var transmitted: seq<Outgoing>

    /** The ingest queue is the active queue of the operations seen so far;
        with QueueConservesFrames, no enqueued frame is lost or duplicated. */
    ghost predicate QueueFollowsOps()
      reads this`packetQueue, this`queueOps
    {
      packetQueue == RunQueue(queueOps).active
    }

    function FilterCriteria(): Criteria
      reads this`filterSourceIp, this`filterDestinationIp, this`filterType
    {
      Criteria(filterSourceIp, filterDestinationIp, filterType)
    }

    constructor (parse: RawFrame -> ParseResult)
      ensures this.parse == parse && QueueFollowsOps() && queueOps == []
      ensures packetQueue == []
      ensures !backgroundThreadStop && device == None && packetCount == 0
      ensures !manipulated && !manipulatedOneSend && readTimeout == DefaultReadTimeout
      ensures !statisticsUiNeedsUpdate && captureStatistics == None && shownStatistics == None
      ensures packetStrings == [] && displayed == [] && transmitted == []
      ensures filterSourceIp == "" && filterDestinationIp == "" && filterType == ""
    {
      this.parse := parse;
      backgroundThreadStop := false;
      packetQueue, queueOps := [], [];
      lastStatisticsOutput := 0;
      device, openTimeout, deviceName := None, 0, "";
      packetStrings, displayed, packetCount := [], [], 0;
      captureStatistics, shownStatistics, statisticsUiNeedsUpdate := None, None, false;
      manipulated, manipulatedOneSend, readTimeout := false, false, DefaultReadTimeout;
      filterSourceIp, filterDestinationIp, filterType := "", "", "";
      transmitted := [];
    }

    /** StartCapture: numbering restarts at 0, the display queue is replaced,
        the worker's stop flag is cleared and the device is opened with the
        current read timeout. The ingest queue is not reset. */
    method StartCapture(d: CaptureDevice, now: int, stats: Statistics)
      modifies this`packetCount, this`device, this`openTimeout, this`deviceName, this`packetStrings,
               this`displayed, this`lastStatisticsOutput, this`backgroundThreadStop,
               this`captureStatistics, this`shownStatistics
      ensures packetCount == 0 && device == Some(d) && openTimeout == readTimeout
      ensures deviceName == DeviceList.DisplayName(d.name)
      ensures packetStrings == [] && displayed == []
      ensures lastStatisticsOutput == now && !backgroundThreadStop
      ensures captureStatistics == Some(stats) && shownStatistics == Some(stats)
    {
      packetCount := 0;
      device := Some(d);
      deviceName := DeviceList.DisplayName(d.name);
      packetStrings := [];
      displayed := [];
      lastStatisticsOutput := now;
      backgroundThreadStop := false;
      openTimeout := readTimeout;
      captureStatistics := Some(stats);
      shownStatistics := captureStatistics;
    }

    /** Shutdown: with an open device, close it and ask the worker to stop. */
    method Shutdown()
      modifies this`device, this`backgroundThreadStop
      ensures device == None
      ensures backgroundThreadStop == (old(backgroundThreadStop) || old(device).Some?)
    {
      if device.Some? {
        device := None;
        backgroundThreadStop := true;
      }
    }

    /** The callback's locked append to the ingest queue. */
    method EnqueueFrame(frame: RawFrame)
      requires QueueFollowsOps()
      modifies this`packetQueue, this`queueOps
      ensures QueueFollowsOps()
      ensures packetQueue == old(packetQueue) + [frame] && queueOps == old(queueOps) + [Arrive(frame)]
    {
      RunQueueArrive(queueOps, frame);
      packetQueue := packetQueue + [frame];
      queueOps := queueOps + [Arrive(frame)];
    }

    /** The worker's locked swap: take the whole queue, install an empty one. */
    method SwapQueue() returns (batch: seq<RawFrame>)
      requires QueueFollowsOps()
      modifies this`packetQueue, this`queueOps
      ensures QueueFollowsOps()
      ensures batch == old(packetQueue) && packetQueue == [] && queueOps == old(queueOps) + [Drain]
      ensures batch != [] ==> RunQueue(queueOps).batches == RunQueue(old(queueOps)).batches + [batch]
    {
      RunQueueDrain(queueOps);
      batch := packetQueue;
      packetQueue := [];
      queueOps := queueOps + [Drain];
    }

    /** `for (int i = 0; i < 1000; i++) device.SendPacket(packet);` where the
        send at position `sendFaultAt` (if any) throws. */
    method SendBurst(p: Outgoing, sendFaultAt: Option<nat>) returns (ok: bool)
      modifies this`transmitted
      ensures transmitted == old(transmitted) + Repeat(p, SentCount(sendFaultAt))
      ensures ok <==> SentCount(sendFaultAt) == Burst
    {
      var i := 0;
      while i < Burst
        invariant 0 <= i <= Burst
        invariant sendFaultAt.Some? ==> i <= sendFaultAt.value
        invariant transmitted == old(transmitted) + Repeat(p, i)
      {
        if sendFaultAt == Some(i) {
          return false;
        }
        transmitted := transmitted + [p];
        i := i + 1;
      }
      ok := true;
    }

    /** device_OnPacketArrival. While armed, the frame is parsed (a throw
        escapes the handler), the packet to send is built under `try`, a
        one-shot arming is cleared, and the packet is sent Burst times (a
        throw escapes the handler). Then, if more than the statistics interval
        has passed, a statistics snapshot is taken, and the frame is enqueued.
        `completed` is false when an exception left the handler; then the
        frame is not enqueued. */
    method OnPacketArrival(frame: RawFrame, t: MutationTemplate, rnd: Randoms, fault: Option<BuildFault>,
                           sendFaultAt: Option<nat>, now: int, deviceStats: Statistics)
      returns (completed: bool)
      requires QueueFollowsOps()
      modifies this`manipulated, this`transmitted, this`packetQueue, this`queueOps,
               this`captureStatistics, this`statisticsUiNeedsUpdate, this`lastStatisticsOutput
      ensures QueueFollowsOps()
      ensures completed <==> !old(manipulated) || (parse(frame).Parsed? && SentCount(sendFaultAt) == Burst)
      ensures !old(manipulated) ==> manipulated == old(manipulated) && transmitted == old(transmitted)
      ensures old(manipulated) && parse(frame).ParseFailed? ==> manipulated && transmitted == old(transmitted)
      ensures old(manipulated) && parse(frame).Parsed? ==>
                && manipulated == !manipulatedOneSend
                && transmitted == old(transmitted)
                   + Repeat(BuildOutgoing(frame, parse(frame).packet, t, rnd, fault), SentCount(sendFaultAt))
      ensures completed ==> packetQueue == old(packetQueue) + [frame] && queueOps == old(queueOps) + [Arrive(frame)]
      ensures !completed ==> packetQueue == old(packetQueue) && queueOps == old(queueOps)
      ensures if completed && now - old(lastStatisticsOutput) > StatisticsInterval
              then && captureStatistics == Some(deviceStats) && statisticsUiNeedsUpdate
                   && lastStatisticsOutput == now
              else && captureStatistics == old(captureStatistics)
                   && statisticsUiNeedsUpdate == old(statisticsUiNeedsUpdate)
                   && lastStatisticsOutput == old(lastStatisticsOutput)
    {
      if manipulated {
        var pack := parse(frame);
        if pack.ParseFailed? {
          return false;
        }
        var packet := BuildOutgoing(frame, pack.packet, t, rnd, fault);
        if manipulatedOneSend {
          manipulated := false;
        }
        var sentAll := SendBurst(packet, sendFaultAt);
        if !sentAll {
          return false;
        }
      }
      if now - lastStatisticsOutput > StatisticsInterval {
        captureStatistics := Some(deviceStats);
        statisticsUiNeedsUpdate := true;
        lastStatisticsOutput := now;
      }
      EnqueueFrame(frame);
      completed := true;
    }

    /** The worker's `foreach` over a swapped-out batch. */
    method ProcessQueue(ourQueue: seq<RawFrame>, keep: PacketWrapper -> bool)
      modifies this`packetStrings, this`packetCount
      ensures var r := ProcessBatch(ourQueue, old(packetCount), keep, parse);
              packetStrings == old(packetStrings) + r.accepted && packetCount == r.nextCount
    {
      ghost var whole := ProcessBatch(ourQueue, packetCount, keep, parse);
      var i := 0;
      while i < |ourQueue|
        invariant 0 <= i <= |ourQueue|
        invariant packetStrings + ProcessBatch(ourQueue[i..], packetCount, keep, parse).accepted
                  == old(packetStrings) + whole.accepted
        invariant ProcessBatch(ourQueue[i..], packetCount, keep, parse).nextCount == whole.nextCount
      {
        var frame := ourQueue[i];
        var pack := parse(frame);
        ProcessBatchStep(ourQueue, i, packetCount, keep, parse);
        if pack.ParseFailed? {
          break;
        }
        var w := Wrap(packetCount, frame, pack.packet);
        ghost var rest := ProcessBatch(ourQueue[i + 1..], Increment32(packetCount), keep, parse);
        if keep(w) {
          assert (packetStrings + [w]) + rest.accepted == packetStrings + ([w] + rest.accepted);
          packetStrings := packetStrings + [w];
        }
        packetCount := Increment32(packetCount);
        i := i + 1;
      }
    }

    /** One turn of BackgroundThread's loop. With the stop flag set the loop
        is left; with an empty queue the worker only sleeps; otherwise it
        swaps the queue out, processes the batch and refreshes the display
        (and the statistics label if a snapshot is pending). */
    method WorkerPass() returns (processed: bool)
      requires QueueFollowsOps()
      modifies this`packetQueue, this`queueOps, this`packetStrings, this`packetCount,
               this`displayed, this`shownStatistics, this`statisticsUiNeedsUpdate
      ensures QueueFollowsOps()
      ensures queueOps == if backgroundThreadStop then old(queueOps) else old(queueOps) + [Drain]
      ensures processed <==> !backgroundThreadStop && old(packetQueue) != []
      ensures processed ==> RunQueue(queueOps).batches == RunQueue(old(queueOps)).batches + [old(packetQueue)]
      ensures !processed ==> && packetQueue == old(packetQueue)
                             && packetStrings == old(packetStrings) && packetCount == old(packetCount)
                             && displayed == old(displayed) && shownStatistics == old(shownStatistics)
                             && statisticsUiNeedsUpdate == old(statisticsUiNeedsUpdate)
      ensures processed ==>
                && packetQueue == []
                && packetStrings == old(packetStrings) + ProcessBatch(old(packetQueue), old(packetCount), FilterOf(old(FilterCriteria())), parse).accepted
                && packetCount == ProcessBatch(old(packetQueue), old(packetCount), FilterOf(old(FilterCriteria())), parse).nextCount
                && displayed == Reversed(packetStrings)
                && shownStatistics == (if old(statisticsUiNeedsUpdate) then captureStatistics else old(shownStatistics))
                && !statisticsUiNeedsUpdate
    {
      if backgroundThreadStop {
        return false;
      }
      if packetQueue == [] {
        RunQueueDrain(queueOps);
        queueOps := queueOps + [Drain];
        return false;
      }
      var crit := FilterCriteria();
      var ourQueue := SwapQueue();
      ProcessQueue(ourQueue, FilterOf(crit));
      RefreshDisplay();
      processed := true;
    }

    /** The end of a worker turn on the UI thread: the grid shows the
        accepted wrappers newest first, and a pending statistics snapshot is
        written to the label. */
    method RefreshDisplay()
      modifies this`displayed, this`shownStatistics, this`statisticsUiNeedsUpdate
      ensures displayed == Reversed(packetStrings) && !statisticsUiNeedsUpdate
      ensures shownStatistics == if old(statisticsUiNeedsUpdate) then captureStatistics else old(shownStatistics)
    {
      displayed := Reversed(packetStrings);
      if statisticsUiNeedsUpdate {
        shownStatistics := captureStatistics;
        statisticsUiNeedsUpdate := false;
      }
    }
  }
}
