/** The deterministic part of the loopback test (tools/LoopbackTest.cpp):
  * its settings, the packet-length and payload generators, the payload
  * checkers and the statistics. Random lengths and payloads are not part
  * of this model. */
module Loopback {
  import opened Base
  import opened Defines
  import opened LoopbackModes
  import Packets

  datatype OverflowError = OverflowError

  /** `LoopbackTest::Settings`; durations in seconds. */
  datatype Settings = Settings(
    runtime: nat, timeout: nat,
    packetMode: PacketMode, payloadMode: PayloadMode,
    payloadSeed: u64, lengthSeed: u32,
    packetLength: nat, corner: nat,
    printProgress: bool, maxRetries: nat)

  /** The default settings: one minute, 5 s grace, random packets of up to
    * MAX_PDUWORDS words. */
  const DefaultSettings: Settings :=
    Settings(60, 5, Random, PRandom, 42, 52, MAX_PDUWORDS, 1000, false, 1000)

  /** The 64-bit successor and predecessor of a payload word. */
  function Inc64(x: u64): u64 { (x + 1) % POW64 }
  function Dec64(x: u64): u64 { (x - 1) % POW64 }

  /** The direction of a sequential payload. */
  datatype Direction = Up | Down
  {
    function Step(x: u64): u64 { if this == Up then Inc64(x) else Dec64(x) }
  }

  /** The word `i` steps from `start` in direction `d`, wrapping at 2^64. */
  function Offset(d: Direction, start: u64, i: nat): u64
  {
    if d == Up then (start + i) % POW64 else (start - i) % POW64
  }

  lemma StepOffset(d: Direction, start: u64, i: nat)
    ensures d.Step(Offset(d, start, i)) == Offset(d, start, i + 1)
  {
    if d == Up {
      ModSum(start + i, 1, POW64);
    } else {
      ModSum(start - i, -1, POW64);
    }
  }

  /** `n` words counting from `start` in direction `d`. */
  function Words(d: Direction, start: u64, n: nat): (ws: seq<u64>)
    ensures |ws| == n
    ensures forall i :: 0 <= i < n ==> ws[i] == Offset(d, start, i)
  {
    seq(n, i requires 0 <= i => Offset(d, start, i))
  }

  /** The word a checker expects at position `i` of `ws`: the start for
    * the first, and one step from the previous word (as received) after
    * that. */
  function ExpectedAt(d: Direction, exp0: u64, ws: seq<u64>, i: nat): u64
    requires i < |ws|
  {
    if i == 0 then exp0 else d.Step(ws[i - 1])
  }

  /** The words of `ws` that differ from what the checker expects. */
  function Errors(d: Direction, exp0: u64, ws: seq<u64>): nat
  {
    if ws == [] then 0
    else Errors(d, exp0, ws[..|ws| - 1]) + (if ws[|ws| - 1] != ExpectedAt(d, exp0, ws, |ws| - 1) then 1 else 0)
  }

  /** The checker finds no error in a payload the matching generator made
    * from the same start. */
  lemma {:induction false} GeneratedPayloadChecksClean(d: Direction, start: u64, n: nat)
    ensures Errors(d, start, Words(d, start, n)) == 0
  {
    if n > 0 {
      var ws := Words(d, start, n);
      assert ws[..n - 1] == Words(d, start, n - 1);
      GeneratedPayloadChecksClean(d, start, n - 1);
      if n >= 2 {
        StepOffset(d, start, n - 2);
      } else {
        ModSmall(start, POW64);
      }
    }
  }

  /** The incremental length rule: 1, 2, ..., packet_length - 1, 1, ... */
  function IncrementalLen(counter: nat, packetLength: nat): (len: nat)
    requires packetLength >= 2
    ensures 1 <= len <= packetLength - 1
  {
    counter % (packetLength - 1) + 1
  }

  /** The decremental length rule as written: packet_length + 1 at the start
    * of every period, one word more than the packet may hold. */
  function DecrementalLenAsWritten(counter: nat, packetLength: nat): (len: nat)
    requires packetLength >= 2
    ensures 3 <= len <= packetLength + 1
  {
    packetLength - counter % (packetLength - 1) + 1
  }

  /** With the default packet length the first decremental packet would be
    * 181 words long, past the end of a 180-word payload. */
  lemma DecrementalLenOverflows()
    ensures DecrementalLenAsWritten(0, MAX_PDUWORDS) == MAX_PDUWORDS + 1
  {
  }

  /** The decremental length rule without the stray `+ 1`: packet_length,
    * packet_length - 1, ..., 2, then around again. */
  function DecrementalLen(counter: nat, packetLength: nat): (len: nat)
    requires packetLength >= 2
    ensures 2 <= len <= packetLength
    ensures len == DecrementalLenAsWritten(counter, packetLength) - 1
  {
    packetLength - counter % (packetLength - 1)
  }

  /** Within a period, each incremental packet is one word longer than the
    * last, each decremental one a word shorter. */
  lemma LengthsStep(counter: nat, packetLength: nat)
    requires packetLength >= 2 && (counter + 1) % (packetLength - 1) != 0
    ensures IncrementalLen(counter + 1, packetLength) == IncrementalLen(counter, packetLength) + 1
    ensures DecrementalLen(counter + 1, packetLength) == DecrementalLen(counter, packetLength) - 1
  {
    var m := packetLength - 1;
    var r := counter % m;
    assert counter == (counter / m) * m + r;
    if r + 1 < m {
      ModUnique(counter + 1, m, counter / m, r + 1);
    } else {
      ModUnique(counter + 1, m, counter / m + 1, 0);
    }
  }

  /** The length of the next packet in `mode`, for the deterministic modes.
    * The decremental mode uses the corrected rule `DecrementalLen`, one word
    * shorter than `DecrementalLenAsWritten`, so that the default length of
    * MAX_PDUWORDS stays inside the payload array. */
  function PacketLen(mode: PacketMode, s: Settings, sentPackets: nat, sentPayload: nat): (len: nat)
    requires mode != Random
    requires mode in {SequenceIncremental, SequenceDecremental} ==> s.packetLength >= 2
    requires mode == Corner ==> s.corner > 0
    ensures mode == Max ==> len == s.packetLength
    ensures mode == Min ==> len == 1
    ensures mode == Corner ==> len == if sentPayload % s.corner != 0 then MAX_PDUWORDS else 1
    ensures mode == SequenceIncremental ==> 1 <= len < s.packetLength
    ensures mode == SequenceDecremental ==> 2 <= len <= s.packetLength
    ensures mode == SequenceDecremental ==> len == DecrementalLenAsWritten(sentPackets, s.packetLength) - 1
    ensures mode != Corner && s.packetLength <= MAX_PDUWORDS ==> len <= MAX_PDUWORDS
  {
    match mode
    case SequenceIncremental => IncrementalLen(sentPackets, s.packetLength)
    case SequenceDecremental => DecrementalLen(sentPackets, s.packetLength)
    case Corner => if sentPayload % s.corner != 0 then MAX_PDUWORDS else 1
    case Max => s.packetLength
    case Min => 1
  }

  function DirectionOf(m: PayloadMode): Direction
    requires m != PRandom
  {
    if m == PSequenceIncremental then Up else Down
  }

  class LoopbackTest {
    var settings: Settings
    /** The packet maker `set_settings` bound last. */
    var makeMode: PacketMode
    var expectedNextWord: u64
    var nextWordToSend: u64
    var sentPayloadCounter: nat
    var receivedPayloadCounter: nat
    var sentPacketCounter: nat
    var receivedPacketCounter: nat
    var errorCounter: nat
    var approxBandwidth: real
    var timerRunning: bool
    var receiveRunning: bool
    const testPacket: Packets.Packet

    ghost predicate Valid()
      reads this, testPacket
    {
      testPacket.Valid()
    }

    /** The test packet is a loopback packet of MAX_PDUWORDS words; the
      * settings are applied and the statistics reset. */
    constructor (s: Settings)
      requires s.packetLength <= MAX_PDUWORDS
      ensures Valid() && fresh(testPacket) && fresh(testPacket.pdu)
      ensures testPacket.pid == PTYPE_LOOPBACK && testPacket.len == MAX_PDUWORDS
      ensures settings == s && makeMode == s.packetMode
      ensures s.payloadMode == PSequenceDecremental ==>
        expectedNextWord == POW64 - 1 && nextWordToSend == POW64 - 1
      ensures s.payloadMode != PSequenceDecremental ==> expectedNextWord == 0 && nextWordToSend == 0
      ensures sentPayloadCounter == 0 && sentPacketCounter == 0 && errorCounter == 0
      ensures receivedPayloadCounter == 0 && receivedPacketCounter == 0
      ensures approxBandwidth == -1.0 && timerRunning && receiveRunning
    {
      testPacket := new Packets.Packet();
      expectedNextWord := 0;
      nextWordToSend := 0;
      makeMode := s.packetMode;
      new;
      testPacket.pid := PTYPE_LOOPBACK;
      testPacket.len := MAX_PDUWORDS;
      var r := SetSettings(s);
      StatsReset();
    }

    /** `stats_reset`: all counters to zero, no bandwidth estimate yet, and
      * both loops allowed to run. */
    method StatsReset()
      modifies this
      ensures sentPayloadCounter == 0 && receivedPayloadCounter == 0
      ensures sentPacketCounter == 0 && receivedPacketCounter == 0 && errorCounter == 0
      ensures approxBandwidth == -1.0 && timerRunning && receiveRunning
      ensures settings == old(settings) && makeMode == old(makeMode)
      ensures expectedNextWord == old(expectedNextWord) && nextWordToSend == old(nextWordToSend)
    {
      sentPayloadCounter := 0;
      receivedPayloadCounter := 0;
      sentPacketCounter := 0;
      receivedPacketCounter := 0;
      errorCounter := 0;
      approxBandwidth := -1.0;
      timerRunning := true;
      receiveRunning := true;
    }

    /** `set_settings`: stores the settings and binds the payload
      * generator, starting a sequential payload at 0 (incremental) or at
      * 2^64 - 1 (decremental). A packet length above MAX_PDUWORDS then
      * throws `overflow_error` before the packet maker is bound. */
    method SetSettings(s: Settings) returns (r: Result<(), OverflowError>)
      modifies this
      ensures settings == s
      ensures s.payloadMode == PSequenceIncremental ==> expectedNextWord == 0 && nextWordToSend == 0
      ensures s.payloadMode == PSequenceDecremental ==>
        expectedNextWord == POW64 - 1 && nextWordToSend == POW64 - 1
      ensures s.payloadMode == PRandom ==>
        expectedNextWord == old(expectedNextWord) && nextWordToSend == old(nextWordToSend)
      ensures r.Err? <==> s.packetLength > MAX_PDUWORDS
      ensures r.Err? ==> makeMode == old(makeMode)
      ensures r.Ok? ==> makeMode == s.packetMode
      ensures sentPayloadCounter == old(sentPayloadCounter) && sentPacketCounter == old(sentPacketCounter)
      ensures errorCounter == old(errorCounter) && receivedPayloadCounter == old(receivedPayloadCounter)
    {
      settings := s;
      match s.payloadMode {
        case PRandom =>
        case PSequenceIncremental =>
          expectedNextWord := 0;
          nextWordToSend := 0;
        case PSequenceDecremental =>
          expectedNextWord := POW64 - 1;
          nextWordToSend := POW64 - 1;
      }
      if s.packetLength > MAX_PDUWORDS {
        return Err(OverflowError);
      }
      makeMode := s.packetMode;
      r := Ok(());
    }

    /** The `make_*_packet` bound to the deterministic modes: sets the
      * length, fills that many words from the sequential payload generator
      * and counts them as sent. Decremental packets follow the corrected
      * length rule of `PacketLen`, one word shorter than as written. */
    method MakePacket()
      requires Valid() && makeMode != Random && settings.payloadMode != PRandom
      requires settings.packetLength <= MAX_PDUWORDS
      requires makeMode in {SequenceIncremental, SequenceDecremental} ==> settings.packetLength >= 2
      requires makeMode == Corner ==> settings.corner > 0
      modifies this, testPacket, testPacket.pdu
      ensures Valid()
      ensures settings == old(settings) && makeMode == old(makeMode) && sentPacketCounter == old(sentPacketCounter)
      ensures expectedNextWord == old(expectedNextWord) && errorCounter == old(errorCounter)
      ensures testPacket.pid == old(testPacket.pid)
      ensures var len := PacketLen(makeMode, settings, sentPacketCounter, old(sentPayloadCounter));
        var d := DirectionOf(settings.payloadMode);
        && testPacket.len == len
        && testPacket.pdu[..len] == Words(d, old(nextWordToSend), len)
        && testPacket.pdu[len..] == old(testPacket.pdu[len..])
        && nextWordToSend == Offset(d, old(nextWordToSend), len)
        && sentPayloadCounter == old(sentPayloadCounter) + len
        && receivedPayloadCounter == old(receivedPayloadCounter)
    {
      var len := PacketLen(makeMode, settings, sentPacketCounter, sentPayloadCounter);
      testPacket.len := len;
      FillPayload(DirectionOf(settings.payloadMode), len);
    }

    /** The fill loop shared by the `make_*_packet` functions: each word
      * is counted as sent, none as received. */
    method FillPayload(d: Direction, len: nat)
      requires Valid() && len <= MAX_PDUWORDS
      modifies this, testPacket.pdu
      ensures settings == old(settings) && makeMode == old(makeMode) && sentPacketCounter == old(sentPacketCounter)
      ensures expectedNextWord == old(expectedNextWord) && errorCounter == old(errorCounter)
      ensures testPacket.pdu[..len] == Words(d, old(nextWordToSend), len)
      ensures testPacket.pdu[len..] == old(testPacket.pdu[len..])
      ensures nextWordToSend == Offset(d, old(nextWordToSend), len)
      ensures sentPayloadCounter == old(sentPayloadCounter) + len
      ensures receivedPayloadCounter == old(receivedPayloadCounter)
    {
      ghost var start := nextWordToSend;
      ModSmall(start, POW64);
      var i := 0;
      while i < len
        invariant i <= len
        invariant testPacket.pdu[..i] == Words(d, start, i)
        invariant testPacket.pdu[len..] == old(testPacket.pdu[len..])
        invariant nextWordToSend == Offset(d, start, i)
        invariant sentPayloadCounter == old(sentPayloadCounter) + i
        invariant receivedPayloadCounter == old(receivedPayloadCounter)
        invariant settings == old(settings) && makeMode == old(makeMode) && sentPacketCounter == old(sentPacketCounter)
        invariant expectedNextWord == old(expectedNextWord) && errorCounter == old(errorCounter)
      {
        var w := NextWord(d);
        testPacket.pdu[i] := w;
        assert testPacket.pdu[..i + 1] == Words(d, start, i) + [w];
        StepOffset(d, start, i);
        sentPayloadCounter := sentPayloadCounter + 1;
        i := i + 1;
      }
    }

    /** `make_incremental_sequence_payload` / `make_decremental_…`: the
      * current word, after which the counter steps. */
    method NextWord(d: Direction) returns (w: u64)
      modifies this
      ensures w == old(nextWordToSend) && nextWordToSend == d.Step(w)
      ensures d == Up ==> nextWordToSend == (w + 1) % POW64
      ensures d == Down ==> nextWordToSend == (w - 1) % POW64
      ensures settings == old(settings) && makeMode == old(makeMode)
      ensures sentPayloadCounter == old(sentPayloadCounter) && sentPacketCounter == old(sentPacketCounter)
      ensures receivedPayloadCounter == old(receivedPayloadCounter)
      ensures expectedNextWord == old(expectedNextWord) && errorCounter == old(errorCounter)
    {
      w := nextWordToSend;
      nextWordToSend := d.Step(w);
    }

    /** `check_incremental_sequence_payload` / `check_decremental_…`:
      * counts the received words that differ from the expected ones; the
      * next expected word always follows the word actually received. */
    method CheckPayload(d: Direction, received: Packets.Packet)
      requires received.Valid() && received.len <= MAX_PDUWORDS
      modifies this
      ensures var ws := received.pdu[..received.len];
        && errorCounter == old(errorCounter) + Errors(d, old(expectedNextWord), ws)
        && expectedNextWord == (if ws == [] then old(expectedNextWord) else d.Step(ws[|ws| - 1]))
        && receivedPayloadCounter == old(receivedPayloadCounter) + |ws|
      ensures settings == old(settings) && nextWordToSend == old(nextWordToSend)
      ensures sentPayloadCounter == old(sentPayloadCounter) && receivedPacketCounter == old(receivedPacketCounter)
    {
      ghost var exp0 := expectedNextWord;
      var i := 0;
      while i < received.len
        invariant i <= received.len
        invariant errorCounter == old(errorCounter) + Errors(d, exp0, received.pdu[..i])
        invariant expectedNextWord == if i == 0 then exp0 else d.Step(received.pdu[i - 1])
        invariant receivedPayloadCounter == old(receivedPayloadCounter) + i
        invariant settings == old(settings) && nextWordToSend == old(nextWordToSend)
        invariant sentPayloadCounter == old(sentPayloadCounter) && receivedPacketCounter == old(receivedPacketCounter)
      {
        assert received.pdu[..i + 1][..i] == received.pdu[..i];
        if received.pdu[i] != expectedNextWord {
          errorCounter := errorCounter + 1;
        }
        expectedNextWord := d.Step(received.pdu[i]);
        receivedPayloadCounter := receivedPayloadCounter + 1;
        i := i + 1;
      }
      assert received.pdu[..received.len] == received.pdu[..i];
    }
  }
}
