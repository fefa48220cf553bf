/** The loopback test's mode enums and their one-letter command-line tokens
  * (tools/LoopbackTest.h). Each enumerator's value is the character of its
  * token. */
module LoopbackModes {
  import opened Base

  datatype PacketMode = Corner | Random | Max | Min | SequenceIncremental | SequenceDecremental
  {
    /** The enumerator's underlying character. */
    function Value(): (c: char)
    {
      match this
      case Corner => 'c'
      case Random => 'r'
      case Max => 'm'
      case Min => 'n'
      case SequenceIncremental => 's'
      case SequenceDecremental => 'd'
    }
  }

  datatype PayloadMode = PRandom | PSequenceIncremental | PSequenceDecremental
  {
    function Value(): (c: char)
    {
      match this
      case PRandom => 'r'
      case PSequenceIncremental => 's'
      case PSequenceDecremental => 'd'
    }
  }

  /** `operator>>` for PacketMode: the mode named by `token`, or the
    * stream's failbit (`None`), in which case the target keeps its value. */
  function ParsePacketMode(token: string): (r: Option<PacketMode>)
  {
    if token == "r" then Some(Random)
    else if token == "s" then Some(SequenceIncremental)
    else if token == "d" then Some(SequenceDecremental)
    else if token == "c" then Some(Corner)
    else if token == "m" then Some(Max)
    else if token == "n" then Some(Min)
    else None
  }

  /** `operator>>` for PayloadMode. */
  function ParsePayloadMode(token: string): (r: Option<PayloadMode>)
  {
    if token == "r" then Some(PRandom)
    else if token == "s" then Some(PSequenceIncremental)
    else if token == "d" then Some(PSequenceDecremental)
    else None
  }

  /** Exactly the one-character token of a mode's value parses, to that mode. */
  lemma ParsePacketModeIsValue(token: string, m: PacketMode)
    ensures ParsePacketMode(token) == Some(m) <==> token == [m.Value()]
  {
  }

  lemma ParsePayloadModeIsValue(token: string, m: PayloadMode)
    ensures ParsePayloadMode(token) == Some(m) <==> token == [m.Value()]
  {
  }

  /** The assignment `in >> tt`: the target after reading `token`, and
    * whether failbit was set. */
  function ReadPacketMode(token: string, target: PacketMode): (r: (PacketMode, bool))
    ensures r.1 <==> ParsePacketMode(token).None?
    ensures r.1 ==> r.0 == target
    ensures !r.1 ==> [r.0.Value()] == token
  {
    match ParsePacketMode(token)
    case Some(m) => (m, false)
    case None => (target, true)
  }

  function ReadPayloadMode(token: string, target: PayloadMode): (r: (PayloadMode, bool))
    ensures r.1 <==> ParsePayloadMode(token).None?
    ensures r.1 ==> r.0 == target
    ensures !r.1 ==> [r.0.Value()] == token
  {
    match ParsePayloadMode(token)
    case Some(m) => (m, false)
    case None => (target, true)
  }
}
