/** The packed `arq_frame` wire frame and its header accessors
  * (include/sctrltp/packets.h). Header fields are kept as the host sees them
  * in memory: the setters store the byte-swapped (network order) value and
  * the getters swap back. */
module Frames {
  import opened Base
  import opened ByteOrder
  import opened Defines

  /** Byte offsets of the packed layout. */
  const ACK_OFFSET: nat := 0
  const SEQ_OFFSET: nat := 4
  const PTYPE_OFFSET: nat := 8
  const LEN_OFFSET: nat := 10
  const COMMANDS_OFFSET: nat := 12

  /** Size in bytes of a frame carrying `len` payload words, as
    * `sctpreq_get_size` computes it. */
  function FrameSize(len: u16): (r: u32)
    ensures r >= MIN_PACKET_SIZE
    ensures r - COMMANDS_OFFSET == len * WORD_SIZE
  {
    var size: int := ARQ_HEADER_SIZE + TYPLEN_SIZE + len * WORD_SIZE;
    var floored: int := if size < MIN_PACKET_SIZE then MIN_PACKET_SIZE else size;
    floored
  }

  class ArqFrame {
    var ack: u32
    var seqNr: u32
    var ptype: u16
    var len: u16
    const commands: array<u64>

    ghost predicate Valid()
      reads this
    {
      commands.Length == MAX_PDUWORDS
    }

    /** A frame buffer as handed out by the allocator: contents unspecified. */
    constructor ()
      ensures Valid() && fresh(commands)
    {
      commands := new u64[MAX_PDUWORDS];
    }

    /** `sctpreq_get_len`: payload length in words. */
    function GetLen(): (r: u16)
      reads this
      ensures Bswap16(r) == len
    {
      Bswap16Involution(len);
      Bswap16(len)
    }

    /** `sctpreq_get_typ`: the packet type. */
    function GetTyp(): (r: u16)
      reads this
      ensures Bswap16(r) == ptype
    {
      Bswap16Involution(ptype);
      Bswap16(ptype)
    }

    /** `sctpreq_get_seq`. */
    function GetSeq(): (r: u32)
      reads this
      ensures Bswap32(r) == seqNr
    {
      Bswap32Involution(seqNr);
      Bswap32(seqNr)
    }

    /** `sctpreq_get_ack`. */
    function GetAck(): (r: u32)
      reads this
      ensures Bswap32(r) == ack
    {
      Bswap32Involution(ack);
      Bswap32(ack)
    }

    /** `sctpreq_get_size`. */
    function GetSize(): (r: u32)
      reads this
      ensures r >= MIN_PACKET_SIZE
      ensures r == COMMANDS_OFFSET + GetLen() * WORD_SIZE
    {
      FrameSize(GetLen())
    }

    /** `sctpsomething_get_size`: a read of at most MIN_PACKET_SIZE bytes is an
      * ack-only frame; anything longer is sized by its LEN field. */
    function SomethingGetSize(nread: nat): (r: u32)
      reads this
      ensures nread <= MIN_PACKET_SIZE ==> r == MIN_PACKET_SIZE
      ensures nread > MIN_PACKET_SIZE ==> r == GetSize()
    {
      if nread <= MIN_PACKET_SIZE then MIN_PACKET_SIZE else FrameSize(GetLen())
    }

    /** `sctpreq_set_header`. */
    method SetHeader(l: u16, t: u16)
      modifies this
      ensures GetLen() == l && GetTyp() == t
      ensures ack == old(ack) && seqNr == old(seqNr)
    {
      len := Bswap16(l);
      ptype := Bswap16(t);
      Bswap16Involution(l);
      Bswap16Involution(t);
    }

    /** `sctpreq_set_seq`. */
    method SetSeq(s: u32)
      modifies this
      ensures GetSeq() == s
      ensures ack == old(ack) && ptype == old(ptype) && len == old(len)
    {
      seqNr := Bswap32(s);
      Bswap32Involution(s);
    }

    /** `sctpreq_set_ack`. */
    method SetAck(a: u32)
      modifies this
      ensures GetAck() == a
      ensures seqNr == old(seqNr) && ptype == old(ptype) && len == old(len)
    {
      ack := Bswap32(a);
      Bswap32Involution(a);
    }

    /** The bytes of the packed frame in memory, which is also what goes on
      * the wire. */
    function Image(): (b: seq<u8>)
      reads this, commands
      requires Valid()
      ensures |b| == COMMANDS_OFFSET + WORD_SIZE * MAX_PDUWORDS
    {
      LeBytes(ack, 4) + LeBytes(seqNr, 4) + LeBytes(ptype, 2) + LeBytes(len, 2)
        + WordsLe(commands[..])
    }
  }

  /** The header fields of the packed frame appear at their offsets in
    * network byte order, and payload word `i` occupies the 8 bytes at
    * offset 12 + 8*i. */
  lemma HeaderInNetworkOrder(f: ArqFrame, i: nat, j: nat)
    requires f.Valid() && i < MAX_PDUWORDS && j < WORD_SIZE
    ensures f.Image()[ACK_OFFSET..SEQ_OFFSET] == BeBytes(f.GetAck(), 4)
    ensures f.Image()[SEQ_OFFSET..PTYPE_OFFSET] == BeBytes(f.GetSeq(), 4)
    ensures f.Image()[PTYPE_OFFSET..LEN_OFFSET] == BeBytes(f.GetTyp(), 2)
    ensures f.Image()[LEN_OFFSET..COMMANDS_OFFSET] == BeBytes(f.GetLen(), 2)
    ensures f.Image()[COMMANDS_OFFSET + 8 * i + j] == LeBytes(f.commands[i], 8)[j]
  {
    Bswap32Involution(f.GetAck());
    Bswap32Involution(f.GetSeq());
    Bswap16Involution(f.GetTyp());
    Bswap16Involution(f.GetLen());
    WordsLeAt(f.commands[..], i, j);
  }

  /** `arq_ackframe`: an acknowledgement-only frame. */
  class AckFrame {
    var ack: u32

    constructor ()
    {
    }

    /** `sctpack_set_ack`: stores ACK in network byte order. */
    method SetAck(a: u32)
      modifies this
      ensures Bswap32(ack) == a
      ensures LeBytes(ack, 4) == BeBytes(a, 4)
    {
      ack := Bswap32(a);
      Bswap32Involution(a);
    }
  }

  /** `arq_resetframe`. */
  class ResetFrame {
    var magicWord: u32

    constructor ()
    {
    }

    /** `sctpreset_init`: the magic word 0xABABABAB, big-endian on the wire. */
    method Init()
      modifies this
      ensures Bswap32(magicWord) == HW_HOSTARQ_MAGICWORD
      ensures LeBytes(magicWord, 4) == [0xAB, 0xAB, 0xAB, 0xAB]
    {
      MagicWordIsSymmetric();
      magicWord := Bswap32(HW_HOSTARQ_MAGICWORD);
    }
  }

  /** 0xABABABAB reads the same in either byte order. */
  lemma MagicWordIsSymmetric()
    ensures LeBytes(HW_HOSTARQ_MAGICWORD, 4) == [0xAB, 0xAB, 0xAB, 0xAB]
    ensures Bswap32(HW_HOSTARQ_MAGICWORD) == HW_HOSTARQ_MAGICWORD
  {
    var ab: seq<u8> := [0xAB, 0xAB, 0xAB, 0xAB];
    assert LeBytes(0, 0) == [];
    assert LeBytes(0xAB, 1) == ab[..1];
    assert LeBytes(0xABAB, 2) == ab[..2];
    assert LeBytes(0xAB_ABAB, 3) == ab[..3];
    assert LeBytes(0xABAB_ABAB, 4) == ab;
    assert Reverse(ab) == ab;
    assert FromLe(ab[3..]) == 0xAB;
    assert FromLe(ab[2..]) == 0xABAB;
    assert FromLe(ab[1..]) == 0xAB_ABAB;
    assert FromLe(ab) == 0xABAB_ABAB;
    assert Pow256(4) == POW32;
  }
}
