/** The user-level `packet` record (include/sctrltp/ARQFrame.h) and its
  * Python binding (pysctrltp/pysctrltp.cpp). */
module Packets {
  import opened Base
  import opened ByteOrder
  import opened Defines
  import Frames

  /** Python's `IndexError`, raised by the binding's element access. */
  datatype IndexError = IndexError

  /** Sizes in bytes of the header fields ack, seq, pid and len, in
    * declaration order. */
  const FIELD_SIZES: seq<nat> := [4, 4, 2, 2]

  /** Offsets of consecutive packed fields of the given sizes. */
  function Offsets(sizes: seq<nat>, start: nat): (r: seq<nat>)
    ensures |r| == |sizes|
  {
    if sizes == [] then [] else [start] + Offsets(sizes[1..], start + sizes[0])
  }

  function Sum(sizes: seq<nat>): nat
  {
    if sizes == [] then 0 else sizes[0] + Sum(sizes[1..])
  }

  /** The packed `packet` puts ack, seq, pid and len at the offsets of ACK,
    * SEQ, PTYPE and LEN in `arq_frame`, and the payload right after. */
  lemma LayoutMatchesFrame()
    ensures Offsets(FIELD_SIZES, 0)
         == [Frames.ACK_OFFSET, Frames.SEQ_OFFSET, Frames.PTYPE_OFFSET, Frames.LEN_OFFSET]
    ensures Sum(FIELD_SIZES) == Frames.COMMANDS_OFFSET
  {
  }

  class Packet {
    var ack: u32
    var seqNr: u32
    var pid: u16
    var len: u16
    const pdu: array<u64>

    ghost predicate Valid()
      reads this
    {
      pdu.Length == MAX_PDUWORDS
    }

    /** Only pid and len are initialised; ack, seq and the payload are not. */
    constructor ()
      ensures Valid() && fresh(pdu)
      ensures pid == 0xDEAD && len == 1
    {
      pdu := new u64[MAX_PDUWORDS];
      pid := 0xDEAD;
      len := 1;
    }

    /** `size()`: the header fields plus 8 bytes per payload word, the same
      * number of bytes as an `arq_frame` with the same LEN. */
    function Size(): (r: nat)
      reads this
      ensures r == Frames.FrameSize(len)
      ensures r == Sum(FIELD_SIZES) + WORD_SIZE * len
    {
      4 + 4 + 2 + 2 + len * 8
    }

    /** The `rawpdu` view of the payload union. */
    function RawPdu(): (b: seq<u8>)
      reads this, pdu
      requires Valid()
      ensures |b| == MAX_PDUWORDS * 8
    {
      WordsLe(pdu[..])
    }

    /** `operator[] const`: word `idx` of the payload, which is the same
      * memory as raw bytes 8*idx .. 8*idx+7. */
    function At(idx: nat): (r: u64)
      reads this, pdu
      requires Valid() && idx < MAX_PDUWORDS
      ensures RawPdu()[8 * idx .. 8 * idx + 8] == LeBytes(r, 8)
    {
      RawAliasesWord(this, idx);
      pdu[idx]
    }

    /** Assignment through the mutable `operator[]`. */
    method SetAt(idx: nat, e: u64)
      requires Valid() && idx < MAX_PDUWORDS
      modifies pdu
      ensures pdu[..] == old(pdu[..])[idx := e]
      ensures At(idx) == e
    {
      pdu[idx] := e;
    }

    /** `__getitem__`: raises IndexError at or beyond len. */
    function GetItem(idx: nat): (r: Result<u64, IndexError>)
      reads this, pdu
      requires Valid() && len <= MAX_PDUWORDS
      ensures r.Err? <==> idx >= len
      ensures r.Ok? ==> r.value == At(idx)
    {
      if idx >= len then Err(IndexError) else Ok(pdu[idx])
    }

    /** `__setitem__`: raises IndexError at or beyond len and leaves the
      * packet as it was; otherwise changes exactly one payload word, which
      * `__getitem__` then returns. */
    method SetItem(idx: nat, e: u64) returns (r: Result<(), IndexError>)
      requires Valid() && len <= MAX_PDUWORDS
      modifies pdu
      ensures r.Err? <==> idx >= len
      ensures r.Err? ==> pdu[..] == old(pdu[..])
      ensures r.Ok? ==> pdu[..] == old(pdu[..])[idx := e] && GetItem(idx) == Ok(e)
    {
      if idx >= len {
        return Err(IndexError);
      }
      pdu[idx] := e;
      r := Ok(());
    }

    /** The `len` property setter of the binding. */
    method SetLen(v: u16)
      modifies this
      ensures len == v && pid == old(pid) && ack == old(ack) && seqNr == old(seqNr)
    {
      len := v;
    }

    /** The `pid` property setter of the binding. */
    method SetPid(v: u16)
      modifies this
      ensures pid == v && len == old(len) && ack == old(ack) && seqNr == old(seqNr)
    {
      pid := v;
    }
  }

  /** Word `idx` and raw bytes 8*idx .. 8*idx+7 are the same memory. */
  lemma RawAliasesWord(p: Packet, idx: nat)
    requires p.Valid() && idx < MAX_PDUWORDS
    ensures p.RawPdu()[8 * idx .. 8 * idx + 8] == LeBytes(p.pdu[idx], 8)
  {
    forall j | 0 <= j < 8
      ensures p.RawPdu()[8 * idx .. 8 * idx + 8][j] == LeBytes(p.pdu[idx], 8)[j]
    {
      WordsLeAt(p.pdu[..], idx, j);
    }
  }

  /** The Python unit test: a fresh packet has len 1 and pid 0xDEAD; after
    * setting len to 3, the writes at indices 0, 1 and 2 all succeed. */
  method PacketTestScenario() returns (len0: u16, pid0: u16, words: seq<Result<u64, IndexError>>)
    ensures len0 == 1 && pid0 == 0xDEAD
    ensures words == [Ok(0), Ok(1), Ok(2), Err(IndexError)]
  {
    var p := new Packet();
    len0, pid0 := p.len, p.pid;
    p.SetLen(3);
    var r0 := p.SetItem(0, 0);
    var r1 := p.SetItem(1, 1);
    var r2 := p.SetItem(2, 2);
    assert r0.Ok? && r1.Ok? && r2.Ok?;
    words := [p.GetItem(0), p.GetItem(1), p.GetItem(2), p.GetItem(3)];
  }
}
