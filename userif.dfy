/** The user-level helpers of src/us_sctp_if.cpp and its C twin
  * src/us_sctp_if.c: frame assembly (`init_buf`, `append_words`), the
  * chunking of `SCTP_Send`, the copy-out of `SCTP_Recv`, the argument checks
  * of `send_buf`/`rel_buf` and `tx_queues_empty`. */
module UserIf {
  import opened Base
  import opened Defines
  import opened ByteOrder
  import Frames
  import Fifo
  import Batching

  const MODE_SAFE: bv8 := 0x01
  const MODE_NONBLOCK: bv8 := 0x02
  const MODE_FLUSH: bv8 := 0x04
  const MODE_TX: bv8 := 0x08

  function Min(a: int, b: int): int
  {
    if a <= b then a else b
  }

  /** `init_buf`: an empty frame of type 0. */
  method InitBuf(f: Frames.ArqFrame) returns (r: int)
    modifies f
    ensures r == 1 && f.GetLen() == 0 && f.GetTyp() == 0
    ensures f.ack == old(f.ack) && f.seqNr == old(f.seqNr)
  {
    f.SetHeader(0, 0);
    r := 1;
  }

  /** The number of words `append_words` appends to a frame holding `len`:
    * as many as asked for, up to a full frame. */
  function AppendCount(len: nat, num: u32): (c: nat)
    requires len <= MAX_PDUWORDS
    ensures c <= num && len + c <= MAX_PDUWORDS
    ensures c == num || len + c == MAX_PDUWORDS
  {
    Min(num, MAX_PDUWORDS - len)
  }

  /** The count as written: `max_num = curr_num + num` is a 32-bit sum that
    * can wrap before it is clamped, and `count = max_num - curr_num` is a
    * 32-bit difference. */
  function AppendCountAsWritten(len: u32, num: u32): (c: u32)
    ensures len + num < POW32 && len <= MAX_PDUWORDS ==> c == AppendCount(len, num)
  {
    var maxNum := (len + num) % POW32;
    var clamped := if maxNum > MAX_PDUWORDS then MAX_PDUWORDS else maxNum;
    SubU32(clamped, len)
  }

  /** Appending 2^32 - 1 words to a frame holding one word wraps the sum to
    * 0, which passes the clamp, and the count becomes 2^32 - 1: far more
    * words than the frame holds are written past its payload. */
  lemma AppendCountWraps()
    ensures AppendCountAsWritten(1, 0xFFFF_FFFF) == 0xFFFF_FFFF
    ensures AppendCount(1, 0xFFFF_FFFF) == MAX_PDUWORDS - 1
  {
  }

  /** `append_words`, with the word count computed without wrap-around (see
    * `AppendCountAsWritten`). An empty frame adopts `ptype`; a non-empty
    * frame of another type is SC_CORRUPT and left alone. Otherwise the
    * next `AppendCount` words are taken from `values` (zeros for a NULL
    * `values`), the words already present are kept, LEN grows by the count
    * and the count is returned. */
  method AppendWords(f: Frames.ArqFrame, ptype: u16, num: u32, values: Option<seq<u64>>) returns (r: int)
    requires f.Valid() && f.GetLen() <= MAX_PDUWORDS
    requires values.Some? ==> |values.value| == num
    modifies f, f.commands
    ensures f.Valid() && f.ack == old(f.ack) && f.seqNr == old(f.seqNr)
    ensures old(f.GetLen()) != 0 && old(f.GetTyp()) != ptype ==>
      r == SC_CORRUPT && unchanged(f) && unchanged(f.commands)
    ensures old(f.GetLen()) == 0 || old(f.GetTyp()) == ptype ==>
      var len := old(f.GetLen());
      var count := AppendCount(len, num);
      && r == count
      && f.GetLen() == len + count && f.GetTyp() == ptype
      && f.commands[..len] == old(f.commands[..len])
      && f.commands[len..len + count] == (if values.Some? then values.value[..count] else Zeros(count))
      && f.commands[len + count..] == old(f.commands[len + count..])
  {
    var len := f.GetLen();
    if len == 0 {
      f.SetHeader(0, ptype);
    }
    var typ := f.GetTyp();
    if typ != ptype {
      return SC_CORRUPT;
    }
    var count := AppendCount(len, num);
    var words := if values.Some? then values.value[..count] else Zeros(count);
    ghost var before := f.commands[..];
    assert before == old(f.commands[..]);
    CopyWords(f.commands, len, words);
    ghost var after := f.commands[..];
    f.SetHeader(len + count, ptype);
    assert f.commands[..] == after;
    r := count;
  }

  /** `memcpy`/`memset` of `src` into `a` at word offset `at`. */
  method CopyWords(a: array<u64>, at: nat, src: seq<u64>)
    requires at + |src| <= a.Length
    modifies a
    ensures a[..at] == old(a[..at])
    ensures a[at..at + |src|] == src
    ensures a[at + |src|..] == old(a[at + |src|..])
  {
    forall i | at <= i < at + |src| {
      a[i] := src[i - at];
    }
  }

  function Zeros(n: nat): (z: seq<u64>)
    ensures |z| == n && forall i :: 0 <= i < n ==> z[i] == 0
  {
    seq(n, _ => 0)
  }

  // ---------------------------------------------------------------------
  // SCTP_Send chunking

  /** How many frames `SCTP_Send` fills for `n` words. */
  function NumChunks(n: nat): nat
  {
    (n + MAX_PDUWORDS - 1) / MAX_PDUWORDS
  }

  /** The word count of frame `c`: full frames, then the rest. */
  function ChunkLen(n: nat, c: nat): (j: nat)
    requires c < NumChunks(n)
    ensures 1 <= j <= MAX_PDUWORDS
  {
    Min(MAX_PDUWORDS, n - MAX_PDUWORDS * c)
  }

  /** The words frame `c` carries. */
  function Chunk(p: seq<u64>, c: nat): (s: seq<u64>)
    requires c < NumChunks(|p|)
    ensures |s| == ChunkLen(|p|, c)
  {
    p[MAX_PDUWORDS * c .. MAX_PDUWORDS * c + ChunkLen(|p|, c)]
  }

  /** The words of the first `k` frames, frame after frame. */
  function Joined(p: seq<u64>, k: nat): seq<u64>
    requires k <= NumChunks(|p|)
  {
    if k == 0 then [] else Joined(p, k - 1) + Chunk(p, k - 1)
  }

  /** Where frame `c` starts in the payload, and that frame `c` exists
    * exactly while that position is short of the end. */
  lemma ChunkStep(n: nat, c: nat)
    ensures Min(MAX_PDUWORDS * c, n) < n <==> c < NumChunks(n)
    ensures c < NumChunks(n) ==>
      Min(MAX_PDUWORDS * (c + 1), n) == Min(MAX_PDUWORDS * c, n) + ChunkLen(n, c)
  {
  }

  /** The frames of `SCTP_Send` carry the payload exactly, in order. */
  lemma {:induction false} JoinedIsPrefix(p: seq<u64>, k: nat)
    requires k <= NumChunks(|p|)
    ensures Joined(p, k) == p[..Min(MAX_PDUWORDS * k, |p|)]
  {
    if k > 0 {
      JoinedIsPrefix(p, k - 1);
    }
  }

  lemma ChunksCoverPayload(p: seq<u64>)
    ensures Joined(p, NumChunks(|p|)) == p
  {
    JoinedIsPrefix(p, NumChunks(|p|));
  }

  /** Frames handed out for sending are distinct buffers. */
  ghost predicate DistinctFrames(pool: seq<Frames.ArqFrame>)
    reads set i | 0 <= i < |pool| :: pool[i]
  {
    && (forall i :: 0 <= i < |pool| ==> pool[i].Valid())
    && (forall i, j :: 0 <= i < j < |pool| ==> pool[i] != pool[j] && pool[i].commands != pool[j].commands)
  }

  /** `SCTP_Send`: a missing descriptor is -1. Otherwise the `num` words of
    * `payload` are split into frames of MAX_PDUWORDS words and a last,
    * shorter one; each frame gets type `typ` and its words, and `num` is
    * returned. `pool` stands for the frames successive `fetch_frames` calls
    * hand out; `sent` lists the frames filled, in the order they are given
    * to `push_frames`. */
  method Send(hasDesc: bool, typ: u16, payload: seq<u64>, pool: seq<Frames.ArqFrame>)
    returns (r: int, sent: seq<Frames.ArqFrame>)
    requires |payload| < POW32
    requires hasDesc ==> |pool| >= NumChunks(|payload|) && DistinctFrames(pool)
    modifies set i | 0 <= i < |pool| :: pool[i]
    modifies set i | 0 <= i < |pool| :: pool[i].commands
    ensures !hasDesc ==> r == -1 && sent == []
    ensures hasDesc ==>
      && r == |payload| && |sent| == NumChunks(|payload|) && sent == pool[..|sent|]
      && forall c :: 0 <= c < |sent| ==> Filled(sent[c], typ, Chunk(payload, c))
  {
    if !hasDesc {
      return -1, [];
    }
    var num := |payload|;
    var i := 0;
    var c := 0;
    ChunkStep(num, 0);
    while i < num
      invariant c <= NumChunks(num) && i == Min(MAX_PDUWORDS * c, num)
      invariant DistinctFrames(pool)
      invariant forall k :: 0 <= k < c ==> Filled(pool[k], typ, Chunk(payload, k))
      decreases num - i
    {
      assert c < NumChunks(num) by {
        ChunkStep(num, c);
      }
      var j := if num - i >= MAX_PDUWORDS then MAX_PDUWORDS else num - i;
      assert j == ChunkLen(num, c) && i + j == Min(MAX_PDUWORDS * (c + 1), num) by {
        ChunkStep(num, c);
      }
      assert payload[i..i + j] == Chunk(payload, c);
      FillNext(pool, c, typ, payload, payload[i..i + j]);
      i := i + j;
      c := c + 1;
    }
    assert c == NumChunks(num) by {
      ChunkStep(num, c);
    }
    r := num;
    sent := pool[..c];
  }

  /** Fills frame `c` of the pool with chunk `c`; the frames before it,
    * all distinct from it, keep their contents. */
  method FillNext(pool: seq<Frames.ArqFrame>, c: nat, typ: u16, payload: seq<u64>, words: seq<u64>)
    requires c < NumChunks(|payload|) && c < |pool| && DistinctFrames(pool)
    requires words == Chunk(payload, c)
    requires forall k :: 0 <= k < c ==> Filled(pool[k], typ, Chunk(payload, k))
    modifies pool[c], pool[c].commands
    ensures DistinctFrames(pool)
    ensures forall k :: 0 <= k <= c ==> Filled(pool[k], typ, Chunk(payload, k))
  {
    FillFrame(pool[c], typ, words);
  }

  /** Frame `f` has type `typ` and carries exactly `words`. */
  ghost predicate Filled(f: Frames.ArqFrame, typ: u16, words: seq<u64>)
    reads f, f.commands
  {
    && f.GetTyp() == typ && f.GetLen() == |words| && |words| <= f.commands.Length
    && f.commands[..|words|] == words
  }

  /** One iteration of `SCTP_Send`: header and payload of a fresh frame. */
  method FillFrame(f: Frames.ArqFrame, typ: u16, words: seq<u64>)
    requires f.Valid() && |words| <= MAX_PDUWORDS
    modifies f, f.commands
    ensures f.Valid() && Filled(f, typ, words)
  {
    f.SetHeader(|words|, typ);
    CopyWords(f.commands, 0, words);
  }

  /** `SCTP_Recv`: a missing descriptor, type, length or buffer pointer is
    * -1 and nothing changes. Otherwise the next received frame `f`, at
    * address `ptr` (what `fetch_frames` hands out), reports its length and
    * type, its LEN words are copied into `resp`, the frame is recycled by
    * `push_frames` into the receive side's cache `out` and queue `q`, and 0
    * is returned. */
  method Recv(hasDesc: bool, hasTyp: bool, hasNum: bool, resp: array?<u64>, f: Frames.ArqFrame,
              out: Batching.AllocCache, q: Fifo.Fifo<Batching.Alloc>, base: u64, ptr: u64)
    returns (r: int, typ: u16, num: u16)
    requires f.Valid() && f.GetLen() <= MAX_PDUWORDS
    requires resp != null ==> resp.Length >= f.GetLen() && resp != out.fptr
    requires out.Valid() && q.Valid() && Batching.QueueWellFormed(q) && ptr != 0
    requires out.next >= PARALLEL_FRAMES ==> q.nrFull < q.nrElem
    modifies resp, out, out.fptr, q, q.data
    ensures !(hasDesc && hasTyp && hasNum && resp != null) ==> r == -1
    ensures !(hasDesc && hasTyp && hasNum && resp != null) ==>
      unchanged(out) && unchanged(out.fptr) && unchanged(q) && unchanged(q.data)
    ensures resp != null && !(hasDesc && hasTyp && hasNum) ==> unchanged(resp)
    ensures hasDesc && hasTyp && hasNum && resp != null ==>
      && r == 0 && num == old(f.GetLen()) && typ == old(f.GetTyp())
      && resp[..num] == old(f.commands[..f.GetLen()])
      && resp[num..] == old(resp[num..])
    ensures out.Valid() && q.Valid() && Batching.QueueWellFormed(q)
    ensures hasDesc && hasTyp && hasNum && resp != null ==>
      Batching.Flatten(q.Contents()) + out.Pending()
        == old(Batching.Flatten(q.Contents()) + out.Pending()) + [Fifo.GetRelPtr(base, ptr)]
  {
    if !hasDesc || resp == null || !hasTyp || !hasNum {
      return -1, 0, 0;
    }
    num := f.GetLen();
    typ := f.GetTyp();
    CopyWords(resp, 0, f.commands[..num]);
    ghost var pushed := out.PushFrames(q, base, ptr, false);
    r := 0;
  }

  /** The argument check shared by `send_buf` and `rel_buf`: no buffer is
    * only allowed together with MODE_FLUSH. */
  function BufArgCheck(hasBuf: bool, mode: bv8): (r: Option<int>)
    ensures r == Some(SC_INVAL) <==> !hasBuf && mode & MODE_FLUSH == 0
    ensures r.None? <==> hasBuf || mode & MODE_FLUSH != 0
  {
    if !hasBuf && mode & MODE_FLUSH == 0 then Some(SC_INVAL) else None
  }

  /** `tx_queues_empty`: 1 when no transmit queue holds an entry, else 0. */
  method TxQueuesEmpty(queues: seq<Fifo.Fifo<Batching.Alloc>>) returns (r: int)
    ensures r in {0, 1}
    ensures r == 1 <==> forall q :: 0 <= q < |queues| ==> queues[q].nrFull == 0
  {
    var q := 0;
    while q < |queues|
      invariant q <= |queues|
      invariant forall k :: 0 <= k < q ==> queues[k].nrFull == 0
    {
      if queues[q].nrFull != 0 {
        return 0;
      }
      q := q + 1;
    }
    return 1;
  }
}
