/** The simulated reference ARQ (`ARQStreamImpl`, simulation/ARQStream.cpp):
  * sending assigns consecutive sequence numbers, receiving delivers data
  * in order and keeps out-of-order data in a cache indexed by sequence
  * number. Random dropping is off (both drop rates are 0). */
module SimStream {
  import opened Base
  import opened SimSeq
  import opened SimBuffer

  /** A `packet` as the simulation copies it around, in host byte order. */
  datatype Frame = Frame(ack: u32, seqNr: u32, pid: u16, len: u16, pdu: seq<u64>)

  /** The sequence number `j` steps after `l0`. */
  function SeqAt(l0: nat, j: nat): (s: nat)
    ensures s < SEQ_SIZE
  {
    (l0 + j) % SEQ_SIZE
  }

  lemma AheadOfSeqAt(l0: nat, j: nat)
    requires l0 < SEQ_SIZE && j < SEQ_SIZE
    ensures Ahead(SeqAt(l0, j), l0) == j
  {
    ModSubMod(l0 + j, l0, SEQ_SIZE);
    ModSmall(j, SEQ_SIZE);
  }

  /** The `k` sequence numbers after `l0` are all cached. */
  ghost predicate AllCached(status: seq<bool>, l0: nat, k: nat)
    requires |status| == SEQ_SIZE
  {
    forall j :: 1 <= j <= k ==> status[SeqAt(l0, j)]
  }

  /** The cached frames of the `k` sequence numbers after `l0`, in order. */
  function Cached(data: seq<Frame>, l0: nat, k: nat): (q: seq<Frame>)
    requires |data| == SEQ_SIZE
    ensures |q| == k
    ensures forall j :: 0 <= j < k ==> q[j] == data[SeqAt(l0, j + 1)]
  {
    seq(k, j requires 0 <= j < k => data[SeqAt(l0, j + 1)])
  }

  /** The cache flags after the `n` numbers following `l0` were taken. */
  function ClearRun(status: seq<bool>, l0: nat, n: nat): (s: seq<bool>)
    requires |status| == SEQ_SIZE
    ensures |s| == SEQ_SIZE
    ensures forall i :: 0 <= i < SEQ_SIZE ==> s[i] == (status[i] && !(1 <= Ahead(i, l0) <= n))
  {
    seq(SEQ_SIZE, i requires 0 <= i < SEQ_SIZE => status[i] && !(1 <= Ahead(i, l0) <= n))
  }

  /** Taking one more number clears exactly its flag. */
  lemma ClearRunStep(status: seq<bool>, l0: nat, k: nat)
    requires |status| == SEQ_SIZE && l0 < SEQ_SIZE && k + 1 < SEQ_SIZE
    ensures ClearRun(status, l0, k)[SeqAt(l0, k + 1) := false] == ClearRun(status, l0, k + 1)
  {
    var l := SeqAt(l0, k + 1);
    AheadOfSeqAt(l0, k + 1);
    var a, b := ClearRun(status, l0, k)[l := false], ClearRun(status, l0, k + 1);
    forall i | 0 <= i < SEQ_SIZE
      ensures a[i] == b[i]
    {
      if i != l && Ahead(i, l0) == k + 1 {
        ModSubMod(i, l0, SEQ_SIZE);
        assert (i - l0) % SEQ_SIZE == (l - l0) % SEQ_SIZE by {
          ModSubMod(l0 + k + 1, l0, SEQ_SIZE);
        }
        SameResidue(i, l, l0);
      }
    }
  }

  /** Two sequence numbers equally far ahead of `l0` are equal. */
  lemma SameResidue(i: nat, l: nat, l0: nat)
    requires i < SEQ_SIZE && l < SEQ_SIZE && (i - l0) % SEQ_SIZE == (l - l0) % SEQ_SIZE
    ensures i == l
  {
    if i != l {
      var lo, hi := if i < l then i else l, if i < l then l else i;
      ModInjective(lo - l0, 0, hi - lo, SEQ_SIZE);
    }
  }

  /** `receive_cache`: a frame and a valid flag per sequence number. */
  class ReceiveCache {
    const status: array<bool>
    const data: array<Frame>

    ghost predicate Valid()
      reads this
    {
      status.Length == SEQ_SIZE && data.Length == SEQ_SIZE
    }

    /** A new cache holds nothing. */
    constructor ()
      ensures Valid() && fresh(status) && fresh(data)
      ensures forall i :: 0 <= i < SEQ_SIZE ==> !status[i]
    {
      status := new bool[SEQ_SIZE];
      data := new Frame[SEQ_SIZE];
      new;
      var i := 0;
      while i < SEQ_SIZE
        invariant i <= SEQ_SIZE
        invariant forall j :: 0 <= j < i ==> !status[j]
      {
        status[i] := false;
        i := i + 1;
      }
    }
  }

  /** The drain after in-order data at `l0`: cached successors are taken in
    * order, each flag cleared before its frame is appended, for at most
    * WINDOW_SIZE numbers. It stops at the first number not cached, or
    * throws when the receive buffer is full; the frame whose flag was
    * already cleared is then lost. */
  method Drain(buf: WindowBuffer<Frame>, status: array<bool>, data: array<Frame>, l0: u32)
    returns (k: nat, r: Result<(), RuntimeError>)
    requires buf.Valid() && status.Length == SEQ_SIZE && data.Length == SEQ_SIZE
    requires data != buf.slots && l0 < SEQ_SIZE
    modifies buf, buf.slots, status
    ensures buf.Valid() && k <= WINDOW_SIZE
    ensures AllCached(old(status[..]), l0, k)
    ensures r.Ok? ==> k == WINDOW_SIZE || !old(status[SeqAt(l0, k + 1)])
    ensures r.Err? ==> k < WINDOW_SIZE && old(status[SeqAt(l0, k + 1)]) && |old(buf.Contents())| + k == buf.ws
    ensures buf.Contents() == old(buf.Contents()) + Cached(old(data[..]), l0, k)
    ensures status[..] == ClearRun(old(status[..]), l0, if r.Ok? then k else k + 1)
  {
    ghost var st0 := status[..];
    ghost var c0 := buf.Contents();
    var l := l0;
    k := 0;
    while k < WINDOW_SIZE
      invariant DrainState(buf, status, data, l0, k, st0, c0) && l == SeqAt(l0, k)
    {
      var step;
      step, l := DrainStep(buf, status, data, l0, l, k, st0, c0);
      if step == Stopped {
        return k, Ok(());
      } else if step == Thrown {
        return k, Err(RuntimeError);
      }
      k := k + 1;
    }
    r := Ok(());
  }

  datatype Step = Stopped | Taken | Thrown

  /** The drain after `k` numbers were taken. */
  ghost predicate DrainState(buf: WindowBuffer<Frame>, status: array<bool>, data: array<Frame>,
                             l0: nat, k: nat, st0: seq<bool>, c0: seq<Frame>)
    reads buf, buf.slots, status, data
  {
    && buf.Valid() && status.Length == SEQ_SIZE && data.Length == SEQ_SIZE && |st0| == SEQ_SIZE
    && data != buf.slots && l0 < SEQ_SIZE && k <= WINDOW_SIZE
    && AllCached(st0, l0, k)
    && status[..] == ClearRun(st0, l0, k)
    && buf.Contents() == c0 + Cached(data[..], l0, k)
  }

  /** The flag test of one round: the number after `l` is looked up and,
    * when cached, its flag is cleared. */
  method TakeFlag(status: array<bool>, l0: u32, l: u32, k: nat, ghost st0: seq<bool>)
    returns (cached: bool, l': u32)
    requires status.Length == SEQ_SIZE && |st0| == SEQ_SIZE && l0 < SEQ_SIZE && k < WINDOW_SIZE
    requires l == SeqAt(l0, k) && status[..] == ClearRun(st0, l0, k)
    modifies status
    ensures l' == SeqAt(l0, k + 1) && cached == st0[l']
    ensures cached ==> status[..] == ClearRun(st0, l0, k + 1)
    ensures !cached ==> status[..] == ClearRun(st0, l0, k)
  {
    l' := NextSeq(l);
    assert l' == SeqAt(l0, k + 1) by {
      ModSum(l0 + k, 1, SEQ_SIZE);
    }
    assert status[l'] == st0[l'] by {
      AheadOfSeqAt(l0, k + 1);
    }
    cached := status[l'];
    if cached {
      status[l'] := false;
      ClearRunStep(st0, l0, k);
    }
  }

  /** One round of the drain loop: look at the number after `l`. */
  method DrainStep(buf: WindowBuffer<Frame>, status: array<bool>, data: array<Frame>, l0: u32, l: u32,
                   k: nat, ghost st0: seq<bool>, ghost c0: seq<Frame>)
    returns (step: Step, l': u32)
    requires DrainState(buf, status, data, l0, k, st0, c0) && l == SeqAt(l0, k) && k < WINDOW_SIZE
    modifies buf, buf.slots, status
    ensures l' == SeqAt(l0, k + 1)
    ensures step == Taken ==> DrainState(buf, status, data, l0, k + 1, st0, c0)
    ensures step == Stopped ==> DrainState(buf, status, data, l0, k, st0, c0) && !st0[l']
    ensures step == Thrown ==>
      && buf.Valid() && st0[l'] && AllCached(st0, l0, k)
      && status[..] == ClearRun(st0, l0, k + 1)
      && buf.Contents() == c0 + Cached(data[..], l0, k) && |buf.Contents()| == buf.ws
  {
    var cached;
    cached, l' := TakeFlag(status, l0, l, k, st0);
    if !cached {
      return Stopped, l';
    }
    var pr := buf.PushBack(data[l']);
    if pr.Err? {
      return Thrown, l';
    }
    assert Cached(data[..], l0, k + 1) == Cached(data[..], l0, k) + [data[l']];
    step := Taken;
  }

  /** Successive sequence numbers, the last one `last`. */
  ghost predicate Consecutive(c: seq<Frame>, last: u32)
  {
    && (forall k :: 0 <= k < |c| ==> c[k].seqNr < SEQ_SIZE)
    && (forall k :: 0 < k < |c| ==> c[k].seqNr == NextSeq(c[k - 1].seqNr))
    && (|c| > 0 ==> c[|c| - 1].seqNr == last)
  }

  /** In a run of successive numbers, the k-th lies k steps after the first. */
  lemma {:induction false} ConsecutiveSteps(c: seq<Frame>, last: u32, k: nat)
    requires Consecutive(c, last) && k < |c|
    ensures c[k].seqNr == (c[0].seqNr + k) % SEQ_SIZE
  {
    if k == 0 {
      ModSmall(c[0].seqNr, SEQ_SIZE);
    } else {
      ConsecutiveSteps(c, last, k - 1);
      ModSum(c[0].seqNr + k - 1, 1, SEQ_SIZE);
    }
  }

  class ArqStream {
    var running: bool
    /** The last sequence number acknowledged to the peer (window start). */
    var ack: u32
    /** The highest sequence number the peer acknowledged. */
    var rack: u32
    /** The last sequence number received in order. */
    var rseq: u32
    var acked: bool
    var lastSeqInserted: u32
    const sendBuffers: WindowBuffer<Frame>
    const receiveBuffers: WindowBuffer<Frame>
    const cache: ReceiveCache

    ghost predicate Valid()
      reads this, sendBuffers, sendBuffers.slots, receiveBuffers, cache
    {
      && sendBuffers.Valid() && receiveBuffers.Valid() && cache.Valid()
      && sendBuffers.ws == WINDOW_SIZE && receiveBuffers.ws == WINDOW_SIZE
      && sendBuffers != receiveBuffers
      && sendBuffers.slots != receiveBuffers.slots
      && cache.data != sendBuffers.slots && cache.data != receiveBuffers.slots
      && rseq < SEQ_SIZE && lastSeqInserted < SEQ_SIZE
      && Consecutive(sendBuffers.Contents(), lastSeqInserted)
    }

    /** Every counter starts at SEQ_MAX, so the first number used is 0; the
      * sequence space is at least twice the window. */
    constructor ()
      ensures Valid() && !running
      ensures ack == SEQ_MAX && rack == SEQ_MAX && rseq == SEQ_MAX && lastSeqInserted == SEQ_MAX
      ensures sendBuffers.Contents() == [] && receiveBuffers.Contents() == []
      ensures forall i :: 0 <= i < SEQ_SIZE ==> !cache.status[i]
      ensures (SEQ_MAX + 1) / 2 >= WINDOW_SIZE
    {
      running := false;
      ack := SEQ_MAX;
      rack := SEQ_MAX;
      rseq := SEQ_MAX;
      lastSeqInserted := SEQ_MAX;
      acked := false;
      sendBuffers := new WindowBuffer(WINDOW_SIZE);
      receiveBuffers := new WindowBuffer(WINDOW_SIZE);
      cache := new ReceiveCache();
    }

    /** `send`: a full send window refuses the packet; otherwise it gets the
      * next sequence number and joins the window. */
    method Send(tmp: Frame) returns (ok: bool)
      requires Valid()
      modifies this, sendBuffers, sendBuffers.slots
      ensures Valid()
      ensures ok <==> old(|sendBuffers.Contents()|) < WINDOW_SIZE
      ensures !ok ==> unchanged(this) && unchanged(sendBuffers) && unchanged(sendBuffers.slots)
      ensures ok ==>
        && lastSeqInserted == NextSeq(old(lastSeqInserted))
        && sendBuffers.Contents() == old(sendBuffers.Contents()) + [tmp.(seqNr := lastSeqInserted)]
      ensures rseq == old(rseq) && rack == old(rack) && ack == old(ack)
    {
      if sendBuffers.WindowFull() {
        return false;
      }
      var latest := NextSeq(lastSeqInserted);
      var r := sendBuffers.PushBack(tmp.(seqNr := latest));
      lastSeqInserted := latest;
      ok := true;
    }

    /** `receive`: throws when not running, returns nothing when no data is
      * waiting, and otherwise the oldest received frame. */
    method Receive() returns (r: Result<Option<Frame>, RuntimeError>)
      requires Valid()
      modifies receiveBuffers
      ensures Valid()
      ensures !running ==> r.Err? && unchanged(receiveBuffers)
      ensures running && old(receiveBuffers.Contents()) == [] ==> r == Ok(None) && unchanged(receiveBuffers)
      ensures running && old(receiveBuffers.Contents()) != [] ==>
        && r == Ok(Some(old(receiveBuffers.Contents())[0]))
        && receiveBuffers.Contents() == old(receiveBuffers.Contents())[1..]
    {
      if !running {
        return Err(RuntimeError);
      }
      if receiveBuffers.WindowEmpty() {
        return Ok(None);
      }
      var p := receiveBuffers.PopFront();
      r := Ok(Some(p.value));
    }

    /** The acknowledgement part of `trigger_receive`: an ACK inside the
      * send window moves `rack`. */
    method TakeAck(a: u32)
      requires Valid()
      modifies this
      ensures Valid()
      ensures rack == if InWindowAsWritten(a, old(rack), (old(rack) + WINDOW_SIZE) % POW32) then a else old(rack)
      ensures ack == old(ack) && rseq == old(rseq) && lastSeqInserted == old(lastSeqInserted)
      ensures running == old(running) && acked == old(acked)
    {
      if InWindowAsWritten(a, rack, (rack + WINDOW_SIZE) % POW32) {
        rack := a;
      }
    }

    /** The data part of `trigger_receive` (with the cache bound corrected,
      * see `InWindow`): the next frame in order is delivered, unless the
      * receive buffer is full, followed by its cached successors; a frame
      * ahead of the window start `ack` is cached; anything else is a
      * duplicate and ignored. */
    method TakeData(p: Frame) returns (r: Result<(), RuntimeError>, ghost drained: nat)
      requires Valid()
      modifies this, receiveBuffers, receiveBuffers.slots, cache.status, cache.data
      ensures Valid()
      ensures ack == old(ack) && rack == old(rack) && lastSeqInserted == old(lastSeqInserted)
      ensures running == old(running) && acked == old(acked)
      ensures var l := NextSeq(old(rseq));
        && (p.seqNr == l && old(|receiveBuffers.Contents()|) < WINDOW_SIZE ==>
          && AllCached(old(cache.status[..]), l, drained)
          && receiveBuffers.Contents()
             == old(receiveBuffers.Contents()) + [p] + Cached(old(cache.data[..]), l, drained)
          && rseq == SeqAt(l, drained)
          && (r.Ok? ==> drained == WINDOW_SIZE || !old(cache.status[SeqAt(l, drained + 1)]))
          && cache.data[..] == old(cache.data[..]))
        && (p.seqNr == l && old(|receiveBuffers.Contents()|) == WINDOW_SIZE ==>
          r.Ok? && unchanged(this) && unchanged(receiveBuffers) && unchanged(cache.status) && unchanged(cache.data))
        && (p.seqNr != l && InWindow(p.seqNr, old(ack), (old(ack) + WINDOW_SIZE) % POW32) ==>
          && r.Ok? && cache.data[..] == old(cache.data[..])[p.seqNr := p]
          && cache.status[..] == old(cache.status[..])[p.seqNr := true]
          && rseq == old(rseq) && unchanged(receiveBuffers))
        && (p.seqNr != l && !InWindow(p.seqNr, old(ack), (old(ack) + WINDOW_SIZE) % POW32) ==>
          r.Ok? && unchanged(this) && unchanged(receiveBuffers) && unchanged(cache.status) && unchanged(cache.data))
    {
      drained := 0;
      r := Ok(());
      var l := NextSeq(rseq);
      if p.seqNr == l {
        if receiveBuffers.WindowFull() {
          return;
        }
        r, drained := TakeInOrder(p);
      } else if InWindow(p.seqNr, ack, (ack + WINDOW_SIZE) % POW32) {
        cache.data[p.seqNr] := p;
        cache.status[p.seqNr] := true;
      }
    }

    /** The frame the receiver expects next, with room for it: it is
      * delivered, followed by the run of cached frames after it. */
    method TakeInOrder(p: Frame) returns (r: Result<(), RuntimeError>, drained: nat)
      requires Valid() && p.seqNr == NextSeq(rseq) && |receiveBuffers.Contents()| < WINDOW_SIZE
      modifies this, receiveBuffers, receiveBuffers.slots, cache.status
      ensures Valid()
      ensures ack == old(ack) && rack == old(rack) && lastSeqInserted == old(lastSeqInserted)
      ensures running == old(running) && acked == old(acked)
      ensures var l := p.seqNr;
        && AllCached(old(cache.status[..]), l, drained)
        && receiveBuffers.Contents() == old(receiveBuffers.Contents()) + [p] + Cached(old(cache.data[..]), l, drained)
        && rseq == SeqAt(l, drained)
        && (r.Ok? ==> drained == WINDOW_SIZE || !old(cache.status[SeqAt(l, drained + 1)]))
    {
      var l := p.seqNr;
      var pr := receiveBuffers.PushBack(p);
      var k;
      k, r := Drain(receiveBuffers, cache.status, cache.data, l);
      drained := k;
      rseq := SeqAt(l, k);
    }

    /** `trigger_receive` for a frame of `nbytes` bytes: frames of 4 bytes
      * or fewer carry only an acknowledgement. */
    method TriggerReceive(p: Frame, nbytes: nat) returns (r: Result<(), RuntimeError>)
      requires Valid()
      modifies this, receiveBuffers, receiveBuffers.slots, cache.status, cache.data
      ensures Valid() && !acked
      ensures rack == if InWindowAsWritten(p.ack, old(rack), (old(rack) + WINDOW_SIZE) % POW32) then p.ack else old(rack)
      ensures nbytes <= 4 ==>
        r.Ok? && rseq == old(rseq) && unchanged(receiveBuffers) && unchanged(cache.status) && unchanged(cache.data)
    {
      acked := false;
      TakeAck(p.ack);
      r := Ok(());
      if nbytes > 4 {
        ghost var g;
        r, g := TakeData(p);
      }
    }
  }
}
