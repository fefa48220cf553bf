/** The sliding window of the ARQ protocol (src/sctp_window.cpp and its C
  * twin src/sctp_window.c): a ring of `max_frames` slots indexed by
  * sequence number, with the window running from `low_seq` up to (not
  * including) `high_seq`. The WITH_CONGAV congestion-avoidance build is not
  * modelled; this is the default build. */
module Window {
  import opened Base
  import opened Defines
  import Frames

  /** One `sctp_internal` entry. The frame pointers are object references. */
  datatype Slot = Slot(req: Frames.ArqFrame?, resp: Frames.ArqFrame?, time: u64, ntrans: u32, acked: bool)

  /** A zeroed slot, as memset leaves it. */
  const EMPTY_SLOT: Slot := Slot(null, null, 0, 0, false)

  // ---------------------------------------------------------------------
  // Ring arithmetic

  /** How far `i` lies ahead of `base` on a ring of `max` numbers. */
  function Off(i: int, base: int, max: nat): (d: nat)
    requires max > 0
    ensures d < max
  {
    (i - base) % max
  }

  /** Membership of a sequence number in the window [low, high) of the ring. */
  predicate InWin(low: nat, high: nat, max: nat, s: int)
    requires max > 0
  {
    Off(s, low, max) < Off(high, low, max)
  }

  lemma OffOfPos(low: nat, k: nat, max: nat)
    requires low < max && k < max
    ensures Off((low + k) % max, low, max) == k
  {
    ModDiff(low + k, low, max);
    ModSmall(low, max);
    ModSmall(k, max);
  }

  lemma PosOfOff(i: nat, low: nat, max: nat)
    requires i < max && low < max
    ensures (low + Off(i, low, max)) % max == i
  {
    ModSum(i - low, low, max);
    ModSmall(i, max);
  }

  /** Every number is zero steps ahead of itself. */
  lemma OffSelf(low: nat, max: nat)
    requires max > 0
    ensures Off(low, low, max) == 0
  {
    ModSmall(0, max);
  }

  /** Moving the base forward by `n` moves every offset back by `n`. */
  lemma OffShift(i: int, low: nat, n: nat, max: nat)
    requires max > 0
    ensures Off(i, (low + n) % max, max) == (Off(i, low, max) - n) % max
  {
    ModShiftBase(i, low, n, max);
  }

  /** Walking from `low`, the k-th step reaches `t` exactly when `t` lies `k`
    * ahead of `low`. */
  lemma StepHits(low: nat, k: nat, t: int, max: nat)
    requires low < max && k < max
    ensures (low + k) % max == t % max <==> Off(t, low, max) == k
  {
    OffOfPos(low, k, max);
    var tm := t % max;
    assert Off(t, low, max) == Off(tm, low, max) by {
      ModSum(t, -(low as int), max);
    }
    if Off(t, low, max) == k {
      PosOfOff(tm, low, max);
    }
  }

  lemma StepNext(low: nat, k: nat, max: nat)
    requires max > 0
    ensures ((low + k) % max + 1) % max == (low + k + 1) % max
  {
    ModSum(low + k, 1, max);
  }

  // ---------------------------------------------------------------------
  // Specification of the slot updates

  /** The first `n` slots of the window starting at `low`, in sequence order. */
  function Emitted(s: seq<Slot>, low: nat, n: nat, max: nat): (r: seq<Slot>)
    requires 0 < max == |s|
    ensures |r| == n
    ensures forall k :: 0 <= k < n ==> r[k] == s[(low + k) % max]
  {
    seq(n, k requires 0 <= k < n => s[(low + k) % max])
  }

  /** The ring with `f` applied to the `n` slots starting at `low`. */
  function MapRun(s: seq<Slot>, low: nat, n: nat, max: nat, f: Slot -> Slot): (r: seq<Slot>)
    requires 0 < max == |s|
    ensures |r| == |s|
    ensures forall i :: 0 <= i < |s| ==> r[i] == if Off(i, low, max) < n then f(s[i]) else s[i]
  {
    seq(|s|, i requires 0 <= i < |s| => if Off(i, low, max) < n then f(s[i]) else s[i])
  }

  /** A slot handed up by a receive slide: response taken, mark cleared. */
  function Cleared(t: Slot): Slot
  {
    t.(resp := null, acked := false)
  }

  /** A slot released by a cumulative acknowledgement. */
  function Released(t: Slot): Slot
  {
    t.(req := null, acked := true)
  }

  /** Extending a run of `k` mapped slots by the next one. */
  lemma MapRunStep(s: seq<Slot>, low: nat, k: nat, max: nat, f: Slot -> Slot)
    requires 0 < max == |s| && low < max && k < max
    ensures MapRun(s, low, k, max, f)[(low + k) % max := f(s[(low + k) % max])]
         == MapRun(s, low, k + 1, max, f)
  {
    var i0 := (low + k) % max;
    OffOfPos(low, k, max);
    forall i | 0 <= i < max && Off(i, low, max) == k
      ensures i == i0
    {
      PosOfOff(i, low, max);
    }
  }

  lemma EmittedStep(s: seq<Slot>, low: nat, k: nat, max: nat)
    requires 0 < max == |s|
    ensures Emitted(s, low, k, max) + [s[(low + k) % max]] == Emitted(s, low, k + 1, max)
  {
  }

  /** Is a transmitted frame due for retransmission at time `now`? */
  predicate Due(t: Slot, rto: u64, now: u64)
    requires rto > 0
  {
    t.req != null && SubU64(now, t.time) / rto >= t.ntrans
  }

  /** The slot after one more transmission (a 32-bit counter). */
  function Bumped(t: Slot): Slot
  {
    t.(ntrans := (t.ntrans + 1) % POW32)
  }

  /** Progress of the retransmission scan over the window. */
  datatype Scan = Scan(slots: seq<Slot>, resend: seq<Slot>, aborted: bool, flagged: bool)

  /** The retransmission scan after visiting the first `k` window positions. */
  function ResendScan(s: seq<Slot>, low: nat, max: nat, k: nat, rto: u64, now: u64): (r: Scan)
    requires 0 < max == |s| && rto > 0
    ensures |r.slots| == |s|
  {
    if k == 0 then Scan(s, [], false, false)
    else ScanAt(ResendScan(s, low, max, k - 1, rto, now), (low + k - 1) % max, rto, now)
  }

  /** One step of the retransmission scan, at position `i`. */
  function ScanAt(p: Scan, i: nat, rto: u64, now: u64): (r: Scan)
    requires i < |p.slots| && rto > 0
    ensures |r.slots| == |p.slots|
  {
    if p.aborted then p
    else
      var t := p.slots[i];
      if !Due(t, rto, now) then p
      else
        var b := Bumped(t);
        if b.ntrans >= MAX_TRANS then Scan(p.slots[i := b], p.resend, true, p.flagged)
        else Scan(p.slots[i := b], p.resend + [b], false, true)
  }

  /** Once the scan aborts, it stays as it was. */
  lemma {:induction false} ScanAbortSticks(s: seq<Slot>, low: nat, max: nat, k: nat, k': nat, rto: u64, now: u64)
    requires 0 < max == |s| && rto > 0 && k <= k'
    requires ResendScan(s, low, max, k, rto, now).aborted
    ensures ResendScan(s, low, max, k', rto, now) == ResendScan(s, low, max, k, rto, now)
  {
    if k < k' {
      ScanAbortSticks(s, low, max, k, k' - 1, rto, now);
    }
  }

  /** What the retransmission scan promises: it resends at most one copy per
    * visited position, only frames that are still outstanding and have just
    * been counted as transmitted once more (below MAX_TRANS), and it never
    * releases or acquires a frame. */
  lemma {:induction false} ResendScanSound(s: seq<Slot>, low: nat, max: nat, k: nat, rto: u64, now: u64)
    requires 0 < max == |s| && rto > 0
    ensures var r := ResendScan(s, low, max, k, rto, now);
      && |r.resend| <= k
      && (forall j :: 0 <= j < |r.resend| ==> r.resend[j].req != null && r.resend[j].ntrans < MAX_TRANS)
      && (forall i :: 0 <= i < |s| ==> r.slots[i].req == s[i].req && r.slots[i].time == s[i].time)
      && (r.flagged <==> |r.resend| > 0)
  {
    if k > 0 {
      ResendScanSound(s, low, max, k - 1, rto, now);
    }
  }

  /** The frames due at time `now` among the first `k` window positions,
    * in window order, each as it stands after one more transmission. */
  function DueFrames(s: seq<Slot>, low: nat, max: nat, k: nat, rto: u64, now: u64): (r: seq<Slot>)
    requires 0 < max == |s| && rto > 0
    ensures |r| <= k
  {
    if k == 0 then []
    else
      var t := s[(low + k - 1) % max];
      DueFrames(s, low, max, k - 1, rto, now) + (if Due(t, rto, now) then [Bumped(t)] else [])
  }

  /** Some frame due among the first `k` window positions reaches MAX_TRANS
    * transmissions with the one it is about to get. */
  predicate AbortsBy(s: seq<Slot>, low: nat, max: nat, k: nat, rto: u64, now: u64)
    requires 0 < max == |s| && rto > 0
  {
    exists j :: 0 <= j < k && ExhaustsAt(s, low, max, j, rto, now)
  }

  predicate ExhaustsAt(s: seq<Slot>, low: nat, max: nat, j: nat, rto: u64, now: u64)
    requires 0 < max == |s| && rto > 0
  {
    var t := s[(low + j) % max];
    Due(t, rto, now) && Bumped(t).ntrans >= MAX_TRANS
  }

  /** The slot after the scan of the first `k` window positions, when it
    * does not abort: one more transmission if it was visited and due. */
  function Rescanned(s: seq<Slot>, low: nat, max: nat, k: nat, i: nat, rto: u64, now: u64): Slot
    requires 0 < max == |s| && i < max && rto > 0
  {
    if Off(i, low, max) < k && Due(s[i], rto, now) then Bumped(s[i]) else s[i]
  }

  /** What the retransmission scan computes: it aborts exactly when a due
    * frame reaches MAX_TRANS; otherwise it resends exactly the due frames
    * of the window, in window order, counts one more transmission for each
    * of them, and leaves every other slot as it was. */
  lemma {:induction false} ResendScanComplete(s: seq<Slot>, low: nat, max: nat, k: nat, rto: u64, now: u64)
    requires 0 < max == |s| && low < max && k <= max && rto > 0
    ensures var r := ResendScan(s, low, max, k, rto, now);
      && (r.aborted <==> AbortsBy(s, low, max, k, rto, now))
      && (!r.aborted ==> r.resend == DueFrames(s, low, max, k, rto, now))
      && (!r.aborted ==> forall i :: 0 <= i < max ==> r.slots[i] == Rescanned(s, low, max, k, i, rto, now))
  {
    if k > 0 {
      ResendScanComplete(s, low, max, k - 1, rto, now);
      var p := ResendScan(s, low, max, k - 1, rto, now);
      var i0 := (low + k - 1) % max;
      if p.aborted {
        var j :| 0 <= j < k - 1 && ExhaustsAt(s, low, max, j, rto, now);
        assert ExhaustsAt(s, low, max, j, rto, now);
      } else {
        OffOfPos(low, k - 1, max);
        assert p.slots[i0] == s[i0];
        forall i | 0 <= i < max
          ensures Off(i, low, max) < k <==> Off(i, low, max) < k - 1 || i == i0
        {
          PosOfOff(i, low, max);
        }
        if !Due(s[i0], rto, now) {
          assert !ExhaustsAt(s, low, max, k - 1, rto, now);
        } else if Bumped(s[i0]).ntrans >= MAX_TRANS {
          assert ExhaustsAt(s, low, max, k - 1, rto, now);
        } else {
          assert !ExhaustsAt(s, low, max, k - 1, rto, now);
        }
      }
    }
  }

  /** The two 32-bit distance tests of `is_in_window` amount to one: the
    * number lies fewer steps ahead of low than high does. */
  lemma WindowTest(low: u32, high: u32, sn: u32, max: nat)
    requires 0 < max && POW32 % max == 0
    ensures var w := SubU32(high, low) % max;
      && w == Off(high, low, max)
      && (SubU32(high, sn) % max <= w && SubU32(sn, low) % max < w <==> InWin(low, high, max, sn))
  {
    ModOfMod(high - low, POW32, max);
    ModOfMod(high - sn, POW32, max);
    ModOfMod(sn - low, POW32, max);
    var w, dl := Off(high, low, max), Off(sn, low, max);
    ModDiff(high - low, sn - low, max);
    assert Off(high, sn, max) == (w - dl) % max;
    if dl < w {
      ModSmall(w - dl, max);
    }
  }

  // ---------------------------------------------------------------------
  // The window

  class SlidingWindow {
    var lowSeq: u32
    var highSeq: u32
    var flag: u32
    var maxFrames: u32
    var maxWsize: u32
    var side: u32
    var frames: array?<Slot>

    /** The shape every window operation relies on: `max_frames` divides 2^32
      * (so 32-bit wrap-around agrees with arithmetic modulo the ring), the
      * window is at most half the ring (the compile-time check on
      * MAX_WINSIZ), and the slot array holds `max_frames` entries. */
    ghost predicate Valid()
      reads this
    {
      && 0 < maxFrames && POW32 % maxFrames == 0 && 2 * maxWsize <= maxFrames
      && lowSeq < maxFrames && highSeq < maxFrames
      && frames != null && frames.Length == maxFrames
    }

    /** `(high_seq - low_seq) % max_frames`, computed in 32 bits. */
    function Occupancy(): (w: nat)
      reads this
      requires Valid()
      ensures w == Off(highSeq, lowSeq, maxFrames)
    {
      ModOfMod(highSeq - lowSeq, POW32, maxFrames);
      SubU32(highSeq, lowSeq) % maxFrames
    }

    /** `is_in_window`: the two 32-bit distance tests reduce to "seq lies
      * fewer than occupancy steps ahead of low_seq"; an empty window holds
      * nothing. */
    function IsInWindow(sn: u32): (r: bool)
      reads this
      requires Valid()
      ensures r <==> InWin(lowSeq, highSeq, maxFrames, sn)
      ensures Occupancy() == 0 ==> !r
    {
      var max := maxFrames;
      var winsize := SubU32(highSeq, lowSeq) % max;
      var disths := SubU32(highSeq, sn) % max;
      var distsl := SubU32(sn, lowSeq) % max;
      WindowTest(lowSeq, highSeq, sn, max);
      disths <= winsize && distsl < winsize
    }

    /** `is_win_full`. */
    function IsWinFull(): (r: bool)
      reads this
      requires Valid()
      ensures r <==> Off(highSeq, lowSeq, maxFrames) == maxWsize
    {
      Occupancy() == maxWsize
    }

    /** Transmit-side consistency: exactly the slots inside the window hold a
      * frame, and the window never exceeds `max_wsize`. */
    ghost predicate TxInv()
      reads this, frames
      requires Valid()
    {
      && Occupancy() <= maxWsize
      && HeldExactly(frames[..], lowSeq, highSeq, maxFrames)
    }

    /** Receive-side consistency: the window always spans `max_wsize`
      * numbers, and only slots inside it other than `low_seq` are marked. */
    ghost predicate RxInv()
      reads this, frames
      requires Valid()
    {
      && Occupancy() == maxWsize
      && AckedAhead(frames[..], lowSeq, highSeq, maxFrames)
    }

    /** The geometry `win_init` and `win_reset` establish. */
    ghost predicate Initial()
      reads this, frames
    {
      && lowSeq == 0
      && highSeq == (if side == SCTP_RXWIN then maxWsize else 0)
      && frames != null && forall i :: 0 <= i < frames.Length ==> frames[i] == EMPTY_SLOT
    }

    constructor ()
      ensures frames == null
    {
      frames := null;
    }

    /** `win_init`: a missing window is SC_INVAL and a failed allocation
      * SC_NOMEM; otherwise the window is set up empty over freshly zeroed
      * slots and 1 is returned. */
    static method Init(win: SlidingWindow?, maxFr: u32, maxWs: u32, side: u8, allocOk: bool)
      returns (r: int)
      modifies win
      ensures win == null ==> r == SC_INVAL
      ensures win != null && !allocOk ==> r == SC_NOMEM && unchanged(win)
      ensures win != null && allocOk ==>
        && r == 1 && fresh(win.frames)
        && win.side == side && win.maxFrames == maxFr && win.maxWsize == maxWs
        && win.frames.Length == maxFr && win.Initial()
      ensures win != null && allocOk && 0 < maxFr && POW32 % maxFr == 0 && 2 * maxWs <= maxFr ==>
        && win.Valid()
        && (side == SCTP_RXWIN ==> win.RxInv())
        && (side != SCTP_RXWIN ==> win.TxInv())
    {
      if win == null {
        return SC_INVAL;
      }
      if !allocOk {
        return SC_NOMEM;
      }
      var tmp := new Slot[maxFr](_ => EMPTY_SLOT);
      win.side := side;
      win.maxFrames := maxFr;
      win.maxWsize := maxWs;
      win.lowSeq := 0;
      if side == SCTP_RXWIN {
        win.highSeq := maxWs;
      } else {
        win.highSeq := 0;
      }
      win.frames := tmp;
      r := 1;
      if 0 < maxFr && 2 * maxWs <= maxFr {
        InitialGeometry(maxFr, maxWs);
      }
    }

    /** `win_reset`: back to the initial geometry with every slot zeroed;
      * `max_frames`, `max_wsize` and `side` are kept. */
    method Reset()
      requires frames == null || frames.Length == maxFrames
      modifies this, frames
      ensures lowSeq == 0 && highSeq == (if side == SCTP_RXWIN then maxWsize else 0)
      ensures maxFrames == old(maxFrames) && maxWsize == old(maxWsize) && side == old(side)
      ensures frames == old(frames) && flag == old(flag)
      ensures frames != null ==> Initial()
      ensures old(Valid()) ==> Valid() && (side == SCTP_RXWIN ==> RxInv()) && (side != SCTP_RXWIN ==> TxInv())
    {
      lowSeq := 0;
      if side == SCTP_RXWIN {
        highSeq := maxWsize;
      } else {
        highSeq := 0;
      }
      if frames != null {
        forall i | 0 <= i < frames.Length {
          frames[i] := EMPTY_SLOT;
        }
      }
      if 0 < maxFrames && 2 * maxWsize <= maxFrames {
        InitialGeometry(maxFrames, maxWsize);
      }
    }

    /** `new_frame_tx`: a full window refuses the frame (0); a free slot at
      * `high_seq` takes it, stamps it with sequence number `high_seq` and
      * the time, and the window grows by one (1); an occupied slot is
      * SC_ABORT. */
    method NewFrameTx(f: Frames.ArqFrame, now: u64) returns (r: int)
      requires Valid()
      modifies this, frames, f
      ensures Valid() && frames == old(frames) && lowSeq == old(lowSeq)
      ensures maxFrames == old(maxFrames) && maxWsize == old(maxWsize) && side == old(side) && flag == old(flag)
      ensures r in {0, 1, SC_ABORT}
      ensures r == 0 <==> old(IsWinFull())
      ensures r != 1 ==> highSeq == old(highSeq) && frames[..] == old(frames[..]) && unchanged(f)
      ensures r == SC_ABORT ==> old(frames[highSeq].req) != null
      ensures r == 1 ==>
        && old(frames[highSeq].req) == null
        && f.GetSeq() == old(highSeq)
        && frames[..] == old(frames[..])[old(highSeq) := Slot(f, old(frames[highSeq].resp), now, 1, false)]
        && highSeq == (old(highSeq) + 1) % maxFrames
        && Occupancy() == (old(Occupancy()) + 1) % maxFrames
      ensures old(TxInv()) ==> TxInv() && r != SC_ABORT
    {
      if IsWinFull() {
        return 0;
      }
      r := SC_ABORT;
      var sn := highSeq;
      var tmp := frames[sn];
      if tmp.req == null {
        f.SetSeq(sn);
        frames[sn] := Slot(f, tmp.resp, now, 1, false);
        highSeq := (sn + 1) % maxFrames;
        r := 1;
        GrowByOne(lowSeq, sn, maxFrames, Off(sn, lowSeq, maxFrames));
      }
      if old(TxInv()) {
        TxGrowPreserves(old(frames[..]), frames[..], lowSeq, sn, maxFrames, maxWsize, r == 1);
      }
    }

    /** `new_frame_rx`, with the wire sequence number checked against the
      * ring size before it is used as a slot index (see the as-written
      * `RxIndexAsWritten`). A number outside the window, or one already
      * received, is SC_INVAL and changes nothing. A number inside the window
      * marks its slot; if it is `low_seq`, the maximal run of marked slots
      * from `low_seq` is handed out in order and cleared, the window slides
      * past it and is reopened to `max_wsize`, and the run length is
      * returned; otherwise 0 is returned. */
    method NewFrameRx(inp: Frames.ArqFrame) returns (r: int, out: seq<Slot>)
      requires Valid()
      modifies this, frames
      ensures Valid() && frames == old(frames)
      ensures maxFrames == old(maxFrames) && maxWsize == old(maxWsize) && side == old(side) && flag == old(flag)
      ensures var sn := old(inp.GetSeq());
        var accepted := RxAccepts(old(frames[..]), old(lowSeq), old(highSeq), maxFrames, sn);
        && (!accepted ==> r == SC_INVAL && out == [] && frames[..] == old(frames[..])
                          && lowSeq == old(lowSeq) && highSeq == old(highSeq))
        && (accepted && sn != old(lowSeq) ==>
              r == 0 && out == [] && lowSeq == old(lowSeq) && highSeq == old(highSeq)
              && frames[..] == MarkSlot(old(frames[..]), sn, inp))
        && (accepted && sn == old(lowSeq) ==>
              var marked := MarkSlot(old(frames[..]), sn, inp);
              var w := old(Occupancy());
              && 1 <= r <= w
              && out == Emitted(marked, sn, r, maxFrames)
              && (forall k :: 0 <= k < r ==> out[k].acked)
              && (r == w || !marked[(sn + r) % maxFrames].acked)
              && frames[..] == MapRun(marked, sn, r, maxFrames, Cleared)
              && lowSeq == (sn + r) % maxFrames
              && highSeq == (lowSeq + maxWsize) % maxFrames
              && Occupancy() == maxWsize)
      ensures old(RxInv()) ==> RxInv()
    {
      var max := maxFrames;
      var sn := inp.GetSeq();
      if !(sn < max && !frames[sn].acked && IsInWindow(sn)) {
        return SC_INVAL, [];
      }
      ghost var before := frames[..];
      ghost var wasRx := RxInv();
      ghost var w := Occupancy();
      frames[sn] := frames[sn].(resp := inp, acked := true);
      ghost var marked := MarkSlot(before, sn, inp);
      assert frames[..] == marked && Occupancy() == w;
      out := [];
      if sn != lowSeq {
        if wasRx {
          RxMarkPreserves(before, lowSeq, highSeq, max, sn, marked[sn]);
        }
        return 0, [];
      }
      assert SameBesides(marked, before, lowSeq) by {
        SameBesidesUpdate(before, sn, marked[sn]);
      }
      r, out := Slide(marked, before);
    }

    /** The slide of `new_frame_rx` once `low_seq` has been marked. */
    method Slide(ghost marked: seq<Slot>, ghost before: seq<Slot>) returns (r: int, out: seq<Slot>)
      requires Valid() && frames[..] == marked && frames[lowSeq].acked && 1 <= Occupancy()
      modifies this, frames
      ensures Valid() && frames == old(frames)
      ensures maxFrames == old(maxFrames) && maxWsize == old(maxWsize) && side == old(side) && flag == old(flag)
      ensures var w := old(Occupancy());
        var low := old(lowSeq);
        && 1 <= r <= w
        && out == Emitted(marked, low, r, maxFrames)
        && (forall k :: 0 <= k < r ==> out[k].acked)
        && (r == w || !marked[(low + r) % maxFrames].acked)
        && frames[..] == MapRun(marked, low, r, maxFrames, Cleared)
        && lowSeq == (low + r) % maxFrames
        && highSeq == (lowSeq + maxWsize) % maxFrames
        && Occupancy() == maxWsize
      ensures
        && old(Occupancy()) == maxWsize && |before| == maxFrames
        && AckedAhead(before, old(lowSeq), old(highSeq), maxFrames)
        && SameBesides(marked, before, old(lowSeq))
        ==> RxInv()
    {
      var max := maxFrames;
      ghost var low := lowSeq;
      ghost var high := highSeq;
      ghost var w := Occupancy();
      var slides, cur;
      slides, cur, out := SlideRun(frames, lowSeq, highSeq, w);
      ghost var after := frames[..];
      lowSeq := cur;
      highSeq := (cur + maxWsize) % max;
      assert frames[..] == after;
      assert Occupancy() == maxWsize by {
        OffOfPos(cur, maxWsize, max);
      }
      r := slides;
      if w == maxWsize && |before| == max && AckedAhead(before, low, high, max) && SameBesides(marked, before, low) {
        RxSlidePreserves(marked, before, frames[..], low, high, lowSeq, highSeq, max, maxWsize, slides);
      }
    }

    /** `mark_frame`: a cumulative acknowledgement `rack` outside the window
      * is SC_INVAL and changes nothing. Otherwise every slot from `low_seq`
      * up to and including `rack` is handed out in order and released (its
      * request dropped, marked acknowledged), `low_seq` moves past `rack`,
      * and the number released is returned. */
    method MarkFrame(rack: u32) returns (r: int, out: seq<Slot>)
      requires Valid()
      modifies this, frames
      ensures Valid() && frames == old(frames) && highSeq == old(highSeq)
      ensures maxFrames == old(maxFrames) && maxWsize == old(maxWsize) && side == old(side) && flag == old(flag)
      ensures !old(IsInWindow(rack)) ==>
        r == SC_INVAL && out == [] && frames[..] == old(frames[..]) && lowSeq == old(lowSeq)
      ensures old(IsInWindow(rack)) ==>
        var n := Off(rack, old(lowSeq), maxFrames) + 1;
        && r == n && 1 <= n <= old(Occupancy())
        && out == Emitted(old(frames[..]), old(lowSeq), n, maxFrames)
        && frames[..] == MapRun(old(frames[..]), old(lowSeq), n, maxFrames, Released)
        && lowSeq == (rack + 1) % maxFrames
        && Occupancy() == old(Occupancy()) - n
      ensures old(TxInv()) ==> TxInv() && forall k :: 0 <= k < |out| ==> out[k].req != null
    {
      if !IsInWindow(rack) {
        return SC_INVAL, [];
      }
      r, out := Release(rack);
    }

    /** The release of `mark_frame` once `rack` is known to be inside the
      * window. */
    method Release(rack: u32) returns (r: int, out: seq<Slot>)
      requires Valid() && IsInWindow(rack)
      modifies this, frames
      ensures Valid() && frames == old(frames) && highSeq == old(highSeq)
      ensures maxFrames == old(maxFrames) && maxWsize == old(maxWsize) && side == old(side) && flag == old(flag)
      ensures var n := Off(rack, old(lowSeq), maxFrames) + 1;
        && r == n && 1 <= n <= old(Occupancy())
        && out == Emitted(old(frames[..]), old(lowSeq), n, maxFrames)
        && frames[..] == MapRun(old(frames[..]), old(lowSeq), n, maxFrames, Released)
        && lowSeq == (rack + 1) % maxFrames
        && Occupancy() == old(Occupancy()) - n
      ensures old(TxInv()) ==> TxInv() && forall k :: 0 <= k < |out| ==> out[k].req != null
    {
      var max := maxFrames;
      ghost var low := lowSeq;
      ghost var w := Occupancy();
      ghost var n := Off(rack, low, max) + 1;
      assert n <= w < max;
      var high := ((rack + 1) % POW32) % max;
      assert high == (low + n) % max && high == (rack + 1) % max by {
        AckEnd(rack, low, max);
      }
      assert Off(high, low, max) == n by {
        OffOfPos(low, n, max);
      }
      ghost var before := frames[..];
      var cur;
      r, cur, out := ReleaseRun(frames, lowSeq, high, n);
      lowSeq := cur;
      assert Occupancy() == w - n by {
        ShrinkOcc(low, highSeq, max, w, n);
      }
      if old(TxInv()) {
        TxShrinkPreserves(before, frames[..], low, highSeq, max, maxWsize, n);
      }
    }

    /** `resend_frame`: walks the window from `low_seq` and, for every
      * outstanding frame whose transmission count the elapsed time (over
      * `rto`) has reached, counts one more transmission and copies the slot
      * into the resend buffer, setting `flag`. A frame reaching MAX_TRANS
      * transmissions aborts the walk with -1; otherwise the number of
      * frames to resend is returned. */
    method ResendFrame(rto: u64, now: u64) returns (r: int, resend: seq<Slot>)
      requires Valid() && rto > 0
      modifies this, frames
      ensures Valid() && frames == old(frames) && lowSeq == old(lowSeq) && highSeq == old(highSeq)
      ensures maxFrames == old(maxFrames) && maxWsize == old(maxWsize) && side == old(side)
      ensures var sc := ResendScan(old(frames[..]), lowSeq, maxFrames, Occupancy(), rto, now);
        && frames[..] == sc.slots && resend == sc.resend
        && r == (if sc.aborted then -1 else |resend|)
        && flag == (if sc.flagged then 1 else old(flag))
      ensures var s := old(frames[..]);
        var w := Occupancy();
        && (r == -1 <==> AbortsBy(s, lowSeq, maxFrames, w, rto, now))
        && (r != -1 ==> resend == DueFrames(s, lowSeq, maxFrames, w, rto, now) && r == |resend|)
        && (r != -1 ==> forall i :: 0 <= i < maxFrames ==> frames[i] == Rescanned(s, lowSeq, maxFrames, w, i, rto, now))
        && (r > 0 ==> flag == 1)
      ensures old(TxInv()) ==> TxInv()
    {
      ghost var s0 := frames[..];
      ghost var w := Occupancy();
      ResendScanComplete(s0, lowSeq, maxFrames, w, rto, now);
      ResendScanSound(s0, lowSeq, maxFrames, w, rto, now);
      var aborted, flagged;
      aborted, flagged, resend := ResendRun(frames, lowSeq, highSeq, w, rto, now);
      if flagged {
        flag := 1;
      }
      r := if aborted then -1 else |resend|;
      if old(TxInv()) {
        SameRequests(s0, frames[..], lowSeq, highSeq, maxFrames);
      }
    }
  }

  /** The walk of `resend_frame` over the `w` window positions from `low`. */
  method ResendRun(a: array<Slot>, low: nat, high: nat, ghost w: nat, rto: u64, now: u64)
    returns (aborted: bool, flagged: bool, resend: seq<Slot>)
    requires 0 < a.Length && low < a.Length && high < a.Length && rto > 0
    requires w == Off(high, low, a.Length)
    modifies a
    ensures var sc := ResendScan(old(a[..]), low, a.Length, w, rto, now);
      a[..] == sc.slots && resend == sc.resend && aborted == sc.aborted && flagged == sc.flagged
  {
    var max := a.Length;
    ghost var s0 := a[..];
    var cur := low;
    ghost var k: nat := 0;
    resend := [];
    flagged := false;
    assert cur == (low + 0) % max by {
      ModSmall(low, max);
    }
    while cur != high
      invariant k <= w && cur == (low + k) % max
      invariant var sc := ResendScan(s0, low, max, k, rto, now);
        && !sc.aborted && a[..] == sc.slots && resend == sc.resend && flagged == sc.flagged
      decreases w - k
    {
      assert k < w by {
        StepHits(low, k, high, max);
        ModSmall(high, max);
      }
      ghost var next := ScanAt(ResendScan(s0, low, max, k, rto, now), cur, rto, now);
      assert next == ResendScan(s0, low, max, k + 1, rto, now);
      var t := a[cur];
      if t.req != null && SubU64(now, t.time) / rto >= t.ntrans {
        t := t.(ntrans := (t.ntrans + 1) % POW32);
        a[cur] := t;
        if t.ntrans >= MAX_TRANS {
          assert a[..] == next.slots;
          ScanAbortSticks(s0, low, max, k + 1, w, rto, now);
          return true, flagged, resend;
        }
        flagged := true;
        resend := resend + [t];
      }
      assert a[..] == next.slots && resend == next.resend && flagged == next.flagged;
      assert (cur + 1) % max == (low + k + 1) % max by {
        StepNext(low, k, max);
      }
      k := k + 1;
      cur := (cur + 1) % max;
    }
    assert k == w by {
      StepHits(low, k, high, max);
      ModSmall(high, max);
    }
    aborted := false;
  }

  /** The release loop of `mark_frame`: hands out and releases the `n`
    * slots from `low`, stopping at `end`. */
  method ReleaseRun(a: array<Slot>, low: nat, end: nat, ghost n: nat) returns (k: nat, cur: nat, out: seq<Slot>)
    requires 0 < a.Length && low < a.Length && 1 <= n < a.Length
    requires end == (low + n) % a.Length
    modifies a
    ensures k == n && cur == end
    ensures out == Emitted(old(a[..]), low, n, a.Length)
    ensures a[..] == MapRun(old(a[..]), low, n, a.Length, Released)
  {
    ghost var s0 := a[..];
    var max := a.Length;
    cur := low;
    k := 0;
    out := [];
    assert cur == (low + 0) % max by {
      ModSmall(low, max);
    }
    while cur != end
      invariant k <= n && cur == (low + k) % max
      invariant out == Emitted(s0, low, k, max)
      invariant a[..] == MapRun(s0, low, k, max, Released)
      decreases n - k
    {
      assert k < n;
      assert a[cur] == s0[cur] by {
        OffOfPos(low, k, max);
      }
      out := out + [a[cur]];
      assert out == Emitted(s0, low, k + 1, max) by {
        EmittedStep(s0, low, k, max);
      }
      a[cur] := Released(a[cur]);
      assert a[..] == MapRun(s0, low, k + 1, max, Released) by {
        MapRunStep(s0, low, k, max, Released);
      }
      assert (cur + 1) % max == (low + k + 1) % max by {
        StepNext(low, k, max);
      }
      k := k + 1;
      cur := (cur + 1) % max;
    }
    assert k == n by {
      if k < n {
        OffOfPos(low, k, max);
        OffOfPos(low, n, max);
      }
    }
  }

  /** The slot after an acknowledged number `rack` (with 32-bit wrap-around)
    * is `Off(rack) + 1` steps from `low`. */
  lemma AckEnd(rack: u32, low: nat, max: nat)
    requires 0 < max && POW32 % max == 0 && low < max
    ensures ((rack + 1) % POW32) % max == (low + Off(rack, low, max) + 1) % max
    ensures ((rack + 1) % POW32) % max == (rack + 1) % max
  {
    ModOfMod(rack + 1, POW32, max);
    assert (low + Off(rack, low, max)) % max == rack % max by {
      ModSum(rack - low, low, max);
    }
    ModSum(low + Off(rack, low, max), 1, max);
    ModSum(rack, 1, max);
  }

  /** Moving low forward by `n <= w` shrinks the window by `n`. */
  lemma ShrinkOcc(low: nat, high: nat, max: nat, w: nat, n: nat)
    requires low < max && high < max && w == Off(high, low, max) && n <= w
    ensures Off(high, (low + n) % max, max) == w - n
  {
    OffShift(high, low, n, max);
    ModSmall(w - n, max);
  }

  /** The slide of `new_frame_rx`: from `low`, hand out and clear marked
    * slots until `high` or the first unmarked one. */
  method SlideRun(a: array<Slot>, low: nat, high: nat, ghost w: nat) returns (n: nat, cur: nat, out: seq<Slot>)
    requires 0 < a.Length && low < a.Length && high < a.Length
    requires w == Off(high, low, a.Length) && 1 <= w < a.Length
    requires a[low].acked
    modifies a
    ensures 1 <= n <= w && cur == (low + n) % a.Length
    ensures n == w || !old(a[cur]).acked
    ensures out == Emitted(old(a[..]), low, n, a.Length)
    ensures forall k :: 0 <= k < n ==> out[k].acked
    ensures a[..] == MapRun(old(a[..]), low, n, a.Length, Cleared)
  {
    ghost var marked := a[..];
    var max := a.Length;
    cur := low;
    n := 0;
    out := [];
    assert cur == (low + 0) % max by {
      ModSmall(low, max);
    }
    while cur != high && a[cur].acked
      invariant n <= w && cur == (low + n) % max
      invariant out == Emitted(marked, low, n, max)
      invariant forall k :: 0 <= k < n ==> out[k].acked
      invariant a[..] == MapRun(marked, low, n, max, Cleared)
      decreases w - n
    {
      assert n < w by {
        StepHits(low, n, high, max);
        ModSmall(high, max);
      }
      assert a[cur] == marked[cur] by {
        OffOfPos(low, n, max);
      }
      out := out + [a[cur]];
      assert out == Emitted(marked, low, n + 1, max) by {
        EmittedStep(marked, low, n, max);
      }
      a[cur] := Cleared(a[cur]);
      assert a[..] == MapRun(marked, low, n + 1, max, Cleared) by {
        MapRunStep(marked, low, n, max, Cleared);
      }
      assert (cur + 1) % max == (low + n + 1) % max by {
        StepNext(low, n, max);
      }
      n := n + 1;
      cur := (cur + 1) % max;
    }
    RxSlideEnd(marked, a[..], low, high, max, w, n, cur);
  }

  /** Where the receive slide stops: after at least one slot (the one just
    * marked at `low`), at `high` or at the first unmarked slot. */
  lemma RxSlideEnd(marked: seq<Slot>, now: seq<Slot>, low: nat, high: nat, max: nat, w: nat, n: nat, cur: nat)
    requires 0 < max == |marked| && low < max && high < max
    requires w == Off(high, low, max) && 1 <= w && n <= w < max
    requires cur == (low + n) % max && marked[low].acked
    requires now == MapRun(marked, low, n, max, Cleared)
    requires !(cur != high && now[cur].acked)
    ensures 1 <= n && (n == w || !marked[cur].acked)
  {
    OffOfPos(low, n, max);
    if cur == high {
      StepHits(low, n, high, max);
      ModSmall(high, max);
    } else {
      assert !marked[cur].acked;
      if n == 0 {
        ModSmall(low, max);
      }
    }
  }

  // ---------------------------------------------------------------------
  // Receive acceptance, as written and corrected

  /** Whether `new_frame_rx` accepts wire sequence number `sn`: it must be a
    * slot index, unmarked, and inside the window. */
  predicate RxAccepts(s: seq<Slot>, low: nat, high: nat, max: nat, sn: u32)
    requires 0 < max == |s|
  {
    sn < max && !s[sn].acked && InWin(low, high, max, sn)
  }

  /** The slot `new_frame_rx` reads, as written: `frames + seq` with the
    * unreduced 32-bit sequence number from the wire; None when that lies
    * outside the slot array. */
  function RxIndexAsWritten(s: seq<Slot>, sn: u32): (r: Option<nat>)
    ensures r.Some? <==> sn < |s|
    ensures r.Some? ==> r.value == sn
  {
    if sn < |s| then Some(sn) else None
  }

  /** A window of 128 at the start of a 256-slot ring passes sequence number
    * 261 as in-window (261 is 5 modulo 256), so the code as written marks a
    * slot beyond the end of the array. */
  lemma RxOutOfRangeSeqPassesWindowCheck(s: seq<Slot>)
    requires |s| == MAX_NRFRAMES
    ensures InWin(0, MAX_WINSIZ, MAX_NRFRAMES, 261)
    ensures RxIndexAsWritten(s, 261).None?
    ensures !RxAccepts(s, 0, MAX_WINSIZ, MAX_NRFRAMES, 261)
  {
  }

  /** The corrected check only ever touches a slot inside the array, and on
    * in-range numbers it agrees with the window test as written. */
  lemma RxAcceptsInBounds(s: seq<Slot>, low: nat, high: nat, max: nat, sn: u32)
    requires 0 < max == |s|
    ensures RxAccepts(s, low, high, max, sn) ==> RxIndexAsWritten(s, sn) == Some(sn)
    ensures sn < max ==>
      (RxAccepts(s, low, high, max, sn) <==> !s[sn].acked && InWin(low, high, max, sn))
  {
  }

  // ---------------------------------------------------------------------
  // Invariant preservation

  lemma TxGrowPreserves(before: seq<Slot>, after: seq<Slot>, low: nat, high: nat, max: nat, ws: nat, grew: bool)
    requires 0 < max == |before| == |after| && low < max && high < max && 2 * ws <= max
    requires Off(high, low, max) <= ws
    requires HeldExactly(before, low, high, max)
    requires grew ==> Off(high, low, max) < ws && after == before[high := after[high]] && after[high].req != null
    requires !grew ==> after == before
    ensures var nh := if grew then (high + 1) % max else high;
      && Off(nh, low, max) <= ws
      && HeldExactly(after, low, nh, max)
  {
    if grew {
      var w := Off(high, low, max);
      GrowByOne(low, high, max, w);
      ModSmall(w + 1, max);
      forall i | 0 <= i < max
        ensures after[i].req != null <==> InWin(low, (high + 1) % max, max, i)
      {
        if Off(i, low, max) == w {
          PosOfOff(i, low, max);
          PosOfOff(high, low, max);
        }
      }
    }
  }

  /** An initial transmit window [0, 0) is empty; an initial receive window
    * [0, max_ws) spans max_ws numbers. */
  lemma InitialGeometry(max: nat, ws: nat)
    requires 0 < max && 2 * ws <= max
    ensures Off(0, 0, max) == 0 && Off(ws, 0, max) == ws
    ensures forall i :: !InWin(0, 0, max, i)
  {
    ModSmall(0, max);
    ModSmall(ws, max);
  }

  /** Growing the window by its high end adds exactly `high`. */
  lemma GrowByOne(low: nat, high: nat, max: nat, w: nat)
    requires low < max && high < max && w == Off(high, low, max)
    ensures Off((high + 1) % max, low, max) == (w + 1) % max
    ensures w + 1 < max ==>
      forall i :: InWin(low, (high + 1) % max, max, i) <==> InWin(low, high, max, i) || Off(i, low, max) == w
  {
    GrowOcc(low, high, max, w);
    if w + 1 < max {
      ModSmall(w + 1, max);
    }
  }

  lemma GrowOcc(low: nat, high: nat, max: nat, w: nat)
    requires low < max && high < max && w == Off(high, low, max)
    ensures Off((high + 1) % max, low, max) == (w + 1) % max
  {
    var a := low + w + 1;
    assert (high + 1) % max == a % max by {
      PosOfOff(high, low, max);
      StepNext(low, w, max);
    }
    assert (a % max - low) % max == (w + 1) % max by {
      ModSum(a, -(low as int), max);
    }
  }

  /** The transmit-side shape: exactly the slots inside the window
    * [low, high) hold a request. */
  ghost predicate HeldExactly(s: seq<Slot>, low: nat, high: nat, max: nat)
  {
    max > 0 && forall i :: 0 <= i < |s| ==> (s[i].req != null <==> InWin(low, high, max, i))
  }

  /** Every acknowledged slot of `s` lies in the window `[low, high)` and
    * is not `low` itself: the shape of a receive window between calls. */
  ghost predicate AckedAhead(s: seq<Slot>, low: nat, high: nat, max: nat)
  {
    max > 0 && forall i :: 0 <= i < |s| && s[i].acked ==> InWin(low, high, max, i) && i != low
  }

  /** `s` and `t` agree on every slot but `k`. */
  ghost predicate SameBesides(s: seq<Slot>, t: seq<Slot>, k: nat)
  {
    |s| == |t| && forall i :: 0 <= i < |s| && i != k ==> s[i] == t[i]
  }

  /** The slots once slot `sn` has received `inp`. */
  function MarkSlot(s: seq<Slot>, sn: nat, inp: Frames.ArqFrame): (r: seq<Slot>)
    requires sn < |s|
    ensures |r| == |s| && r[sn].acked && r[sn].resp == inp
  {
    s[sn := s[sn].(resp := inp, acked := true)]
  }

  lemma SameBesidesUpdate(s: seq<Slot>, k: nat, v: Slot)
    requires k < |s|
    ensures SameBesides(s[k := v], s, k)
  {
  }

  /** Marking a slot inside the window other than `low` keeps the receive
    * shape. */
  lemma RxMarkPreserves(s: seq<Slot>, low: nat, high: nat, max: nat, sn: nat, v: Slot)
    requires AckedAhead(s, low, high, max) && sn < |s| && InWin(low, high, max, sn) && sn != low
    ensures AckedAhead(s[sn := v], low, high, max)
  {
  }

  lemma RxSlidePreserves(marked: seq<Slot>, before: seq<Slot>, after: seq<Slot>,
                         low: nat, high: nat, nl: nat, nh: nat, max: nat, ws: nat, n: nat)
    requires 0 < max == |marked| == |before| && low < max && high < max
    requires 2 * ws <= max && Off(high, low, max) == ws
    requires AckedAhead(before, low, high, max) && SameBesides(marked, before, low)
    requires 1 <= n <= ws
    requires n == ws || !marked[(low + n) % max].acked
    requires after == MapRun(marked, low, n, max, Cleared)
    requires nl == (low + n) % max && nh == (nl + ws) % max
    ensures AckedAhead(after, nl, nh, max)
  {
    forall i | 0 <= i < |after| && after[i].acked
      ensures InWin(nl, (nl + ws) % max, max, i) && i != nl
    {
      RxSlideIndex(i, low, high, max, ws, n, marked[i], before[i], after[i]);
    }
  }

  /** Slot `i` across a receive slide: `m` is it once marked, `b` before the
    * mark, `a` after the slide. */
  lemma RxSlideIndex(i: nat, low: nat, high: nat, max: nat, ws: nat, n: nat, m: Slot, b: Slot, a: Slot)
    requires low < max && high < max && i < max && 2 * ws <= max && Off(high, low, max) == ws && 1 <= n <= ws
    requires a == (if Off(i, low, max) < n then Cleared(m) else m) && a.acked
    requires i != low ==> m == b
    requires b.acked ==> InWin(low, high, max, i) && i != low
    requires i == (low + n) % max ==> n == ws || !m.acked
    ensures var nl := (low + n) % max;
      InWin(nl, (nl + ws) % max, max, i) && i != nl
  {
    var j := Off(i, low, max);
    assert n <= j && a == m;
    assert i != low by {
      OffSelf(low, max);
    }
    assert m == b;
    assert InWin(low, high, max, i);
    assert j == n ==> n == ws by {
      if j == n {
        PosOfOff(i, low, max);
      }
    }
    RxSlideSlot(i, low, high, max, ws, n);
  }

  /** A slot that was acknowledged ahead of `low` and survives a slide of
    * `n` lies ahead of the new `low` in the shifted window. */
  lemma RxSlideSlot(i: nat, low: nat, high: nat, max: nat, ws: nat, n: nat)
    requires low < max && high < max && i < max && 2 * ws <= max && Off(high, low, max) == ws
    requires InWin(low, high, max, i) && 1 <= n <= Off(i, low, max)
    requires Off(i, low, max) == n ==> n == ws
    ensures var nl := (low + n) % max;
      InWin(nl, (nl + ws) % max, max, i) && i != nl
  {
    var nl := (low + n) % max;
    var j := Off(i, low, max);
    assert j < ws;
    assert Off((nl + ws) % max, nl, max) == ws by {
      OffOfPos(nl, ws, max);
    }
    assert Off(i, nl, max) == j - n by {
      RxSlideOne(i, low, n, max, j);
    }
    assert Off(nl, nl, max) == 0 by {
      OffSelf(nl, max);
    }
    assert j != n;
  }

  /** A number `j` steps ahead of `low`, with `n <= j`, is `j - n` steps
    * ahead of `low + n`. */
  lemma RxSlideOne(i: nat, low: nat, n: nat, max: nat, j: nat)
    requires low < max && n <= j < max && j == Off(i, low, max)
    ensures Off(i, (low + n) % max, max) == j - n
  {
    OffShift(i, low, n, max);
    ModSmall(j - n, max);
  }

  /** Offsets relative to `low + n` of numbers that were before and after
    * the `n`-th step from `low`. */
  lemma ShiftedOff(i: nat, low: nat, n: nat, max: nat)
    requires low < max && n < max
    ensures var j := Off(i, low, max);
      && (n <= j ==> Off(i, (low + n) % max, max) == j - n)
      && (j < n ==> Off(i, (low + n) % max, max) == j - n + max)
  {
    var j := Off(i, low, max);
    OffShift(i, low, n, max);
    if n <= j {
      ModSmall(j - n, max);
    } else {
      ModUnique(j - n, max, -1, j - n + max);
    }
  }

  lemma TxShrinkPreserves(before: seq<Slot>, after: seq<Slot>, low: nat, high: nat, max: nat, ws: nat, n: nat)
    requires 0 < max == |before| && low < max && high < max && 2 * ws <= max
    requires Off(high, low, max) <= ws && n <= Off(high, low, max)
    requires HeldExactly(before, low, high, max)
    requires after == MapRun(before, low, n, max, Released)
    ensures Off(high, (low + n) % max, max) <= ws
    ensures HeldExactly(after, (low + n) % max, high, max)
    ensures forall k :: 0 <= k < n ==> Emitted(before, low, n, max)[k].req != null
  {
    var w := Off(high, low, max);
    var nl := (low + n) % max;
    ShrinkOcc(low, high, max, w, n);
    forall i | 0 <= i < max
      ensures after[i].req != null <==> InWin(nl, high, max, i)
    {
      ShiftedOff(i, low, n, max);
      if Off(i, low, max) < n {
        assert after[i].req == null;
      } else {
        assert after[i] == before[i];
      }
    }
    var e := Emitted(before, low, n, max);
    forall k | 0 <= k < n
      ensures e[k].req != null
    {
      OffOfPos(low, k, max);
    }
  }

  /** The transmit invariant depends only on which slots hold a request. */
  lemma SameRequests(before: seq<Slot>, after: seq<Slot>, low: nat, high: nat, max: nat)
    requires 0 < max == |before| == |after|
    requires forall i :: 0 <= i < max ==> after[i].req == before[i].req
    requires HeldExactly(before, low, high, max)
    ensures HeldExactly(after, low, high, max)
  {
  }
}
