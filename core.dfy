/** The sequential pieces of the transport core (src/us_sctp_core.cpp and
  * its C twin src/us_sctp_core.c) taken out of their threads: the
  * round-trip-time estimator of the TX thread, the countdown of the
  * RESEND thread, the ACK/REQ/rACK rules of the RX thread and of the reset,
  * and the check of the FPGA's reset answer. */
module Core {
  import opened Base
  import opened Defines
  import opened ByteOrder
  import Frames

  function Abs(x: int): (r: nat)
    ensures r == x || r == -x
  {
    if x < 0 then -x else x
  }

  /** `(size_t) x`: a signed 64-bit value read as unsigned, that is
    * reduced modulo 2^64. */
  function SizeT(x: int): (r: u64)
    requires -POW64 / 2 <= x < POW64 / 2
    ensures 0 <= x ==> r == x
    ensures x < 0 ==> r >= POW64 / 2
  {
    if x < 0 then x + POW64 else x
  }

  /** The C++ floor of the deviation, `size_t(dev) < TO_RES`, agrees with the
    * C floor, `dev < TO_RES`, on every non-negative deviation; a negative
    * one would escape the C++ floor. */
  lemma FloorRulesAgree(d: int)
    requires -POW64 / 2 <= d < POW64 / 2
    ensures 0 <= d ==> (SizeT(d) < TO_RES <==> d < TO_RES)
    ensures d < 0 ==> d < TO_RES && !(SizeT(d) < TO_RES)
  {
  }

  /** The retransmission timeout, clamped to [MIN_RTO, MAX_RTO]. */
  function ClampRto(res: int): (r: int)
    ensures MIN_RTO <= r <= MAX_RTO
    ensures MIN_RTO <= res <= MAX_RTO ==> r == res
  {
    if res < MIN_RTO then MIN_RTO else if res > MAX_RTO then MAX_RTO else res
  }

  /** Both bounds are the same expression, so every estimate is clamped to
    * the one constant 756 ms. */
  lemma RtoIsConstant(res: int)
    ensures ClampRto(res) == MAX_RTO == 756
  {
  }

  /** The gain-1/8 step of the average toward the measurement `m`, with
    * C's truncating division: it never passes the measurement. */
  function NextAverage(a: int, m: int): (n: int)
    requires Abs(a) < POW64 / 4 && Abs(m) < POW64 / 4
    ensures a <= m ==> a <= n <= m
    ensures m <= a ==> m <= n <= a
  {
    var d := m - a;
    if d >= 0 then
      assert 0 <= d / 8 <= d;
      a + DivTrunc(d, 8)
    else
      assert 0 <= (-d) / 8 <= -d;
      a + DivTrunc(d, 8)
  }

  /** The gain-1/4 step of the deviation toward the error `e`, floored at
    * TO_RES by the C++ rule `size_t(dev) < TO_RES`. The result is the one
    * of the C rule `dev < TO_RES`, since the stepped deviation is never
    * negative. */
  function NextDeviation(dv: int, e: int): (r: int)
    requires TO_RES <= dv < POW64 / 2 && 0 <= e < POW64 / 2
    ensures TO_RES <= r < POW64 / 2
    ensures var d := dv + DivTrunc(e - dv, 4); r == if d < TO_RES then TO_RES else d
  {
    var d := dv + DivTrunc(e - dv, 4);
    assert 0 <= d < POW64 / 2 by {
      if e >= dv {
        assert 0 <= (e - dv) / 4 <= e - dv;
      } else {
        assert 0 <= (dv - e) / 4 <= dv - e;
      }
    }
    FloorRulesAgree(d);
    if SizeT(d) < TO_RES then TO_RES else d
  }

  /** The smoothed round-trip estimator of the TX thread (section 2.3 of
    * RFC 6298 with gains 1/8 and 1/4, in integer milliseconds). `rtt` is
    * the `stats.RTT` field the RESEND thread reads. */
  class RttEstimator {
    var avg: int
    var dev: int
    var rtt: u64

    ghost predicate Valid()
      reads this
    {
      && TO_RES <= dev < POW64 / 2
      && Abs(avg) < POW64 / 4
    }

    /** The initial values of the TX and RESEND threads. */
    constructor ()
      ensures Valid() && avg == MAX_RTO && dev == TO_RES && rtt == MAX_RTO
    {
      avg := MAX_RTO;
      dev := TO_RES;
      rtt := MAX_RTO;
    }

    /** One measurement `mRtt` (the age of the newest acknowledged frame).
      * The signed divisions truncate toward zero. The deviation is floored
      * at TO_RES by the C++ rule; the ensures states the C rule, which gives
      * the same deviation because it never becomes negative. The new
      * average lies between the old one and the measurement. */
    method Update(mRtt: int)
      requires Valid() && Abs(mRtt) < POW64 / 4
      modifies this
      ensures Valid()
      ensures avg == old(avg) + DivTrunc(mRtt - old(avg), 8)
      ensures old(avg) <= mRtt ==> old(avg) <= avg <= mRtt
      ensures mRtt <= old(avg) ==> mRtt <= avg <= old(avg)
      ensures var d := old(dev) + DivTrunc(Abs(mRtt - old(avg)) - old(dev), 4);
        dev == if d < TO_RES then TO_RES else d
      ensures rtt == ClampRto(avg + 4 * dev) == MAX_RTO
    {
      var err := mRtt - avg;
      avg := NextAverage(avg, mRtt);
      err := Abs(err);
      dev := NextDeviation(dev, err);
      var res := avg + 4 * dev;
      if res < MIN_RTO {
        res := MIN_RTO;
      }
      if res > MAX_RTO {
        res := MAX_RTO;
      }
      rtt := res;
    }
  }

  /** What one tick does to the remaining wait: down by TO_RES, stopping at 0. */
  function Countdown(w: nat): (r: nat)
    ensures w > TO_RES ==> r == w - TO_RES
    ensures w <= TO_RES ==> r == 0
  {
    if w > TO_RES then w - TO_RES else 0
  }

  /** The ticks until a wait of `w` has run out, counting the tick that
    * finds it at 0. */
  function TicksUntilDue(w: nat): (n: nat)
    ensures n >= 1
    decreases w
  {
    if w <= TO_RES then 1 else 1 + TicksUntilDue(w - TO_RES)
  }

  /** A wait of `w` ms is over after ceil(w / TO_RES) ticks (at least one). */
  lemma {:induction false} TicksUntilDueIsCeiling(w: nat)
    ensures TicksUntilDue(w) == if w == 0 then 1 else (w + TO_RES - 1) / TO_RES
    decreases w
  {
    if w > TO_RES {
      TicksUntilDueIsCeiling(w - TO_RES);
      assert (w + TO_RES - 1) / TO_RES == 1 + (w - 1) / TO_RES;
    }
  }

  /** The clock and countdown of the RESEND thread. */
  class ResendTimer {
    var currtime: nat
    var time2wait: u64

    /** The thread starts with the full timeout to wait. */
    constructor (now: nat)
      ensures currtime == now && time2wait == MAX_RTO
    {
      currtime := now;
      time2wait := MAX_RTO;
    }

    /** One tick: the clock advances by TO_RES and the wait counts down;
      * when it reaches 0 the window is due for a resend scan and the wait is
      * reloaded from the current estimate `rtt`. */
    method Tick(rtt: u64) returns (due: bool)
      modifies this
      ensures currtime == old(currtime) + TO_RES
      ensures due <==> old(time2wait) <= TO_RES
      ensures due ==> time2wait == rtt && TicksUntilDue(old(time2wait)) == 1
      ensures !due ==>
        && time2wait == Countdown(old(time2wait))
        && TicksUntilDue(time2wait) == TicksUntilDue(old(time2wait)) - 1
    {
      currtime := currtime + TO_RES;
      if time2wait > TO_RES {
        time2wait := time2wait - TO_RES;
      } else {
        time2wait := 0;
      }
      if time2wait > 0 {
        due := false;
      } else {
        time2wait := rtt;
        due := true;
      }
    }
  }

  /** The ACK the RX thread publishes after a slide: `(low_seq - 1) %
    * max_frames` in unsigned 32-bit arithmetic. */
  function AckAfterSlide(lowSeq: u32, maxFrames: u32): (ack: u32)
    requires maxFrames > 0
    ensures ack < maxFrames
  {
    SubU32(lowSeq, 1) % maxFrames
  }

  /** The ACK names the last frame received in order, the one just before
    * the new window start; at low_seq 0 it is max_frames - 1. */
  lemma AckIsLastInOrder(lowSeq: u32, maxFrames: u32)
    requires 0 < maxFrames && POW32 % maxFrames == 0 && lowSeq < maxFrames
    ensures AckAfterSlide(lowSeq, maxFrames) == (lowSeq + maxFrames - 1) % maxFrames
    ensures (AckAfterSlide(lowSeq, maxFrames) + 1) % maxFrames == lowSeq
    ensures lowSeq == 0 ==> AckAfterSlide(lowSeq, maxFrames) == maxFrames - 1
  {
    var ack := AckAfterSlide(lowSeq, maxFrames);
    if lowSeq == 0 {
      assert ack == maxFrames - 1 by {
        var k := POW32 / maxFrames;
        assert POW32 == k * maxFrames;
        ModUnique(POW32 - 1, maxFrames, k - 1, maxFrames - 1);
      }
      ModSmall(maxFrames - 1, maxFrames);
      ModUnique(maxFrames, maxFrames, 1, 0);
    } else {
      ModSmall(lowSeq - 1, maxFrames);
      ModSmall(lowSeq, maxFrames);
      ModUnique(lowSeq + maxFrames - 1, maxFrames, 1, lowSeq - 1);
    }
  }

  /** The acknowledgement state shared by the RX and TX threads. */
  class AckState {
    var ack: u32
    var req: u32
    var rAck: u32
    var acktime: nat

    /** The RX thread's start: nothing received, nothing acknowledged. */
    constructor ()
      ensures ack == MAX_NRFRAMES - 1 && rAck == MAX_NRFRAMES - 1 && acktime == 0
    {
      ack := MAX_NRFRAMES - 1;
      rAck := MAX_NRFRAMES - 1;
      req := 0;
      acktime := 0;
    }

    /** The reset restores the start values and withdraws any pending
      * acknowledgement request. */
    method Reset()
      modifies this
      ensures ack == MAX_NRFRAMES - 1 && req == 0 && rAck == ack
      ensures acktime == old(acktime)
    {
      ack := MAX_NRFRAMES - 1;
      req := 0;
      rAck := ack;
    }

    /** After the receive window slid to `lowSeq`. */
    method Slid(lowSeq: u32, maxFrames: u32)
      requires maxFrames > 0
      modifies this
      ensures ack == AckAfterSlide(lowSeq, maxFrames)
      ensures req == old(req) && rAck == old(rAck) && acktime == old(acktime)
    {
      ack := SubU32(lowSeq, 1) % maxFrames;
    }

    /** The delayed-acknowledgement rule: an acknowledgement is requested at
      * most once every DELAY_ACK ms. */
    method DelayedAck(currtime: nat) returns (raised: bool)
      modifies this
      ensures raised <==> currtime >= old(acktime) + DELAY_ACK
      ensures raised ==> req == 1 && acktime == currtime && acktime - old(acktime) >= DELAY_ACK
      ensures !raised ==> req == old(req) && acktime == old(acktime)
      ensures ack == old(ack) && rAck == old(rAck)
    {
      raised := currtime >= acktime + DELAY_ACK;
      if raised {
        req := 1;
        acktime := currtime;
      }
    }
  }

  /** `be64toh` on a little-endian host. */
  function Be64ToH(x: u64): (r: u64)
  {
    assert Pow256(8) == POW64;
    Swap(x, 8)
  }

  /** `resetframe_var_values_check` of the C++ core: the local table of
    * the parameters the FPGA must report. */
  const ResetVarValuesCheck: seq<u64> := [MAX_NRFRAMES, MAX_WINSIZ, MAX_PDUWORDS]

  /** `resetframe_var_values_check` of the C build: declared with six
    * entries and defined with three initialisers, so the last three are 0. */
  const ResetVarValuesCheckC: seq<u64> := [MAX_NRFRAMES, MAX_WINSIZ, MAX_PDUWORDS, 0, 0, 0]

  /** `resetframe_var_names`: the labels the check logs, one per entry. */
  const ResetVarNames: seq<string> := ["MAX_NRFRAMES", "MAX_WINSIZ", "MAX_PDUWORDS"]

  /** The entries both tables hold. */
  function TablesSize(values: seq<u64>): (n: nat)
    ensures n <= |values| && n <= |ResetVarNames|
    ensures n == |values| || n == |ResetVarNames|
  {
    if |values| <= |ResetVarNames| then |values| else |ResetVarNames|
  }

  /** The table entries the check reads for an answer of LEN words, as
    * written: one per payload word. */
  function CheckedIndicesAsWritten(len: u16): (js: seq<nat>)
    ensures |js| == len && forall k :: 0 <= k < len ==> js[k] == k
  {
    seq(len, k => k)
  }

  /** As written, the check reads past the end of a table of `size` entries
    * exactly when the answer carries more than `size` words: past the
    * three values of the C++ table, and past the three names in both
    * builds, for any answer of four words or more. */
  lemma CheckReadsPastTable(len: u16, size: nat)
    ensures (exists k :: 0 <= k < len && CheckedIndicesAsWritten(len)[k] >= size) <==> len > size
  {
    if len > size {
      assert CheckedIndicesAsWritten(len)[size] >= size;
    }
  }

  /** The words the corrected check compares: as many as the answer
    * carries, and no more than the table of `size` entries holds. */
  function CheckedCount(len: u16, size: nat): (n: nat)
    ensures n <= size && n <= len
    ensures forall k :: 0 <= k < n ==> CheckedIndicesAsWritten(len)[k] < size
    ensures len <= size ==> n == len
    ensures size <= len ==> n == size
  {
    if len <= size then len else size
  }

  /** The reset-answer check with the corrected loop bound, for the table
    * `values` of either build: the answer is rejected, which makes the core
    * exit, iff one of its first words, converted from network order,
    * differs from the host's parameter. The loop stops at the end of the
    * shorter of the two tables it indexes. */
  method CheckResetAnswer(f: Frames.ArqFrame, values: seq<u64>) returns (wrongHwSettings: bool)
    requires f.Valid() && f.GetLen() <= MAX_PDUWORDS
    ensures wrongHwSettings <==>
      exists j :: 0 <= j < CheckedCount(f.GetLen(), TablesSize(values)) && Be64ToH(f.commands[j]) != values[j]
  {
    wrongHwSettings := false;
    var n := CheckedCount(f.GetLen(), TablesSize(values));
    var j := 0;
    while j < n
      invariant j <= n
      invariant wrongHwSettings <==>
        exists i :: 0 <= i < j && Be64ToH(f.commands[i]) != values[i]
    {
      var data := Be64ToH(f.commands[j]);
      if data != values[j] {
        wrongHwSettings := true;
      }
      j := j + 1;
    }
  }

  /** The corrected check compares the same three parameters in both
    * builds: the C table's extra zero entries are never reached. */
  lemma CheckTablesAgree()
    ensures TablesSize(ResetVarValuesCheck) == TablesSize(ResetVarValuesCheckC) == 3
    ensures ResetVarValuesCheckC[..3] == ResetVarValuesCheck
  {
  }

  /** The RX thread's pass over the `released` frames a slide handed back.
    * Every iteration tests the type of the frame just received, not that of
    * the released frame it is looking at: when that frame is a reset answer
    * the pass ends at once, without handing up any frame of the run;
    * otherwise every released frame goes up. */
  method ScanForAnswer(currType: u16, released: nat) returns (passed: nat, answered: bool)
    ensures answered <==> released > 0 && currType == PTYPE_CFG_TYPE
    ensures passed == if answered then 0 else released
  {
    var a := 0;
    passed, answered := 0, false;
    while a < released
      invariant a <= released && passed == a && !answered
      invariant a > 0 ==> currType != PTYPE_CFG_TYPE
    {
      if currType == PTYPE_CFG_TYPE {
        answered := true;
        return;
      }
      passed := passed + 1;
      a := a + 1;
    }
  }
}
