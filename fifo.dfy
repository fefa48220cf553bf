/** The single-producer, single-consumer ring-buffer queue of
  * src/sctp_fifo.cpp. `last_in` names the slot written by the latest push,
  * `last_out` the slot read by the latest pop, and the `nr_full` semaphore
  * counts the filled slots. An element is one value of type `T` (the
  * library copies `elem_size` bytes per element). */
module Fifo {
  import opened Base
  import opened Defines

  /** `get_abs_ptr` on a 64-bit host: base plus offset, wrapping. */
  function GetAbsPtr(base: u64, rel: u64): (p: u64)
    ensures base + rel < POW64 ==> p == base + rel
  {
    (base + rel) % POW64
  }

  /** `get_rel_ptr` on a 64-bit host: the offset of `abs` from `base`. */
  function GetRelPtr(base: u64, abs: u64): (r: u64)
    ensures base <= abs ==> r == abs - base
  {
    SubU64(abs, base)
  }

  /** Converting to an offset and back restores it, for any base. */
  lemma AbsOfRel(base: u64, p: u64)
    ensures GetAbsPtr(base, GetRelPtr(base, p)) == p
    ensures GetRelPtr(base, GetAbsPtr(base, p)) == p
  {
    var r := GetRelPtr(base, p);
    if base <= p {
      ModSmall(p, POW64);
    } else {
      ModUnique(base + r, POW64, 1, p);
    }
    var a := GetAbsPtr(base, p);
    if base + p < POW64 {
      ModSmall(base + p, POW64);
    } else {
      ModUnique(base + p, POW64, 1, base + p - POW64);
    }
  }

  /** The `n` elements of ring `s` that follow slot `out`, in order. */
  function Ring<T>(s: seq<T>, out: nat, n: nat): (q: seq<T>)
    requires 0 < |s| && n <= |s|
    ensures |q| == n
    ensures forall k :: 0 <= k < n ==> q[k] == s[(out + 1 + k) % |s|]
  {
    seq(n, k requires 0 <= k < n => s[(out + 1 + k) % |s|])
  }

  /** Writing the slot after the last filled one appends to the queue. */
  lemma RingPush<T>(s: seq<T>, out: nat, n: nat, e: T)
    requires n < |s|
    ensures Ring(s[(out + 1 + n) % |s| := e], out, n + 1) == Ring(s, out, n) + [e]
  {
    var m := |s|;
    var s' := s[(out + 1 + n) % m := e];
    var q, q' := Ring(s, out, n), Ring(s', out, n + 1);
    forall k | 0 <= k < n
      ensures q'[k] == q[k]
    {
      ModInjective(out + 1, k, n, m);
    }
  }

  /** Advancing `out` by one drops the front of the queue. */
  lemma RingPop<T>(s: seq<T>, out: nat, n: nat)
    requires 0 < n <= |s|
    ensures Ring(s, (out + 1) % |s|, n - 1) == Ring(s, out, n)[1..]
  {
    var m := |s|;
    var q, q' := Ring(s, out, n), Ring(s, (out + 1) % m, n - 1);
    forall k | 0 <= k < n - 1
      ensures q'[k] == q[k + 1]
    {
      ModSum(out + 1, 1 + k, m);
    }
  }

  class Fifo<T> {
    var signals: int
    var nrFull: int
    var lastOut: u32
    var lastIn: u32
    var nrElem: u32
    var elemSize: u32
    /** The `buf` word: the buffer address, or its offset from the shared
      * memory base when one was given; 0 is NULL. */
    var buf: u64
    /** The storage `buf` designates. */
    var data: array?<T>

    /** The ring's shape: `last_in` is `nr_full` slots past `last_out`. */
    ghost predicate Valid()
      reads this
    {
      && data != null && 0 < nrElem == data.Length
      && lastOut < nrElem && lastIn < nrElem
      && 0 <= nrFull <= nrElem
      && lastIn == (lastOut + nrFull) % nrElem
    }

    /** The queued elements, oldest first. */
    ghost function Contents(): (q: seq<T>)
      reads this, data
      requires Valid()
      ensures |q| == nrFull
    {
      Ring(data[..], lastOut, nrFull)
    }

    /** A fifo structure as it lies in freshly mapped shared memory: zeroed. */
    constructor ()
      ensures buf == 0 && data == null && nrFull == 0 && signals == 0
    {
      buf := 0;
      data := null;
      nrFull := 0;
      signals := 0;
    }

    /** `fif_init_wbuf`: a fifo that already has a buffer is refused with -1.
      * Otherwise the `nr` slots of `b` are zeroed, the fifo is set up empty
      * over them and 0 is returned; with a base pointer the buffer is
      * stored as an offset from it. */
    method InitWbuf(nr: u32, size: u32, b: array<T>, zero: T, addr: u64, baseptr: u64) returns (r: int)
      requires b.Length == nr
      modifies this, b
      ensures old(buf) != 0 ==> r == -1 && unchanged(this) && unchanged(b)
      ensures old(buf) == 0 ==>
        && r == 0 && data == b && nrElem == nr && elemSize == size
        && lastIn == 0 && lastOut == 0 && nrFull == 0 && signals == 0
        && buf == (if baseptr != 0 then GetRelPtr(baseptr, addr) else addr)
        && (forall i :: 0 <= i < b.Length ==> b[i] == zero)
      ensures old(buf) == 0 && nr > 0 ==> Valid() && Contents() == []
    {
      if buf != 0 {
        return -1;
      }
      forall i | 0 <= i < b.Length {
        b[i] := zero;
      }
      lastOut := 0;
      lastIn := 0;
      nrElem := nr;
      elemSize := size;
      buf := if baseptr != 0 then GetRelPtr(baseptr, addr) else addr;
      data := b;
      signals := 0;
      nrFull := 0;
      r := 0;
      if nr > 0 {
        ModSmall(0, nr);
        assert lastIn == (lastOut + nrFull) % nrElem;
      }
    }

    /** `fif_reset`: empties the queue and clears both semaphores. */
    method Reset()
      modifies this
      ensures lastOut == 0 && lastIn == 0 && signals == 0 && nrFull == 0
      ensures data == old(data) && nrElem == old(nrElem) && elemSize == old(elemSize) && buf == old(buf)
      ensures old(data) != null && 0 < nrElem == data.Length ==> Valid() && Contents() == []
    {
      lastOut := 0;
      lastIn := 0;
      signals := 0;
      nrFull := 0;
    }

    /** `try_fif_push`: a full queue answers -6 and is left alone; otherwise
      * the element is copied into the slot after `last_in`, which joins the
      * back of the queue, and 0 is returned. */
    method TryPush(e: T) returns (r: int)
      requires Valid()
      modifies this, data
      ensures Valid() && data == old(data) && nrElem == old(nrElem) && buf == old(buf)
      ensures r == SC_FULL <==> old(nrFull) >= nrElem
      ensures r == SC_FULL ==> unchanged(this) && unchanged(data)
      ensures r != SC_FULL ==> r == 0 && Contents() == old(Contents()) + [e] && lastOut == old(lastOut)
    {
      if nrFull >= nrElem {
        return SC_FULL;
      }
      ghost var n := nrFull;
      assert (lastIn + 1) % nrElem == (lastOut + 1 + n) % nrElem by {
        ModSum(lastOut + n, 1, nrElem);
      }
      RingPush(data[..], lastOut, n, e);
      lastIn := (lastIn + 1) % nrElem;
      data[lastIn] := e;
      nrFull := nrFull + 1;
      r := 0;
    }

    /** `try_fif_pop`: an empty queue answers -7 and is left alone; otherwise
      * the slot after `last_out`, the front of the queue, is copied out and
      * 0 is returned. */
    method TryPop() returns (r: int, e: Option<T>)
      requires Valid()
      modifies this
      ensures Valid() && data == old(data) && nrElem == old(nrElem) && buf == old(buf)
      ensures r == SC_EMPTY <==> old(nrFull) <= 0
      ensures r == SC_EMPTY ==> unchanged(this) && e == None
      ensures r != SC_EMPTY ==>
        && r == 0 && e == Some(old(Contents())[0])
        && Contents() == old(Contents())[1..] && lastIn == old(lastIn)
    {
      if nrFull <= 0 {
        return SC_EMPTY, None;
      }
      ghost var q := Contents();
      ghost var n := nrFull;
      var next := (lastOut + 1) % nrElem;
      assert Ring(data[..], next, n - 1) == q[1..] by {
        RingPop(data[..], lastOut, n);
      }
      assert lastIn == (next + (n - 1)) % nrElem by {
        ModSum(lastOut + 1, n - 1, nrElem);
      }
      e := Some(data[next]);
      lastOut := next;
      nrFull := nrFull - 1;
      r := 0;
    }

    /** `fif_push` when the queue has room, which is the only case in which it
      * returns without waiting for a consumer. */
    method Push(e: T) returns (r: int)
      requires Valid() && nrFull < nrElem
      modifies this, data
      ensures Valid() && data == old(data) && nrElem == old(nrElem) && buf == old(buf)
      ensures r == 0 && Contents() == old(Contents()) + [e]
    {
      r := TryPush(e);
    }

    /** `fif_pop` when the queue holds an element, which is the only case in
      * which it returns without waiting for a producer. */
    method Pop() returns (r: int, e: T)
      requires Valid() && nrFull > 0
      modifies this
      ensures Valid() && data == old(data) && nrElem == old(nrElem) && buf == old(buf)
      ensures r == 0 && e == old(Contents())[0] && Contents() == old(Contents())[1..]
    {
      var o;
      r, o := TryPop();
      e := o.value;
    }
  }
}
