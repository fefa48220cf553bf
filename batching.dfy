/** The frame-pointer caches between the user library and the core
  * (`fetch_frames`/`push_frames` in src/us_sctp_if.cpp and src/us_sctp_if.c,
  * `mw_push_frames`/`push_frames` in src/us_sctp_core.cpp and
  * src/us_sctp_core.c). A `sctp_alloc` entry carries up to PARALLEL_FRAMES
  * frame pointers; pointers travel through the queues as offsets from the
  * shared-memory base. A pointer is a 64-bit address, 0 being NULL. */
module Batching {
  import opened Base
  import opened Defines
  import Fifo

  /** A `sctp_alloc` as it is copied into and out of a queue. */
  datatype Alloc = Alloc(fptr: seq<u64>, num: u32, next: u32)

  /** An entry as the caches build it: eight slots, at most eight in use. */
  predicate WellFormed(b: Alloc)
  {
    |b.fptr| == PARALLEL_FRAMES && b.num <= PARALLEL_FRAMES
  }

  /** The pointers an entry carries, in order. */
  function Carried(b: Alloc): (s: seq<u64>)
    requires WellFormed(b)
    ensures |s| == b.num
  {
    b.fptr[..b.num]
  }

  /** The pointers carried by a sequence of entries, entry after entry. */
  function Flatten(bs: seq<Alloc>): seq<u64>
    requires forall i :: 0 <= i < |bs| ==> WellFormed(bs[i])
  {
    if bs == [] then [] else Flatten(bs[..|bs| - 1]) + Carried(bs[|bs| - 1])
  }

  lemma FlattenAppend(bs: seq<Alloc>, b: Alloc)
    requires forall i :: 0 <= i < |bs| ==> WellFormed(bs[i])
    requires WellFormed(b)
    ensures Flatten(bs + [b]) == Flatten(bs) + Carried(b)
  {
    assert (bs + [b])[..|bs|] == bs;
  }

  /** Every entry of a queue is well formed. */
  ghost predicate QueueWellFormed(q: Fifo.Fifo<Alloc>)
    reads q, q.data
    requires q.Valid()
  {
    forall i :: 0 <= i < |q.Contents()| ==> WellFormed(q.Contents()[i])
  }

  /** Each pointer made relative to `base`. */
  function RelAll(base: u64, ps: seq<u64>): (r: seq<u64>)
    ensures |r| == |ps|
    ensures forall i :: 0 <= i < |ps| ==> r[i] == Fifo.GetRelPtr(base, ps[i])
  {
    seq(|ps|, i requires 0 <= i < |ps| => Fifo.GetRelPtr(base, ps[i]))
  }

  /** Each offset turned back into a pointer from `base`. */
  function AbsAll(base: u64, rs: seq<u64>): (r: seq<u64>)
    ensures |r| == |rs|
    ensures forall i :: 0 <= i < |rs| ==> r[i] == Fifo.GetAbsPtr(base, rs[i])
  {
    seq(|rs|, i requires 0 <= i < |rs| => Fifo.GetAbsPtr(base, rs[i]))
  }

  /** Pointers pushed as offsets are fetched back unchanged. */
  lemma BatchRoundTrip(base: u64, ps: seq<u64>)
    ensures AbsAll(base, RelAll(base, ps)) == ps
  {
    forall i | 0 <= i < |ps|
      ensures AbsAll(base, RelAll(base, ps))[i] == ps[i]
    {
      Fifo.AbsOfRel(base, ps[i]);
    }
  }

  /** A local `sctp_alloc` cache, updated in place. */
  class AllocCache {
    const fptr: array<u64>
    var num: u32
    var next: u32

    ghost predicate Valid()
      reads this
    {
      fptr.Length == PARALLEL_FRAMES && num <= PARALLEL_FRAMES && next <= PARALLEL_FRAMES
    }

    /** A zeroed cache, as it lies in a fresh descriptor. */
    constructor ()
      ensures Valid() && fresh(fptr) && num == 0 && next == 0
    {
      fptr := new u64[PARALLEL_FRAMES](_ => 0);
      num := 0;
      next := 0;
    }

    /** The entry as `memcpy` copies it. */
    function Snapshot(): (b: Alloc)
      reads this, fptr
      requires Valid()
      ensures WellFormed(b) && b.fptr == fptr[..]
    {
      Alloc(fptr[..], num, next)
    }

    /** Sending side: the pointers registered but not yet pushed. */
    function Pending(): (s: seq<u64>)
      reads this, fptr
      requires Valid()
      ensures |s| == next
    {
      fptr[..next]
    }

    /** Receiving side: the fetched pointers not yet handed out. */
    function Unread(): (s: seq<u64>)
      reads this, fptr
      requires Valid()
    {
      if next <= num then fptr[next..num] else []
    }

    /** `push_frames` (and the core's `mw_push_frames`): registers the frame
      * at `ptr` as an offset from `base` and pushes the entry once it holds
      * PARALLEL_FRAMES pointers or `flush` asks for it; a NULL `ptr` with
      * `flush` pushes whatever is pending. Offsets leave in the order they
      * were registered. A push waits while the queue is full; the model
      * covers the calls that find room. */
    method PushFrames(q: Fifo.Fifo<Alloc>, base: u64, ptr: u64, flush: bool) returns (ghost pushed: seq<Alloc>)
      requires Valid() && q.Valid() && QueueWellFormed(q)
      requires (ptr == 0 && flush && next > 0) || (ptr != 0 && (flush || next >= PARALLEL_FRAMES))
        ==> q.nrFull < q.nrElem
      modifies this, fptr, q, q.data
      ensures Valid() && q.Valid() && QueueWellFormed(q)
      ensures Flatten(q.Contents()) + Pending()
        == old(Flatten(q.Contents()) + Pending()) + (if ptr != 0 then [Fifo.GetRelPtr(base, ptr)] else [])
      ensures q.Contents() == old(q.Contents()) + pushed && |pushed| <= 1
      ensures forall b :: b in pushed ==> b.num >= 1 && b.next == 0
      ensures ptr == 0 && !(flush && old(next) > 0) ==> unchanged(this) && unchanged(fptr) && unchanged(q)
      ensures flush && (ptr == 0 || old(next) < PARALLEL_FRAMES) ==> next == 0
      ensures ptr != 0 && !flush ==> 1 <= next
    {
      pushed := [];
      if ptr == 0 {
        if flush && next > 0 {
          pushed := Flush(q);
        }
        return;
      }
      pushed := PushOne(q, Fifo.GetRelPtr(base, ptr), flush);
    }

    /** One offset: registered, with the pending ones pushed first when the
      * cache is full. */
    method PushOne(q: Fifo.Fifo<Alloc>, rel: u64, flush: bool) returns (ghost pushed: seq<Alloc>)
      requires Valid() && q.Valid() && QueueWellFormed(q)
      requires flush || next >= PARALLEL_FRAMES ==> q.nrFull < q.nrElem
      modifies this, fptr, q, q.data
      ensures Valid() && q.Valid() && QueueWellFormed(q)
      ensures Flatten(q.Contents()) + Pending() == old(Flatten(q.Contents()) + Pending()) + [rel]
      ensures q.Contents() == old(q.Contents()) + pushed && |pushed| <= 1
      ensures forall b :: b in pushed ==> b.num >= 1 && b.next == 0
      ensures flush && old(next) < PARALLEL_FRAMES ==> next == 0
      ensures !flush ==> 1 <= next
    {
      if next < PARALLEL_FRAMES {
        pushed := Register(q, rel, flush);
      } else {
        ghost var before := Flatten(q.Contents()) + Pending();
        pushed := Flush(q);
        ghost var qc := q.Contents();
        assert Flatten(qc) == before;
        Append(rel);
        assert q.Contents() == qc && Pending() == [rel];
      }
    }

    /** Pushes the pending pointers as one entry and empties the cache. */
    method Flush(q: Fifo.Fifo<Alloc>) returns (ghost pushed: seq<Alloc>)
      requires Valid() && q.Valid() && QueueWellFormed(q)
      requires q.nrFull < q.nrElem && next > 0
      modifies this, q, q.data
      ensures Valid() && q.Valid() && QueueWellFormed(q) && next == 0 && fptr[..] == old(fptr[..])
      ensures Pending() == [] && Flatten(q.Contents()) == old(Flatten(q.Contents()) + Pending())
      ensures q.Contents() == old(q.Contents()) + pushed && |pushed| == 1
      ensures forall b :: b in pushed ==> b.num >= 1 && b.next == 0
    {
      ghost var qc := q.Contents();
      ghost var pend := Pending();
      num := next;
      next := 0;
      assert fptr[..num] == pend;
      pushed := [Snapshot()];
      PushEntry(q, qc);
    }

    /** Registers one offset in a cache with room, pushing it at once when
      * `flush` is set. */
    method Register(q: Fifo.Fifo<Alloc>, rel: u64, flush: bool) returns (ghost pushed: seq<Alloc>)
      requires Valid() && q.Valid() && QueueWellFormed(q)
      requires next < PARALLEL_FRAMES && (flush ==> q.nrFull < q.nrElem)
      modifies this, fptr, q, q.data
      ensures Valid() && q.Valid() && QueueWellFormed(q)
      ensures Flatten(q.Contents()) + Pending() == old(Flatten(q.Contents()) + Pending()) + [rel]
      ensures q.Contents() == old(q.Contents()) + pushed && |pushed| <= 1
      ensures forall b :: b in pushed ==> b.num >= 1 && b.next == 0
      ensures flush ==> next == 0
      ensures !flush ==> next == old(next) + 1
    {
      ghost var before := Flatten(q.Contents());
      ghost var pend := Pending();
      pushed := [];
      Append(rel);
      assert Flatten(q.Contents()) == before;
      if flush {
        ghost var pend' := Pending();
        pushed := Flush(q);
        assert Flatten(q.Contents()) == before + pend';
        assert Pending() == [];
        assert pend' == pend + [rel];
        assert before + pend' == (before + pend) + [rel];
      } else {
        assert Pending() == pend + [rel];
      }
    }

    /** Stores one offset in the next free slot. */
    method Append(rel: u64)
      requires Valid() && next < PARALLEL_FRAMES
      modifies this, fptr
      ensures Valid() && num == old(num) && next == old(next) + 1
      ensures Pending() == old(Pending()) + [rel]
    {
      ghost var pend := Pending();
      fptr[next] := rel;
      next := next + 1;
      assert Pending() == pend + [rel];
    }

    /** Pushes a copy of the entry, whose `num` pointers were pending. */
    method PushEntry(q: Fifo.Fifo<Alloc>, ghost qc: seq<Alloc>)
      requires Valid() && q.Valid() && QueueWellFormed(q) && q.Contents() == qc
      requires q.nrFull < q.nrElem && num >= 1 && next == 0
      modifies q, q.data
      ensures q.Valid() && QueueWellFormed(q)
      ensures q.Contents() == qc + [Snapshot()] && Snapshot().num >= 1 && Snapshot().next == 0
      ensures Flatten(q.Contents()) == Flatten(qc) + fptr[..num]
    {
      var r := q.Push(Snapshot());
      FlattenAppend(qc, Snapshot());
    }

    /** `fetch_frames`: hands out the next cached pointer; when none is
      * left, pops the next entry, turns its offsets back into pointers and
      * hands out the first. A pop waits while the queue is empty; the model
      * covers the calls that find an entry. */
    method FetchFrames(q: Fifo.Fifo<Alloc>, base: u64) returns (p: u64)
      requires Valid() && q.Valid() && QueueWellFormed(q)
      requires next >= num ==> q.nrFull > 0
      modifies this, fptr, q
      ensures Valid() && q.Valid() && QueueWellFormed(q)
      ensures old(next < num) ==>
        && p == old(fptr[next]) && next == old(next) + 1 && num == old(num)
        && fptr[..] == old(fptr[..]) && unchanged(q)
        && [p] + Unread() == old(Unread())
      ensures old(next >= num) ==>
        var b := old(q.Contents())[0];
        && q.Contents() == old(q.Contents())[1..]
        && num == b.num && next == 1
        && fptr[..num] == AbsAll(base, Carried(b)) && fptr[num..] == b.fptr[num..]
        && p == fptr[0]
        && (b.num >= 1 ==> [p] + Unread() == AbsAll(base, Carried(b)))
    {
      if next < num {
        p := TakeCached();
      } else {
        p := Refill(q, base);
      }
    }

    /** A pointer is still cached: the next one is handed out. */
    method TakeCached() returns (p: u64)
      requires Valid() && next < num
      modifies this
      ensures Valid() && p == fptr[old(next)] && next == old(next) + 1 && num == old(num)
      ensures [p] + Unread() == old(Unread())
    {
      p := fptr[next];
      next := next + 1;
    }

    /** The cache is used up: the next entry is popped and loaded. */
    method Refill(q: Fifo.Fifo<Alloc>, base: u64) returns (p: u64)
      requires Valid() && q.Valid() && QueueWellFormed(q) && q.nrFull > 0
      modifies this, fptr, q
      ensures Valid() && q.Valid() && QueueWellFormed(q)
      ensures var b := old(q.Contents())[0];
        && q.Contents() == old(q.Contents())[1..]
        && num == b.num && next == 1
        && fptr[..num] == AbsAll(base, Carried(b)) && fptr[num..] == b.fptr[num..]
        && p == fptr[0]
        && (b.num >= 1 ==> [p] + Unread() == AbsAll(base, Carried(b)))
    {
      var r, b := q.Pop();
      assert WellFormed(b);
      Load(b, base);
      p := fptr[0];
    }

    /** The copy of a popped entry into the cache, its offsets turned back
      * into pointers, and `next` set past the first. */
    method Load(b: Alloc, base: u64)
      requires Valid() && WellFormed(b)
      modifies this, fptr
      ensures Valid() && num == b.num && next == 1
      ensures fptr[..num] == AbsAll(base, Carried(b)) && fptr[num..] == b.fptr[num..]
    {
      forall i | 0 <= i < PARALLEL_FRAMES {
        fptr[i] := b.fptr[i];
      }
      num := b.num;
      next := b.next;
      var i: u32 := 0;
      while i < num
        invariant i <= num && num == b.num
        invariant fptr[..i] == AbsAll(base, b.fptr[..i])
        invariant fptr[i..] == b.fptr[i..]
      {
        fptr[i] := Fifo.GetAbsPtr(base, fptr[i]);
        assert fptr[..i + 1] == fptr[..i] + [fptr[i]];
        assert b.fptr[..i + 1] == b.fptr[..i] + [b.fptr[i]];
        i := i + 1;
      }
      next := 1;
    }

    /** The MODE_TX branch of `rel_buf`: a frame fetched for sending but not
      * used goes back to the front of the cache it came from. */
    method PutBack(ptr: u64)
      requires Valid() && 0 < next
      modifies this, fptr
      ensures Valid() && num == old(num)
      ensures next == old(next) - 1 && fptr[..] == old(fptr[..])[next := ptr]
      ensures next < num ==> Unread() == [ptr] + old(Unread())
    {
      next := next - 1;
      fptr[next] := ptr;
    }
  }
}
