/** The sequence-number helpers of the simulated reference ARQ
  * (simulation/helpers.h): 32-bit sequence numbers that wrap at SEQ_SIZE. */
module SimSeq {
  import opened Base

  const SEQ_SIZE: nat := 65536
  const SEQ_MAX: nat := SEQ_SIZE - 1
  const WINDOW_SIZE: nat := 512

  /** `next_seq`: the successor of `s`, wrapping at SEQ_SIZE (the 32-bit
    * sum `s + 1` wraps first, which changes nothing since SEQ_SIZE divides
    * 2^32). */
  function NextSeq(s: u32): (r: u32)
    ensures r < SEQ_SIZE
    ensures r == (s + 1) % SEQ_SIZE
  {
    ModOfMod(s + 1, POW32, SEQ_SIZE);
    ((s + 1) % POW32) % SEQ_SIZE
  }

  /** The forward distance from `a` to `x` on the circle of SEQ_SIZE
    * numbers: the reference definition of window membership. */
  function Ahead(x: int, a: int): (d: nat)
    ensures d < SEQ_SIZE
  {
    (x - a) % SEQ_SIZE
  }

  /** `in_window` as written: `x` in the half-open interval (a, b % SEQ_SIZE]
    * of the circle; an empty interval when the ends meet. */
  function InWindowAsWritten(x: u32, a: u32, b: u32): (r: bool)
    ensures a == b % SEQ_SIZE ==> !r
    ensures a < b % SEQ_SIZE ==> (r <==> a < x <= b % SEQ_SIZE)
    ensures a > b % SEQ_SIZE ==> (r <==> a < x || x <= b % SEQ_SIZE)
  {
    var bc := b % SEQ_SIZE;
    if a == bc then false
    else if a < bc then a < x && x <= bc
    else a < x || x <= bc
  }

  /** In the wrapped case the test `a < x` lets through numbers that are no
    * sequence numbers at all: 70000 is "in" the window that starts at
    * SEQ_MAX, and the receiver then uses it to index its SEQ_SIZE-entry
    * cache. */
  lemma InWindowAcceptsOutOfRange()
    ensures InWindowAsWritten(70000, SEQ_MAX, SEQ_MAX + WINDOW_SIZE)
    ensures 70000 >= SEQ_SIZE
  {
  }

  /** `in_window` restricted to sequence numbers. */
  function InWindow(x: u32, a: u32, b: u32): (r: bool)
    ensures r ==> x < SEQ_SIZE
    ensures x < SEQ_SIZE ==> (r == InWindowAsWritten(x, a, b))
  {
    x < SEQ_SIZE && InWindowAsWritten(x, a, b)
  }

  /** For sequence numbers, membership is the circular rule: `x` lies
    * strictly after `a` and no further from it than the window end. */
  lemma InWindowIsCircular(x: u32, a: u32, b: u32)
    requires a < SEQ_SIZE
    ensures InWindow(x, a, b) <==>
      x < SEQ_SIZE && 0 < Ahead(x, a) <= Ahead(b % SEQ_SIZE, a)
  {
    var bc := b % SEQ_SIZE;
    if x < SEQ_SIZE {
      if a < x {
        ModSmall(x - a, SEQ_SIZE);
      } else if x < a {
        ModUnique(x - a, SEQ_SIZE, -1, x - a + SEQ_SIZE);
      } else {
        ModSmall(0, SEQ_SIZE);
      }
      if a <= bc {
        ModSmall(bc - a, SEQ_SIZE);
      } else {
        ModUnique(bc - a, SEQ_SIZE, -1, bc - a + SEQ_SIZE);
      }
    }
  }

  /** `dist_window`: how far `x` lies ahead of the window start `a`, in the
    * unsigned arithmetic of the source. */
  function DistWindow(x: u32, a: u32): (d: u64)
  {
    if a < x then x - a else (x + SubU32(SEQ_SIZE, a)) % POW32
  }

  /** For sequence numbers the distance is the circular one, except that
    * `x == a` counts as a full turn. */
  lemma DistWindowIsCircular(x: u32, a: u32)
    requires x < SEQ_SIZE && a < SEQ_SIZE
    ensures DistWindow(x, a) == if x == a then SEQ_SIZE else Ahead(x, a)
    ensures 1 <= DistWindow(x, a) <= SEQ_SIZE
  {
    if a < x {
      ModSmall(x - a, SEQ_SIZE);
    } else if x < a {
      ModUnique(x - a, SEQ_SIZE, -1, x - a + SEQ_SIZE);
      ModSmall(x + SEQ_SIZE - a, POW32);
    } else {
      ModSmall(SEQ_SIZE, POW32);
    }
  }

  /** The successor of a sequence number is one step ahead of it. */
  lemma DistOfNextSeq(a: u32)
    requires a < SEQ_SIZE
    ensures DistWindow(NextSeq(a), a) == 1
  {
    if a == SEQ_MAX {
      ModUnique(SEQ_SIZE, SEQ_SIZE, 1, 0);
    } else {
      ModSmall(a + 1, SEQ_SIZE);
    }
    DistWindowIsCircular(NextSeq(a), a);
    if a == SEQ_MAX {
      ModUnique(0 - a, SEQ_SIZE, -1, 1);
    } else {
      ModSmall(1, SEQ_SIZE);
    }
  }
}
