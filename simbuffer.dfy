/** The `window_buffer` ring of the simulated reference ARQ
  * (simulation/ARQStreamWrap.h): WS slots, the window starting at
  * `first_idx` and holding `size_valid` elements. Misuse throws
  * `std::runtime_error`, modelled as an `Err` result. */
module SimBuffer {
  import opened Base

  datatype RuntimeError = RuntimeError

  /** The `n` elements of ring `s` starting at slot `first`, in order. */
  function WindowOf<T>(s: seq<T>, first: nat, n: nat): (q: seq<T>)
    requires 0 < |s| && n <= |s|
    ensures |q| == n
    ensures forall k :: 0 <= k < n ==> q[k] == s[(first + k) % |s|]
  {
    seq(n, k requires 0 <= k < n => s[(first + k) % |s|])
  }

  lemma WindowPush<T>(s: seq<T>, first: nat, n: nat, e: T)
    requires n < |s|
    ensures WindowOf(s[(first + n) % |s| := e], first, n + 1) == WindowOf(s, first, n) + [e]
  {
    var m := |s|;
    var q, q' := WindowOf(s, first, n), WindowOf(s[(first + n) % m := e], first, n + 1);
    forall k | 0 <= k < n
      ensures q'[k] == q[k]
    {
      ModInjective(first, k, n, m);
    }
  }

  lemma WindowPop<T>(s: seq<T>, first: nat, n: nat)
    requires 0 < n <= |s|
    ensures WindowOf(s, (first + 1) % |s|, n - 1) == WindowOf(s, first, n)[1..]
  {
    var m := |s|;
    var q, q' := WindowOf(s, first, n), WindowOf(s, (first + 1) % m, n - 1);
    forall k | 0 <= k < n - 1
      ensures q'[k] == q[k + 1]
    {
      ModSum(first + 1, k, m);
    }
  }

  class WindowBuffer<T(0)> {
    const ws: nat
    const slots: array<T>
    var firstIdx: nat
    var sizeValid: nat

    ghost predicate Valid()
      reads this
    {
      0 < ws == slots.Length && firstIdx < ws && sizeValid <= ws
    }

    /** The elements in the window, oldest first. */
    ghost function Contents(): (q: seq<T>)
      reads this, slots
      requires Valid()
      ensures |q| == sizeValid
    {
      WindowOf(slots[..], firstIdx, sizeValid)
    }

    /** A new buffer holds no valid data. */
    constructor (size: nat)
      requires size > 0
      ensures Valid() && ws == size && fresh(slots)
      ensures firstIdx == 0 && sizeValid == 0 && Contents() == []
    {
      ws := size;
      slots := new T[size];
      firstIdx := 0;
      sizeValid := 0;
    }

    function WindowIdx(): (r: nat)
      reads this
      ensures r == firstIdx
    {
      firstIdx
    }

    function WindowSize(): (r: nat)
      reads this, slots
      requires Valid()
      ensures r == |Contents()|
    {
      sizeValid
    }

    /** The free slots. */
    function WindowSpace(): (r: nat)
      reads this, slots
      requires Valid()
      ensures r + |Contents()| == ws
    {
      ws - sizeValid
    }

    predicate WindowEmpty()
      reads this, slots
      requires Valid()
      ensures WindowEmpty() <==> Contents() == []
    {
      sizeValid == 0
    }

    predicate WindowNotFull()
      reads this, slots
      requires Valid()
      ensures WindowNotFull() <==> |Contents()| < ws
    {
      sizeValid < ws
    }

    predicate WindowFull()
      reads this, slots
      requires Valid()
      ensures WindowFull() <==> |Contents()| == ws
    {
      !WindowNotFull()
    }

    /** `window_at`: the element `ii` places into the window, or an error
      * past its end. */
    function WindowAt(ii: nat): (r: Result<T, RuntimeError>)
      reads this, slots
      requires Valid()
      ensures r.Err? <==> ii >= |Contents()|
      ensures r.Ok? ==> r.value == Contents()[ii]
    {
      if ii >= sizeValid || firstIdx > ws then Err(RuntimeError)
      else Ok(slots[(firstIdx + ii) % ws])
    }

    /** `pop_front`: removes and returns the oldest element; an empty buffer
      * throws and is left alone. */
    method PopFront() returns (r: Result<T, RuntimeError>)
      requires Valid()
      modifies this
      ensures Valid() && slots[..] == old(slots[..])
      ensures old(sizeValid) == 0 ==> r.Err? && unchanged(this)
      ensures old(sizeValid) > 0 ==> r == Ok(old(Contents())[0]) && Contents() == old(Contents())[1..]
    {
      if sizeValid == 0 {
        return Err(RuntimeError);
      }
      ghost var s := slots[..];
      ghost var before := WindowOf(s, firstIdx, sizeValid);
      assert before[0] == slots[firstIdx] by {
        ModSmall(firstIdx, ws);
      }
      WindowPop(s, firstIdx, sizeValid);
      var tmp := firstIdx;
      firstIdx := (firstIdx + 1) % ws;
      sizeValid := sizeValid - 1;
      r := Ok(slots[tmp]);
      assert Contents() == WindowOf(s, firstIdx, sizeValid);
    }

    /** `drop_front(N)`: N pops; asking for more than the window holds
      * empties it and then throws. */
    method DropFront(n: nat) returns (r: Result<(), RuntimeError>)
      requires Valid()
      modifies this
      ensures Valid() && slots[..] == old(slots[..])
      ensures n <= old(sizeValid) ==> r.Ok? && Contents() == old(Contents())[n..]
      ensures n > old(sizeValid) ==> r.Err? && Contents() == []
    {
      var i := 0;
      while i < n
        invariant Valid() && slots[..] == old(slots[..])
        invariant i <= n && i <= old(sizeValid)
        invariant Contents() == old(Contents())[i..]
      {
        var p := PopFront();
        if p.Err? {
          return Err(RuntimeError);
        }
        i := i + 1;
      }
      r := Ok(());
    }

    /** `push_back`: appends `p` behind the newest element; a full buffer
      * throws and is left alone. */
    method PushBack(p: T) returns (r: Result<(), RuntimeError>)
      requires Valid()
      modifies this, slots
      ensures Valid() && firstIdx == old(firstIdx)
      ensures old(sizeValid) == ws ==> r.Err? && unchanged(this) && unchanged(slots)
      ensures old(sizeValid) < ws ==> r.Ok? && Contents() == old(Contents()) + [p]
    {
      if sizeValid >= ws {
        return Err(RuntimeError);
      }
      WindowPush(slots[..], firstIdx, sizeValid, p);
      var idx := (firstIdx + sizeValid) % ws;
      slots[idx] := p;
      sizeValid := sizeValid + 1;
      r := Ok(());
    }
  }
}
