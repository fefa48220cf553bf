/** Fixed-width integer types, an Option type and the modular-arithmetic
  * facts that the rest of the model uses to reason about C's unsigned
  * wrap-around. */
module Base {

  type u8 = x: int | 0 <= x < 0x100
  type u16 = x: int | 0 <= x < 0x1_0000
  type u32 = x: int | 0 <= x < 0x1_0000_0000
  type u64 = x: int | 0 <= x < 0x1_0000_0000_0000_0000

  const POW8: int := 0x100
  const POW16: int := 0x1_0000
  const POW32: int := 0x1_0000_0000
  const POW64: int := 0x1_0000_0000_0000_0000

  datatype Option<T> = None | Some(value: T)

  datatype Result<T, E> = Ok(value: T) | Err(error: E)

  /** C's unsigned 32-bit subtraction `a - b`. */
  function SubU32(a: u32, b: u32): (r: u32)
    ensures r == (a - b) % POW32
    ensures b <= a ==> r == a - b
    ensures a < b ==> r == a - b + POW32
  {
    if b <= a then a - b else a - b + POW32
  }

  /** C's unsigned 64-bit subtraction `a - b`. */
  function SubU64(a: u64, b: u64): (r: u64)
    ensures r == (a - b) % POW64
    ensures b <= a ==> r == a - b
    ensures a < b ==> r == a - b + POW64
  {
    if b <= a then a - b else a - b + POW64
  }

  /** Division truncating toward zero, as C's `/` on signed operands. */
  function DivTrunc(a: int, b: int): (q: int)
    requires b > 0
    ensures 0 <= a ==> q == a / b
    ensures a < 0 ==> q == -((-a) / b)
  {
    if a >= 0 then a / b else -((-a) / b)
  }

  lemma ModUnique(x: int, m: int, q: int, r: int)
    requires m > 0 && 0 <= r < m && x == q * m + r
    ensures x % m == r && x / m == q
  {
    var q', r' := x / m, x % m;
    var d := q - q';
    assert d * m == r' - r by {
      assert x == q' * m + r';
      assert q * m - q' * m == (q - q') * m;
    }
    if d > 0 {
      MulAtLeast(d, m);
    } else if d < 0 {
      MulAtLeast(-d, m);
    }
  }

  lemma MulAtLeast(d: int, m: int)
    requires d >= 1 && m > 0
    ensures d * m >= m
  {
    assert d * m == (d - 1) * m + m;
    assert (d - 1) * m >= 0;
  }

  lemma ModAddMultiple(r: int, k: int, m: int)
    requires m > 0
    ensures (r + k * m) % m == r % m
  {
    assert r == (r / m) * m + r % m;
    assert r + k * m == (r / m + k) * m + r % m;
    ModUnique(r + k * m, m, r / m + k, r % m);
  }

  /** Reducing first modulo a multiple `p` of `m` does not change the
    * residue modulo `m`: this is why 32-bit wrap-around is harmless for a
    * window size that divides 2^32. */
  lemma {:induction false} ModOfMod(x: int, p: int, m: int)
    requires m > 0 && p > 0 && p % m == 0
    ensures (x % p) % m == x % m
  {
    var q := x / p;
    var c := p / m;
    assert p == c * m;
    assert x == q * p + x % p;
    assert x == x % p + (q * c) * m;
    ModAddMultiple(x % p, q * c, m);
  }

  /** Subtracting residues is subtracting the numbers, modulo `m`. */
  lemma ModDiff(a: int, b: int, m: int)
    requires m > 0
    ensures (a % m - b % m) % m == (a - b) % m
  {
    assert a % m - b % m == (a - b) + (b / m - a / m) * m;
    ModAddMultiple(a - b, b / m - a / m, m);
  }

  /** Adding residues is adding the numbers, modulo `m`. */
  lemma ModSum(a: int, b: int, m: int)
    requires m > 0
    ensures (a % m + b) % m == (a + b) % m
  {
    assert a % m + b == (a + b) + (-(a / m)) * m;
    ModAddMultiple(a + b, -(a / m), m);
  }

  /** Moving the base forward by `n` moves a residue back by `n`. */
  lemma ModShiftBase(i: int, b: int, n: int, m: int)
    requires m > 0
    ensures (i - (b + n) % m) % m == ((i - b) % m - n) % m
  {
    var x := i - b;
    var q, r := x / m, x % m;
    var k, nl := (b + n) / m, (b + n) % m;
    var y := (r - n) + (q + k) * m;
    assert i - nl == y by {
      assert (q + k) * m == q * m + k * m;
    }
    ModAddMultiple(r - n, q + k, m);
  }

  /** A number and its residue differ by a multiple of the modulus. */
  lemma ModResidueDiff(v: int, m: int)
    requires m > 0
    ensures (v % m - v) % m == 0
  {
    assert v % m - v == 0 + (-(v / m)) * m;
    ModAddMultiple(0, -(v / m), m);
  }

  /** C's conversion of an integer to an unsigned 8-bit type. */
  function LowByte(v: int): (b: u8)
    ensures (b - v) % POW8 == 0
  {
    ModResidueDiff(v, POW8);
    v % POW8
  }

  lemma ModSmall(x: int, m: int)
    requires 0 <= x < m
    ensures x % m == x && x / m == 0
  {
    ModUnique(x, m, 0, x);
  }

  lemma ModSubMod(a: int, b: int, m: int)
    requires m > 0
    ensures (a - b % m) % m == (a - b) % m
  {
    assert a - b % m == (a - b) + (b / m) * m;
    ModAddMultiple(a - b, b / m, m);
  }

  /** Distinct steps smaller than the modulus land on distinct residues. */
  lemma ModInjective(a: int, i: int, j: int, m: int)
    requires 0 <= i < m && 0 <= j < m && i != j
    ensures (a + i) % m != (a + j) % m
  {
    var d := i - j;
    assert ((a + i) % m - (a + j) % m) % m == d % m by {
      ModDiff(a + i, a + j, m);
    }
    if i > j {
      ModSmall(d, m);
    } else {
      ModUnique(d, m, -1, d + m);
    }
    assert d % m != 0;
  }
}
