/** Little-endian memory images of integers, network (big-endian) byte
  * order, and the byte swap that `htons`/`htonl`/`ntohs`/`ntohl` perform on
  * the little-endian hosts the library runs on. */
module ByteOrder {
  import opened Base

  function Pow256(n: nat): (r: nat)
    ensures r >= 1
  {
    if n == 0 then 1 else 256 * Pow256(n - 1)
  }

  /** The `n` bytes of `x` as stored in little-endian memory, lowest address first. */
  function LeBytes(x: nat, n: nat): (b: seq<u8>)
    ensures |b| == n
  {
    if n == 0 then [] else [x % 256] + LeBytes(x / 256, n - 1)
  }

  /** The value of a little-endian byte image. */
  function FromLe(b: seq<u8>): (x: nat)
    ensures x < Pow256(|b|)
  {
    if b == [] then 0 else b[0] + 256 * FromLe(b[1..])
  }

  function Reverse<T>(s: seq<T>): (r: seq<T>)
    ensures |r| == |s|
    ensures forall i :: 0 <= i < |s| ==> r[i] == s[|s| - 1 - i]
  {
    if s == [] then [] else Reverse(s[1..]) + [s[0]]
  }

  /** The `n` bytes of `x` in network byte order (most significant first). */
  function BeBytes(x: nat, n: nat): (b: seq<u8>)
    ensures |b| == n
  {
    Reverse(LeBytes(x, n))
  }

  /** Reading back a little-endian image gives the value that was stored. */
  lemma {:induction false} FromLeOfLeBytes(x: nat, n: nat)
    requires x < Pow256(n)
    ensures FromLe(LeBytes(x, n)) == x
  {
    if n > 0 {
      assert x / 256 < Pow256(n - 1) by {
        DivBound(x, 256, Pow256(n - 1));
      }
      FromLeOfLeBytes(x / 256, n - 1);
      assert LeBytes(x, n)[1..] == LeBytes(x / 256, n - 1);
    }
  }

  /** Storing the value of a byte image reproduces the image. */
  lemma {:induction false} LeBytesOfFromLe(b: seq<u8>)
    ensures LeBytes(FromLe(b), |b|) == b
  {
    if b != [] {
      var x := FromLe(b);
      ModUnique(x, 256, FromLe(b[1..]), b[0]);
      LeBytesOfFromLe(b[1..]);
      assert LeBytes(x, |b|) == [b[0]] + b[1..];
    }
  }

  lemma DivBound(x: nat, d: nat, p: nat)
    requires d > 0 && x < d * p
    ensures x / d < p
  {
  }

  lemma ReverseReverse<T>(s: seq<T>)
    ensures Reverse(Reverse(s)) == s
  {
  }

  /** Reverses the byte order of an `n`-byte value. */
  function Swap(x: nat, n: nat): (r: nat)
    ensures r < Pow256(n)
  {
    FromLe(Reverse(LeBytes(x, n)))
  }

  /** `htons`/`ntohs` on a little-endian host: the two bytes exchanged
    * (`Bswap16IsSwap` relates it to `Swap`). */
  function Bswap16(x: u16): (r: u16)
  {
    (x % 256) * 256 + x / 256
  }

  /** `htonl`/`ntohl` on a little-endian host; also the swap of `fwriteswap`
    * (`Bswap32IsSwap` relates it to `Swap`). */
  function Bswap32(x: u32): (r: u32)
  {
    var b0, b1, b2, b3 := x % 256, (x / 256) % 256, (x / 256 / 256) % 256, x / 256 / 256 / 256;
    ((b0 * 256 + b1) * 256 + b2) * 256 + b3
  }

  lemma Bswap16IsSwap(x: u16)
    ensures Bswap16(x) == Swap(x, 2)
  {
    var lo, hi := x % 256, x / 256;
    assert LeBytes(x, 2) == [lo, hi] by {
      assert LeBytes(hi, 1) == [hi % 256];
    }
    assert Reverse([lo, hi]) == [hi, lo];
    assert FromLe([hi, lo]) == hi + 256 * lo by {
      assert [hi, lo][1..] == [lo];
      assert FromLe([lo]) == lo by {
        assert [lo][1..] == [];
      }
    }
  }

  lemma Bswap32IsSwap(x: u32)
    ensures Bswap32(x) == Swap(x, 4)
  {
    var x1, x2, x3 := x / 256, x / 256 / 256, x / 256 / 256 / 256;
    var b0, b1, b2, b3 := x % 256, x1 % 256, x2 % 256, x3;
    var le: seq<u8> := [b0, b1, b2, b3];
    assert LeBytes(x3, 1) == [b3] && LeBytes(x2, 2) == le[2..] && LeBytes(x1, 3) == le[1..];
    assert LeBytes(x, 4) == le;
    var be: seq<u8> := [b3, b2, b1, b0];
    assert Reverse(le) == be;
    assert FromLe(be[3..]) == b0;
    assert FromLe(be[2..]) == b1 + 256 * b0;
    assert FromLe(be[1..]) == b2 + 256 * (b1 + 256 * b0);
    assert FromLe(be) == b3 + 256 * (b2 + 256 * (b1 + 256 * b0));
    assert Bswap32(x) == ((b0 * 256 + b1) * 256 + b2) * 256 + b3;
  }

  /** Swapping twice restores any `n`-byte value. */
  lemma {:induction false} SwapInvolution(x: nat, n: nat)
    requires x < Pow256(n)
    ensures Swap(Swap(x, n), n) == x
  {
    var img := Reverse(LeBytes(x, n));
    LeBytesOfFromLe(img);
    ReverseReverse(LeBytes(x, n));
    FromLeOfLeBytes(x, n);
  }

  /** A swapped value, stored little-endian, puts its bytes on the wire in
    * network order: this is what `htonl` achieves. */
  lemma {:induction false} SwapStoresBigEndian(x: nat, n: nat)
    ensures LeBytes(Swap(x, n), n) == BeBytes(x, n)
  {
    LeBytesOfFromLe(Reverse(LeBytes(x, n)));
  }

  lemma Bswap16Involution(x: u16)
    ensures Bswap16(Bswap16(x)) == x
    ensures LeBytes(Bswap16(x), 2) == BeBytes(x, 2)
  {
    assert Pow256(2) == POW16;
    Bswap16IsSwap(x);
    Bswap16IsSwap(Bswap16(x));
    SwapInvolution(x, 2);
    SwapStoresBigEndian(x, 2);
  }

  lemma Bswap32Involution(x: u32)
    ensures Bswap32(Bswap32(x)) == x
    ensures LeBytes(Bswap32(x), 4) == BeBytes(x, 4)
  {
    assert Pow256(4) == POW32;
    Bswap32IsSwap(x);
    Bswap32IsSwap(Bswap32(x));
    SwapInvolution(x, 4);
    SwapStoresBigEndian(x, 4);
  }

  /** The memory image of an array of 64-bit words, word after word. */
  function WordsLe(ws: seq<u64>): (b: seq<u8>)
    ensures |b| == 8 * |ws|
  {
    if ws == [] then [] else LeBytes(ws[0], 8) + WordsLe(ws[1..])
  }

  /** Byte `j` of word `i` sits at offset 8*i + j of the image. */
  lemma {:induction false} WordsLeAt(ws: seq<u64>, i: nat, j: nat)
    requires i < |ws| && j < 8
    ensures WordsLe(ws)[8 * i + j] == LeBytes(ws[i], 8)[j]
  {
    if i > 0 {
      WordsLeAt(ws[1..], i - 1, j);
      assert WordsLe(ws)[8 * i + j] == WordsLe(ws[1..])[8 * (i - 1) + j];
    }
  }
}
