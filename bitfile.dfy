/** Xilinx bitfile handling (src/bitfiles.c): the byte-swapped word writer,
  * the walk over a bitfile's header records to the bitstream, and the
  * forwarding lengths of a daisy-chained serial bitstream. A file is its
  * byte contents; `FILE` state is a read position and an end-of-file flag. */
module Bitfile {
  import opened Base

  // ---------------------------------------------------------------------
  // fwriteswap

  /** The value `fwriteswap` stores: the four bytes of `l` reversed. */
  function SwapWord(l: bv32): bv32
  {
    ((l & 0xff) << 24) | ((l & 0xff00) << 8) | ((l >> 8) & 0xff00) | ((l >> 24) & 0xff)
  }

  /** The memory image of a 32-bit word, lowest address first. */
  function Image(x: bv32): seq<bv32>
  {
    [x & 0xff, (x >> 8) & 0xff, (x >> 16) & 0xff, (x >> 24) & 0xff]
  }

  /** `fwriteswap` writes the image of `l` in reverse, i.e. `l` most
    * significant byte first; swapping twice gives the word back. */
  lemma SwapWordWritesBigEndian(l: bv32)
    ensures Image(SwapWord(l)) == [Image(l)[3], Image(l)[2], Image(l)[1], Image(l)[0]]
    ensures SwapWord(SwapWord(l)) == l
  {
  }

  // ---------------------------------------------------------------------
  // Reading a file

  datatype FileState = FileState(pos: nat, eof: bool)

  /** `fread` of `n` bytes: as many as are left, setting the end-of-file
    * flag when fewer than `n` were there. */
  function Fread(data: seq<u8>, f: FileState, n: nat): (r: (seq<u8>, FileState))
    ensures |r.0| <= n && r.1.pos == f.pos + |r.0|
    ensures r.1.eof == (f.eof || |r.0| < n)
    ensures f.pos + n <= |data| ==> r.0 == data[f.pos..f.pos + n]
    ensures f.pos >= |data| ==> r.0 == []
    ensures f.pos <= |data| ==> r.1.pos <= |data| && r.0 == data[f.pos..r.1.pos]
  {
    var avail := if f.pos < |data| then |data| - f.pos else 0;
    var k := if n < avail then n else avail;
    (if k == 0 then [] else data[f.pos..f.pos + k], FileState(f.pos + k, f.eof || k < n))
  }

  /** `fseek(file, off, SEEK_CUR)` clears the end-of-file flag. */
  function Fseek(f: FileState, off: nat): FileState
  {
    FileState(f.pos + off, false)
  }

  /** `fread(&len, 2, 1, file)` into an `unsigned short`: the bytes read
    * overwrite its memory image from the lowest address. */
  function ReadU16(mem: u16, got: seq<u8>): (v: u16)
    requires |got| <= 2
    ensures |got| == 2 ==> v == got[0] as int + 256 * got[1] as int
    ensures |got| == 0 ==> v == mem
  {
    if |got| == 2 then got[0] as int + 256 * got[1] as int
    else if |got| == 1 then got[0] as int + 256 * (mem / 256)
    else mem
  }

  /** `len = ((len >> 8) & 255) + ((len & 255) << 8)`: big-endian to host. */
  function SwapLen(len: u16): u16
  {
    (len / 256) % 256 + (len % 256) * 256
  }

  /** A big-endian 16-bit field. */
  function Be16(data: seq<u8>, p: nat): nat
    requires p + 2 <= |data|
  {
    data[p] as int * 256 + data[p + 1] as int
  }

  lemma SwapLenReadsBigEndian(data: seq<u8>, p: nat)
    requires p + 2 <= |data|
    ensures SwapLen(data[p] as int + 256 * data[p + 1] as int) == Be16(data, p)
  {
    var l := data[p] as int + 256 * data[p + 1] as int;
    ModUnique(l, 256, data[p + 1], data[p]);
    ModSmall(data[p + 1], 256);
  }

  /** An `int` holding a 32-bit pattern (the shift in `count << 16` wraps). */
  function Int32(x: nat): int
    requires x < POW32
  {
    if x >= POW32 / 2 then x - POW32 else x
  }

  // ---------------------------------------------------------------------
  // The header walk of ParseBitfile

  /** The variables of the header walk. */
  datatype Walk = Walk(file: FileState, typ: u8, len: u16)

  /** Lines 32-37: the first field is skipped by its big-endian length, then
    * one more 16-bit word is read; `len0` is the uninitialised `len`. */
  function Header(data: seq<u8>, len0: u16): Walk
  {
    var (g1, f1) := Fread(data, FileState(0, false), 2);
    var l1 := SwapLen(ReadU16(len0, g1));
    var (g2, f2) := Fread(data, Fseek(f1, l1), 2);
    Walk(f2, 0, ReadU16(l1, g2))
  }

  /** One pass of the loop body: a type byte, a big-endian length, and,
    * unless the type is 0x65, the record's body. */
  function WalkStep(data: seq<u8>, w: Walk): Walk
  {
    var (g1, f1) := Fread(data, w.file, 1);
    var typ := if |g1| == 1 then g1[0] else w.typ;
    var (g2, f2) := Fread(data, f1, 2);
    var len := SwapLen(ReadU16(w.len, g2));
    if typ != 0x65 then Walk(Fread(data, f2, len).1, typ, len) else Walk(f2, typ, len)
  }

  /** The loop condition as written: `(typ != 0x65) || feof(file)`. */
  predicate ContinueAsWritten(w: Walk)
  {
    w.typ != 0x65 || w.file.eof
  }

  function IterateAsWritten(data: seq<u8>, w: Walk, k: nat): Walk
    decreases k
  {
    if k == 0 then w else IterateAsWritten(data, WalkStep(data, w), k - 1)
  }

  /** Once the end of the file is reached, the loop as written goes on for
    * ever: nothing more is read and its condition stays true. */
  lemma {:induction false} AsWrittenNeverEndsAtEof(data: seq<u8>, w: Walk, k: nat)
    requires w.file.eof && w.file.pos >= |data|
    ensures IterateAsWritten(data, w, k).file == w.file
    ensures ContinueAsWritten(IterateAsWritten(data, w, k))
    decreases k
  {
    if k > 0 {
      AsWrittenNeverEndsAtEof(data, WalkStep(data, w), k - 1);
    }
  }

  /** A file whose header is followed by no records: the loop as written
    * reaches the end of the file in one pass and never leaves. */
  lemma TruncatedFileHangsAsWritten(len0: u16, k: nat)
    ensures ContinueAsWritten(IterateAsWritten([0, 0, 0, 0], Header([0, 0, 0, 0], len0), k + 1))
  {
    var data: seq<u8> := [0, 0, 0, 0];
    var w := Header(data, len0);
    assert w.file == FileState(4, false) by {
      var (g1, f1) := Fread(data, FileState(0, false), 2);
      assert f1 == FileState(2, false) && g1 == [0, 0];
      assert SwapLen(ReadU16(len0, g1)) == 0;
    }
    var w1 := WalkStep(data, w);
    assert w1.file.eof && w1.file.pos == 4 by {
      assert Fread(data, w.file, 1) == ([], FileState(4, true));
    }
    AsWrittenNeverEndsAtEof(data, w1, k);
  }

  /** The position of the first record of type 0x65 at or after `p`, when
    * every record before it is complete. */
  function FindSync(data: seq<u8>, p: nat): (r: Option<nat>)
    ensures r.Some? ==> p <= r.value && r.value + 3 <= |data| && data[r.value] == 0x65
    decreases |data| - p
  {
    if p + 3 > |data| then None
    else if data[p] == 0x65 then Some(p)
    else
      var next := p + 3 + Be16(data, p + 1);
      if next > |data| then None else FindSync(data, next)
  }

  lemma FindSyncSkips(data: seq<u8>, p: nat)
    requires p + 3 <= |data| && data[p] != 0x65
    ensures var next := p + 3 + Be16(data, p + 1);
      FindSync(data, p) == if next > |data| then None else FindSync(data, next)
  {
  }

  /** Where the records start, if the two header fields are complete. */
  function RecordsStart(data: seq<u8>): Option<nat>
  {
    if |data| < 2 then None
    else
      var h := 2 + Be16(data, 0);
      if h + 2 > |data| then None else Some(h + 2)
  }

  /** The 0x65 record the walk from the first record reaches, if any. */
  function Sync(data: seq<u8>): Option<nat>
  {
    if RecordsStart(data).None? then None else FindSync(data, RecordsStart(data).value)
  }

  /** The bytes of the 16-bit word after the 0x65 record at `p`: two, or
    * fewer when the file ends first. */
  function LengthWord(data: seq<u8>, p: nat): (got: seq<u8>)
    requires p + 3 <= |data|
    ensures |got| <= 2 && p + 3 + |got| <= |data| && got == data[p + 3..p + 3 + |got|]
    ensures |got| == 2 || p + 3 + |got| == |data|
  {
    data[p + 3..if p + 5 <= |data| then p + 5 else |data|]
  }

  /** The bitstream a file describes, once its walk reaches a 0x65 record:
    * the length is that record's 16-bit length shifted up by 16 over the
    * byte-swapped next 16-bit word, and the offset is just past that word.
    * Lines 49-53 do not check for the end of the file: when the word is cut
    * short, the `len` it is read into keeps the record's length in the
    * bytes not overwritten, and the offset is where the file ended. */
  function BitstreamInfo(data: seq<u8>): Option<(int, nat)>
  {
    match Sync(data)
    case None => None
    case Some(p) =>
      var len := Be16(data, p + 1);
      var got := LengthWord(data, p);
      Some((Int32(len * 65536 + SwapLen(ReadU16(len, got))), p + 3 + |got|))
  }

  /** A complete word gives the two big-endian fields, past the word. */
  lemma BitstreamInfoComplete(data: seq<u8>, p: nat)
    requires Sync(data) == Some(p) && p + 5 <= |data|
    ensures BitstreamInfo(data) == Some((Int32(Be16(data, p + 1) * 65536 + Be16(data, p + 3)), p + 5))
  {
    SwapLenReadsBigEndian(data, p + 3);
  }

  /** A file ending right after the 0x65 record's length: nothing is read
    * into `len`, so the count repeats that length byte-swapped below itself
    * (0x1234 gives 0x12343412), at the file's end. */
  lemma ShortLengthWordKeepsStaleLen()
    ensures BitstreamInfo([0, 0, 0, 0, 0x65, 0x12, 0x34]) == Some((0x1234_3412, 7))
  {
    var data: seq<u8> := [0, 0, 0, 0, 0x65, 0x12, 0x34];
    assert RecordsStart(data) == Some(4);
    assert FindSync(data, 4) == Some(4);
    assert LengthWord(data, 4) == [];
  }

  /** The walk's state at the loop head, in terms of the specification. */
  ghost predicate WalkInv(data: seq<u8>, w: Walk)
  {
    var s := Sync(data);
    (w.file.eof ==> s == None)
    && (!w.file.eof ==> w.file.pos <= |data|)
    && (!w.file.eof && w.typ != 0x65 ==> RecordsStart(data).Some? && s == FindSync(data, w.file.pos))
    && (!w.file.eof && w.typ == 0x65 ==>
          w.file.pos >= 3 && s == Some((w.file.pos - 3) as nat) && w.len == Be16(data, w.file.pos - 2))
  }

  lemma HeaderEstablishes(data: seq<u8>, len0: u16)
    ensures WalkInv(data, Header(data, len0))
  {
    var (g1, f1) := Fread(data, FileState(0, false), 2);
    if |data| >= 2 {
      SwapLenReadsBigEndian(data, 0);
    }
  }

  lemma StepPreserves(data: seq<u8>, w: Walk)
    requires WalkInv(data, w) && w.typ != 0x65 && !w.file.eof
    ensures WalkInv(data, WalkStep(data, w))
  {
    var p := w.file.pos;
    if p + 3 > |data| {
      StepTruncated(data, w);
    } else if data[p] == 0x65 {
      StepToSync(data, w);
    } else {
      StepOver(data, w);
    }
  }

  /** The record at the walk's position is the 0x65 record. */
  lemma StepToSync(data: seq<u8>, w: Walk)
    requires WalkInv(data, w) && w.typ != 0x65 && !w.file.eof
    requires w.file.pos + 3 <= |data| && data[w.file.pos] == 0x65
    ensures WalkInv(data, WalkStep(data, w))
  {
    StepShape(data, w);
  }

  /** The record at the walk's position is another one: its body is skipped. */
  lemma StepOver(data: seq<u8>, w: Walk)
    requires WalkInv(data, w) && w.typ != 0x65 && !w.file.eof
    requires w.file.pos + 3 <= |data| && data[w.file.pos] != 0x65
    ensures WalkInv(data, WalkStep(data, w))
  {
    var p := w.file.pos;
    var len := Be16(data, p + 1);
    var next := p + 3 + len;
    StepShape(data, w);
    FindSyncSkips(data, p);
    var f := Fread(data, FileState(p + 3, false), len).1;
    assert f.eof <==> next > |data|;
    assert !f.eof ==> f.pos == next;
    assert Sync(data) == FindSync(data, p);
    SkipKeeps(data, f, data[p], len);
  }

  /** The invariant for a walk that has just skipped a record body. */
  lemma SkipKeeps(data: seq<u8>, f: FileState, typ: u8, len: u16)
    requires RecordsStart(data).Some? && typ != 0x65
    requires f.eof ==> Sync(data) == None
    requires !f.eof ==> f.pos <= |data| && Sync(data) == FindSync(data, f.pos)
    ensures WalkInv(data, Walk(f, typ, len))
  {
  }

  /** A complete type byte and length: the walk reads them and, for any
    * type but 0x65, skips the body. */
  lemma StepShape(data: seq<u8>, w: Walk)
    requires !w.file.eof && w.file.pos + 3 <= |data|
    ensures var p := w.file.pos;
      var len := Be16(data, p + 1);
      WalkStep(data, w) ==
        if data[p] == 0x65 then Walk(FileState(p + 3, false), 0x65, len)
        else Walk(Fread(data, FileState(p + 3, false), len).1, data[p], len)
  {
    var p := w.file.pos;
    var (g1, f1) := Fread(data, w.file, 1);
    var (g2, f2) := Fread(data, f1, 2);
    assert g1 == [data[p]] && f1 == FileState(p + 1, false);
    assert g2 == data[p + 1..p + 3] && f2 == FileState(p + 3, false);
    SwapLenReadsBigEndian(data, p + 1);
  }

  /** Fewer than three bytes left: the walk reaches the end of the file. */
  lemma StepTruncated(data: seq<u8>, w: Walk)
    requires !w.file.eof && w.file.pos <= |data| < w.file.pos + 3
    ensures WalkStep(data, w).file.eof
  {
    var (g1, f1) := Fread(data, w.file, 1);
    var (g2, f2) := Fread(data, f1, 2);
    assert f2.eof;
  }

  /** `ParseBitfile` with the loop ending at the end of the file, so that a
    * file ending before its 0x65 record is reported as -1; otherwise the
    * count and offset of the bitstream the file describes. */
  method ParseBitfile(hasName: bool, file: Option<seq<u8>>, len0: u16) returns (count: int, ofs: Option<int>)
    ensures !hasName || file.None? ==> count == -1 && ofs == None
    ensures hasName && file.Some? ==>
      match BitstreamInfo(file.value)
      case None => count == -1 && ofs == None
      case Some(info) => count == info.0 && ofs == Some(info.1)
  {
    if !hasName || file.None? {
      return -1, None;
    }
    var data := file.value;
    var w := Header(data, len0);
    HeaderEstablishes(data, len0);
    while w.typ != 0x65 && !w.file.eof
      invariant WalkInv(data, w)
      decreases if w.file.eof then 0 else |data| - w.file.pos + 1
    {
      StepPreserves(data, w);
      w := WalkStep(data, w);
    }
    if w.file.eof {
      return -1, None;
    }
    count, ofs := ReadLength(data, w);
  }

  /** Lines 49-53: past the 0x65 record's type and length, the next 16-bit
    * word completes the bitstream's length, whether or not it was read
    * in full; the offset is the position after the read. */
  method ReadLength(data: seq<u8>, w: Walk) returns (count: int, ofs: Option<int>)
    requires WalkInv(data, w) && w.typ == 0x65 && !w.file.eof
    ensures ofs.Some? && BitstreamInfo(data) == Some((count, ofs.value))
  {
    SyncEnd(data, w);
    var (g, f) := Fread(data, w.file, 2);
    var l := ReadU16(w.len, g);
    count := Int32(w.len * 65536 + SwapLen(l));
    ofs := Some(f.pos);
  }

  /** Once the walk stands just past a 0x65 record's type and length, the
    * bitstream the file describes is read from there. */
  lemma SyncEnd(data: seq<u8>, w: Walk)
    requires WalkInv(data, w) && w.typ == 0x65 && !w.file.eof
    ensures var (g, f) := Fread(data, w.file, 2);
      BitstreamInfo(data) == Some((Int32(w.len * 65536 + SwapLen(ReadU16(w.len, g))), f.pos))
  {
    var p := w.file.pos;
    var (g, f) := Fread(data, w.file, 2);
    assert g == LengthWord(data, p - 3);
  }

  /** The file of the hang above is reported as not containing a bitstream. */
  lemma TruncatedFileRejected()
    ensures BitstreamInfo([0, 0, 0, 0]) == None
  {
  }

  // ---------------------------------------------------------------------
  // CreateSerialBitstream

  datatype BitfileArg = BitfileArg(hasName: bool, contents: Option<seq<u8>>)

  /** The value `ParseBitfile` returns for one argument. */
  function ParsedCount(b: BitfileArg): int
  {
    if !b.hasName || b.contents.None? then -1
    else match BitstreamInfo(b.contents.value)
      case None => -1
      case Some(info) => info.0
  }

  function SumInts(s: seq<int>): int
  {
    if s == [] then 0 else SumInts(s[..|s| - 1]) + s[|s| - 1]
  }

  /** The words that device `i` forwards to the devices after it: their
    * streams, 4 words each, and 17 words (8 + 1 + 8) for each device
    * between, before the 32-bit wrap of `unsigned int`. */
  function ForwardLength(sizes: seq<int>, i: nat): int
    requires i < |sizes|
  {
    (|sizes| - i - 1) * 4 + (|sizes| - i - 2) * (8 + 1 + 8) + SumInts(sizes[i + 1..])
  }

  lemma SumIntsFront(s: seq<int>)
    requires s != []
    ensures SumInts(s) == s[0] + SumInts(s[1..])
    decreases |s|
  {
    if |s| > 1 {
      SumIntsFront(s[..|s| - 1]);
      assert s[..|s| - 1][1..] == s[1..][..|s| - 2];
    }
  }

  /** What device `i` forwards is what device `i + 1` forwards plus that
    * device's own stream and its 21 command words; the last but one device
    * forwards only the last stream and 4 words. */
  lemma ForwardLengthStep(sizes: seq<int>, i: nat)
    requires i + 1 < |sizes|
    ensures i + 2 == |sizes| ==> ForwardLength(sizes, i) == sizes[i + 1] + 4
    ensures i + 2 < |sizes| ==> ForwardLength(sizes, i) == ForwardLength(sizes, i + 1) + sizes[i + 1] + 21
  {
    SumIntsFront(sizes[i + 1..]);
    assert sizes[i + 1..][1..] == sizes[i + 2..];
    if i + 2 == |sizes| {
      assert sizes[i + 2..] == [];
    }
  }

  /** `0x50000000 | size`: sets bits 28 and 30 of `size`. */
  function ForwardWord(size: u32): (w: u32)
  {
    size + (if (size / 0x1000_0000) % 2 == 1 then 0 else 0x1000_0000)
      + (if (size / 0x4000_0000) % 2 == 1 then 0 else 0x4000_0000)
  }

  /** For lengths below 2^28 the word is the length under the type-2 write
    * header 0x5: the OR is an addition. */
  lemma ForwardWordOfSmall(size: u32)
    requires size < 0x1000_0000
    ensures ForwardWord(size) == 0x5000_0000 + size
    ensures ForwardWord(size) / 0x1000_0000 == 5 && ForwardWord(size) % 0x1000_0000 == size
  {
    ModSmall(size, 0x1000_0000);
    ModUnique(0x5000_0000 + size, 0x1000_0000, 5, size);
  }

  /** Lines 124-125: `size` accumulated in an `unsigned int`. */
  method ForwardSize(sizes: seq<int>, i: nat) returns (size: u32)
    requires i + 1 < |sizes|
    ensures size == ForwardLength(sizes, i) % POW32
  {
    var num := |sizes|;
    ghost var acc := (num - i - 1) * 4 + (num - i - 2) * 17;
    size := ((num - i - 1) * 4 + (num - i - 2) * (8 + 1 + 8)) % POW32;
    var j := i + 1;
    while j < num
      invariant i + 1 <= j <= num
      invariant acc == (num - i - 1) * 4 + (num - i - 2) * 17 + SumInts(sizes[i + 1..j])
      invariant size == acc % POW32
    {
      ghost var run := sizes[i + 1..j + 1];
      assert run[..|run| - 1] == sizes[i + 1..j] && run[|run| - 1] == sizes[j];
      ModSum(acc, sizes[j], POW32);
      size := (size + sizes[j]) % POW32;
      acc := acc + sizes[j];
      j := j + 1;
    }
    assert sizes[i + 1..num] == sizes[i + 1..];
  }

  /** Lines 83-88: each file's stream size in 32-bit words, stopping at
    * the first file that does not parse. */
  method StreamSizes(files: seq<BitfileArg>) returns (parsed: bool, sizes: seq<int>)
    ensures parsed <==> forall k :: 0 <= k < |files| ==> ParsedCount(files[k]) != -1
    ensures parsed ==> |sizes| == |files| && forall k :: 0 <= k < |files| ==> sizes[k] == DivTrunc(ParsedCount(files[k]), 4)
  {
    sizes := [];
    var i := 0;
    while i < |files|
      invariant 0 <= i <= |files| && |sizes| == i
      invariant forall k :: 0 <= k < i ==> ParsedCount(files[k]) != -1
      invariant forall k :: 0 <= k < i ==> sizes[k] == DivTrunc(ParsedCount(files[k]), 4)
    {
      var count, ofs := ParseBitfile(files[i].hasName, files[i].contents, 0);
      if count == -1 {
        return false, sizes;
      }
      sizes := sizes + [DivTrunc(count, 4)];
      i := i + 1;
    }
    parsed := true;
  }

  /** `CreateSerialBitstream`: the stream sizes in words (-1 if a file does
    * not parse or the output cannot be opened) and the forwarding words
    * written after each device but the last. */
  method CreateSerialBitstream(outOk: bool, files: seq<BitfileArg>) returns (r: int, sizes: seq<int>, forwards: seq<u32>)
    requires |files| <= 16
    ensures r == 0 || r == -1
    ensures r == 0 <==> outOk && forall k :: 0 <= k < |files| ==> ParsedCount(files[k]) != -1
    ensures r == 0 ==> |sizes| == |files| && forall k :: 0 <= k < |files| ==> sizes[k] == DivTrunc(ParsedCount(files[k]), 4)
    ensures r == 0 ==> |forwards| == if |files| == 0 then 0 else |files| - 1
    ensures r == 0 ==> forall k :: 0 <= k < |forwards| ==> forwards[k] == ForwardWord(ForwardLength(sizes, k) % POW32)
  {
    var num := |files|;
    forwards := [];
    var parsed;
    parsed, sizes := StreamSizes(files);
    if !parsed || !outOk {
      return -1, sizes, forwards;
    }
    var i := 0;
    while i < num
      invariant 0 <= i <= num
      invariant |forwards| == if i == 0 then 0 else if i < num then i else num - 1
      invariant forall k :: 0 <= k < |forwards| ==> forwards[k] == ForwardWord(ForwardLength(sizes, k) % POW32)
    {
      if i < num - 1 {
        var size := ForwardSize(sizes, i);
        forwards := forwards + [ForwardWord(size)];
      }
      i := i + 1;
    }
    r := 0;
  }
}
