/** What word-granular PEEK and POKE do to byte memories.  A variant's memory is
    the sequence of its mapped bytes; a `long` is its eight bytes, lowest address
    first.  These functions specify the transfer loops of variant.c. */
module Memory {
  import opened Words

  const BUF_SIZE := 10_000_000

  type Long = w: seq<Byte> | |w| == 8 witness [0, 0, 0, 0, 0, 0, 0, 0]

  /** The -1 that PTRACE_PEEKDATA returns when the word is not mapped. */
  const PEEK_FAILED: Long := [0xFF, 0xFF, 0xFF, 0xFF, 0xFF, 0xFF, 0xFF, 0xFF]

  function Peek(mem: seq<Byte>, addr: nat): Long {
    if addr + 8 <= |mem| then mem[addr..addr + 8] else PEEK_FAILED
  }

  function Poke(mem: seq<Byte>, addr: nat, w: Long): (r: seq<Byte>)
    ensures |r| == |mem|
    ensures forall a :: 0 <= a < |mem| ==>
      r[a] == if addr <= a < addr + 8 <= |mem| then w[a - addr] else mem[a]
  {
    if addr + 8 <= |mem| then mem[..addr] + w + mem[addr + 8..] else mem
  }

  /** Bytes a read of `size` bytes fills: whole words. */
  function Footprint(size: nat): (n: nat)
    ensures size <= n < size + 8 && n % 8 == 0
    ensures size <= BUF_SIZE ==> n <= BUF_SIZE
  {
    (size + 7) / 8 * 8
  }

  /** The byte a read starting at `addr` delivers at local offset `i`. */
  function PeekByte(mem: seq<Byte>, addr: nat, i: nat): Byte {
    Peek(mem, addr + i / 8 * 8)[i % 8]
  }

  /** The first `n` bytes a read starting at `addr` delivers. */
  function Image(mem: seq<Byte>, addr: nat, n: nat): (s: seq<Byte>)
    ensures |s| == n
    ensures forall i :: 0 <= i < n ==> s[i] == PeekByte(mem, addr, i)
  {
    seq(n, i requires 0 <= i < n => PeekByte(mem, addr, i))
  }

  /** Where the words read are mapped, a read delivers memory as it is. */
  lemma ImageMapped(mem: seq<Byte>, addr: nat, n: nat)
    requires addr + Footprint(n) <= |mem|
    ensures Image(mem, addr, n) == mem[addr..addr + n]
  {
    forall i | 0 <= i < n ensures Image(mem, addr, n)[i] == mem[addr + i] {
      assert i == i / 8 * 8 + i % 8;
      assert i / 8 * 8 + 8 <= Footprint(n);
    }
  }

  /** A read byte by byte, whatever is mapped: words that are not read as all ones. */
  lemma ImageBytes(mem: seq<Byte>, addr: nat, n: nat, i: nat)
    requires i < n
    ensures Image(mem, addr, n)[i] ==
      if addr + (i - i % 8) + 8 <= |mem| then mem[addr + i] else 0xFF
  {
    assert i == i / 8 * 8 + i % 8;
  }

  /** A local buffer after `readVariantMem`. */
  function Loaded(mem: seq<Byte>, addr: nat, size: nat, buf: seq<Byte>): (r: seq<Byte>)
    requires size <= BUF_SIZE <= |buf|
    ensures |r| == |buf|
  {
    Image(mem, addr, Footprint(size)) + buf[Footprint(size)..]
  }

  /** Byte `i` of a buffer indexed past its end: whatever lies there. */
  function BufByte(buf: seq<Byte>, beyond: nat -> Byte, i: nat): Byte {
    if i < |buf| then buf[i] else beyond(i)
  }

  /** `((long *) localBuf)[size - sizeof(long)]`: a byte count used as an index
      of longs. */
  function TailWord(buf: seq<Byte>, beyond: nat -> Byte, size: nat): (w: Long)
    requires 8 <= size
    ensures forall j :: 0 <= j < 8 ==> w[j] == BufByte(buf, beyond, (size - 8) * 8 + j)
  {
    seq(8, j requires 0 <= j < 8 => BufByte(buf, beyond, (size - 8) * 8 + j))
  }

  /** Memory after the first `k` words of `buf` were poked at `dest`. */
  function PokeWords(mem: seq<Byte>, buf: seq<Byte>, dest: nat, k: nat): (r: seq<Byte>)
    requires 8 * k <= |buf|
    ensures |r| == |mem|
  {
    if k == 0 then mem
    else Poke(PokeWords(mem, buf, dest, k - 1), dest + 8 * k - 8, buf[8 * k - 8..8 * k])
  }

  /** Memory after `writeVariantMem`. */
  function Written(mem: seq<Byte>, buf: seq<Byte>, beyond: nat -> Byte, dest: nat, size: nat): (r: seq<Byte>)
    requires size <= |buf|
    ensures |r| == |mem|
  {
    if size < 8 then
      Poke(mem, dest, buf[..size] + Peek(mem, dest)[size..])
    else
      var full := PokeWords(mem, buf, dest, size / 8);
      if size % 8 == 0 then full
      else Poke(full, dest + size - 8, TailWord(buf, beyond, size))
  }

  /** The sizes at which the last word is written from the right place. */
  predicate WholeWords(size: nat) {
    size < 8 || size % 8 == 0
  }

  /** Bytes a write of `size` bytes touches through ptrace. */
  function WriteSpan(size: nat): nat {
    if size < 8 then 8 else size
  }

  lemma {:induction false} PokeWordsFrame(mem: seq<Byte>, buf: seq<Byte>, dest: nat, k: nat)
    requires 8 * k <= |buf|
    ensures forall a :: 0 <= a < |mem| && !(dest <= a < dest + 8 * k) ==> PokeWords(mem, buf, dest, k)[a] == mem[a]
  {
    if k > 0 {
      PokeWordsFrame(mem, buf, dest, k - 1);
    }
  }

  lemma {:induction false} PokeWordsExact(mem: seq<Byte>, buf: seq<Byte>, dest: nat, k: nat)
    requires 8 * k <= |buf| && dest + 8 * k <= |mem|
    ensures forall i {:trigger buf[i]} :: 0 <= i < 8 * k ==> PokeWords(mem, buf, dest, k)[dest + i] == buf[i]
  {
    if k > 0 {
      PokeWordsExact(mem, buf, dest, k - 1);
    }
  }

  /** Poking words, byte by byte, whatever is mapped: a word that is not is skipped. */
  lemma {:induction false} PokeWordsBytes(mem: seq<Byte>, buf: seq<Byte>, dest: nat, k: nat, i: nat)
    requires 8 * k <= |buf| && i < 8 * k && dest + i < |mem|
    ensures PokeWords(mem, buf, dest, k)[dest + i] == if dest + (i - i % 8) + 8 <= |mem| then buf[i] else mem[dest + i]
    decreases k
  {
    var before := PokeWords(mem, buf, dest, k - 1);
    if i < 8 * k - 8 {
      PokeWordsBytes(mem, buf, dest, k - 1, i);
    } else {
      assert i - i % 8 == 8 * k - 8;
      PokeWordsFrame(mem, buf, dest, k - 1);
      assert before[dest + i] == mem[dest + i];
    }
  }

  /** No byte outside [dest, dest + size) changes, whatever is mapped and
      whatever the size. */
  lemma WriteFrame(mem: seq<Byte>, buf: seq<Byte>, beyond: nat -> Byte, dest: nat, size: nat)
    requires size <= |buf|
    ensures forall a :: 0 <= a < |mem| && !(dest <= a < dest + size) ==>
      Written(mem, buf, beyond, dest, size)[a] == mem[a]
  {
    if size < 8 {
      if dest + 8 <= |mem| {
        assert Peek(mem, dest) == mem[dest..dest + 8];
      }
    } else {
      PokeWordsFrame(mem, buf, dest, size / 8);
    }
  }

  /** The exact bytes written to a mapped destination.  At sizes that are not whole words
      the last eight come from eight times as far into the buffer as they should: the
      buffer's bytes there, or past its end whatever lies there. */
  lemma WriteContents(mem: seq<Byte>, buf: seq<Byte>, beyond: nat -> Byte, dest: nat, size: nat)
    requires size <= |buf| && dest + WriteSpan(size) <= |mem|
    ensures WholeWords(size) ==> Written(mem, buf, beyond, dest, size)[dest..dest + size] == buf[..size]
    ensures !WholeWords(size) ==>
      var r, at := Written(mem, buf, beyond, dest, size), 8 * (size - 8);
      var tail := r[dest + size - 8..dest + size];
      && r[dest..dest + size - 8] == buf[..size - 8]
      && forall j :: 0 <= j < 8 ==> tail[j] == if at + j < |buf| then buf[at + j] else beyond(at + j)
  {
    var r := Written(mem, buf, beyond, dest, size);
    if size < 8 {
      var w: Long := buf[..size] + Peek(mem, dest)[size..];
      assert r[dest..dest + 8] == w;
      assert r[dest..dest + size] == r[dest..dest + 8][..size] == buf[..size];
    } else {
      PokeWordsExact(mem, buf, dest, size / 8);
      if size % 8 != 0 {
        var full := PokeWords(mem, buf, dest, size / 8);
        forall i | 0 <= i < size - 8 ensures r[dest + i] == buf[i] {
          assert r[dest + i] == full[dest + i];
        }
        assert r[dest + size - 8..dest + size] == TailWord(buf, beyond, size);
      }
    }
  }

  /** Where the misfetched word lies in the buffer, its eight bytes are what is written. */
  lemma MisfetchedTail(mem: seq<Byte>, buf: seq<Byte>, beyond: nat -> Byte, dest: nat, size: nat)
    requires 8 < size <= |buf| && size % 8 != 0 && dest + size <= |mem| && 8 * (size - 8) + 8 <= |buf|
    ensures Written(mem, buf, beyond, dest, size)[dest + size - 8..dest + size] ==
      buf[8 * (size - 8)..8 * (size - 8) + 8]
  {
    hide Written;
    WriteContents(mem, buf, beyond, dest, size);
  }

  /** A write to a mapped range is faithful for every buffer exactly when it is empty, or
      has a whole-word size and the words it pokes are mapped: a short write within
      eight bytes of the end of mapped memory silently does nothing. */
  lemma WriteFaithfulIff(mem: seq<Byte>, beyond: nat -> Byte, dest: nat, size: nat, capacity: nat)
    requires size <= capacity && dest + size <= |mem|
    ensures size == 0 || (WholeWords(size) && dest + WriteSpan(size) <= |mem|) <==>
      (forall buf: seq<Byte> :: |buf| == capacity ==>
          Written(mem, buf, beyond, dest, size)[dest..dest + size] == buf[..size])
  {
    hide Written, TailWord;
    if size == 0 || (WholeWords(size) && dest + WriteSpan(size) <= |mem|) {
      forall buf: seq<Byte> | |buf| == capacity
        ensures Written(mem, buf, beyond, dest, size)[dest..dest + size] == buf[..size]
      {
        if size > 0 {
          WriteContents(mem, buf, beyond, dest, size);
        }
      }
    } else if WholeWords(size) {
      // Nothing is written, so any other first byte is lost.
      var other: Byte := if mem[dest] == 0 then 1 else 0;
      var buf := seq(capacity, _ => other);
      ShortWriteLost(mem, buf, beyond, dest, size);
      assert Written(mem, buf, beyond, dest, size)[dest..dest + size][0] != buf[..size][0];
    } else {
      // A buffer whose byte size-8 differs from the first byte of the word fetched instead.
      var at := (size - 8) * 8;
      assert at > size - 8;
      var zeros := seq(capacity, _ => 0 as Byte);
      var other: Byte := if BufByte(zeros, beyond, at) == 0 then 1 else 0;
      var buf := zeros[size - 8 := other];
      assert BufByte(buf, beyond, at) == BufByte(zeros, beyond, at);
      WriteContents(mem, buf, beyond, dest, size);
      var tail := Written(mem, buf, beyond, dest, size)[dest + size - 8..dest + size];
      assert tail[0] == BufByte(buf, beyond, at);
      assert Written(mem, buf, beyond, dest, size)[dest..dest + size][size - 8] == tail[0];
    }
  }

  /** Where the one word of a short write is not mapped, the write does nothing. */
  lemma ShortWriteLost(mem: seq<Byte>, buf: seq<Byte>, beyond: nat -> Byte, dest: nat, size: nat)
    requires size < 8 && size <= |buf| && dest + 8 > |mem|
    ensures Written(mem, buf, beyond, dest, size) == mem
  {
  }

  // ---------- transfer and compare ----------

  /** `transferVariantMem` succeeds exactly when the size fits the buffer. */
  predicate Transfers(size: nat) {
    size <= BUF_SIZE
  }

  /** Destination memory after a successful transfer through `buf`. */
  function Transferred(src: seq<Byte>, srcAddr: nat, dst: seq<Byte>, dstAddr: nat, size: nat,
                       buf: seq<Byte>, beyond: nat -> Byte): (r: seq<Byte>)
    requires Transfers(size) && BUF_SIZE <= |buf|
    ensures |r| == |dst|
  {
    Written(dst, Loaded(src, srcAddr, size, buf), beyond, dstAddr, size)
  }

  lemma FootprintWhole(size: nat)
    ensures Footprint(Footprint(size)) == Footprint(size)
  {
  }

  /** A read leaves the image of its whole words at the start of the buffer, and the rest
      of the buffer as it was. */
  lemma LoadedBytes(mem: seq<Byte>, addr: nat, size: nat, buf: seq<Byte>)
    requires size <= BUF_SIZE <= |buf|
    ensures var r, n := Loaded(mem, addr, size, buf), Footprint(size);
      && (addr + n <= |mem| ==> r[..n] == mem[addr..addr + n])
      && r[n..] == buf[n..]
  {
    var n := Footprint(size);
    if addr + n <= |mem| {
      FootprintWhole(size);
      ImageMapped(mem, addr, n);
    }
  }

  /** What `variantMemCmp` calls equal: the bytes the two reads deliver. */
  ghost predicate SameImage(mem1: seq<Byte>, addr1: nat, mem2: seq<Byte>, addr2: nat, size: nat) {
    Image(mem1, addr1, size) == Image(mem2, addr2, size)
  }

  /** On mapped ranges the comparison is bytewise equality. */
  lemma SameImageMapped(mem1: seq<Byte>, addr1: nat, mem2: seq<Byte>, addr2: nat, size: nat)
    requires addr1 + Footprint(size) <= |mem1| && addr2 + Footprint(size) <= |mem2|
    ensures SameImage(mem1, addr1, mem2, addr2, size) <==> mem1[addr1..addr1 + size] == mem2[addr2..addr2 + size]
  {
    ImageMapped(mem1, addr1, size);
    ImageMapped(mem2, addr2, size);
  }

  ghost predicate Decides(mem1: seq<Byte>, addr1: nat, mem2: seq<Byte>, addr2: nat, size: nat)
    requires addr1 + size <= |mem1| && addr2 + size <= |mem2|
  {
    SameImage(mem1, addr1, mem2, addr2, size) <==> mem1[addr1..addr1 + size] == mem2[addr2..addr2 + size]
  }

  /** A range of zeros reads as zeros, but for an unmapped last word. */
  lemma ZerosImage(len: nat, addr: nat, size: nat)
    requires addr + size <= len && size > 0
    ensures var s := Image(seq(len, _ => 0 as Byte), addr, size);
      forall i :: 0 <= i < size ==> s[i] == if i / 8 == (size - 1) / 8 && addr + Footprint(size) > len then 0xFF else 0
  {
    var mem := seq(len, _ => 0 as Byte);
    forall i | 0 <= i < size
      ensures PeekByte(mem, addr, i) == if i / 8 == (size - 1) / 8 && addr + Footprint(size) > len then 0xFF else 0
    {
      assert Footprint(size) == (size - 1) / 8 * 8 + 8;
      if i / 8 < (size - 1) / 8 {
        assert i / 8 * 8 + 8 <= (size - 1) / 8 * 8 <= size - 1;
      }
    }
  }

  /** A read does not see the last byte of a range whose last word is not mapped. */
  lemma LostByte(mem: seq<Byte>, addr: nat, size: nat)
    requires size > 0 && addr + size <= |mem| < addr + Footprint(size)
    ensures Image(mem[addr + size - 1 := 1], addr, size) == Image(mem, addr, size)
  {
    var one := mem[addr + size - 1 := 1];
    forall i | 0 <= i < size ensures PeekByte(one, addr, i) == PeekByte(mem, addr, i) {
      assert Footprint(size) == (size - 1) / 8 * 8 + 8;
      var from := addr + i / 8 * 8;
      if from + 8 <= |mem| {
        assert i / 8 < (size - 1) / 8;
        assert i / 8 * 8 + 8 <= (size - 1) / 8 * 8 <= size - 1;
        assert one[from..from + 8] == mem[from..from + 8];
      }
    }
  }

  /** Equal ranges that compare different: the last byte of one reads as 0xFF. */
  lemma EqualRangesMissed(len1: nat, addr1: nat, len2: nat, addr2: nat, size: nat)
    requires addr1 + size <= len1 && addr2 + size <= len2 && size > 0
    requires (addr1 + Footprint(size) <= len1) != (addr2 + Footprint(size) <= len2)
    ensures !Decides(seq(len1, _ => 0 as Byte), addr1, seq(len2, _ => 0 as Byte), addr2, size)
  {
    hide Footprint, PeekByte;
    var zeros1, zeros2 := seq(len1, _ => 0 as Byte), seq(len2, _ => 0 as Byte);
    ZerosImage(len1, addr1, size);
    ZerosImage(len2, addr2, size);
    assert Image(zeros1, addr1, size)[size - 1] != Image(zeros2, addr2, size)[size - 1];
    assert zeros1[addr1..addr1 + size] == zeros2[addr2..addr2 + size];
  }

  /** Different ranges that compare equal: neither read delivers their last byte. */
  lemma DifferentRangesMissed(len1: nat, addr1: nat, len2: nat, addr2: nat, size: nat)
    requires addr1 + size <= len1 < addr1 + Footprint(size)
    requires addr2 + size <= len2 < addr2 + Footprint(size) && size > 0
    ensures !Decides(seq(len1, _ => 0 as Byte), addr1, seq(len2, _ => 0 as Byte)[addr2 + size - 1 := 1], addr2, size)
  {
    hide Footprint, PeekByte;
    var zeros1, zeros2 := seq(len1, _ => 0 as Byte), seq(len2, _ => 0 as Byte);
    var one := zeros2[addr2 + size - 1 := 1];
    ZerosImage(len1, addr1, size);
    ZerosImage(len2, addr2, size);
    LostByte(zeros2, addr2, size);
    assert one[addr2..addr2 + size][size - 1] != zeros1[addr1..addr1 + size][size - 1];
    assert Image(zeros1, addr1, size) == Image(zeros2, addr2, size);
  }

  /** A transfer at a size that is not whole words: all but the last eight bytes arrive.
      The last eight are the source's from eight times as far on, where the read has
      filled the buffer that far; otherwise what the buffer held before, or what lies
      past its end. */
  lemma TransferContents(src: seq<Byte>, srcAddr: nat, dst: seq<Byte>, dstAddr: nat, size: nat,
                         buf: seq<Byte>, beyond: nat -> Byte)
    requires Transfers(size) && BUF_SIZE <= |buf| && !WholeWords(size)
    requires srcAddr + Footprint(size) <= |src| && dstAddr + size <= |dst|
    ensures var r, at := Transferred(src, srcAddr, dst, dstAddr, size, buf, beyond), 8 * (size - 8);
      var tail := r[dstAddr + size - 8..dstAddr + size];
      && r[dstAddr..dstAddr + size - 8] == src[srcAddr..srcAddr + size - 8]
      && forall j :: 0 <= j < 8 ==>
           tail[j] ==
           if at + j < Footprint(size) then src[srcAddr + at + j]
           else if at + j < |buf| then buf[at + j]
           else beyond(at + j)
  {
    hide Written, Image, PeekByte, Footprint;
    var local := Loaded(src, srcAddr, size, buf);
    var image := Image(src, srcAddr, Footprint(size));
    FootprintWhole(size);
    ImageMapped(src, srcAddr, Footprint(size));
    WriteContents(dst, local, beyond, dstAddr, size);
    assert local[..size - 8] == image[..size - 8] == src[srcAddr..srcAddr + size - 8];
  }

  /** The comparison decides equality of every two mapped ranges exactly when all the
      words it reads are mapped: the tail of a range that ends within eight bytes of the
      end of mapped memory reads as 0xFF, whatever is there. */
  lemma SameImageExactIff(len1: nat, addr1: nat, len2: nat, addr2: nat, size: nat)
    requires addr1 + size <= len1 && addr2 + size <= len2
    ensures size == 0 || (addr1 + Footprint(size) <= len1 && addr2 + Footprint(size) <= len2) <==>
      (forall mem1: seq<Byte>, mem2: seq<Byte> :: |mem1| == len1 && |mem2| == len2 ==>
          Decides(mem1, addr1, mem2, addr2, size))
  {
    hide Decides, Footprint;
    if size == 0 || (addr1 + Footprint(size) <= len1 && addr2 + Footprint(size) <= len2) {
      forall mem1: seq<Byte>, mem2: seq<Byte> | |mem1| == len1 && |mem2| == len2
        ensures Decides(mem1, addr1, mem2, addr2, size)
      {
        MappedDecides(mem1, addr1, mem2, addr2, size);
      }
    } else if addr1 + Footprint(size) <= len1 || addr2 + Footprint(size) <= len2 {
      EqualRangesMissed(len1, addr1, len2, addr2, size);
    } else {
      DifferentRangesMissed(len1, addr1, len2, addr2, size);
    }
  }

  lemma MappedDecides(mem1: seq<Byte>, addr1: nat, mem2: seq<Byte>, addr2: nat, size: nat)
    requires addr1 + size <= |mem1| && addr2 + size <= |mem2|
    requires size == 0 || (addr1 + Footprint(size) <= |mem1| && addr2 + Footprint(size) <= |mem2|)
    ensures Decides(mem1, addr1, mem2, addr2, size)
  {
    if size > 0 {
      SameImageMapped(mem1, addr1, mem2, addr2, size);
    }
  }

  /** Four different bytes at the end of memory that compare equal. */
  lemma DifferentBytesCompareEqual()
    ensures SameImage([1, 2, 3, 4], 0, [5, 6, 7, 8], 0, 4)
  {
    assert Image([1, 2, 3, 4], 0, 4) == [0xFF, 0xFF, 0xFF, 0xFF] == Image([5, 6, 7, 8], 0, 4);
  }

  /** A whole-word transfer delivers the source range and touches nothing else. */
  lemma TransferExact(src: seq<Byte>, srcAddr: nat, dst: seq<Byte>, dstAddr: nat, size: nat,
                      buf: seq<Byte>, beyond: nat -> Byte)
    requires Transfers(size) && BUF_SIZE <= |buf| && WholeWords(size)
    requires srcAddr + Footprint(size) <= |src| && dstAddr + WriteSpan(size) <= |dst|
    ensures Transferred(src, srcAddr, dst, dstAddr, size, buf, beyond)
            == dst[..dstAddr] + src[srcAddr..srcAddr + size] + dst[dstAddr + size..]
  {
    hide Written, Image, Footprint, WholeWords;
    var local := Loaded(src, srcAddr, size, buf);
    ImageMapped(src, srcAddr, size);
    assert local[..size] == Image(src, srcAddr, size);
    WriteContents(dst, local, beyond, dstAddr, size);
    WriteFrame(dst, local, beyond, dstAddr, size);
    Splice(dst, dstAddr, size, Transferred(src, srcAddr, dst, dstAddr, size, buf, beyond));
  }

  /** A sequence that differs only in one range. */
  lemma Splice(before: seq<Byte>, at: nat, size: nat, after: seq<Byte>)
    requires |after| == |before| && at + size <= |before|
    requires forall a :: 0 <= a < |before| && !(at <= a < at + size) ==> after[a] == before[a]
    ensures after == before[..at] + after[at..at + size] + before[at + size..]
  {
  }

  /** Comparing the two ranges after a whole-word transfer finds them equal. */
  lemma TransferThenCompare(src: seq<Byte>, srcAddr: nat, dst: seq<Byte>, dstAddr: nat, size: nat,
                            buf: seq<Byte>, beyond: nat -> Byte)
    requires Transfers(size) && BUF_SIZE <= |buf| && WholeWords(size)
    requires srcAddr + Footprint(size) <= |src| && dstAddr + WriteSpan(size) <= |dst|
    ensures SameImage(src, srcAddr, Transferred(src, srcAddr, dst, dstAddr, size, buf, beyond), dstAddr, size)
  {
    TransferExact(src, srcAddr, dst, dstAddr, size, buf, beyond);
    var r := Transferred(src, srcAddr, dst, dstAddr, size, buf, beyond);
    assert r[dstAddr..dstAddr + size] == src[srcAddr..srcAddr + size];
    SameImageMapped(src, srcAddr, r, dstAddr, size);
  }
}
