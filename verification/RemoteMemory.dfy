/** The loops of variant.c that move bytes between a variant and the monitor. */
module RemoteMemory {
  import opened Words
  import opened Memory
  import opened Strings
  import opened Tracees

  method PeekData(v: Variant, addr: nat) returns (w: Long)
    ensures w == Peek(v.tracee.mem, addr)
  {
    w := Peek(v.tracee.mem, addr);
  }

  method PokeData(v: Variant, addr: nat, w: Long)
    modifies v
    ensures v.View() == old(v.View()).WithMem(Poke(old(v.tracee.mem), addr, w))
  {
    v.tracee := v.tracee.(mem := Poke(v.tracee.mem, addr, w));
  }

  /** `((long *) buf)[off / 8] = w` */
  method StoreLong(buf: array<Byte>, off: nat, w: Long)
    requires off + 8 <= buf.Length
    modifies buf
    ensures buf[..] == old(buf[..off]) + w + old(buf[off + 8..])
  {
    forall i | 0 <= i < 8 {
      buf[off + i] := w[i];
    }
    assert buf[..off] == old(buf[..off]);
    assert buf[off..off + 8] == w;
    assert buf[off + 8..] == old(buf[off + 8..]);
    assert buf[..] == buf[..off] + buf[off..off + 8] + buf[off + 8..];
  }

  /** A local buffer after the first `n` bytes of a read. */
  ghost function PartlyLoaded(mem: seq<Byte>, addr: nat, n: nat, buf: seq<Byte>): (r: seq<Byte>)
    requires n <= |buf|
    ensures |r| == |buf|
  {
    Image(mem, addr, n) + buf[n..]
  }

  /** Storing the next word peeked extends the image by that word. */
  lemma LoadWord(mem: seq<Byte>, addr: nat, n: nat, buf: seq<Byte>)
    requires n % 8 == 0 && n + 8 <= |buf|
    ensures var cur := PartlyLoaded(mem, addr, n, buf);
      cur[..n] + Peek(mem, addr + n) + cur[n + 8..] == PartlyLoaded(mem, addr, n + 8, buf)
  {
    var cur, longer := PartlyLoaded(mem, addr, n, buf), Image(mem, addr, n + 8);
    forall i | n <= i < n + 8 ensures longer[i] == Peek(mem, addr + n)[i - n] {
      assert i / 8 * 8 == n;
    }
    assert longer[..n] == Image(mem, addr, n) == cur[..n];
    assert longer[n..] == Peek(mem, addr + n);
    assert cur[n + 8..] == buf[n + 8..];
  }

  /** One turn of the read loop: peek a word and store it, `done` bytes in. */
  method ReadWord(v: Variant, localBuf: array<Byte>, remote: nat, done: nat, ghost buf: seq<Byte>)
    requires localBuf.Length == BUF_SIZE && done % 8 == 0 && done + 8 <= BUF_SIZE == |buf|
    requires localBuf[..] == PartlyLoaded(v.tracee.mem, remote, done, buf)
    modifies localBuf
    ensures localBuf[..] == PartlyLoaded(v.tracee.mem, remote, done + 8, buf)
  {
    var w := PeekData(v, remote + done);
    LoadWord(v.tracee.mem, remote, done, buf);
    StoreLong(localBuf, done / 8 * 8, w);
  }

  /** Before the first word and after the last. */
  lemma LoadEnds(mem: seq<Byte>, addr: nat, size: nat, filled: nat, buf: seq<Byte>)
    requires size <= BUF_SIZE == |buf| && filled % 8 == 0 && size <= filled < size + 8
    ensures buf == PartlyLoaded(mem, addr, 0, buf)
    ensures filled == Footprint(size) && PartlyLoaded(mem, addr, filled, buf) == Loaded(mem, addr, size, buf)
  {
  }

  method ReadVariantMem(v: Variant, localBuf: array<Byte>, remote: nat, size: nat) returns (r: int)
    requires localBuf.Length == BUF_SIZE
    modifies localBuf
    ensures r == if size <= BUF_SIZE then size else -1
    ensures localBuf[..] == if size <= BUF_SIZE then Loaded(v.tracee.mem, remote, size, old(localBuf[..]))
        else old(localBuf[..])
  {
    hide PartlyLoaded, Image, Loaded, Footprint;
    if size > BUF_SIZE {
      return -1;
    }
    ghost var buf := localBuf[..];
    var bytesRemaining, bytesTransferred := size, 0;
    ghost var filled := 0;  // bytes of localBuf filled
    LoadEnds(v.tracee.mem, remote, 0, 0, buf);
    while bytesRemaining > 0
      invariant 0 <= bytesRemaining && bytesRemaining + bytesTransferred == size
      invariant filled % 8 == 0 && if bytesRemaining > 0 then bytesTransferred == filled else size <= filled < size + 8
      invariant filled <= BUF_SIZE && localBuf[..] == PartlyLoaded(v.tracee.mem, remote, filled, buf)
    {
      var bytesToTransfer := if bytesRemaining > 8 then 8 else bytesRemaining;
      ReadWord(v, localBuf, remote, bytesTransferred, buf);
      filled := filled + 8;
      bytesRemaining := bytesRemaining - bytesToTransfer;
      bytesTransferred := bytesTransferred + bytesToTransfer;
    }
    LoadEnds(v.tracee.mem, remote, size, filled, buf);
    return bytesTransferred;
  }

  /** One turn of the write loop: poke full word `k` of the buffer. */
  method WriteWord(v: Variant, localBuf: array<Byte>, remote: nat, done: nat, ghost mem: seq<Byte>,
      ghost buf: seq<Byte>, ghost k: nat)
    requires done == 8 * k && done + 8 <= localBuf.Length && localBuf[..] == buf
    requires v.tracee.mem == PokeWords(mem, buf, remote, k)
    modifies v
    ensures v.tracee.mem == PokeWords(mem, buf, remote, k + 1)
    ensures v.View() == old(v.View()).WithMem(v.tracee.mem)
  {
    var at := done / 8 * 8;
    var w: Long := localBuf[at..at + 8];
    assert w == buf[8 * k..8 * k + 8];
    PokeData(v, remote + done, w);
  }

  /** The last turn of the write loop when less than a word remains. */
  method WriteTail(v: Variant, localBuf: array<Byte>, beyond: nat -> Byte, remote: nat, size: nat,
                   ghost mem: seq<Byte>, ghost buf: seq<Byte>)
    requires 8 <= size <= localBuf.Length && size % 8 != 0 && localBuf[..] == buf
    requires v.tracee.mem == PokeWords(mem, buf, remote, size / 8)
    modifies v
    ensures v.tracee.mem == Written(mem, buf, beyond, remote, size)
    ensures v.View() == old(v.View()).WithMem(v.tracee.mem)
  {
    var w := TailWord(localBuf[..], beyond, size);
    assert w == TailWord(buf, beyond, size);
    PokeData(v, remote + size - 8, w);
  }

  lemma NothingPoked(mem: seq<Byte>, buf: seq<Byte>, dest: nat)
    ensures PokeWords(mem, buf, dest, 0) == mem
  {
  }

  lemma WrittenWhole(mem: seq<Byte>, buf: seq<Byte>, beyond: nat -> Byte, dest: nat, size: nat)
    requires 8 <= size <= |buf|
    ensures size % 8 == 0 ==> Written(mem, buf, beyond, dest, size) == PokeWords(mem, buf, dest, size / 8)
  {
  }

  method WriteVariantMem(v: Variant, localBuf: array<Byte>, beyond: nat -> Byte, remote: nat, size: nat)
    returns (r: int)
    requires size <= localBuf.Length
    modifies v
    ensures r == size
    ensures v.View() == old(v.View()).WithMem(Written(old(v.tracee.mem), localBuf[..], beyond, remote, size))
  {
    hide PokeWords, Poke, TailWord;
    ghost var mem, was, buf := v.tracee.mem, v.View(), localBuf[..];
    if size < 8 {
      var data := PeekData(v, remote);
      assert localBuf[..size] == buf[..size];
      PokeData(v, remote, localBuf[..size] + data[size..]);
      return size;
    }
    var bytesRemaining, bytesTransferred := size, 0;
    ghost var k := 0;  // full words poked
    NothingPoked(mem, buf, remote);
    while bytesRemaining > 0
      invariant 0 <= bytesRemaining && bytesRemaining + bytesTransferred == size && 8 * k <= size
      invariant localBuf[..] == buf && v.View() == was.WithMem(v.tracee.mem)
      invariant bytesRemaining > 0 ==> bytesTransferred == 8 * k
      invariant if bytesRemaining > 0 || 8 * k == size then v.tracee.mem == PokeWords(mem, buf, remote, k)
                else v.tracee.mem == Written(mem, buf, beyond, remote, size)
    {
      hide *;
      if bytesRemaining >= 8 {
        WriteWord(v, localBuf, remote, bytesTransferred, mem, buf, k);
        k := k + 1;
        bytesRemaining := bytesRemaining - 8;
        bytesTransferred := bytesTransferred + 8;
      } else {
        WriteTail(v, localBuf, beyond, remote, size, mem, buf);
        bytesTransferred := bytesTransferred + bytesRemaining;
        bytesRemaining := 0;
      }
    }
    WrittenWhole(mem, buf, beyond, remote, size);
    return bytesTransferred;
  }

  method TransferVariantMem(source: Variant, sourceAddr: nat, dest: Variant, destAddr: nat, size: nat,
                            bufA: array<Byte>, beyond: nat -> Byte)
    returns (r: int)
    requires bufA.Length == BUF_SIZE && source != dest
    modifies dest, bufA
    ensures r == if Transfers(size) then 0 else -1
    ensures bufA[..] == if Transfers(size) then Loaded(source.tracee.mem, sourceAddr, size, old(bufA[..]))
        else old(bufA[..])
    ensures dest.View() ==
      if Transfers(size)
      then old(dest.View()).WithMem(Transferred(source.tracee.mem, sourceAddr, old(dest.tracee.mem), destAddr, size,
          old(bufA[..]), beyond))
      else old(dest.View())
  {
    if size > BUF_SIZE {
      return -1;
    }
    var got := ReadVariantMem(source, bufA, sourceAddr, size);
    if got != size {
      return -1;
    }
    var put := WriteVariantMem(dest, bufA, beyond, destAddr, size);
    if put != size {
      return -1;
    }
    return 0;
  }

  method VariantMemCmp(v1: Variant, addr1: nat, v2: Variant, addr2: nat, size: nat,
                       bufA: array<Byte>, bufB: array<Byte>)
    returns (r: int)
    requires bufA.Length == bufB.Length == BUF_SIZE && bufA != bufB
    modifies bufA, bufB
    ensures size > BUF_SIZE ==> r == -1
    ensures size <= BUF_SIZE ==> r == if SameImage(v1.tracee.mem, addr1, v2.tracee.mem, addr2, size) then 0 else 1
    ensures bufA[..] == if size <= BUF_SIZE then Loaded(v1.tracee.mem, addr1, size, old(bufA[..])) else old(bufA[..])
  {
    if size > BUF_SIZE {
      return -1;
    }
    var _ := ReadVariantMem(v1, bufA, addr1, size);
    var _ := ReadVariantMem(v2, bufB, addr2, size);
    LoadedPrefix(v1.tracee.mem, addr1, size, bufA[..]);
    LoadedPrefix(v2.tracee.mem, addr2, size, bufB[..]);
    r := if bufA[..size] == bufB[..size] then 0 else 1;
  }

  /** The first `size` bytes of a loaded buffer are the image read. */
  lemma LoadedPrefix(mem: seq<Byte>, addr: nat, size: nat, buf: seq<Byte>)
    requires size <= BUF_SIZE <= |buf|
    requires buf[..Footprint(size)] == Image(mem, addr, Footprint(size))
    ensures buf[..size] == Image(mem, addr, size)
  {
    assert buf[..size] == buf[..Footprint(size)][..size];
  }

  /** A window that held no NUL, still in the buffer. */
  ghost predicate NoNulYet(mem: seq<Byte>, str: nat, buf: seq<Byte>, window: nat) {
    && window <= |buf|
    && buf[..window] == Image(mem, str, window)
    && Strnlen(buf[..window], window) == window
  }

  /** One window of a string scan: read it, then `strnlen`. */
  method ReadWindow(v: Variant, str: nat, buf: array<Byte>, window: nat) returns (stringLen: nat)
    requires buf.Length == BUF_SIZE && window < BUF_SIZE
    modifies buf
    ensures stringLen <= window
    ensures stringLen == window ==> NoNulYet(v.tracee.mem, str, buf[..], window)
    ensures stringLen < window ==> stringLen == Strnlen(Image(v.tracee.mem, str, window), window)
    ensures buf[..stringLen] == Image(v.tracee.mem, str, stringLen)
  {
    var _ := ReadVariantMem(v, buf, str, window);
    LoadedPrefix(v.tracee.mem, str, window, buf[..]);
    stringLen := Strnlen(buf[..window], window);
    ImagePrefix(v.tracee.mem, str, stringLen, window);
    assert buf[..stringLen] == buf[..window][..stringLen];
  }

  /** The path scan of newfstatat: a window that grows by 50 bytes until it holds
      a NUL. */
  method ScanPath(master: Variant, path: nat, fsBufA: array<Byte>) returns (stringLen: nat)
    requires fsBufA.Length == BUF_SIZE
    modifies fsBufA
    ensures stringLen == PathLen(master.tracee.mem, path)
    ensures fsBufA[..stringLen] == Image(master.tracee.mem, path, stringLen)
  {
    hide NoNulYet, PathLen, Image, Strnlen;
    var curSize := 1;
    stringLen := 0;
    ghost var n := 0;  // windows found too short
    while curSize < BUF_SIZE
      invariant curSize == 1 + 50 * n && n <= 200_000
      invariant n > 0 ==> stringLen + 50 == curSize && NoNulYet(master.tracee.mem, path, fsBufA[..], stringLen)
    {
      stringLen := ReadWindow(master, path, fsBufA, curSize);
      if stringLen == BUF_SIZE {
        assert false;  // the window is always smaller than the buffer
      } else if stringLen == curSize {
        curSize := curSize + 50;
        n := n + 1;
      } else {
        WindowFinds(master.tracee.mem, path, curSize);
        return;
      }
    }
    LongPath(master.tracee.mem, path, fsBufA[..]);
    assert fsBufA[..][..stringLen] == fsBufA[..stringLen];
  }

  lemma LongPath(mem: seq<Byte>, path: nat, buf: seq<Byte>)
    requires NoNulYet(mem, path, buf, PATH_LIMIT)
    ensures PathLen(mem, path) == PATH_LIMIT && buf[..PATH_LIMIT] == Image(mem, path, PATH_LIMIT)
  {
  }

  /** The path test of newfstatat. */
  method PathTest(master: Variant, masterPath: nat, replica: Variant, replicaPath: nat,
                  fsBufA: array<Byte>, fsBufB: array<Byte>)
    returns (eq: bool)
    requires fsBufA.Length == fsBufB.Length == BUF_SIZE && fsBufA != fsBufB
    modifies fsBufA, fsBufB
    ensures eq <==> PathAgrees(master.tracee.mem, masterPath, replica.tracee.mem, replicaPath)
  {
    var stringLen := ScanPath(master, masterPath, fsBufA);
    var _ := ReadVariantMem(replica, fsBufB, replicaPath, stringLen);
    LoadedPrefix(replica.tracee.mem, replicaPath, stringLen, fsBufB[..]);
    PathHasNoNul(master.tracee.mem, masterPath, fsBufA[..]);
    StrncmpNoNul(fsBufA[..], fsBufB[..], stringLen);
    eq := StrncmpZero(fsBufA[..], fsBufB[..], stringLen);
  }

  lemma PathHasNoNul(mem: seq<Byte>, path: nat, buf: seq<Byte>)
    requires PathLen(mem, path) <= |buf| && buf[..PathLen(mem, path)] == Image(mem, path, PathLen(mem, path))
    ensures forall i :: 0 <= i < PathLen(mem, path) ==> buf[i] != 0
  {
    var k, s := PathLen(mem, path), Image(mem, path, PATH_LIMIT);
    forall i | 0 <= i < k ensures buf[i] != 0 {
      assert buf[i] == buf[..k][i] == s[i];
    }
  }

  /** `variantStrCmp`: the branch for a string that ends inside the window returns
      the error value, so the loop only ends by running out of windows. */
  method VariantStrCmp(v1: Variant, str1: nat, v2: Variant, str2: nat, bufA: array<Byte>, bufB: array<Byte>)
    returns (r: int)
    requires bufA.Length == bufB.Length == BUF_SIZE && bufA != bufB
    modifies bufA, bufB
    ensures r == StrCmpResult(v1.tracee.mem, str1, v2.tracee.mem, str2)
  {
    hide NoNulYet, Image, Strnlen, StrCmpResult;
    var curSize, stringLen := 100, 0;
    ghost var n := 0;  // windows found too short
    while curSize < BUF_SIZE
      invariant curSize == 100 + 100 * n && n <= 99_999
      invariant n > 0 ==> stringLen + 100 == curSize && NoNulYet(v1.tracee.mem, str1, bufA[..], stringLen)
    {
      stringLen := ReadWindow(v1, str1, bufA, curSize);
      if stringLen == BUF_SIZE {
        assert false;  // the window is always smaller than the buffer
      } else if stringLen == curSize {
        curSize := curSize + 100;
        n := n + 1;
      } else {
        ShortStringErrs(v1.tracee.mem, str1, v2.tracee.mem, str2, curSize);
        return -1;
      }
    }
    r := CompareStrings(v1.tracee.mem, str1, bufA, v2, str2, bufB, curSize, stringLen);
  }

  /** The second read and the `strncmp` of `variantStrCmp`. */
  method CompareStrings(ghost mem: seq<Byte>, ghost str1: nat, bufA: array<Byte>, v2: Variant, str2: nat,
      bufB: array<Byte>, curSize: nat, stringLen: nat)
    returns (r: int)
    requires bufA.Length == bufB.Length == BUF_SIZE && bufA != bufB
    requires stringLen == STRCMP_LIMIT <= curSize <= BUF_SIZE
    requires NoNulYet(mem, str1, bufA[..], stringLen)
    modifies bufB
    ensures r == StrCmpResult(mem, str1, v2.tracee.mem, str2)
  {
    var _ := ReadVariantMem(v2, bufB, str2, curSize);
    LoadedPrefix(v2.tracee.mem, str2, curSize, bufB[..]);
    ImagePrefix(v2.tracee.mem, str2, stringLen, curSize);
    assert bufB[..stringLen] == bufB[..curSize][..stringLen];
    assert bufA[..][..stringLen] == bufA[..stringLen];
    assert forall i :: 0 <= i < stringLen ==> bufA[i] == bufA[..stringLen][i];
    StrncmpNoNul(bufA[..], bufB[..], stringLen);
    r := if StrncmpZero(bufA[..], bufB[..], stringLen) then 0 else 1;
  }

  lemma ImagePrefix(mem: seq<Byte>, addr: nat, k: nat, n: nat)
    requires k <= n
    ensures Image(mem, addr, n)[..k] == Image(mem, addr, k)
  {
  }

  lemma ShortStringErrs(mem: seq<Byte>, str: nat, mem2: seq<Byte>, str2: nat, window: nat)
    requires window <= STRCMP_LIMIT && Strnlen(Image(mem, str, window), window) < window
    ensures StrCmpResult(mem, str, mem2, str2) == -1
  {
    var k := Strnlen(Image(mem, str, window), window);
    assert Image(mem, str, STRCMP_LIMIT)[k] == Image(mem, str, window)[k] == 0;
  }
}
