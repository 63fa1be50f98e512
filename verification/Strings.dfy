/** C strings in variant memory: the string functions the monitor uses and the
    two scans that look for the end of a path. */
module Strings {
  import opened Words
  import opened Memory

  /** `strnlen` from position `from`: the first NUL, or `n`. */
  function NulFrom(s: seq<Byte>, n: nat, from: nat): (k: nat)
    requires from <= n <= |s|
    ensures from <= k <= n
    ensures forall i :: from <= i < k ==> s[i] != 0
    ensures k < n ==> s[k] == 0
    decreases n - from
  {
    if from == n || s[from] == 0 then from else NulFrom(s, n, from + 1)
  }

  function Strnlen(s: seq<Byte>, n: nat): (k: nat)
    requires n <= |s|
    ensures k <= n
    ensures forall i :: 0 <= i < k ==> s[i] != 0
    ensures k < n ==> s[k] == 0
  {
    NulFrom(s, n, 0)
  }

  /** `strncmp(a, b, n) == 0`, from position `from`: stops at a common NUL. */
  predicate SameFrom(a: seq<Byte>, b: seq<Byte>, n: nat, from: nat)
    requires from <= n && n <= |a| && n <= |b|
    decreases n - from
  {
    from == n || (a[from] == b[from] && (a[from] == 0 || SameFrom(a, b, n, from + 1)))
  }

  predicate StrncmpZero(a: seq<Byte>, b: seq<Byte>, n: nat)
    requires n <= |a| && n <= |b|
  {
    SameFrom(a, b, n, 0)
  }

  lemma {:induction false} SameFromNoNul(a: seq<Byte>, b: seq<Byte>, n: nat, from: nat)
    requires from <= n && n <= |a| && n <= |b|
    requires forall i :: from <= i < n ==> a[i] != 0
    ensures SameFrom(a, b, n, from) <==> a[from..n] == b[from..n]
    decreases n - from
  {
    if from < n {
      SameFromNoNul(a, b, n, from + 1);
      assert a[from..n] == [a[from]] + a[from + 1..n];
      assert b[from..n] == [b[from]] + b[from + 1..n];
    }
  }

  /** Where the first string has no NUL early enough, `strncmp` is a plain comparison. */
  lemma StrncmpNoNul(a: seq<Byte>, b: seq<Byte>, n: nat)
    requires n <= |a| && n <= |b|
    requires forall i :: 0 <= i < n ==> a[i] != 0
    ensures StrncmpZero(a, b, n) <==> a[..n] == b[..n]
  {
    SameFromNoNul(a, b, n, 0);
    assert a[0..n] == a[..n] && b[0..n] == b[..n];
  }

  /** `strnlen` depends on nothing past the NUL it finds. */
  lemma StrnlenUnique(s: seq<Byte>, n: nat, t: seq<Byte>, m: nat, k: nat)
    requires n <= |s| && m <= |t| && k < n && k < m
    requires k == Strnlen(s, n) && s[..k + 1] == t[..k + 1]
    ensures Strnlen(t, m) == k
  {
    assert forall i :: 0 <= i <= k ==> s[i] == s[..k + 1][i] == t[..k + 1][i] == t[i];
  }

  // ---------- newfstatat ----------

  /** The last window the newfstatat scan reads: 1 + 50 * 199,999. */
  const PATH_LIMIT := 9_999_951

  /** The length newfstatat works with. */
  function PathLen(mem: seq<Byte>, path: nat): (k: nat)
    ensures k <= PATH_LIMIT
  {
    Strnlen(Image(mem, path, PATH_LIMIT), PATH_LIMIT)
  }

  /** The path test of newfstatat. */
  ghost predicate PathAgrees(mem1: seq<Byte>, path1: nat, mem2: seq<Byte>, path2: nat) {
    SameImage(mem1, path1, mem2, path2, PathLen(mem1, path1))
  }

  /** The length the scan finds: that of the string, if it ends before the limit. */
  lemma PathLenExactly(mem: seq<Byte>, path: nat)
    ensures var k := PathLen(mem, path);
      && k <= 9_999_951
      && (forall i: nat :: i < k ==> PeekByte(mem, path, i) != 0)
      && (k < 9_999_951 ==> PeekByte(mem, path, k) == 0)
  {
    hide PeekByte;
    var s, k := Image(mem, path, PATH_LIMIT), PathLen(mem, path);
    assert forall i: nat :: i < k ==> s[i] == PeekByte(mem, path, i);
  }

  /** A NUL inside a window is the one the whole scan finds. */
  lemma WindowFinds(mem: seq<Byte>, path: nat, window: nat)
    requires window <= PATH_LIMIT
    requires Strnlen(Image(mem, path, window), window) < window
    ensures PathLen(mem, path) == Strnlen(Image(mem, path, window), window)
  {
    var s, t := Image(mem, path, window), Image(mem, path, PATH_LIMIT);
    var k := Strnlen(s, window);
    assert s[..k + 1] == t[..k + 1];
    StrnlenUnique(s, window, t, PATH_LIMIT, k);
  }

  /** The test accepts every replica path that extends master's: the paths are
      equal as C strings exactly when, besides passing, the replica's ends there. */
  lemma PathAgreesIsPrefix(mem1: seq<Byte>, path1: nat, mem2: seq<Byte>, path2: nat)
    requires PathLen(mem1, path1) < PATH_LIMIT
    ensures PathAgrees(mem1, path1, mem2, path2) ==>
      && PathLen(mem1, path1) <= PathLen(mem2, path2)
      && (PathLen(mem1, path1) == PathLen(mem2, path2) <==> PeekByte(mem2, path2, PathLen(mem1, path1)) == 0)
  {
    var k, l := PathLen(mem1, path1), PathLen(mem2, path2);
    var a, b := Image(mem1, path1, PATH_LIMIT), Image(mem2, path2, PATH_LIMIT);
    if PathAgrees(mem1, path1, mem2, path2) {
      forall i | 0 <= i < k ensures b[i] != 0 {
        assert Image(mem1, path1, k)[i] == Image(mem2, path2, k)[i];
        assert a[i] == b[i];
      }
      assert k <= l;
      assert b[k] == PeekByte(mem2, path2, k);
    }
  }

  /** Unequal paths that pass: "a" in the master, "ab" in the replica. */
  lemma PathAgreesOnUnequalPaths()
    ensures var a: seq<Byte>, ab: seq<Byte> := [97, 0, 0, 0, 0, 0, 0, 0], [97, 98, 0, 0, 0, 0, 0, 0];
      PathLen(a, 0) == 1 && PathLen(ab, 0) == 2 && PathAgrees(a, 0, ab, 0)
  {
    var a: seq<Byte>, ab: seq<Byte> := [97, 0, 0, 0, 0, 0, 0, 0], [97, 98, 0, 0, 0, 0, 0, 0];
    var s, t := Image(a, 0, PATH_LIMIT), Image(ab, 0, PATH_LIMIT);
    assert s[0] == 97 && s[1] == 0 && t[0] == 97 && t[1] == 98 && t[2] == 0;
  }

  /** At the end of mapped memory any two paths pass: the words they lie in read as 0xFF. */
  lemma PathAgreesAtMemoryEnd()
    ensures PathAgrees([97, 0], 0, [98, 0], 0)
  {
    assert forall i :: 0 <= i < PATH_LIMIT ==> PeekByte([97, 0], 0, i) == 0xFF == PeekByte([98, 0], 0, i);
    assert PathLen([97, 0], 0) == PATH_LIMIT;
    assert Image([97, 0], 0, PATH_LIMIT) == Image([98, 0], 0, PATH_LIMIT);
  }

  /** The C string at `str` is `k` bytes long. */
  ghost predicate EndsAt(mem: seq<Byte>, str: nat, k: nat) {
    PeekByte(mem, str, k) == 0 && forall i: nat :: i < k ==> PeekByte(mem, str, i) != 0
  }

  lemma PathLenIs(mem: seq<Byte>, path: nat, k: nat)
    requires k < PATH_LIMIT && EndsAt(mem, path, k)
    ensures PathLen(mem, path) == k
  {
    hide PeekByte;
    var s := Image(mem, path, PATH_LIMIT);
    assert s[k] == 0 && forall i: nat :: i < k ==> s[i] != 0;
  }

  lemma EndsMapped(mem: seq<Byte>, path: nat, k: nat)
    requires path + Footprint(k + 1) <= |mem|
    requires mem[path + k] == 0 && forall i :: path <= i < path + k ==> mem[i] != 0
    ensures EndsAt(mem, path, k)
  {
    hide PeekByte;
    ImageMapped(mem, path, k + 1);
    var w := Image(mem, path, k + 1);
    forall i: nat | i <= k ensures PeekByte(mem, path, i) == mem[path + i] {
      assert w[i] == mem[path..path + k + 1][i];
    }
  }

  lemma FootprintGrows(k: nat)
    ensures Footprint(k) <= Footprint(k + 1)
  {
  }

  /** Where the words of master's path and of as much of the replica's are mapped, the
      test passes exactly when the replica's memory starts with master's path. */
  lemma PathAgreesMapped(mem1: seq<Byte>, path1: nat, mem2: seq<Byte>, path2: nat, k: nat)
    requires k < PATH_LIMIT
    requires path1 + Footprint(k + 1) <= |mem1| && path2 + Footprint(k) <= |mem2|
    requires mem1[path1 + k] == 0 && forall i :: path1 <= i < path1 + k ==> mem1[i] != 0
    ensures PathAgrees(mem1, path1, mem2, path2) <==> mem1[path1..path1 + k] == mem2[path2..path2 + k]
  {
    hide EndsAt, SameImage, Footprint, PathLen;
    EndsMapped(mem1, path1, k);
    PathLenIs(mem1, path1, k);
    FootprintGrows(k);
    SameImageMapped(mem1, path1, mem2, path2, k);
  }

  // ---------- variantStrCmp ----------

  /** The last window `variantStrCmp` reads before it stops growing. */
  const STRCMP_LIMIT := 9_999_900

  /** `variantStrCmp` as written: any NUL in a window is reported as an error. */
  ghost function StrCmpResult(mem1: seq<Byte>, str1: nat, mem2: seq<Byte>, str2: nat): (r: int) {
    if Strnlen(Image(mem1, str1, STRCMP_LIMIT), STRCMP_LIMIT) < STRCMP_LIMIT then -1
    else if SameImage(mem1, str1, mem2, str2, STRCMP_LIMIT) then 0
    else 1
  }

  /** It never reports two strings equal unless the first runs on for at least
      9,999,900 bytes; on every shorter string the result is the error value. */
  lemma StrCmpErrsIff(mem1: seq<Byte>, str1: nat, mem2: seq<Byte>, str2: nat)
    ensures StrCmpResult(mem1, str1, mem2, str2) == -1 <==> exists k: nat :: k < STRCMP_LIMIT && EndsAt(mem1, str1, k)
  {
    var s := Image(mem1, str1, STRCMP_LIMIT);
    var k := Strnlen(s, STRCMP_LIMIT);
    if k < STRCMP_LIMIT {
      assert s[k] == PeekByte(mem1, str1, k);
      assert forall i: nat :: i < k ==> s[i] == PeekByte(mem1, str1, i);
      assert EndsAt(mem1, str1, k);
    }
  }

  /** Where it does give a verdict, the verdict is the comparison of the bytes read. */
  lemma StrCmpExactly(mem1: seq<Byte>, str1: nat, mem2: seq<Byte>, str2: nat)
    requires forall k: nat :: k < 9_999_900 ==> PeekByte(mem1, str1, k) != 0
    ensures StrCmpResult(mem1, str1, mem2, str2) in {0, 1}
    ensures StrCmpResult(mem1, str1, mem2, str2) == 0 <==>
      forall k: nat :: k < 9_999_900 ==> PeekByte(mem1, str1, k) == PeekByte(mem2, str2, k)
  {
    hide PeekByte, EndsAt;
    StrCmpErrsIff(mem1, str1, mem2, str2);
    assert !exists k: nat :: k < STRCMP_LIMIT && EndsAt(mem1, str1, k) by { NowhereEnds(mem1, str1); }
    var a, b := Image(mem1, str1, STRCMP_LIMIT), Image(mem2, str2, STRCMP_LIMIT);
    if a == b {
      forall k: nat | k < 9_999_900 ensures PeekByte(mem1, str1, k) == PeekByte(mem2, str2, k) {
        assert a[k] == b[k];
      }
    }
  }

  lemma NowhereEnds(mem: seq<Byte>, str: nat)
    requires forall k: nat :: k < 9_999_900 ==> PeekByte(mem, str, k) != 0
    ensures !exists k: nat :: k < STRCMP_LIMIT && EndsAt(mem, str, k)
  {
    hide PeekByte;
  }
}
