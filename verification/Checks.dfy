/** What the executors' checks come to, call by call: registers by number, bytes of
    memory, entries of the table.  Nothing here mentions plans; the lemmas prove that the
    executors' own checks are these. */
module Checks {
  import opened Words
  import opened Syscalls
  import opened Memory
  import opened Strings
  import opened Mappings
  import opened Tracees
  import opened Executors
  import opened Effects

  /** The kernel's numbers and the monitor's sizes. */
  lemma Numbers()
    ensures SYS_READ == 0 && SYS_WRITE == 1 && SYS_CLOSE == 3 && SYS_POLL == 7 && SYS_LSEEK == 8 && SYS_MMAP == 9
    ensures SYS_MPROTECT == 10 && SYS_MUNMAP == 11 && SYS_BRK == 12 && SYS_RT_SIGACTION == 13 && SYS_PREAD64 == 17
    ensures SYS_RT_SIGPROCMASK == 14 && SYS_ACCESS == 21 && SYS_GETPID == 39 && SYS_SOCKET == 41 && SYS_SHUTDOWN == 48
    ensures SYS_BIND == 49 && SYS_LISTEN == 50 && SYS_GETSOCKNAME == 51 && SYS_SETSOCKOPT == 54 && SYS_GETCWD == 79
    ensures SYS_CHDIR == 80 && SYS_UNLINK == 87 && SYS_FCHMOD == 91 && SYS_FCHOWN == 93 && SYS_GETUID == 102
    ensures SYS_GETGID == 104 && SYS_GETEUID == 107 && SYS_GETEGID == 108 && SYS_ARCH_PRCTL == 158
    ensures SYS_SET_TID_ADDRESS == 218 && SYS_FADVISE64 == 221 && SYS_EXIT_GROUP == 231 && SYS_OPENAT == 257
    ensures SYS_NEWFSTATAT == 262 && SYS_PSELECT6 == 270 && SYS_SET_ROBUST_LIST == 273 && SYS_UTIMENSAT == 280
    ensures SYS_ACCEPT4 == 288 && SYS_PRLIMIT64 == 302 && SYS_GETRANDOM == 318 && SYS_RSEQ == 334
    ensures SEEK_CUR == 1 && SIZEOF_POLLFD == 8 && SIZEOF_STAT == 144 && BUF_SIZE == 10_000_000
  {
  }

  // ---------- the reference ----------

  /** A register read as an `int` and widened again. */
  function Widened(x: U64): U64 {
    if x % 0x1_0000_0000 < 0x8000_0000 then x % 0x1_0000_0000
    else x % 0x1_0000_0000 + 0xFFFF_FFFF_0000_0000
  }

  /** The calls that both variants run on their own. */
  predicate BothRun(nr: nat) {
    nr in {SYS_GETUID, SYS_GETEUID, SYS_GETGID, SYS_GETEGID, SYS_BRK, SYS_SET_ROBUST_LIST, SYS_ARCH_PRCTL,
           SYS_EXIT_GROUP, SYS_RT_SIGACTION, SYS_PRLIMIT64, SYS_LSEEK, SYS_SOCKET, SYS_FADVISE64, SYS_RSEQ,
           SYS_MUNMAP, SYS_MPROTECT}
  }

  /** The calls that the replica makes a getpid instead of. */
  predicate Nopped(nr: nat) {
    nr in {SYS_GETPID, SYS_FCHMOD, SYS_FCHOWN, SYS_LISTEN, SYS_BIND, SYS_PREAD64, SYS_GETRANDOM, SYS_POLL,
           SYS_NEWFSTATAT}
  }

  /** The calls with an executor that this model has. */
  predicate Modelled(nr: nat) {
    BothRun(nr) || Nopped(nr) || nr in {SYS_CLOSE, SYS_READ, SYS_MMAP}
  }

  /** The calls with an executor that this model leaves out. */
  predicate LeftOut(nr: nat) {
    nr in {SYS_WRITE, SYS_OPENAT, SYS_ACCESS, SYS_SET_TID_ADDRESS, SYS_RT_SIGPROCMASK, SYS_UNLINK, SYS_UTIMENSAT,
           SYS_GETCWD, SYS_CHDIR, SYS_SETSOCKOPT, SYS_ACCEPT4, SYS_SHUTDOWN, SYS_GETSOCKNAME, SYS_PSELECT6}
  }

  /** The byte size of a poll array. */
  function ArraySize(nfds: U64): nat {
    var n: int := nfds;
    n * 8 % 0x1_0000_0000_0000_0000
  }

  /** The registers: master's `a`, the replica's `b`. */
  predicate RegistersAgree(nr: nat, a: Args, b: Args) {
    if nr in {SYS_ARCH_PRCTL, SYS_EXIT_GROUP, SYS_RT_SIGACTION, SYS_CLOSE} then a[0] == b[0]
    else if nr == SYS_PRLIMIT64 || nr == SYS_MUNMAP then a[1] == b[1]
    else if nr in {SYS_FCHMOD, SYS_LISTEN} then a[0] == b[0] && a[1] == b[1]
    else if nr in {SYS_LSEEK, SYS_SOCKET, SYS_FCHOWN} then a[0] == b[0] && a[1] == b[1] && a[2] == b[2]
    else if nr == SYS_FADVISE64 then a[0] == b[0] && a[1] == b[1] && a[2] == b[2] && a[3] == b[3]
    else if nr == SYS_RSEQ then a[1] == b[1] && a[2] == b[2] && a[3] == b[3]
    else if nr == SYS_PREAD64 then a[0] == b[0] && a[2] == b[2] && a[3] == b[3]
    else if nr == SYS_GETRANDOM then a[1] == b[1] && a[2] == b[2]
    else if nr == SYS_NEWFSTATAT then a[0] == b[0] && a[3] == b[3]
    else if nr == SYS_READ then Widened(a[0]) == b[0] && a[2] == b[2]
    else if nr == SYS_BIND then a[0] == b[0] && a[2] % 0x1_0000_0000 == b[2] <= 10_000_000
    else if nr == SYS_POLL then a[1] == b[1] && a[2] == b[2] && ArraySize(a[1]) <= 10_000_000
    else if nr == SYS_MMAP then
      a[1] == b[1] && Widened(a[2]) == b[2] && Widened(a[3]) == b[3] && a[4] == b[4] && a[5] == b[5]
    else if nr == SYS_MPROTECT then a[1] == b[1] && Widened(a[2]) == b[2]
    else true
  }

  /** The words that the checks read are mapped; master's path has its NUL at `k`. */
  ghost predicate Readable(nr: nat, a: Args, am: seq<Byte>, b: Args, bm: seq<Byte>, k: nat) {
    && (nr == SYS_BIND ==> a[1] + Footprint(b[2]) <= |am| && b[1] + Footprint(b[2]) <= |bm|)
    && (nr == SYS_POLL ==>
          a[0] + Footprint(ArraySize(a[1])) <= |am| && b[0] + Footprint(ArraySize(a[1])) <= |bm|)
    && (nr == SYS_NEWFSTATAT ==>
          && k < 9_999_951 && a[1] + Footprint(k + 1) <= |am| && b[1] + Footprint(k) <= |bm|
          && am[a[1] + k] == 0 && forall i :: a[1] <= i < a[1] + k ==> am[i] != 0)
  }

  /** The bytes: bind's address, poll's array, as much of newfstatat's path as master's has. */
  ghost predicate BytesAgree(nr: nat, a: Args, am: seq<Byte>, b: Args, bm: seq<Byte>, k: nat)
    requires Readable(nr, a, am, b, bm, k)
  {
    if nr == SYS_BIND then
      var from: nat, to: nat, n: nat := a[1], b[1], b[2];
      am[from..from + n] == bm[to..to + n]
    else if nr == SYS_POLL then
      var from: nat, to: nat, n := a[0], b[0], ArraySize(a[1]);
      am[from..from + n] == bm[to..to + n]
    else if nr == SYS_NEWFSTATAT then
      var from: nat, to: nat := a[1], b[1];
      am[from..from + k] == bm[to..to + k]
    else true
  }

  /** The policy, on a table whose entries have length 0: bit 1 of a protection is
      PROT_WRITE, of flags MAP_PRIVATE. */
  predicate TableAgrees(nr: nat, a: Args, table: seq<Mapping>) {
    && (nr == SYS_MMAP && a[2] % 4 >= 2 ==> a[3] % 4 >= 2)
    && (nr == SYS_MUNMAP ==> exists i :: 0 <= i < |table| && table[i].addr == a[0])
    && (nr == SYS_MPROTECT && a[2] % 4 >= 2 ==>
          forall i :: 0 <= i < |table| && table[i].addr == a[0] && (forall j :: 0 <= j < i ==> table[j].addr != a[0])
            ==> table[i].flags % 4 >= 2)
  }

  /** What the replica's kernel runs in place of its own call `own`, when master's call on
      file `fd` got `result`. */
  function StandIn(nr: nat, own: Call, fd: U64, result: I64): Call {
    if nr == SYS_CLOSE then own
    else if nr == SYS_READ then
      Call(SYS_LSEEK, [Widened(fd), if result < 0 then result + 0x1_0000_0000_0000_0000 else result, 1] + own.args[3..])
    else Call(SYS_GETPID, own.args)
  }

  /** The low half of a result, as a signed number. */
  function LowHalf(result: I64): I64 {
    var low: int := result % 0x1_0000_0000;
    if low < 0x8000_0000 then low else low - 0x1_0000_0000
  }

  /** The four calls whose results reach the replica whole. */
  predicate HandsOnWhole(nr: nat) {
    nr in {SYS_READ, SYS_PREAD64, SYS_GETRANDOM, SYS_POLL}
  }

  /** Each variant's kernel runs its own call, and tells its own program. */
  predicate OwnCall(nr: nat) {
    BothRun(nr) || nr == SYS_MMAP
  }

  // ---------- the executors' checks are the reference ----------

  lemma WidenedIs(x: U64)
    ensures ToU64(ToInt(x)) == Widened(x)
  {
    var i: int := ToInt(x);
    if i < 0 {
      assert (i + 0x1_0000_0000_0000_0000) % 0x1_0000_0000_0000_0000 == i % 0x1_0000_0000_0000_0000;
    }
  }

  lemma BitIs(x: int)
    ensures Bit1(x) <==> x % 4 >= 2
  {
    var q := x / 4;
    assert x == 2 * (2 * q) + x % 4;
    if x % 4 >= 2 {
      assert x / 2 == 2 * q + 1;
    } else {
      assert x / 2 == 2 * q;
    }
  }

  /** Narrowing keeps the low bits. */
  lemma LowBits(x: U64)
    ensures ToInt(x) % 4 == x % 4
  {
    var i: int, n: int := ToInt(x), x;
    assert (i - n) % 0x1_0000_0000 == 0;
    var k := (i - n) / 0x1_0000_0000;
    assert i == n + 4 * (0x4000_0000 * k);
  }

  /** The policy's test of protection and flags, by their low bits. */
  lemma PermsAre(prot: int, flags: int)
    ensures PermsAllowed(prot, flags) <==> (prot % 4 >= 2 ==> flags % 4 >= 2)
  {
    hide Bit1;
    BitIs(prot);
    BitIs(flags);
  }

  /** Which executor a number has: the `switch`, read the other way round. */
  lemma PlanTable(nr: nat)
    ensures var plan := PlanOf(nr);
      && (nr in {SYS_GETUID, SYS_GETEUID, SYS_GETGID, SYS_GETEGID, SYS_BRK, SYS_SET_ROBUST_LIST} <==>
            plan == Resume([]))
      && (nr in {SYS_ARCH_PRCTL, SYS_EXIT_GROUP, SYS_RT_SIGACTION} <==> plan == Resume([0]))
      && (nr == SYS_PRLIMIT64 <==> plan == Resume([1]))
      && (nr in {SYS_LSEEK, SYS_SOCKET} <==> plan == Resume([0, 1, 2]))
      && (nr == SYS_FADVISE64 <==> plan == ResumeUnchecked([0, 1, 2, 3]))
      && (nr == SYS_RSEQ <==> plan == ResumeUnchecked([1, 2, 3]))
      && (nr == SYS_GETPID <==> plan == Replicate([]))
      && (nr in {SYS_FCHMOD, SYS_LISTEN} <==> plan == Replicate([0, 1]))
      && (nr == SYS_FCHOWN <==> plan == Replicate([0, 1, 2]))
      && (nr == SYS_CLOSE <==> plan == CopyRet([0]))
      && (nr == SYS_BIND <==> plan == Bind)
      && (nr == SYS_READ <==> plan == Plan.Read)
      && (nr == SYS_PREAD64 <==> plan == Plan.Pread)
      && (nr == SYS_GETRANDOM <==> plan == Plan.GetRandom)
      && (nr == SYS_POLL <==> plan == Plan.Poll)
      && (nr == SYS_NEWFSTATAT <==> plan == Plan.Fstat)
      && (nr == SYS_MMAP <==> plan == Plan.Mmap)
      && (nr == SYS_MUNMAP <==> plan == Plan.Munmap)
      && (nr == SYS_MPROTECT <==> plan == Plan.Mprotect)
      && (LeftOut(nr) <==> plan == NotModelled)
      && (!Modelled(nr) && !LeftOut(nr) <==> plan == Missing)
  {
  }

  /** Equality of each of the six registers that is listed. */
  predicate EachListed(checked: seq<nat>, a: Args, b: Args) {
    && (0 in checked ==> a[0] == b[0])
    && (1 in checked ==> a[1] == b[1])
    && (2 in checked ==> a[2] == b[2])
    && (3 in checked ==> a[3] == b[3])
    && (4 in checked ==> a[4] == b[4])
    && (5 in checked ==> a[5] == b[5])
  }

  lemma ListsCompared(a: Call, b: Call)
    ensures forall checked: seq<nat> :: SameArgs(checked, Entry(a), Entry(b)) <==> EachListed(checked, a.args, b.args)
  {
    forall checked: seq<nat> ensures SameArgs(checked, Entry(a), Entry(b)) <==> EachListed(checked, a.args, b.args) {
      if SameArgs(checked, Entry(a), Entry(b)) {
        assert forall i :: 0 <= i < 6 && i in checked ==> Entry(a).Arg(i) == Entry(b).Arg(i);
        assert 0 in checked ==> Entry(a).Arg(0) == Entry(b).Arg(0);
        assert 1 in checked ==> Entry(a).Arg(1) == Entry(b).Arg(1);
        assert 2 in checked ==> Entry(a).Arg(2) == Entry(b).Arg(2);
        assert 3 in checked ==> Entry(a).Arg(3) == Entry(b).Arg(3);
        assert 4 in checked ==> Entry(a).Arg(4) == Entry(b).Arg(4);
        assert 5 in checked ==> Entry(a).Arg(5) == Entry(b).Arg(5);
      }
    }
  }

  /** The comparison of registers, where an executor compares no more. */
  lemma RegistersOnly(nr: nat, a: Call, am: seq<Byte>, b: Call, bm: seq<Byte>)
    requires Modelled(nr) && nr !in {SYS_BIND, SYS_POLL, SYS_NEWFSTATAT}
    ensures ArgsAgree(PlanOf(nr), Entry(a), am, Entry(b), bm) <==> RegistersAgree(nr, a.args, b.args)
  {
    hide PlanOf, SameArgs, ToU64, ToInt, Widened;
    PlanTable(nr);
    ListsCompared(a, b);
    WidenedIs(a.args[0]);
    WidenedIs(a.args[2]);
    WidenedIs(a.args[3]);
  }

  lemma ArraySizeIs(nfds: U64)
    ensures PollBytes(nfds) == ArraySize(nfds)
  {
  }

  /** The comparisons of memory, whose registers are compared first. */
  lemma RegistersAndBytes(nr: nat, a: Call, am: seq<Byte>, b: Call, bm: seq<Byte>)
    requires nr in {SYS_BIND, SYS_POLL, SYS_NEWFSTATAT}
    ensures ArgsAgree(PlanOf(nr), Entry(a), am, Entry(b), bm) <==>
      RegistersAgree(nr, a.args, b.args) &&
      (if nr == SYS_BIND then SameImage(am, a.args[1], bm, b.args[1], b.args[2])
       else if nr == SYS_POLL then SameImage(am, a.args[0], bm, b.args[0], ArraySize(a.args[1]))
       else PathAgrees(am, a.args[1], bm, b.args[1]))
  {
    hide PlanOf, SameArgs, PollBytes, ArraySize, SameImage, PathAgrees;
    PlanTable(nr);
    ListsCompared(a, b);
    ArraySizeIs(a.args[1]);
  }

  /** The executors' comparison of arguments, for any two calls with the same number:
      exactly the registers and the bytes of the reference. */
  lemma ArgumentsIff(nr: nat, a: Call, am: seq<Byte>, b: Call, bm: seq<Byte>, k: nat)
    requires Modelled(nr) && Readable(nr, a.args, am, b.args, bm, k)
    ensures ArgsAgree(PlanOf(nr), Entry(a), am, Entry(b), bm) <==>
      RegistersAgree(nr, a.args, b.args) && BytesAgree(nr, a.args, am, b.args, bm, k)
  {
    hide PlanOf, ArgsAgree, RegistersAgree, SameImage, PathAgrees, ArraySize, Footprint;
    if nr == SYS_BIND {
      RegistersAndBytes(nr, a, am, b, bm);
      SameImageMapped(am, a.args[1], bm, b.args[1], b.args[2]);
    } else if nr == SYS_POLL {
      RegistersAndBytes(nr, a, am, b, bm);
      SameImageMapped(am, a.args[0], bm, b.args[0], ArraySize(a.args[1]));
    } else if nr == SYS_NEWFSTATAT {
      RegistersAndBytes(nr, a, am, b, bm);
      PathAgreesMapped(am, a.args[1], bm, b.args[1], k);
    } else {
      RegistersOnly(nr, a, am, b, bm);
    }
  }

  /** Whatever is mapped, calls whose registers differ are refused. */
  lemma RegistersNeeded(nr: nat, a: Call, am: seq<Byte>, b: Call, bm: seq<Byte>)
    requires Modelled(nr) && ArgsAgree(PlanOf(nr), Entry(a), am, Entry(b), bm)
    ensures RegistersAgree(nr, a.args, b.args)
  {
    hide PlanOf, ArgsAgree, RegistersAgree, SameImage, PathAgrees;
    if nr in {SYS_BIND, SYS_POLL, SYS_NEWFSTATAT} {
      RegistersAndBytes(nr, a, am, b, bm);
    } else {
      RegistersOnly(nr, a, am, b, bm);
    }
  }

  /** Calls without an executor, or with one that is not modelled, pass no check. */
  lemma OthersRefused(nr: nat, a: Call, am: seq<Byte>, b: Call, bm: seq<Byte>)
    requires !Modelled(nr)
    ensures !ArgsAgree(PlanOf(nr), Entry(a), am, Entry(b), bm)
  {
    hide PlanOf;
    PlanTable(nr);
  }

  /** The first entry that the lookup finds in a table of zero lengths. */
  lemma FoundAtBase(table: seq<Mapping>, target: U64)
    requires forall e :: e in table ==> e.len == 0
    ensures var k := FindIndex(table, target);
      if k < |table| then table[k].addr == target && forall j :: 0 <= j < k ==> table[j].addr != target
      else forall j :: 0 <= j < |table| ==> table[j].addr != target
  {
    hide FindFrom;
    var k := FindIndex(table, target);
    forall j | 0 <= j < k ensures table[j].addr != target {
      assert table[j] in table;
    }
    if k < |table| {
      assert table[k] in table;
    }
  }

  /** The executors' questions to the policy are the reference's. */
  lemma PolicyIff(nr: nat, a: Call, table: seq<Mapping>)
    requires forall e :: e in table ==> e.len == 0
    ensures PolicyAllows(PlanOf(nr), Entry(a), table) <==> TableAgrees(nr, a.args, table)
  {
    hide PlanOf, PermsAllowed, FindIndex, ToInt;
    PlanTable(nr);
    FoundAtBase(table, a.args[0]);
    PermsAre(ToInt(a.args[2]), ToInt(a.args[3]));
    LowBits(a.args[2]);
    LowBits(a.args[3]);
    var k := FindIndex(table, a.args[0]);
    if k < |table| {
      PermsAre(ToInt(a.args[2]), table[k].flags);
    }
  }

  // ---------- the executors' effects, by number ----------

  lemma ResumesAre(nr: nat)
    ensures Resumes(PlanOf(nr)) <==> BothRun(nr)
    ensures PlanOf(nr).ResumeUnchecked? <==> nr in {SYS_FADVISE64, SYS_RSEQ}
    ensures PlanOf(nr).NotModelled? <==> LeftOut(nr)
    ensures PlanOf(nr).Missing? <==> !Modelled(nr) && !LeftOut(nr)
  {
    hide PlanOf;
    PlanTable(nr);
  }

  lemma StandInIs(nr: nat, own: Call, fd: U64, result: I64)
    requires Modelled(nr) && !OwnCall(nr) && own.nr == nr
    ensures ReplicaCall(PlanOf(nr), own, fd, result) == StandIn(nr, own, fd, result)
  {
    hide PlanOf, ToU64, ToInt, Widened;
    PlanTable(nr);
    WidenedIs(fd);
    UnsignedIs(result);
  }

  lemma UnsignedIs(x: I64)
    ensures ToU64(x) == if x < 0 then x + 0x1_0000_0000_0000_0000 else x
  {
    if x < 0 {
      assert (x as int + 0x1_0000_0000_0000_0000) % 0x1_0000_0000_0000_0000 == x as int % 0x1_0000_0000_0000_0000;
    }
  }

  lemma ToldIs(nr: nat, result: I64)
    requires Modelled(nr) && !OwnCall(nr)
    ensures ReplicaTold(PlanOf(nr), result) == if HandsOnWhole(nr) then result else LowHalf(result)
  {
    hide PlanOf;
    PlanTable(nr);
  }

  lemma CountedIs(nr: nat)
    ensures Counted(PlanOf(nr)) == if nr == SYS_GETRANDOM then 0 else 1
  {
    hide PlanOf;
    PlanTable(nr);
  }
}
