/** System calls as the monitor sees them: a number, six argument registers and,
    for each number, how `processSyscallSync` treats it. */
module Syscalls {
  import opened Words

  type Args = a: seq<U64> | |a| == 6 witness [0, 0, 0, 0, 0, 0]

  datatype Call = Call(nr: nat, args: Args)

  // x86-64 numbers
  const SYS_READ := 0
  const SYS_WRITE := 1
  const SYS_CLOSE := 3
  const SYS_POLL := 7
  const SYS_LSEEK := 8
  const SYS_MMAP := 9
  const SYS_MPROTECT := 10
  const SYS_MUNMAP := 11
  const SYS_BRK := 12
  const SYS_RT_SIGACTION := 13
  const SYS_RT_SIGPROCMASK := 14
  const SYS_PREAD64 := 17
  const SYS_ACCESS := 21
  const SYS_GETPID := 39
  const SYS_SOCKET := 41
  const SYS_SHUTDOWN := 48
  const SYS_BIND := 49
  const SYS_LISTEN := 50
  const SYS_GETSOCKNAME := 51
  const SYS_SETSOCKOPT := 54
  const SYS_GETCWD := 79
  const SYS_CHDIR := 80
  const SYS_UNLINK := 87
  const SYS_FCHMOD := 91
  const SYS_FCHOWN := 93
  const SYS_GETUID := 102
  const SYS_GETGID := 104
  const SYS_GETEUID := 107
  const SYS_GETEGID := 108
  const SYS_ARCH_PRCTL := 158
  const SYS_SET_TID_ADDRESS := 218
  const SYS_FADVISE64 := 221
  const SYS_EXIT_GROUP := 231
  const SYS_OPENAT := 257
  const SYS_NEWFSTATAT := 262
  const SYS_PSELECT6 := 270
  const SYS_SET_ROBUST_LIST := 273
  const SYS_UTIMENSAT := 280
  const SYS_ACCEPT4 := 288
  const SYS_PRLIMIT64 := 302
  const SYS_GETRANDOM := 318
  const SYS_RSEQ := 334

  const SEEK_CUR: U64 := 1
  const SIZEOF_POLLFD := 8
  const SIZEOF_STAT := 144

  /** How a call is executed once both variants have arrived at it.  `checked`
      lists the argument registers whose equality the executor demands. */
  datatype Plan =
    | Resume(checked: seq<nat>)        // check, then let both run it on their own
    | ResumeUnchecked(checked: seq<nat>) // let both run it, only then give the verdict
    | Replicate(checked: seq<nat>)     // master runs it, replica runs getpid
    | CopyRet(checked: seq<nat>)       // both run it, replica is told master's result
    | Bind
    | Read
    | Pread
    | GetRandom
    | Poll
    | Fstat
    | Mmap
    | Munmap
    | Mprotect
    | Missing                          // no executor: the variants are killed
    | NotModelled                      // an executor this model leaves out

  /** The `switch` of `processSyscallSync`. */
  function PlanOf(nr: nat): Plan {
    if nr == SYS_GETUID || nr == SYS_GETEUID || nr == SYS_GETGID || nr == SYS_GETEGID then Resume([])
    else if nr == SYS_BRK || nr == SYS_SET_ROBUST_LIST then Resume([])
    else if nr == SYS_ARCH_PRCTL || nr == SYS_EXIT_GROUP || nr == SYS_RT_SIGACTION then Resume([0])
    else if nr == SYS_PRLIMIT64 then Resume([1])
    else if nr == SYS_LSEEK || nr == SYS_SOCKET then Resume([0, 1, 2])
    else if nr == SYS_FADVISE64 then ResumeUnchecked([0, 1, 2, 3])
    else if nr == SYS_RSEQ then ResumeUnchecked([1, 2, 3])
    else if nr == SYS_GETPID then Replicate([])
    else if nr == SYS_FCHMOD || nr == SYS_LISTEN then Replicate([0, 1])
    else if nr == SYS_FCHOWN then Replicate([0, 1, 2])
    else if nr == SYS_CLOSE then CopyRet([0])
    else if nr == SYS_BIND then Bind
    else if nr == SYS_READ then Read
    else if nr == SYS_PREAD64 then Pread
    else if nr == SYS_GETRANDOM then GetRandom
    else if nr == SYS_POLL then Poll
    else if nr == SYS_NEWFSTATAT then Fstat
    else if nr == SYS_MMAP then Mmap
    else if nr == SYS_MUNMAP then Munmap
    else if nr == SYS_MPROTECT then Mprotect
    else if nr in {SYS_WRITE, SYS_OPENAT, SYS_ACCESS, SYS_SET_TID_ADDRESS, SYS_RT_SIGPROCMASK, SYS_UNLINK,
                   SYS_UTIMENSAT, SYS_GETCWD, SYS_CHDIR, SYS_SETSOCKOPT, SYS_ACCEPT4, SYS_SHUTDOWN,
                   SYS_GETSOCKNAME, SYS_PSELECT6} then NotModelled
    else Missing
  }

  /** The bytes of an out-buffer, as the program reads them after the call:
      `len` bytes at `addr`, or nothing where that memory is not mapped. */
  function Slice(mem: seq<Byte>, addr: nat, len: int): (s: seq<Byte>) {
    if 0 <= len && addr + len <= |mem| then mem[addr..addr + len] else []
  }

  /** What a completed call leaves in the caller's out-buffer. */
  function OutBuffer(call: Call, rval: I64, mem: seq<Byte>): seq<Byte> {
    match PlanOf(call.nr)
    case Read => Slice(mem, call.args[1], rval)
    case Pread => Slice(mem, call.args[1], rval)
    case GetRandom => Slice(mem, call.args[0], rval)
    case Poll => Slice(mem, call.args[0], PollBytes(call.args[1]))
    case Fstat => Slice(mem, call.args[2], SIZEOF_STAT)
    case _ => []
  }

  /** `nfds * sizeof(struct pollfd)` in `size_t` arithmetic. */
  function PollBytes(nfds: U64): (n: U64)
    ensures n % 8 == 0
  {
    assert TWO_64 % 8 == 0;
    var n := nfds * SIZEOF_POLLFD % TWO_64;
    assert n == nfds * 8 - TWO_64 * (nfds * 8 / TWO_64);
    n
  }

  /** The product is exact unless it wraps, and then it is a multiple of eight all the same. */
  lemma PollBytesWraps(nfds: U64)
    ensures PollBytes(nfds) % 8 == 0 && (PollBytes(nfds) - nfds * 8) % TWO_64 == 0
    ensures PollBytes(nfds) == nfds * 8 <==> nfds < 0x2000_0000_0000_0000
  {
    var q := nfds * 8 / TWO_64;
    assert PollBytes(nfds) - nfds * 8 == TWO_64 * -q;
    assert TWO_64 * -q % TWO_64 == 0;
  }
}
