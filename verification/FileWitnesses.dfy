/** Two copies of one program at work on files: some that read and seek for ever, some that
    one failed read ends. */
module FileWitnesses {
  import opened Words
  import opened Syscalls
  import opened Tracees
  import opened Effects
  import opened Lockstep
  import opened Ledger
  import opened Runs
  import opened Native
  import opened Offsets
  import opened Transparency
  import opened Memory

  const FD: U64 := 3
  const FILE_SIZE := 40
  const COUNT: U64 := 16

  /** A file of forty sevens: what a read of `count` bytes returns from this position. */
  function ReadResult(position: nat, count: U64): I64 {
    if position >= FILE_SIZE then if position < TWO_63 then 0 else -EINVAL
    else if count < FILE_SIZE - position then count else FILE_SIZE - position
  }

  function Sevens(n: nat): (s: seq<Byte>)
    ensures |s| == n
  {
    seq(n, i requires 0 <= i < n => 7 as Byte)
  }

  function Filled(mem: seq<Byte>, addr: nat, n: int): (r: seq<Byte>)
    ensures |r| == |mem|
  {
    if 0 <= n && addr + n <= |mem| then mem[..addr] + Sevens(n) + mem[addr + n..] else mem
  }

  /** A kernel that keeps the position of every file. */
  function FileKernel(role: Role, done: seq<Done>, call: Call, mem: seq<Byte>): Outcome {
    var p := Position(0, done, Fd(call.args[0]));
    if call.nr == SYS_READ then
      var n := ReadResult(p, call.args[2]);
      Returns(n, Filled(mem, call.args[1], n))
    else if call.nr == SYS_LSEEK then Returns(SeekResult(p, FILE_SIZE, call), mem)
    else Returns(0, mem)
  }

  /** The two copies keep their buffers at different addresses. */
  function BufferOf(who: Role): U64 {
    if who == Master then 0 else COUNT
  }

  const ZEROS: seq<Byte> :=
      [0, 0, 0, 0, 0, 0, 0, 0, 0, 0, 0, 0, 0, 0, 0, 0, 0, 0, 0, 0, 0, 0, 0, 0, 0, 0, 0, 0, 0, 0, 0, 0]

  /** Read sixteen bytes, go back eight, and so on for ever. */
  function ReadAndSeek(who: Role, h: seq<Obs>): Request {
    if |h| % 2 == 0 then Request(Call(SYS_READ, [FD, BufferOf(who), COUNT, 0, 0, 0]), ZEROS)
    else Request(Call(SYS_LSEEK, [FD, ToU64(-8), SEEK_CUR, 0, 0, 0]), ZEROS)
  }

  function FileWorld(): World {
    World((who, h) => ReadAndSeek(who, h), (who, done, call, mem) => FileKernel(who, done, call, mem), i => 0)
  }

  lemma FileKernelIsRegular(fd: nat)
    ensures RegularFile(FileWorld(), fd, 0, FILE_SIZE)
  {
    hide SeekResult, Position, Fd, Filled;
    var w := FileWorld();
    forall role: Role, done: seq<Done>, call: Call, mem: seq<Byte>
      ensures SeeksAt(w, fd, 0, FILE_SIZE, role, done, call, mem)
    {
    }
    forall done: seq<Done>, call: Call, mem: seq<Byte> ensures ReadsAt(w, fd, 0, done, call, mem) {
    }
  }

  /** Where the file stands: the same place for both kernels, at a multiple of eight. */
  ghost predicate SamePlace(dm: seq<Done>, dr: seq<Done>) {
    Position(0, dm, FD) == Position(0, dr, FD) && Position(0, dm, FD) % 8 == 0 && Position(0, dm, FD) <= FILE_SIZE
  }

  lemma SeekBack(p: nat)
    requires p <= FILE_SIZE
    ensures SeekResult(p, FILE_SIZE, Call(SYS_LSEEK, [FD, ToU64(-8), SEEK_CUR, 0, 0, 0])) ==
      if p >= 8 then p - 8 else -EINVAL
  {
    RegisterRoundTrip(-8);
  }

  lemma BehindLengths(h: seq<Obs>, dm: seq<Done>, dr: seq<Done>)
    requires Behind(FileWorld(), h, dm, dr)
    ensures |h| == |dm| == |dr|
  {
  }

  /** The calls that can be behind the copies keep the two positions together. */
  lemma {:induction false} BehindSamePlace(h: seq<Obs>, dm: seq<Done>, dr: seq<Done>, k: nat)
    requires Behind(FileWorld(), h, dm, dr) && k <= |h|
    ensures SamePlace(dm[..k], dr[..k])
    decreases k
  {
    hide Behind, SeekResult, Position, SamePlace, Filled;
    if k > 0 {
      BehindSamePlace(h, dm, dr, k - 1);
      OneMoreInPlace(h, dm, dr, k - 1);
    } else {
      NowhereYet(dm[..0], dr[..0]);
    }
  }

  lemma NowhereYet(dm: seq<Done>, dr: seq<Done>)
    requires dm == [] == dr
    ensures SamePlace(dm, dr)
  {
  }

  /** The last of `k + 1` calls, in master's kernel and in the replica's. */
  lemma LastCalls(h: seq<Obs>, dm: seq<Done>, dr: seq<Done>, k: nat)
    requires Behind(FileWorld(), h, dm, dr) && k < |h|
    ensures var n := ReadResult(Position(0, dm[..k], FD), COUNT);
      && dm[k].call == ReadAndSeek(Master, h[..k]).call
      && dr[k].call == (if k % 2 == 0 then Call(SYS_LSEEK, [FD, ToU64(dm[k].rval), SEEK_CUR] + [0, 0, 0])
          else dm[k].call)
      && (k % 2 == 0 ==> dm[k].rval == n)
      && (k % 2 == 1 ==> dm[k].rval == SeekResult(Position(0, dm[..k], FD), FILE_SIZE, dm[k].call))
      && dr[k].rval == SeekResult(Position(0, dr[..k], FD), FILE_SIZE, dr[k].call)
  {
    hide SeekResult, Position, Filled, OutBuffer, ToU64, ToInt;
    var w := FileWorld();
    assert LivedCall(w, Master, h, dm, k) && AnsweredCall(w, Replica, dr, k) && StoodIn(w, h, dm, dr, k);
    var call: Call, mem: seq<Byte> :| AnsweredOn(w, Replica, dr[..k], dr[..k + 1], call, mem);
    assert dr[..k + 1] == dr[..k] + [dr[k]];
    assert dr[..k + 1][k] == Done(call, w.kernel(Replica, dr[..k], call, mem).rval);
    Small(3);
  }

  lemma OneMoreInPlace(h: seq<Obs>, dm: seq<Done>, dr: seq<Done>, k: nat)
    requires Behind(FileWorld(), h, dm, dr) && k < |h| && SamePlace(dm[..k], dr[..k])
    ensures SamePlace(dm[..k + 1], dr[..k + 1])
  {
    hide SeekResult, Position, Filled, Behind, ToU64;
    BehindLengths(h, dm, dr);
    LastCalls(h, dm, dr, k);
    assert dm[..k + 1] == dm[..k] + [dm[k]] && dr[..k + 1] == dr[..k] + [dr[k]];
    PositionStep(0, dm[..k], dm[k], FD);
    PositionStep(0, dr[..k], dr[k], FD);
    var p := Position(0, dm[..k], FD);
    if k % 2 == 0 {
      SeekOver(p, FILE_SIZE, dm[k].rval, dr[k].call);
    } else {
      SeekBack(p);
    }
  }

  lemma ReadsFit(h: seq<Obs>, dm: seq<Done>, dr: seq<Done>)
    requires |h| % 2 == 0 && SamePlace(dm, dr)
    ensures CopiesAfter(FileWorld(), h, dm, dr)
  {
    hide SeekResult, Position, Filled, ToU64, ToInt;
    var w := FileWorld();
    var q, q' := w.prog(Master, h), w.prog(Replica, h);
    Small(3);
    assert PlanOf(SYS_READ) == Plan.Read;
    var n := ReadResult(Position(0, dm, Fd(FD)), COUNT);
    Small(n);
    assert n % 8 == 0 && 0 <= n <= 16;
    var call := ReplicaCall(Plan.Read, q'.call, FD, n);
    forall mem: seq<Byte> ensures QuietAt(w, dr, call, mem) {
    }
  }

  lemma SeeksFit(h: seq<Obs>, dm: seq<Done>, dr: seq<Done>)
    requires |h| % 2 == 1 && SamePlace(dm, dr)
    ensures CopiesAfter(FileWorld(), h, dm, dr)
  {
    hide SeekResult, Position, Filled, ToU64, ToInt;
    assert PlanOf(SYS_LSEEK) == Resume([0, 1, 2]);
  }

  /** Copies with kernels that keep state exist: two programs that read a file and seek in
      it for ever meet the hypothesis of transparency and that of equal positions. */
  lemma ReadersAndSeekersExist()
    ensures TwoCopies(FileWorld()) && forall fd: nat :: RegularFile(FileWorld(), fd, 0, FILE_SIZE)
  {
    hide CopiesAfter, Behind, SamePlace, RegularFile;
    forall fd: nat ensures RegularFile(FileWorld(), fd, 0, FILE_SIZE) {
      FileKernelIsRegular(fd);
    }
    forall h: seq<Obs>, dm: seq<Done>, dr: seq<Done> | Behind(FileWorld(), h, dm, dr)
      ensures CopiesAfter(FileWorld(), h, dm, dr)
    {
      BehindLengths(h, dm, dr);
      BehindSamePlace(h, dm, dr, |h|);
      assert dm[..|h|] == dm && dr[..|h|] == dr;
      if |h| % 2 == 0 {
        ReadsFit(h, dm, dr);
      } else {
        SeeksFit(h, dm, dr);
      }
    }
  }

  // ---------- copies that a read kills ----------

  /** Both programs read, and the kernels answer every call with `n`. */
  function AnsweringWorld(n: I64): World {
    World(
      (who, h) => Request(Call(SYS_READ, [FD, 0, COUNT, 0, 0, 0]), []),
      (who, done, call, mem) => Returns(n, mem),
      i => 0)
  }

  /** Every result of read but -1 and the sizes up to the buffer's kills two copies: a bad
      descriptor or an interrupted read, a read of sixteen megabytes. */
  lemma FailedReadKills(n: I64, c: Config)
    requires Initial(c) && (n < -1 || n > BUF_SIZE)
    ensures TwoCopies(AnsweringWorld(n))
    ensures exists schedule, s :: Reaches(AnsweringWorld(n), c, schedule, s) && s.Killed?
  {
    hide Behind, ToU64, ToInt, Reaches;
    var w := AnsweringWorld(n);
    Small(3);
    assert PlanOf(SYS_READ) == Plan.Read;
    CountFits(Plan.Read, Entry(w.prog(Master, []).call), n);
    forall h: seq<Obs>, dm: seq<Done>, dr: seq<Done> | Behind(w, h, dm, dr) ensures CopiesAfter(w, h, dm, dr) {
      var q, q' := w.prog(Master, h), w.prog(Replica, h);
      assert SameCall(q, q') && !LetThrough(w, q, dm);
      forall mem: seq<Byte> ensures QuietAt(w, dr, ReplicaCall(Plan.Read, q'.call, FD, n), mem) {
      }
    }
    assert MeetsBarrier(w, [], []);
    CopiesKilledIff(w, c);
  }
}
