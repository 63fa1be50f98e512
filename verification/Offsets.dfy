/** File positions: the replica never reads a file itself; its position follows
    master's because the executor of read makes it seek by what master read. */
module Offsets {
  import opened Words
  import opened Syscalls
  import opened Memory
  import opened Tracees
  import opened Executors
  import opened Effects
  import opened Lockstep
  import opened Runs

  const EINVAL := 22
  const EOVERFLOW := 75

  /** The kernel looks at the low half of a file descriptor register. */
  function Fd(reg: U64): nat {
    reg % TWO_32
  }

  /** The position of file `fd` after the calls a variant has completed, starting from
      `start`: read moves it by what was read, lseek sets it to what it returned. */
  function Position(start: nat, done: seq<Done>, fd: nat): (p: nat) {
    if done == [] then start
    else
      var d, before := done[|done| - 1], Position(start, done[..|done| - 1], fd);
      if d.call.nr == SYS_READ && Fd(d.call.args[0]) == fd && d.rval >= 0 then before + d.rval
      else if d.call.nr == SYS_LSEEK && Fd(d.call.args[0]) == fd && d.rval >= 0 then d.rval
      else before
  }

  /** What lseek returns on a regular file of this size, from this position. */
  function SeekResult(position: nat, size: nat, call: Call): I64 {
    var offset := ToI64(call.args[1]);
    var target :=
      if call.args[2] == 0 then offset
      else if call.args[2] == SEEK_CUR then position + offset
      else if call.args[2] == 2 then size + offset
      else -1;
    if target < 0 then -EINVAL else if target < TWO_63 then target else -EOVERFLOW
  }

  /** File `fd` is a regular file that each variant opened for itself: each kernel keeps
      the position that its variant's completed calls make, over a file whose size does
      not change; read never fails with -1 nor moves the position past the largest one. */
  ghost predicate RegularFile(w: World, fd: nat, start: nat, size: nat) {
    && (forall role: Role, done: seq<Done>, call: Call, mem: seq<Byte> ::
        SeeksAt(w, fd, start, size, role, done, call, mem))
    && (forall done: seq<Done>, call: Call, mem: seq<Byte> :: ReadsAt(w, fd, start, done, call, mem))
  }

  ghost predicate SeeksAt(w: World, fd: nat, start: nat, size: nat, role: Role, done: seq<Done>, call: Call,
                          mem: seq<Byte>)
  {
    var k := w.kernel(role, done, call, mem);
    call.nr == SYS_LSEEK && Fd(call.args[0]) == fd ==>
      k.Returns? && k.rval == SeekResult(Position(start, done, fd), size, call)
  }

  ghost predicate ReadsAt(w: World, fd: nat, start: nat, done: seq<Done>, call: Call, mem: seq<Byte>) {
    var k := w.kernel(Master, done, call, mem);
    call.nr == SYS_READ && Fd(call.args[0]) == fd && k.Returns? ==>
      k.rval != -1 && (k.rval >= 0 ==> Position(start, done, fd) + k.rval < TWO_63)
  }

  /** Equal positions in file `fd`. */
  predicate SamePosition(start: nat, fd: nat, dm: seq<Done>, dr: seq<Done>) {
    Position(start, dm, fd) == Position(start, dr, fd)
  }

  lemma PositionStep(start: nat, done: seq<Done>, d: Done, fd: nat)
    ensures Position(start, done + [d], fd) ==
      if d.call.nr == SYS_READ && Fd(d.call.args[0]) == fd && d.rval >= 0 then Position(start, done, fd) + d.rval
      else if d.call.nr == SYS_LSEEK && Fd(d.call.args[0]) == fd && d.rval >= 0 then d.rval
      else Position(start, done, fd)
  {
    var all := done + [d];
    assert all[..|all| - 1] == done;
  }

  /** The executor of read keeps the positions together exactly when the result is not
      the -1 it takes for "nothing read": with -1 the replica still seeks, by one byte
      back, unless it stands at the start. */
  lemma ReadKeepsPositionsIff(start: nat, dm: seq<Done>, dr: seq<Done>, own: Call, stand: Call, size: nat, n: I64)
    requires own.nr == SYS_READ && n >= -1
    requires stand == Call(SYS_LSEEK, [ToU64(ToInt(own.args[0])), ToU64(n), SEEK_CUR] + stand.args[3..])
    requires Position(start, dm, Fd(own.args[0])) == Position(start, dr, Fd(own.args[0])) < TWO_63 - n
    ensures var fd := Fd(own.args[0]);
      var p := Position(start, dm, fd);
      Position(start, dm + [Done(own, n)], fd) == Position(start, dr + [Done(stand, SeekResult(p, size, stand))], fd)
      <==> n != -1 || p == 0
  {
    hide ToU64, ToI64, ToInt, Fd, Position;
    SameFd(own.args[0]);
    RegisterRoundTrip(n);
    var fd := Fd(own.args[0]);
    var p := Position(start, dm, fd);
    PositionStep(start, dm, Done(own, n), fd);
    PositionStep(start, dr, Done(stand, SeekResult(p, size, stand)), fd);
  }

  /** Narrowing a descriptor to `int` and back keeps what the kernel looks at. */
  lemma SameFd(reg: U64)
    ensures Fd(ToU64(ToInt(reg))) == Fd(reg)
  {
    var i := ToInt(reg);
    assert (i - reg) % TWO_32 == 0;
    assert (ToU64(i) - i) % TWO_64 == 0;
  }

  // ---------- runs ----------

  lemma PlansOfFiles(nr: nat)
    ensures nr == SYS_READ <==> PlanOf(nr) == Plan.Read
    ensures nr == SYS_LSEEK ==> PlanOf(nr) == Resume([0, 1, 2])
  {
  }

  lemma FilesLaw(w: World, fd: nat, start: nat, size: nat, done: seq<Done>, call: Call, mem: seq<Byte>)
    requires RegularFile(w, fd, start, size)
    ensures ReadsAt(w, fd, start, done, call, mem)
  {
  }

  lemma SeekLaw(w: World, fd: nat, start: nat, size: nat, done: seq<Done>, call: Call, mem: seq<Byte>)
    requires RegularFile(w, fd, start, size)
    ensures forall role: Role :: SeeksAt(w, fd, start, size, role, done, call, mem)
  {
  }

  /** Every other negative result makes the transfer fail. */
  lemma TooBig(n: I64)
    ensures n < 0 ==> !Transfers(ToU64(n))
  {
    RegisterRoundTrip(n);
  }

  /** A read that goes ahead moves both positions alike. */
  lemma ReadMovesAlike(w: World, fd: nat, start: nat, size: nat, p: Pair)
    requires AtEntries(p) && p.m.t.regs.nr == SYS_READ && p.m.t.role == Master && p.r.t.role == Replica
    requires RegularFile(w, fd, start, size) && SamePosition(start, fd, p.m.t.done, p.r.t.done)
    requires Execute(w, Plan.Read, p).ok
    ensures var q := Execute(w, Plan.Read, p).p; SamePosition(start, fd, q.m.t.done, q.r.t.done)
  {
    hide Execute, Transferred, CopyInto, Passes, CheckBuf, OutBuffer, RegularFile, SameInt, Position, SeekResult, Fd;
    hide ToU64, ToInt;
    var q := Execute(w, Plan.Read, p).p;
    ExecuteEffect(w, Plan.Read, p);
    ExecuteData(w, Plan.Read, p);
    var own, n := p.m.t.regs, LastResult(q.m);
    var stand, back := ReplicaCall(Plan.Read, p.r.t.regs, own.args[0], n), LastResult(q.r);
    assert q.m.t.done == p.m.t.done + [Done(own, n)] && q.r.t.done == p.r.t.done + [Done(stand, back)];
    SameFd(own.args[0]);
    PositionStep(start, p.m.t.done, Done(own, n), fd);
    PositionStep(start, p.r.t.done, Done(stand, back), fd);
    if Fd(own.args[0]) == fd {
      TooBig(n);
      FilesLaw(w, fd, start, size, p.m.t.done, own, p.m.t.mem);
      var kmem := CopyInto(w, Plan.Read, p.(buf := CheckBuf(Plan.Read, p)), MasterOutcome(w, p).mem, p.r.t.mem, n);
      SeekLaw(w, fd, start, size, p.r.t.done, stand, kmem);
      assert SeeksAt(w, fd, start, size, Replica, p.r.t.done, stand, kmem);
      SeekOver(Position(start, p.r.t.done, fd), size, n, stand);
    }
  }

  /** Seeking by what was read goes where the read went. */
  lemma SeekOver(position: nat, size: nat, n: I64, call: Call)
    requires 0 <= n && position + n < TWO_63 && call.args[1] == ToU64(n) && call.args[2] == SEEK_CUR
    ensures SeekResult(position, size, call) == position + n
  {
    RegisterRoundTrip(n);
  }

  /** An lseek both variants run on their own sets both positions alike. */
  lemma SeekMovesAlike(w: World, fd: nat, start: nat, size: nat, p: Pair, q: Pair)
    requires AtEntries(p) && p.m.t.regs.nr == p.r.t.regs.nr == SYS_LSEEK && SameArgs([0, 1, 2], p.m.info, p.r.info)
    requires RegularFile(w, fd, start, size) && SamePosition(start, fd, p.m.t.done, p.r.t.done)
    requires Started(p.m, q.m) && Started(p.r, q.r)
    ensures SamePosition(start, fd, Settled(w, q.m), Settled(w, q.r))
  {
    hide RegularFile, Position, Fd, ToI64;
    var m, r := p.m.t, p.r.t;
    assert 0 in [0, 1, 2] && 1 in [0, 1, 2] && 2 in [0, 1, 2];
    OwnSeek(w, fd, start, size, m);
    OwnSeek(w, fd, start, size, r);
  }

  /** Where file `fd` stands once a variant's own lseek has returned. */
  lemma OwnSeek(w: World, fd: nat, start: nat, size: nat, t: Tracee)
    requires RegularFile(w, fd, start, size) && t.regs.nr == SYS_LSEEK
    ensures var p, k := Position(start, t.done, fd), w.kernel(t.role, t.done, t.regs, t.mem);
      && (Fd(t.regs.args[0]) == fd ==> k.Returns?)
      && (k.Returns? ==>
            Position(start, t.done + [Done(t.regs, k.rval)], fd) ==
            if Fd(t.regs.args[0]) == fd && SeekResult(p, size, t.regs) >= 0 then SeekResult(p, size, t.regs) else p)
  {
    hide RegularFile, Position, Fd, SeekResult;
    SeekLaw(w, fd, start, size, t.done, t.regs, t.mem);
    assert SeeksAt(w, fd, start, size, t.role, t.done, t.regs, t.mem);
    var k := w.kernel(t.role, t.done, t.regs, t.mem);
    if k.Returns? {
      PositionStep(start, t.done, Done(t.regs, k.rval), fd);
    }
  }

  /** A variant that ran, or is running, a call other than read and lseek stays put. */
  lemma OtherStaysPut(w: World, fd: nat, start: nat, v: V, v': V, call: Call, told: I64, counted: nat)
    requires call.nr != SYS_READ && call.nr != SYS_LSEEK
    requires Completed(v, v', call, told, counted) || (Started(v, v') && v.t.regs == call)
    ensures SamePosition(start, fd, v.t.done, Settled(w, v'))
  {
    hide Position, OutBuffer;
    if Completed(v, v', call, told, counted) {
      PositionStep(start, v.t.done, Done(call, LastResult(v')), fd);
    } else {
      match w.kernel(v.t.role, v.t.done, v.t.regs, v.t.mem)
      case Returns(k, _) => PositionStep(start, v.t.done, Done(call, k), fd);
      case Dies =>
    }
  }

  lemma SyncMovesAlike(w: World, fd: nat, start: nat, size: nat, c: Config)
    requires Ready(w, c) && SyncStep(w, c).Live?
    requires RegularFile(w, fd, start, size) && SamePosition(start, fd, c.p.m.t.done, c.p.r.t.done)
    ensures var q := SyncStep(w, c).c.p; SamePosition(start, fd, Settled(w, q.m), Settled(w, q.r))
  {
    hide SyncStep, Execute, PlanOf, Completed, Started, RegularFile, OutBuffer, ReplicaTold, PolicyAllows, Position;
    SyncEffect(w, c);
    var q, nr := SyncStep(w, c).c.p, c.p.m.t.asked.nr;
    var plan := PlanOf(nr);
    PlansOfFiles(nr);
    if nr == SYS_READ {
      ReadMovesAlike(w, fd, start, size, c.p);
      CompletedSettles(w, c.p.m, q.m, q.r, c.p.r);
    } else if nr == SYS_LSEEK {
      SeekMovesAlike(w, fd, start, size, c.p, q);
    } else {
      var result := LastResult(q.m);
      var call := if Resumes(plan) || plan.Mmap? then c.p.r.t.regs
        else ReplicaCall(plan, c.p.r.t.regs, c.p.m.info.Arg(0), result);
      OtherStaysPut(w, fd, start, c.p.m, q.m, c.p.m.t.regs, result, Counted(plan));
      OtherStaysPut(w, fd, start, c.p.r, q.r, call, ReplicaTold(plan, result), Counted(plan));
    }
  }

  lemma CompletedSettles(w: World, m: V, m': V, r': V, r: V)
    requires exists call: Call, told: I64, counted: nat :: Completed(m, m', call, told, counted)
    requires exists call: Call, told: I64, counted: nat :: Completed(r, r', call, told, counted)
    ensures Settled(w, m') == m'.t.done && Settled(w, r') == r'.t.done
  {
  }

  /** The invariant: once the calls in flight have returned, the positions agree. */
  lemma StepMovesAlike(w: World, fd: nat, start: nat, size: nat, c: Config, who: Role)
    requires Inv(w, c) && Enabled(c, who) && Step(w, c, who).Live?
    requires RegularFile(w, fd, start, size) && SamePosition(start, fd, Settled(w, c.p.m), Settled(w, c.p.r))
    ensures var q := Step(w, c, who).c.p; SamePosition(start, fd, Settled(w, q.m), Settled(w, q.r))
  {
    hide Step, SyncStep, OutBuffer, RegularFile, SamePosition;
    if c.Of(who).t.phase.InKernel? {
      ExitEvent(w, c, who);
    } else if !c.Of(who.Other()).t.phase.AtEntry? {
      EntryEvent(w, c, who);
    } else {
      ArrivalEvent(w, c, who);
      var s := AtStop(w, c, who);
      assert s.Of(Master).t.done == c.Of(Master).t.done && s.Of(Replica).t.done == c.Of(Replica).t.done;
      SyncMovesAlike(w, fd, start, size, s);
    }
  }

  lemma {:induction false} RunMovesAlike(w: World, fd: nat, start: nat, size: nat, c: Config, schedule: seq<Role>)
    requires Inv(w, c) && Schedules(w, Live(c), schedule) && Run(w, Live(c), schedule).Live?
    requires RegularFile(w, fd, start, size) && SamePosition(start, fd, Settled(w, c.p.m), Settled(w, c.p.r))
    ensures var q := Run(w, Live(c), schedule).c.p; SamePosition(start, fd, Settled(w, q.m), Settled(w, q.r))
    decreases |schedule|
  {
    hide Step, Inv, RegularFile, SamePosition, Settled;
    if schedule != [] {
      StepKeepsInv(w, c, schedule[0]);
      StepMovesAlike(w, fd, start, size, c, schedule[0]);
      RunMovesAlike(w, fd, start, size, Step(w, c, schedule[0]).c, schedule[1..]);
    }
  }

  /** Whenever neither variant is in the kernel, the two have the same position in a
      regular file that each has opened for itself: under every schedule, for any
      programs, whatever else they have open. */
  lemma PositionsAgree(w: World, fd: nat, start: nat, size: nat, c: Config, schedule: seq<Role>)
    requires Initial(c) && Schedules(w, Live(c), schedule) && Run(w, Live(c), schedule).Live?
    requires RegularFile(w, fd, start, size)
    requires var q := Run(w, Live(c), schedule).c.p; !q.m.t.phase.InKernel? && !q.r.t.phase.InKernel?
    ensures var q := Run(w, Live(c), schedule).c.p;
      Position(start, q.m.t.done, fd) == Position(start, q.r.t.done, fd)
  {
    hide Run, Schedules, RegularFile, Position;
    RunMovesAlike(w, fd, start, size, c, schedule);
  }

  // ---------- one open file behind both variants ----------

  /** The calls on a file that both variants inherited act on one position.  After a read
      of `n` bytes has gone ahead, the replica's seek has moved that position on by `n`
      again, so it is where the unmonitored read would have left it exactly when nothing
      was read; otherwise master's next read skips `n` bytes. */
  lemma InheritedReadIff(w: World, start: nat, size: nat, all: seq<Done>, p: Pair, q: Pair, read: Done, seek: Done)
    requires AtEntries(p) && p.m.t.regs.nr == SYS_READ && Execute(w, Plan.Read, p) == Verdict(true, q)
    requires q.m.t.done == p.m.t.done + [read] && q.r.t.done == p.r.t.done + [seek]
    requires var fd := Fd(p.m.t.regs.args[0]);
      && 0 <= read.rval && Position(start, all, fd) + 2 * read.rval < TWO_63
      && seek.rval == SeekResult(Position(start, all + [read], fd), size, seek.call)
    ensures var fd, n := Fd(p.m.t.regs.args[0]), read.rval;
      && Position(start, all + [read] + [seek], fd) == Position(start, all, fd) + n + n
      && (Position(start, all + [read] + [seek], fd) == Position(start, all + [read], fd) <==> n == 0)
  {
    hide Execute, Passes, CheckBuf, OutBuffer, SameInt, Position, SeekResult, Fd, ToU64, ToInt;
    var own, n := p.m.t.regs, read.rval;
    var fd := Fd(own.args[0]);
    ExecuteEffect(w, Plan.Read, p);
    assert q.m.t.done[|p.m.t.done|] == read && q.r.t.done[|p.r.t.done|] == seek;
    assert seek.call == ReplicaCall(Plan.Read, p.r.t.regs, own.args[0], n);
    SameFd(own.args[0]);
    PositionStep(start, all, read, fd);
    PositionStep(start, all + [read], seek, fd);
    SeekOver(Position(start, all + [read], fd), size, n, seek.call);
  }

  /** Where an lseek leaves a file. */
  function Sought(position: nat, size: nat, call: Call): nat {
    var p := SeekResult(position, size, call);
    if p >= 0 then p else position
  }

  /** An lseek that both run on an inherited file leaves it where one would, exactly when
      the second one changes nothing: it fails, is not relative, or goes nowhere. */
  lemma InheritedSeekIff(position: nat, size: nat, call: Call)
    ensures var once := Sought(position, size, call);
      Sought(once, size, call) == once
      <==> SeekResult(once, size, call) < 0 || call.args[2] != SEEK_CUR || call.args[1] == 0
  {
  }
}
