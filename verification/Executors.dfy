/** What each executor does to a pair of variants stopped at the entry of the same
    call: the checks before anything runs, then the run itself. */
module Executors {
  import opened Words
  import opened Syscalls
  import opened Memory
  import opened Strings
  import opened Mappings
  import opened Tracees

  type Buffer = b: seq<Byte> | |b| == BUF_SIZE ghost witness seq(BUF_SIZE, _ => 0 as Byte)

  /** Both variants, the transfer buffer and the mapping table. */
  datatype Pair = Pair(m: V, r: V, buf: Buffer, table: seq<Mapping>)

  /** Whether the executor returned 0, and what it left. */
  datatype Verdict = Verdict(ok: bool, p: Pair)

  // ---------- the checks ----------

  predicate SameArgs(checked: seq<nat>, m: Info, r: Info) {
    forall i :: 0 <= i < 6 && i in checked ==> m.Arg(i) == r.Arg(i)
  }

  /** Master's argument read as an `int`, compared with the replica's register. */
  predicate SameInt(i: nat, m: Info, r: Info)
    requires i < 6
  {
    ToU64(ToInt(m.Arg(i))) == r.Arg(i)
  }

  /** The `socklen_t` that bind compares with. */
  function BindLen(m: Info): (n: nat) {
    m.Arg(2) % TWO_32
  }

  /** The executor's comparison of the two variants' arguments, `a` over master's
      memory `am` and `b` over the replica's `bm`. */
  ghost predicate ArgsAgree(plan: Plan, a: Info, am: seq<Byte>, b: Info, bm: seq<Byte>) {
    match plan
    case Resume(checked) => SameArgs(checked, a, b)
    case ResumeUnchecked(checked) => SameArgs(checked, a, b)
    case Replicate(checked) => SameArgs(checked, a, b)
    case CopyRet(checked) => SameArgs(checked, a, b)
    case Bind => SameArgs([0], a, b) && BindLen(a) == b.Arg(2) && BindLen(a) <= BUF_SIZE
                 && SameImage(am, a.Arg(1), bm, b.Arg(1), BindLen(a))
    case Read => SameInt(0, a, b) && SameArgs([2], a, b)
    case Pread => SameArgs([0, 2, 3], a, b)
    case GetRandom => SameArgs([1, 2], a, b)
    case Poll => SameArgs([1, 2], a, b) && PollBytes(a.Arg(1)) <= BUF_SIZE
                 && SameImage(am, a.Arg(0), bm, b.Arg(0), PollBytes(a.Arg(1)))
    case Fstat => SameArgs([0, 3], a, b) && PathAgrees(am, a.Arg(1), bm, b.Arg(1))
    case Mmap => SameArgs([1, 4, 5], a, b) && SameInt(2, a, b) && SameInt(3, a, b)
    case Munmap => SameArgs([1], a, b)
    case Mprotect => SameArgs([1], a, b) && SameInt(2, a, b)
    case Missing => false
    case NotModelled => false
  }

  /** `x & 2` on an `int`: both PROT_WRITE and MAP_PRIVATE are 2. */
  predicate Bit1(x: int) {
    x / 2 % 2 == 1
  }

  /** `checkMMapPerms(prot, flags) == 0` */
  predicate PermsAllowed(prot: int, flags: int) {
    !(Bit1(prot) && !Bit1(flags))
  }

  /** The executor's question to the mapping policy, asked of master's arguments. */
  predicate PolicyAllows(plan: Plan, m: Info, table: seq<Mapping>) {
    match plan
    case Mmap => PermsAllowed(ToInt(m.Arg(2)), ToInt(m.Arg(3)))
    case Munmap => UnmapAllowed(table, m.Arg(0))
    case Mprotect => ProtectAllowed(table, m.Arg(0), ToInt(m.Arg(2)))
    case _ => true
  }

  predicate UnmapAllowed(table: seq<Mapping>, target: U64) {
    var k := FindIndex(table, target);
    k < |table| && table[k].addr == target
  }

  predicate ProtectAllowed(table: seq<Mapping>, target: U64, prot: int) {
    var k := FindIndex(table, target);
    k < |table| ==> PermsAllowed(prot, table[k].flags)
  }

  /** The transfer buffer after the checks: the two that compare memory load it. */
  function CheckBuf(plan: Plan, p: Pair): Buffer {
    var a := p.m.info;
    if plan.Bind? && BindLen(a) <= BUF_SIZE then
      Loaded(p.m.t.mem, a.Arg(1), BindLen(a), p.buf)
    else if plan.Poll? && SameArgs([1, 2], a, p.r.info) && PollBytes(a.Arg(1)) <= BUF_SIZE then
      Loaded(p.m.t.mem, a.Arg(0), PollBytes(a.Arg(1)), p.buf)
    else
      p.buf
  }

  // ---------- the runs ----------

  function BothFromWait(p: Pair): Pair {
    p.(m := p.m.FromWait(), r := p.r.FromWait())
  }

  function BothFromExit(p: Pair): Pair {
    p.(m := p.m.FromExit(), r := p.r.FromExit())
  }

  /** `transferVariantMem(master, from, replica, to, size)` */
  function Copied(w: World, p: Pair, from: U64, to: U64, size: nat): Pair
    requires Transfers(size)
  {
    p.(r := p.r.WithMem(Transferred(p.m.t.mem, from, p.r.t.mem, to, size, p.buf, w.beyond)),
       buf := Loaded(p.m.t.mem, from, size, p.buf))
  }

  /** Resume master, wait for its exit stop, ask for its result. */
  function MasterRun(w: World, p: Pair): Verdict {
    var m := p.m.FromWait().Waited(w);
    if m.Left() then Verdict(false, p.(m := m)) else Verdict(true, p.(m := m.Informed()))
  }

  /** Resume the replica on the call in its registers and wait for its exit stop. */
  function ReplicaRun(w: World, p: Pair): Verdict {
    var r := p.r.FromWait().Waited(w);
    Verdict(!r.Left(), p.(r := r))
  }

  function ReplicaNop(w: World, p: Pair): Verdict {
    ReplicaRun(w, p.(r := p.r.WithNr(SYS_GETPID)))
  }

  function WithReplicaRax(p: Pair, rval: I64): Pair {
    p.(r := p.r.WithRax(rval))
  }

  /** `runMasterReplicateRet` and, where the replica makes its own call,
      `runBothCopyMasterRet` */
  function RunReturning(w: World, p: Pair, nop: bool): Verdict {
    var v1 := MasterRun(w, p);
    if !v1.ok then v1 else
    var v2 := if nop then ReplicaNop(w, v1.p) else ReplicaRun(w, v1.p);
    if !v2.ok then v2 else
    Verdict(true, BothFromExit(WithReplicaRax(v2.p, ToInt(v2.p.m.info.ExitValue()))))
  }

  function RunRead(w: World, p: Pair): Verdict {
    var v1 := MasterRun(w, p);
    if !v1.ok then v1 else
    var n := v1.p.m.info.ExitValue();
    if n != -1 && !Transfers(ToU64(n)) then Verdict(false, v1.p) else
    var q := if n != -1 then Copied(w, v1.p, p.m.info.Arg(1), p.r.info.Arg(1), ToU64(n)) else v1.p;
    var seek := q.(r := q.r.WithArgs(ToU64(ToInt(p.m.info.Arg(0))), ToU64(n), SEEK_CUR).WithNr(SYS_LSEEK));
    var v2 := ReplicaRun(w, seek);
    if !v2.ok then v2 else
    Verdict(true, BothFromExit(WithReplicaRax(v2.p, n)))
  }

  function RunPread(w: World, p: Pair): Verdict {
    var v1 := MasterRun(w, p);
    if !v1.ok then v1 else
    var n := v1.p.m.info.ExitValue();
    if !Transfers(ToU64(n)) then Verdict(false, v1.p) else
    var v2 := ReplicaNop(w, Copied(w, v1.p, p.m.info.Arg(1), p.r.info.Arg(1), ToU64(n)));
    if !v2.ok then v2 else
    Verdict(true, BothFromExit(WithReplicaRax(v2.p, n)))
  }

  /** Both leave the exit stop through `resumeVariantFromWait`: no number advances. */
  function RunGetRandom(w: World, p: Pair): Verdict {
    var v1 := MasterRun(w, p);
    if !v1.ok then v1 else
    var n := v1.p.m.info.ExitValue();
    if n != -1 && !Transfers(ToU64(n)) then Verdict(false, v1.p) else
    var q := if n != -1 then Copied(w, v1.p, p.m.info.Arg(0), p.r.info.Arg(0), ToU64(n)) else v1.p;
    var v2 := ReplicaNop(w, q);
    if !v2.ok then v2 else
    Verdict(true, BothFromWait(WithReplicaRax(v2.p, n)))
  }

  function RunPoll(w: World, p: Pair): Verdict {
    var v1 := MasterRun(w, p);
    if !v1.ok then v1 else
    var v2 := ReplicaNop(w, v1.p);
    if !v2.ok then v2 else
    var size := PollBytes(p.m.info.Arg(1));
    if !Transfers(size) then Verdict(false, v2.p) else
    var q := Copied(w, v2.p, p.m.info.Arg(0), p.r.info.Arg(0), size);
    Verdict(true, BothFromExit(WithReplicaRax(q, q.m.info.ExitValue())))
  }

  function RunFstat(w: World, p: Pair): Verdict {
    var v1 := MasterRun(w, p);
    if !v1.ok then v1 else
    var v2 := ReplicaNop(w, Copied(w, v1.p, p.m.info.Arg(2), p.r.info.Arg(2), SIZEOF_STAT));
    if !v2.ok then v2 else
    Verdict(true, BothFromExit(WithReplicaRax(v2.p, ToInt(v2.p.m.info.ExitValue()))))
  }

  /** Master finishes the call; the table gets an entry whose length is read from
      master's info after that was replaced by exit info; the replica runs on. */
  function RunMmap(w: World, p: Pair): Verdict {
    var v1 := MasterRun(w, p);
    if !v1.ok then v1 else
    var m := v1.p.m;
    var entry := Mapping(ToU64(m.info.ExitValue()), m.info.Arg(1), ToInt(p.m.info.Arg(2)), ToInt(p.m.info.Arg(3)));
    Verdict(true, v1.p.(m := m.FromExit(), table := p.table + [entry], r := p.r.FromWait()))
  }

  function RunMunmap(p: Pair): Verdict {
    Verdict(true, BothFromWait(p.(table := Removed(p.table, p.m.info.Arg(0)))))
  }

  function RunPlan(w: World, plan: Plan, p: Pair): Verdict {
    match plan
    case Resume(_) => Verdict(true, BothFromWait(p))
    case ResumeUnchecked(_) => Verdict(true, BothFromWait(p))
    case Replicate(_) => RunReturning(w, p, true)
    case CopyRet(_) => RunReturning(w, p, false)
    case Bind => RunReturning(w, p, true)
    case Read => RunRead(w, p)
    case Pread => RunPread(w, p)
    case GetRandom => RunGetRandom(w, p)
    case Poll => RunPoll(w, p)
    case Fstat => RunFstat(w, p)
    case Mmap => RunMmap(w, p)
    case Munmap => RunMunmap(p)
    case Mprotect => Verdict(true, BothFromWait(p))
    case Missing => Verdict(false, p)
    case NotModelled => Verdict(false, p)
  }

  ghost predicate Passes(plan: Plan, p: Pair) {
    ArgsAgree(plan, p.m.info, p.m.t.mem, p.r.info, p.r.t.mem) && PolicyAllows(plan, p.m.info, p.table)
  }

  /** An executor: check, then run; fadvise64 and rseq run first. */
  ghost function Execute(w: World, plan: Plan, p: Pair): Verdict {
    var q := p.(buf := CheckBuf(plan, p));
    if plan.ResumeUnchecked? then Verdict(Passes(plan, p), BothFromWait(q))
    else if !Passes(plan, p) then Verdict(false, q)
    else RunPlan(w, plan, q)
  }
}
