/** Two copies of one program run under the monitor as one copy would run without it:
    they are never killed, and the replica is told what master is told. */
module Transparency {
  import opened Words
  import opened Syscalls
  import opened Memory
  import opened Strings
  import opened Tracees
  import opened Executors
  import opened Effects
  import opened Lockstep
  import opened Ledger
  import opened Runs
  import opened Native

  // ---------- two copies of one program ----------

  /** Both run the call on their own, wherever it is. */
  predicate RunsAlone(plan: Plan) {
    plan.Resume? || plan.ResumeUnchecked?
  }

  /** The plans whose results can reach both programs alike. */
  predicate Shared(plan: Plan) {
    RunsAlone(plan) || plan.Replicate? || plan.CopyRet? || plan.Bind? || HandsData(plan)
  }

  /** The argument registers that hold plain values rather than addresses. */
  function Scalars(plan: Plan): seq<nat> {
    match plan
    case Resume(checked) => checked
    case ResumeUnchecked(checked) => checked
    case Replicate(checked) => checked
    case CopyRet(checked) => checked
    case Bind => [0, 2]
    case Read => [0, 2]
    case Pread => [0, 2, 3]
    case GetRandom => [1, 2]
    case Poll => [1, 2]
    case Fstat => [0, 3]
    case _ => []
  }

  /** The same `n` mapped bytes at two addresses of two memories. */
  ghost predicate SameBytes(mem1: seq<Byte>, addr1: nat, mem2: seq<Byte>, addr2: nat, n: nat) {
    && addr1 + Footprint(n) <= |mem1| && addr2 + Footprint(n) <= |mem2|
    && mem1[addr1..addr1 + n] == mem2[addr2..addr2 + n]
  }

  /** The same C string, shorter than the scan's limit. */
  ghost predicate SamePath(mem1: seq<Byte>, path1: nat, mem2: seq<Byte>, path2: nat) {
    exists k: nat :: k < PATH_LIMIT && EndsAt(mem1, path1, k) && EndsAt(mem2, path2, k)
        && SameImage(mem1, path1, mem2, path2, k)
  }

  /** Both copies make the same call: equal plain arguments and equal input data, at
      addresses that may differ. */
  ghost predicate SameCall(q: Request, q': Request) {
    && q.Request? && q'.Request? && q.call.nr == q'.call.nr
    && var plan, a, b := PlanOf(q.call.nr), q.call.args, q'.call.args;
       && Shared(plan)
       && (forall i :: 0 <= i < 6 && i in Scalars(plan) ==> a[i] == b[i])
       && (plan.Bind? && a[2] <= BUF_SIZE ==> SameBytes(q.mem, a[1], q'.mem, b[1], a[2]))
       && (plan.Poll? && PollBytes(a[1]) <= BUF_SIZE ==> SameBytes(q.mem, a[0], q'.mem, b[0], PollBytes(a[1])))
       && (plan.Fstat? ==> SamePath(q.mem, a[1], q'.mem, b[1]))
  }

  /** What the checks demand even of equal arguments: a descriptor of read survives the
      `int` it goes through, a bind address and a poll array fit the monitor's buffer. */
  predicate ArgsFit(plan: Plan, args: Args) {
    && (plan.Read? ==> ToU64(ToInt(args[0])) == args[0])
    && (plan.Bind? ==> args[2] <= BUF_SIZE)
    && (plan.Poll? ==> PollBytes(args[1]) <= BUF_SIZE)
  }

  /** The executor's checks accept two copies of a call exactly when its arguments fit. */
  lemma CopiesAgreeIff(q: Request, q': Request)
    requires SameCall(q, q')
    ensures var plan := PlanOf(q.call.nr);
      ArgsAgree(plan, Entry(q.call), q.mem, Entry(q'.call), q'.mem) <==> ArgsFit(plan, q.call.args)
  {
    hide PollBytes, SameImage, PathAgrees, PlanOf, ToU64, ToInt, SamePath, SameBytes;
    var plan, a, b := PlanOf(q.call.nr), q.call.args, q'.call.args;
    match plan
    case Bind =>
      if a[2] <= BUF_SIZE {
        SameBytesImage(q.mem, a[1], q'.mem, b[1], a[2]);
      }
    case Poll =>
      if PollBytes(a[1]) <= BUF_SIZE {
        SameBytesImage(q.mem, a[0], q'.mem, b[0], PollBytes(a[1]));
      }
    case Fstat => SamePathAgrees(q.mem, a[1], q'.mem, b[1]);
    case _ =>
  }

  lemma SameBytesImage(mem1: seq<Byte>, addr1: nat, mem2: seq<Byte>, addr2: nat, n: nat)
    requires SameBytes(mem1, addr1, mem2, addr2, n)
    ensures SameImage(mem1, addr1, mem2, addr2, n)
  {
    SameImageMapped(mem1, addr1, mem2, addr2, n);
  }

  lemma SamePathAgrees(mem1: seq<Byte>, path1: nat, mem2: seq<Byte>, path2: nat)
    requires SamePath(mem1, path1, mem2, path2)
    ensures PathAgrees(mem1, path1, mem2, path2)
  {
    var k: nat :| k < PATH_LIMIT && EndsAt(mem1, path1, k) && EndsAt(mem2, path2, k)
        && SameImage(mem1, path1, mem2, path2, k);
    PathLenIs(mem1, path1, k);
  }

  // ---------- what the kernels answer ----------

  /** The calls that stand in for the replica's own leave its memory alone. */
  ghost predicate Quiet(w: World, done: seq<Done>, call: Call) {
    forall mem: seq<Byte> :: QuietAt(w, done, call, mem)
  }

  ghost predicate QuietAt(w: World, done: seq<Done>, call: Call, mem: seq<Byte>) {
    var k := w.kernel(Replica, done, call, mem);
    k.Returns? && k.mem == mem
  }

  /** For the calls that return a byte count: it is not negative, and not too large. */
  lemma CountFits(plan: Plan, m: Info, result: I64)
    requires plan.Read? || plan.Pread? || plan.GetRandom?
    ensures DataFits(plan, m, result) <==> 0 <= result <= BUF_SIZE || (result == -1 && !plan.Pread?)
  {
    RegisterRoundTrip(result);
  }

  /** The copy is faithful: whole words, mapped on both sides. */
  ghost predicate Deliverable(plan: Plan, q: Request, q': Request, result: I64, mem: seq<Byte>)
    requires q.Request? && q'.Request?
  {
    var size, at := CopySize(plan, Entry(q.call), result), OutArg(plan);
    HandsData(plan) && Copies(plan, result) ==>
      && WholeWords(size)
      && q.call.args[at] + Footprint(size) <= |mem|
      && q'.call.args[at] + WriteSpan(size) <= |q'.mem|
  }

  /** Whether the replica is told only the low half of the result. */
  predicate Narrow(plan: Plan) {
    plan.Replicate? || plan.CopyRet? || plan.Bind? || plan.Fstat?
  }

  /** The monitor lets the call through: its arguments fit, and, unless both variants run
      it on their own, master's call returns with data that fits. */
  ghost predicate LetThrough(w: World, q: Request, dm: seq<Done>) {
    q.Request? ==>
      var plan, km := PlanOf(q.call.nr), w.kernel(Master, dm, q.call, q.mem);
      ArgsFit(plan, q.call.args) && (RunsAlone(plan) || (km.Returns? && DataFits(plan, Entry(q.call), km.rval)))
  }

  /** The kernels treat two copies of a call alike: a call both run on their own gets the
      same answer; otherwise the replica's part returns and, if the monitor lets the call
      through, a result handed on through an `int` fits one, and data is delivered. */
  ghost predicate KernelsAlike(w: World, q: Request, q': Request, dm: seq<Done>, dr: seq<Done>)
    requires SameCall(q, q')
  {
    var plan := PlanOf(q.call.nr);
    var km := w.kernel(Master, dm, q.call, q.mem);
    if RunsAlone(plan) then
      var kr := w.kernel(Replica, dr, q'.call, q'.mem);
      if km.Returns? then kr.Returns? && kr.rval == km.rval else kr.Dies?
    else
      km.Returns? ==>
        && (plan.CopyRet? ==> w.kernel(Replica, dr, q'.call, q'.mem).Returns?)
        && (!plan.CopyRet? ==> Quiet(w, dr, ReplicaCall(plan, q'.call, q.call.args[0], km.rval)))
        && (LetThrough(w, q, dm) ==>
              && (Narrow(plan) ==> FitsInt(km.rval))
              && Deliverable(plan, q, q', km.rval, km.mem))
  }

  /** The replica's call `k` was its own or the stand-in for it, and it was told what the
      executor makes of master's result. */
  ghost predicate StoodIn(w: World, h: seq<Obs>, dm: seq<Done>, dr: seq<Done>, k: nat)
    requires k < |h| == |dm| == |dr|
  {
    ReplicaLine(Sync(w.prog(Master, h[..k]), w.prog(Replica, h[..k]), []), dm[k].rval, dr[k], h[k])
  }

  /** The calls two copies that were told `h` can have behind them: `h` and `dm` are
      master's conversation with its own kernel, `dr` is what the replica's kernel ran
      instead, call by call, with its answers. */
  ghost predicate Behind(w: World, h: seq<Obs>, dm: seq<Done>, dr: seq<Done>) {
    && Lived(w, Master, h, dm)
    && |dr| == |h| && Answered(w, Replica, dr)
    && forall k :: 0 <= k < |h| ==> StoodIn(w, h, dm, dr, k)
  }

  /** Two copies of one program: told the same, they ask for the same, and the kernels,
      with just these calls behind them, treat them alike. */
  ghost predicate TwoCopies(w: World) {
    forall h: seq<Obs>, dm: seq<Done>, dr: seq<Done> :: Behind(w, h, dm, dr) ==> CopiesAfter(w, h, dm, dr)
  }

  ghost predicate CopiesAfter(w: World, h: seq<Obs>, dm: seq<Done>, dr: seq<Done>) {
    var q, q' := w.prog(Master, h), w.prog(Replica, h);
    (q.Terminate? && q'.Terminate?) || (SameCall(q, q') && KernelsAlike(w, q, q', dm, dr))
  }

  // ---------- one synchronised call ----------

  /** Two arrived copies of one call. */
  ghost predicate TwinEntries(p: Pair) {
    && AtEntries(p) && p.m.t.role == Master && p.r.t.role == Replica
    && p.m.t.regs == p.m.t.asked && p.r.t.regs == p.r.t.asked
    && SameCall(Request(p.m.t.asked, p.m.t.mem), Request(p.r.t.asked, p.r.t.mem))
  }

  /** The replica's kernel returns from what the executor has it run, on the memory it
      finds there. */
  ghost predicate ReplicaReturns(w: World, plan: Plan, p: Pair)
    requires MasterOutcome(w, p).Returns?
  {
    var km := MasterOutcome(w, p);
    var call := ReplicaCall(plan, p.r.t.regs, p.m.info.Arg(0), km.rval);
    ReplicaOutcome(w, p, call, ReplicaFinds(w, plan, p, km)).Returns?
  }

  /** All but poll copy before the replica's kernel runs. */
  ghost function ReplicaFinds(w: World, plan: Plan, p: Pair, km: Outcome): seq<Byte>
    requires km.Returns?
  {
    if HandsData(plan) && !plan.Poll? then CopyInto(w, plan, p, km.mem, p.r.t.mem, km.rval)
    else p.r.t.mem
  }

  ghost predicate GoesThrough(w: World, plan: Plan, p: Pair) {
    RunsAlone(plan) ||
    (MasterOutcome(w, p).Returns? && DataFits(plan, p.m.info, MasterOutcome(w, p).rval) && ReplicaReturns(w, plan, p))
  }

  lemma ReturningIff(w: World, plan: Plan, p: Pair)
    requires AtEntries(p) && (plan.Replicate? || plan.CopyRet? || plan.Bind?)
    ensures RunReturning(w, p, !plan.CopyRet?).ok <==> GoesThrough(w, plan, p)
  {
    hide MasterRun, ReplicaRun;
    MasterRunEffect(w, p);
    var q := MasterRun(w, p).p;
    if MasterOutcome(w, p).Returns? {
      ReplicaRunEffect(w, if plan.CopyRet? then q else q.(r := q.r.WithNr(SYS_GETPID)));
    }
  }

  lemma PollIff(w: World, p: Pair)
    requires AtEntries(p)
    ensures RunPoll(w, p).ok <==> GoesThrough(w, Plan.Poll, p)
  {
    hide MasterRun, ReplicaRun, Transferred, Loaded, PollBytes;
    MasterRunEffect(w, p);
    var q := MasterRun(w, p).p;
    if MasterOutcome(w, p).Returns? {
      ReplicaRunEffect(w, q.(r := q.r.WithNr(SYS_GETPID)));
    }
  }

  lemma ReadIff(w: World, p: Pair)
    requires AtEntries(p)
    ensures RunRead(w, p).ok <==> GoesThrough(w, Plan.Read, p)
  {
    hide MasterRun, ReplicaRun, Transferred, Loaded, ToInt, ToU64;
    MasterRunEffect(w, p);
    var q, km := MasterRun(w, p).p, MasterOutcome(w, p);
    if km.Returns? && DataFits(Plan.Read, p.m.info, km.rval) {
      var n := km.rval;
      var c := if n != -1 then Copied(w, q, p.m.info.Arg(1), p.r.info.Arg(1), ToU64(n)) else q;
      ReplicaRunEffect(w, c.(r := c.r.WithArgs(ToU64(ToInt(p.m.info.Arg(0))), ToU64(n), SEEK_CUR).WithNr(SYS_LSEEK)));
    }
  }

  lemma NopIff(w: World, plan: Plan, p: Pair)
    requires AtEntries(p) && (plan.Pread? || plan.GetRandom? || plan.Fstat?)
    ensures RunPlan(w, plan, p).ok <==> GoesThrough(w, plan, p)
  {
    hide MasterRun, ReplicaRun, Transferred, Loaded, ToInt, ToU64;
    MasterRunEffect(w, p);
    var q, km := MasterRun(w, p).p, MasterOutcome(w, p);
    if km.Returns? && DataFits(plan, p.m.info, km.rval) {
      var n, at := km.rval, OutArg(plan);
      var size := CopySize(plan, p.m.info, n);
      var c := if Copies(plan, n) then Copied(w, q, p.m.info.Arg(at), p.r.info.Arg(at), size) else q;
      ReplicaRunEffect(w, c.(r := c.r.WithNr(SYS_GETPID)));
    }
  }

  /** The executor goes ahead with two copies of one call exactly when the arguments fit
      and, unless both run it on their own, master's call returns, its data fits the
      transfer buffer, and the replica's part returns: nothing is asked of the kernels. */
  lemma TwinsGoAheadIff(w: World, p: Pair)
    requires TwinEntries(p)
    ensures var plan := PlanOf(p.m.t.asked.nr);
      var checked := p.(buf := CheckBuf(plan, p));
      && Shared(plan)
      && (Passes(plan, p) <==> ArgsFit(plan, p.m.t.asked.args))
      && (Execute(w, plan, p).ok <==> ArgsFit(plan, p.m.t.asked.args) && GoesThrough(w, plan, checked))
  {
    hide PlanOf, SameBytes, SamePath, PollBytes, ArgsAgree, RunReturning, RunRead, RunPread, RunGetRandom, RunPoll,
      RunFstat, RunMmap, CheckBuf, ArgsFit, ReplicaReturns;
    var plan := PlanOf(p.m.t.asked.nr);
    CopiesAgreeIff(Request(p.m.t.asked, p.m.t.mem), Request(p.r.t.asked, p.r.t.mem));
    var q := p.(buf := CheckBuf(plan, p));
    if HandsData(plan) {
      if plan.Poll? {
        PollIff(w, q);
      } else if plan.Read? {
        ReadIff(w, q);
      } else {
        NopIff(w, plan, q);
      }
    } else if !RunsAlone(plan) {
      ReturningIff(w, plan, q);
    }
  }

  ghost predicate AlikeEntries(w: World, p: Pair) {
    && TwinEntries(p)
    && KernelsAlike(w, Request(p.m.t.asked, p.m.t.mem), Request(p.r.t.asked, p.r.t.mem), p.m.t.done, p.r.t.done)
  }

  /** Where the kernels treat the copies alike, only master's half decides. */
  lemma TwinsLetThroughIff(w: World, p: Pair)
    requires AlikeEntries(w, p)
    ensures Execute(w, PlanOf(p.m.t.asked.nr), p).ok <==> LetThrough(w, Request(p.m.t.asked, p.m.t.mem), p.m.t.done)
  {
    hide Execute, PlanOf, Passes, SameCall, Deliverable, DataFits, ArgsFit, Quiet, ReplicaCall, CheckBuf, CopyInto;
    var plan := PlanOf(p.m.t.asked.nr);
    TwinsGoAheadIff(w, p);
    var q := p.(buf := CheckBuf(plan, p));
    var km := MasterOutcome(w, p);
    if !RunsAlone(plan) && km.Returns? && !plan.CopyRet? {
      QuietOutcome(w, p, ReplicaCall(plan, p.r.t.regs, p.m.info.Arg(0), km.rval), ReplicaFinds(w, plan, q, km));
    } else if plan.CopyRet? {
      CopyRetKeepsCall(plan, p.r.t.regs, p.m.info.Arg(0), km);
    }
  }

  lemma CopyRetKeepsCall(plan: Plan, own: Call, fd: U64, km: Outcome)
    requires plan.CopyRet?
    ensures km.Returns? ==> ReplicaCall(plan, own, fd, km.rval) == own
  {
  }

  /** Copying a deliverable out-buffer puts master's bytes into the replica's, and where
      nothing is copied there is nothing to read. */
  lemma DeliveredOut(w: World, plan: Plan, p: Pair, mem: seq<Byte>, result: I64)
    requires AtEntries(p) && plan == PlanOf(p.m.t.asked.nr) == PlanOf(p.r.t.asked.nr) && HandsData(plan)
    requires p.m.t.regs == p.m.t.asked && p.r.t.regs == p.r.t.asked && SameCount(plan, p)
    requires DataFits(plan, p.m.info, result)
    requires Deliverable(plan, Request(p.m.t.asked, p.m.t.mem), Request(p.r.t.asked, p.r.t.mem), result, mem)
    ensures OutBuffer(p.m.t.asked, result, mem) ==
        OutBuffer(p.r.t.asked, result, CopyInto(w, plan, p, mem, p.r.t.mem, result))
  {
    hide PlanOf, PollBytes, WholeWords, Footprint, WriteSpan, Transferred;
    if Copies(plan, result) {
      var size: nat := CopySize(plan, p.m.info, result);
      var from: nat, to: nat := p.m.info.Arg(OutArg(plan)), p.r.info.Arg(OutArg(plan));
      TransferExact(mem, from, p.r.t.mem, to, size, p.buf, w.beyond);
      var final := CopyInto(w, plan, p, mem, p.r.t.mem, result);
      assert final[to..to + size] == mem[from..from + size];
    }
  }

  /** poll and newfstatat always copy whole words, so whenever they succeed the
      replica's out-buffer holds master's bytes and the rest of its memory is as its
      kernel left it, at every number of descriptors the size check lets through. */
  lemma OutBuffersAgree(w: World, plan: Plan, p: Pair, from: nat, to: nat, size: nat)
    requires AtEntries(p) && (plan.Poll? || plan.Fstat?) && Execute(w, plan, p).ok && p.r.t.role == Replica
    requires from == p.m.info.Arg(OutArg(plan)) && to == p.r.info.Arg(OutArg(plan))
        && size == CopySize(plan, p.m.info, 0)
    requires MasterOutcome(w, p).Returns? && from + Footprint(size) <= |MasterOutcome(w, p).mem|
    requires to + WriteSpan(size) <= |p.r.t.mem| && Quiet(w, p.r.t.done, p.r.t.regs.(nr := SYS_GETPID))
    ensures var q := Execute(w, plan, p).p;
      q.r.t.mem == p.r.t.mem[..to] + Slice(q.m.t.mem, from, size) + p.r.t.mem[to + size..]
  {
    hide Execute, PollBytes, Transferred, Footprint, WriteSpan, CheckBuf, ReplicaTold;
    ExecuteData(w, plan, p);
    var b, km := p.(buf := CheckBuf(plan, p)), MasterOutcome(w, p);
    var call := p.r.t.regs.(nr := SYS_GETPID);
    QuietOutcome(w, p, call, p.r.t.mem);
    QuietOutcome(w, p, call, CopyInto(w, plan, b, km.mem, p.r.t.mem, km.rval));
    TransferExact(km.mem, from, p.r.t.mem, to, size, b.buf, w.beyond);
  }

  /** The size of a poll array is a plain argument. */
  ghost predicate SameCount(plan: Plan, p: Pair) {
    plan.Poll? ==> p.m.t.asked.args[1] == p.r.t.asked.args[1]
  }

  /** Afterwards both programs have been, or will be, told the same. */
  lemma TwinsToldAlike(w: World, p: Pair)
    requires AlikeEntries(w, p) && p.m.t.past == p.r.t.past && Execute(w, PlanOf(p.m.t.asked.nr), p).ok
    ensures var q := Execute(w, PlanOf(p.m.t.asked.nr), p).p;
      Told(w, q.m) == Told(w, q.r)
  {
    hide PlanOf, SameBytes, SamePath, PollBytes, Execute, Passes, CheckBuf, Quiet, Deliverable, CopyInto, OutBuffer,
      ToU64, ToInt, DataFits, ArgsFit;
    var plan := PlanOf(p.m.t.asked.nr);
    var q, b := Execute(w, plan, p).p, p.(buf := CheckBuf(plan, p));
    ExecuteEffect(w, plan, p);
    TwinsLetThroughIff(w, p);
    if RunsAlone(plan) {
      NoOutBuffer(p.m.t.asked, p.r.t.asked);
    } else if HandsData(plan) {
      ExecuteData(w, plan, p);
      var km := MasterOutcome(w, p);
      var call := ReplicaCall(plan, p.r.t.regs, p.m.info.Arg(0), km.rval);
      QuietOutcome(w, p, call, p.r.t.mem);
      QuietOutcome(w, p, call, CopyInto(w, plan, b, km.mem, p.r.t.mem, km.rval));
      DeliveredOut(w, plan, b, km.mem, km.rval);
      NarrowFits(plan, km.rval);
    } else {
      NoOutBuffer(p.m.t.asked, p.r.t.asked);
      MasterResultIsKernels(w, plan, p);
      NarrowFits(plan, LastResult(q.m));
    }
  }

  lemma MasterResultIsKernels(w: World, plan: Plan, p: Pair)
    requires p.m.t.phase.AtEntry? && Execute(w, plan, p).ok
    ensures !Resumes(plan) && MasterOutcome(w, p).Returns? ==>
      LastResult(Execute(w, plan, p).p.m) == MasterOutcome(w, p).rval
  {
    hide Execute, OutBuffer;
    ExecuteMaster(w, plan, p);
  }

  lemma QuietOutcome(w: World, p: Pair, call: Call, mem: seq<Byte>)
    requires Quiet(w, p.r.t.done, call) && p.r.t.role == Replica
    ensures ReplicaOutcome(w, p, call, mem).Returns? && ReplicaOutcome(w, p, call, mem).mem == mem
  {
    assert QuietAt(w, p.r.t.done, call, mem);
  }

  /** The replica is told master's very result exactly when it fits the `int` it goes through. */
  lemma NarrowFits(plan: Plan, result: I64)
    ensures ReplicaTold(plan, result) == result <==> !Narrow(plan) || FitsInt(result)
  {
  }

  lemma NoOutBuffer(a: Call, b: Call)
    requires a.nr == b.nr && !HandsData(PlanOf(a.nr))
    ensures forall k: I64, mem: seq<Byte>, mem': seq<Byte> :: OutBuffer(a, k, mem) == OutBuffer(b, k, mem') == []
  {
    hide PlanOf, Slice, PollBytes, OutBuffer;
    forall k: I64, mem: seq<Byte>, mem': seq<Byte> ensures OutBuffer(a, k, mem) == OutBuffer(b, k, mem') == [] {
      LeavesNoData(a, k, mem);
      LeavesNoData(b, k, mem');
    }
  }

  lemma LeavesNoData(call: Call, k: I64, mem: seq<Byte>)
    requires !HandsData(PlanOf(call.nr))
    ensures OutBuffer(call, k, mem) == []
  {
    hide PlanOf, Slice, PollBytes;
  }

  // ---------- whole runs ----------

  /** Both programs have been told, or have coming, the same; and their calls are behind them. */
  ghost predicate Twins(w: World, c: Config, t0: Tracee) {
    && Told(w, c.p.m) == Told(w, c.p.r)
    && OnNativeRun(w, t0, c.p.m.t)
    && Answered(w, Replica, c.p.r.t.done)
  }

  ghost predicate FreshTracee(t: Tracee) {
    t.phase.User? && t.past == [] && t.done == []
  }

  /** With no call in flight the two histories are the same, and what is behind them is
      what the ledger says. */
  lemma TwinsAreBehind(w: World, c: Config, t0: Tracee)
    requires Inv(w, c) && Books(w, c) && Twins(w, c, t0) && FreshTracee(t0)
    requires !c.p.m.t.phase.InKernel? && !c.p.r.t.phase.InKernel?
    ensures c.p.m.t.past == c.p.r.t.past
    ensures Behind(w, c.p.m.t.past, c.p.m.t.done, c.p.r.t.done)
  {
    hide Answered, OutBuffer, Traced, Lived, MasterLine, ReplicaLine, Agreed, Pairs;
    TracedLives(w, t0, StepsTaken(c.p.m.t));
    PairsAre(w, c);
    var h, dm, dr := c.p.m.t.past, c.p.m.t.done, c.p.r.t.done;
    assert dm[..|h|] == dm;
    forall k | 0 <= k < |h| ensures StoodIn(w, h, dm, dr, k) {
      assert Paired(w, c, k);
      SameLine(c.syncs[k], Sync(w.prog(Master, h[..k]), w.prog(Replica, h[..k]), []), dm[k].rval, dr[k], h[k]);
    }
  }

  /** A line of the ledger does not depend on the table. */
  lemma SameLine(s: Sync, s': Sync, master: I64, d: Done, o: Obs)
    requires s.m == s'.m && s.r == s'.r
    ensures ReplicaLine(s, master, d, o) == ReplicaLine(s', master, d, o)
  {
    hide PlanOf, ReplicaCall, ReplicaTold;
  }

  lemma TwinsSync(w: World, c: Config)
    requires Ready(w, c) && TwoCopies(w) && c.p.m.t.past == c.p.r.t.past
    requires Behind(w, c.p.m.t.past, c.p.m.t.done, c.p.r.t.done)
    ensures var s := SyncStep(w, c);
      if LetThrough(w, w.prog(Master, c.p.m.t.past), c.p.m.t.done)
      then s.Live? && Told(w, s.c.p.m) == Told(w, s.c.p.r)
      else s.Killed?
  {
    hide Execute, PlanOf, KernelsAlike, Told, SameBytes, SamePath, Passes, Behind, LetThrough;
    assert CopiesAfter(w, c.p.m.t.past, c.p.m.t.done, c.p.r.t.done);
    TwinsGoAheadIff(w, c.p);
    TwinsLetThroughIff(w, c.p);
    if Execute(w, PlanOf(c.p.m.t.asked.nr), c.p).ok {
      TwinsToldAlike(w, c.p);
    }
  }

  /** One event: the programs stay told alike, unless the monitor does not let master's
      call through; then, and only then, it kills. */
  lemma StepToldAlike(w: World, c: Config, who: Role, t0: Tracee)
    requires Inv(w, c) && Books(w, c) && Enabled(c, who) && TwoCopies(w) && Twins(w, c, t0) && FreshTracee(t0)
    ensures var s := Step(w, c, who);
      if s.Ended? then s.mTold == s.rTold
      else if Arrives(c, who) && !LetThrough(w, w.prog(Master, c.p.m.t.past), c.p.m.t.done) then s.Killed?
      else s.Live? && Told(w, s.c.p.m) == Told(w, s.c.p.r)
  {
    hide Step, SyncStep, OutBuffer, TwoCopies, Behind, Books, OnNativeRun, Answered, LetThrough;
    if c.Of(who).t.phase.InKernel? {
      ExitEvent(w, c, who);
    } else if !c.Of(who.Other()).t.phase.AtEntry? {
      EntryEvent(w, c, who);
    } else {
      ArrivalEvent(w, c, who);
      if w.prog(who, c.Of(who).t.past).Request? {
        TwinsAreBehind(w, c, t0);
        var s := AtStop(w, c, who);
        assert s.Of(Master).t.past == c.Of(Master).t.past && s.Of(Replica).t.past == c.Of(Replica).t.past;
        assert s.Of(Master).t.done == c.Of(Master).t.done && s.Of(Replica).t.done == c.Of(Replica).t.done;
        TwinsSync(w, s);
      }
    }
  }

  // ---------- when copies are killed ----------

  /** Master's unmonitored run comes to a call that the monitor does not let through. */
  ghost predicate MeetsBarrier(w: World, h: seq<Obs>, dm: seq<Done>) {
    Lived(w, Master, h, dm) && !LetThrough(w, w.prog(Master, h), dm)
  }

  lemma StepTwins(w: World, c: Config, who: Role, t0: Tracee)
    requires Inv(w, c) && Books(w, c) && Enabled(c, who) && TwoCopies(w) && Twins(w, c, t0) && FreshTracee(t0)
    ensures var s := Step(w, c, who);
      && (s.Ended? || s.Live? || s.Killed?)
      && (s.Ended? ==> s.mTold == s.rTold)
      && (s.Live? ==> Inv(w, s.c) && Books(w, s.c) && Twins(w, s.c, t0))
      && (s.Live? && Arrives(c, who) ==> LetThrough(w, w.prog(Master, c.p.m.t.past), c.p.m.t.done))
  {
    hide Step, Inv, Books, TwoCopies, OnNativeRun, Answered, Told, LetThrough;
    StepKeepsInv(w, c, who);
    StepToldAlike(w, c, who, t0);
    if Step(w, c, who).Live? {
      StepKeepsBooks(w, c, who);
      StepStaysNative(w, c, who, t0);
      StepKeepsAnswers(w, c, who);
    }
  }

  lemma {:induction false} RunToldAlike(w: World, c: Config, schedule: seq<Role>, t0: Tracee)
    requires Inv(w, c) && Books(w, c) && TwoCopies(w) && Twins(w, c, t0) && FreshTracee(t0)
    requires Schedules(w, Live(c), schedule)
    ensures var s := Run(w, Live(c), schedule);
      if s.Ended? then s.mTold == s.rTold
      else if s.Killed? then exists h, dm :: MeetsBarrier(w, h, dm) && |h| + 1 == |s.syncs|
      else s.Live? && Inv(w, s.c) && Books(w, s.c) && Twins(w, s.c, t0)
    decreases |schedule|
  {
    hide Step, Inv, Books, TwoCopies, OnNativeRun, Answered, Told, LetThrough;
    if schedule != [] {
      var s := Step(w, c, schedule[0]);
      StepTwins(w, c, schedule[0], t0);
      if s.Live? {
        RunToldAlike(w, s.c, schedule[1..], t0);
      } else if s.Killed? {
        KilledAtBarrier(w, c, schedule[0], t0);
      }
    }
  }

  lemma KilledAtBarrier(w: World, c: Config, who: Role, t0: Tracee)
    requires Inv(w, c) && Books(w, c) && Enabled(c, who) && TwoCopies(w) && Twins(w, c, t0) && FreshTracee(t0)
    requires Step(w, c, who).Killed?
    ensures MeetsBarrier(w, c.p.m.t.past, c.p.m.t.done) && |c.p.m.t.past| + 1 == |Step(w, c, who).syncs|
  {
    hide Step, Books, TwoCopies, LetThrough, OnNativeRun, Answered, Lived, StoodIn;
    StepKeepsInv(w, c, who);
    StepToldAlike(w, c, who, t0);
    TwinsAreBehind(w, c, t0);
    StepSyncs(w, c, who);
  }

  /** A native run is determined by its length. */
  lemma {:induction false} LivedUnique(w: World, h: seq<Obs>, dm: seq<Done>, h': seq<Obs>, dm': seq<Done>)
    requires Lived(w, Master, h, dm) && Lived(w, Master, h', dm') && |h'| <= |h|
    ensures h' == h[..|h'|] && dm' == dm[..|h'|]
    decreases |h'|
  {
    hide OutBuffer;
    var n := |h'|;
    if n > 0 {
      var init, dinit := h'[..n - 1], dm'[..n - 1];
      assert init + [h'[n - 1]] == h' && dinit + [dm'[n - 1]] == dm';
      forall k | 0 <= k < n - 1 ensures LivedCall(w, Master, init, dinit, k) {
        assert LivedCall(w, Master, h', dm', k);
        assert init[..k] == h'[..k] && dinit[..k] == dm'[..k];
      }
      LivedUnique(w, h, dm, init, dinit);
      assert LivedCall(w, Master, h', dm', n - 1) && LivedCall(w, Master, h, dm, n - 1);
      assert h[..n] == h[..n - 1] + [h[n - 1]] && dm[..n] == dm[..n - 1] + [dm[n - 1]];
    }
  }

  /** On the way to a barrier no variant exits. */
  lemma NoExitBefore(w: World, c: Config, t0: Tracee, h: seq<Obs>, dm: seq<Done>) returns (who: Role)
    requires Inv(w, c) && Books(w, c) && TwoCopies(w) && Twins(w, c, t0) && FreshTracee(t0)
    requires MeetsBarrier(w, h, dm) && |c.syncs| <= |h|
    ensures Enabled(c, who) && !Step(w, c, who).Ended? && |dm| == |h|
    ensures Arrives(c, who) && |c.syncs| == |h| ==> c.p.m.t.past == h && c.p.m.t.done == dm
  {
    hide OutBuffer, Books, Step, Answered, StoodIn, Traced, SameCall, KernelsAlike;
    var m, n := c.p.m.t, |c.syncs|;
    TracedLives(w, t0, StepsTaken(m));
    assert m.done[..|m.past|] == m.done;
    LivedUnique(w, h, dm, m.past, m.done);
    if m.phase.InKernel? {
      who := Master;
      assert LivedCall(w, Master, h, dm, n - 1);
      ExitEvent(w, c, who);
    } else if m.phase.User? {
      who := Master;
      assert n < |h| ==> LivedCall(w, Master, h, dm, n);
      assert h[..|h|] == h && dm[..|h|] == dm;
      if c.p.r.t.phase.AtEntry? {
        ArrivalEvent(w, c, who);
        SyncNeverInvalid(w, AtStop(w, c, who));
      } else {
        EntryEvent(w, c, who);
      }
    } else {
      who := Replica;
      if c.p.r.t.phase.InKernel? {
        ExitEvent(w, c, who);
      } else {
        TwinsAreBehind(w, c, t0);
        assert CopiesAfter(w, m.past, m.done, c.p.r.t.done);
        SameCallRequests(w.prog(Master, m.past), w.prog(Replica, m.past));
        ArrivalEvent(w, c, who);
        SyncNeverInvalid(w, AtStop(w, c, who));
      }
    }
  }

  lemma SameCallRequests(q: Request, q': Request)
    ensures SameCall(q, q') ==> q.Request? && q'.Request?
  {
  }

  /** Some schedule gets there, or to an earlier barrier. */
  lemma {:induction false} BarrierKills(w: World, c: Config, t0: Tracee, h: seq<Obs>, dm: seq<Done>)
    requires Inv(w, c) && Books(w, c) && TwoCopies(w) && Twins(w, c, t0) && FreshTracee(t0)
    requires MeetsBarrier(w, h, dm) && |c.syncs| <= |h|
    ensures exists schedule, s :: Reaches(w, c, schedule, s) && s.Killed?
    decreases |h| - |c.syncs|, Rank(c)
  {
    hide Step, Inv, Books, TwoCopies, Twins, LetThrough, Reaches, Lived, Rank;
    var who := NoExitBefore(w, c, t0, h, dm);
    ReachesAtOnce(w, c, who);
    StepKeepsInv(w, c, who);
    RankPositive(w, c);
    var s := Step(w, c, who);
    StepTwins(w, c, who, t0);
    if s.Live? {
      BarrierKills(w, s.c, t0, h, dm);
      var rest, t :| Reaches(w, s.c, rest, t) && t.Killed?;
      ReachesOn(w, c, [who], s.c, rest, t);
    }
  }

  /** Transparency: under every schedule two copies of one program run as one copy would.
      Master is in a state of its unmonitored run, and the replica's calls have told it
      the same results and the same data, but for at most one call in flight; when a
      variant exits, both have been told, or had coming, exactly the same.  They are
      killed only at a call of master's unmonitored run that the monitor does not let
      through. */
  lemma CopiesRunTransparently(w: World, c: Config, schedule: seq<Role>)
    requires Initial(c) && TwoCopies(w) && Schedules(w, Live(c), schedule)
    ensures var s := Run(w, Live(c), schedule);
      && (s.Live? || s.Ended? || s.Killed?)
      && (s.Killed? ==> exists h, dm :: MeetsBarrier(w, h, dm) && |h| + 1 == |s.syncs|)
      && (s.Ended? ==> s.mTold == s.rTold)
      && (s.Live? ==>
            var m, r := s.c.p.m.t, s.c.p.r.t;
            && (m.past <= r.past || r.past <= m.past)
            && -1 <= |m.past| - |r.past| <= 1
            && m == Traced(w, c.p.m.t, StepsTaken(m)))
  {
    hide Run, Schedules, TwoCopies, Books, MeetsBarrier;
    InitialTwins(w, c);
    RunToldAlike(w, c, schedule, c.p.m.t);
    var s := Run(w, Live(c), schedule);
    if s.Live? {
      assert s.c.p.m.t.past <= Told(w, s.c.p.m) && s.c.p.r.t.past <= Told(w, s.c.p.r);
    }
  }

  lemma InitialTwins(w: World, c: Config)
    requires Initial(c)
    ensures Inv(w, c) && Books(w, c) && Twins(w, c, c.p.m.t) && FreshTracee(c.p.m.t)
  {
  }

  /** Exactly when are two copies killed under some schedule?  When master's unmonitored
      run comes to a call that the monitor does not let through. */
  lemma CopiesKilledIff(w: World, c: Config)
    requires Initial(c) && TwoCopies(w)
    ensures (exists schedule, s :: Reaches(w, c, schedule, s) && s.Killed?)
      <==> (exists h, dm :: MeetsBarrier(w, h, dm))
  {
    hide TwoCopies, Books, MeetsBarrier, Twins;
    InitialTwins(w, c);
    if h, dm :| MeetsBarrier(w, h, dm) {
      BarrierKills(w, c, c.p.m.t, h, dm);
    } else if schedule, s :| Reaches(w, c, schedule, s) && s.Killed? {
      RunToldAlike(w, c, schedule, c.p.m.t);
    }
  }
}
