/** The executors, summed up: which call each variant's kernel ran, what each
    program was told, and how far each number advanced. */
module Effects {
  import opened Words
  import opened Syscalls
  import opened Mappings
  import opened Memory
  import opened Tracees
  import opened Executors

  /** The call runs in each variant on its own after the executor returns. */
  predicate Resumes(plan: Plan) {
    plan.Resume? || plan.ResumeUnchecked? || plan.Munmap? || plan.Mprotect?
  }

  /** Whether completing the call advances `syscallNum`. */
  function Counted(plan: Plan): nat {
    if plan.GetRandom? then 0 else 1
  }

  /** The call the replica's kernel runs in place of `own`, when the kernel gave
      `result` to master's call on file `fd`. */
  function ReplicaCall(plan: Plan, own: Call, fd: U64, result: I64): Call {
    match plan
    case CopyRet(_) => own
    case Read => Call(SYS_LSEEK, [ToU64(ToInt(fd)), ToU64(result), SEEK_CUR] + own.args[3..])
    case _ => own.(nr := SYS_GETPID)
  }

  /** What the replica's program is told, when master's is told `result`. */
  function ReplicaTold(plan: Plan, result: I64): I64 {
    match plan
    case Replicate(_) => ToInt(result)
    case CopyRet(_) => ToInt(result)
    case Bind => ToInt(result)
    case Fstat => ToInt(result)
    case _ => result
  }

  /** The executor let the variant's own call into the kernel. */
  ghost predicate Started(v: V, v': V) {
    v' == v.(state := RUNNING, t := v.t.(phase := InKernel, entered := v.t.entered + [v.t.regs]))
  }

  /** The executor took the variant through a whole call: its kernel ran `call`, its
      program was told `told`. */
  ghost predicate Completed(v: V, v': V, call: Call, told: I64, counted: nat) {
    && v'.t.phase.User? && v'.state == RUNNING && v'.t.role == v.t.role && v'.t.asked == v.t.asked
    && v'.num == v.num + counted
    && v'.t.past == v.t.past + [Obs(told, OutBuffer(v.t.asked, told, v'.t.mem))]
    && v'.t.entered == v.t.entered + [call]
    && v'.t.done == v.t.done + [Done(call, LastResult(v'))]
  }

  /** What the kernel gave the variant's last completed call. */
  function LastResult(v: V): I64 {
    if |v.t.done| > 0 then v.t.done[|v.t.done| - 1].rval else 0
  }

  /** The effect of a successful executor. */
  ghost predicate Effect(plan: Plan, p: Pair, q: Pair) {
    if Resumes(plan) then Started(p.m, q.m) && Started(p.r, q.r)
    else
      var result := LastResult(q.m);
      && Completed(p.m, q.m, p.m.t.regs, result, Counted(plan))
      && if plan.Mmap? then Started(p.r, q.r)
         else Completed(p.r, q.r, ReplicaCall(plan, p.r.t.regs, p.m.info.Arg(0), result),
                        ReplicaTold(plan, result), Counted(plan))
  }

  ghost predicate AtEntries(p: Pair) {
    && p.m.t.phase.AtEntry? && p.m.info == Entry(p.m.t.regs)
    && p.r.t.phase.AtEntry? && p.r.info == Entry(p.r.t.regs)
  }

  /** A variant at the exit stop of the call in `regs`. */
  function AtExitStop(v: V, regs: Call, result: I64, mem: seq<Byte>): V {
    v.(state := RUNNING, t := v.t.(phase := AtExit, regs := regs, rax := result, mem := mem,
       done := v.t.done + [Done(regs, result)], entered := v.t.entered + [regs]))
  }

  lemma MasterRunEffect(w: World, p: Pair)
    requires p.m.t.phase.AtEntry?
    ensures var k := w.kernel(p.m.t.role, p.m.t.done, p.m.t.regs, p.m.t.mem);
      && MasterRun(w, p).ok == k.Returns?
      && (k.Returns? ==>
            MasterRun(w, p).p == p.(m := AtExitStop(p.m, p.m.t.regs, k.rval, k.mem).(info := Exit(k.rval))))
  {
  }

  lemma ReplicaRunEffect(w: World, p: Pair)
    requires p.r.t.phase.AtEntry?
    ensures var k := w.kernel(p.r.t.role, p.r.t.done, p.r.t.regs, p.r.t.mem);
      && ReplicaRun(w, p).ok == k.Returns?
      && (k.Returns? ==> ReplicaRun(w, p).p == p.(r := AtExitStop(p.r, p.r.t.regs, k.rval, k.mem)))
  {
  }

  /** Leaving the exit stop tells the program what is in its result register. */
  lemma LeaveExit(v: V, regs: Call, result: I64, mem: seq<Byte>, info: Info, told: I64)
    requires v.t.phase.AtEntry?
    ensures var x := AtExitStop(v, regs, result, mem).(info := info).WithRax(told);
      && Completed(v, x.FromExit(), regs, told, 1) && LastResult(x.FromExit()) == result && x.FromExit().t.mem == mem
      && Completed(v, x.FromWait(), regs, told, 0) && LastResult(x.FromWait()) == result && x.FromWait().t.mem == mem
  {
  }

  // ---------- one lemma per run ----------

  /** Master's kernel answers its call. */
  function MasterOutcome(w: World, p: Pair): Outcome {
    w.kernel(p.m.t.role, p.m.t.done, p.m.t.regs, p.m.t.mem)
  }

  /** The replica's kernel answers `call` over memory `mem`. */
  function ReplicaOutcome(w: World, p: Pair, call: Call, mem: seq<Byte>): Outcome {
    w.kernel(p.r.t.role, p.r.t.done, call, mem)
  }

  /** The replica, its call rewritten and its memory written to, runs to the exit
      stop and leaves it told `told`; so does master, told its own result. */
  lemma PairLeaves(w: World, p: Pair, q: Pair, call: Call, mem: seq<Byte>, told: I64)
    requires AtEntries(p) && MasterRun(w, p).ok
    requires q.m == MasterRun(w, p).p.m
    requires q.r == p.r.(t := p.r.t.(regs := call, mem := mem))
    ensures ReplicaRun(w, q).ok == ReplicaOutcome(w, p, call, mem).Returns?
    ensures ReplicaRun(w, q).ok ==>
      var x, km, kr := WithReplicaRax(ReplicaRun(w, q).p, told), MasterOutcome(w, p), ReplicaOutcome(w, p, call, mem);
      && x.buf == q.buf && x.table == q.table && x.m == q.m && x.m.info == Exit(km.rval)
      && (forall y | y == BothFromExit(x) || y == BothFromWait(x) ::
            LastResult(y.m) == km.rval && LastResult(y.r) == kr.rval && y.m.t.mem == km.mem && y.r.t.mem == kr.mem)
      && Completed(p.m, BothFromExit(x).m, p.m.t.regs, km.rval, 1) && Completed(p.r, BothFromExit(x).r, call, told, 1)
      && Completed(p.m, BothFromWait(x).m, p.m.t.regs, km.rval, 0) && Completed(p.r, BothFromWait(x).r, call, told, 0)
  {
    hide MasterRun, ReplicaRun, V.FromExit, V.FromWait, Completed;
    MasterRunEffect(w, p);
    ReplicaRunEffect(w, q);
    var km, kr := MasterOutcome(w, p), ReplicaOutcome(w, p, call, mem);
    if kr.Returns? {
      LeaveExit(p.m, p.m.t.regs, km.rval, km.mem, Exit(km.rval), km.rval);
      LeaveExit(p.r, call, kr.rval, kr.mem, p.r.info, told);
    }
  }

  /** At most one more call completed, and that as the kernel answers it. */
  ghost predicate OneAnswer(w: World, role: Role, done: seq<Done>, done': seq<Done>) {
    done' == done || exists call: Call, mem: seq<Byte> :: AnsweredOn(w, role, done, done', call, mem)
  }

  ghost predicate AnsweredOn(w: World, role: Role, done: seq<Done>, done': seq<Done>, call: Call, mem: seq<Byte>) {
    var a := w.kernel(role, done, call, mem);
    a.Returns? && done' == done + [Done(call, a.rval)]
  }

  lemma ReturnsOneAnswer(w: World, p: Pair, q: Pair, call: Call, told: I64)
    requires ReplicaOutcome(w, p, call, p.r.t.mem).Returns?
    requires Completed(p.r, q.r, call, told, 1) && LastResult(q.r) == ReplicaOutcome(w, p, call, p.r.t.mem).rval
    ensures OneAnswer(w, p.r.t.role, p.r.t.done, q.r.t.done)
  {
    hide OutBuffer;
    assert AnsweredOn(w, p.r.t.role, p.r.t.done, q.r.t.done, call, p.r.t.mem);
  }

  lemma ReturningEffect(w: World, plan: Plan, p: Pair)
    requires AtEntries(p) && (plan.Replicate? || plan.CopyRet? || plan.Bind?)
    requires RunReturning(w, p, !plan.CopyRet?).ok
    ensures Effect(plan, p, RunReturning(w, p, !plan.CopyRet?).p)
    ensures OneAnswer(w, p.r.t.role, p.r.t.done, RunReturning(w, p, !plan.CopyRet?).p.r.t.done)
  {
    hide MasterRun, ReplicaRun, V.FromExit, V.FromWait, Completed;
    MasterRunEffect(w, p);
    var q := MasterRun(w, p).p;
    var n := if plan.CopyRet? then q else q.(r := q.r.WithNr(SYS_GETPID));
    PairLeaves(w, p, n, n.r.t.regs, p.r.t.mem, ToInt(q.m.info.ExitValue()));
    ReturnsOneAnswer(w, p, RunReturning(w, p, !plan.CopyRet?).p, n.r.t.regs, ToInt(q.m.info.ExitValue()));
  }

  // ---------- the runs that hand data to the replica ----------

  predicate HandsData(plan: Plan) {
    plan.Read? || plan.Pread? || plan.GetRandom? || plan.Poll? || plan.Fstat?
  }

  /** The argument register holding the out-buffer's address. */
  function OutArg(plan: Plan): nat {
    if plan.Read? || plan.Pread? then 1 else if plan.Fstat? then 2 else 0
  }

  /** Bytes copied from master's out-buffer to the replica's. */
  function CopySize(plan: Plan, m: Info, result: I64): U64 {
    if plan.Poll? then PollBytes(m.Arg(1)) else if plan.Fstat? then SIZEOF_STAT else ToU64(result)
  }

  /** read and getrandom skip the copy on the one result -1. */
  predicate Copies(plan: Plan, result: I64) {
    (plan.Read? || plan.GetRandom?) ==> result != -1
  }

  /** The data master received, if it is to be copied, fits the transfer buffer. */
  predicate DataFits(plan: Plan, m: Info, result: I64) {
    HandsData(plan) && Copies(plan, result) ==> Transfers(CopySize(plan, m, result))
  }

  /** The replica's memory `dst` after the copy. */
  function CopyInto(w: World, plan: Plan, p: Pair, src: seq<Byte>, dst: seq<Byte>, result: I64): seq<Byte> {
    var size := CopySize(plan, p.m.info, result);
    if Copies(plan, result) && Transfers(size)
    then Transferred(src, p.m.info.Arg(OutArg(plan)), dst, p.r.info.Arg(OutArg(plan)), size, p.buf, w.beyond)
    else dst
  }

  /** Where the copied bytes end up: poll copies after the replica's own call, the
      others before it. */
  ghost predicate DataEffect(w: World, plan: Plan, p: Pair, q: Pair) {
    MasterOutcome(w, p).Returns? &&
    var km := MasterOutcome(w, p);
    var call := ReplicaCall(plan, p.r.t.regs, p.m.info.Arg(0), km.rval);
    && LastResult(q.m) == km.rval
    && (Copies(plan, km.rval) ==> Transfers(CopySize(plan, p.m.info, km.rval)))
    && q.m.t.mem == km.mem
    && if plan.Poll? then
         var kr := ReplicaOutcome(w, p, call, p.r.t.mem);
         kr.Returns? && LastResult(q.r) == kr.rval && q.r.t.mem == CopyInto(w, plan, p, km.mem, kr.mem, km.rval)
       else
         var kr := ReplicaOutcome(w, p, call, CopyInto(w, plan, p, km.mem, p.r.t.mem, km.rval));
         kr.Returns? && LastResult(q.r) == kr.rval && q.r.t.mem == kr.mem
  }

  lemma ReadEffect(w: World, p: Pair)
    requires AtEntries(p) && RunRead(w, p).ok
    ensures Effect(Plan.Read, p, RunRead(w, p).p) && DataEffect(w, Plan.Read, p, RunRead(w, p).p)
  {
    hide MasterRun, ReplicaRun, V.FromExit, V.FromWait, Completed, Transferred, Loaded, ToU64, ToInt;
    MasterRunEffect(w, p);
    var q := MasterRun(w, p).p;
    var n := q.m.info.ExitValue();
    var c := if n != -1 then Copied(w, q, p.m.info.Arg(1), p.r.info.Arg(1), ToU64(n)) else q;
    var x := c.(r := c.r.WithArgs(ToU64(ToInt(p.m.info.Arg(0))), ToU64(n), SEEK_CUR).WithNr(SYS_LSEEK));
    PairLeaves(w, p, x, x.r.t.regs, x.r.t.mem, n);
  }

  lemma PreadEffect(w: World, p: Pair)
    requires AtEntries(p) && RunPread(w, p).ok
    ensures Effect(Plan.Pread, p, RunPread(w, p).p) && DataEffect(w, Plan.Pread, p, RunPread(w, p).p)
  {
    hide MasterRun, ReplicaRun, V.FromExit, V.FromWait, Completed, Transferred, Loaded, ToU64;
    MasterRunEffect(w, p);
    var q := MasterRun(w, p).p;
    var n := q.m.info.ExitValue();
    var c := Copied(w, q, p.m.info.Arg(1), p.r.info.Arg(1), ToU64(n));
    var x := c.(r := c.r.WithNr(SYS_GETPID));
    PairLeaves(w, p, x, x.r.t.regs, x.r.t.mem, n);
  }

  lemma GetRandomEffect(w: World, p: Pair)
    requires AtEntries(p) && RunGetRandom(w, p).ok
    ensures Effect(Plan.GetRandom, p, RunGetRandom(w, p).p) && DataEffect(w, Plan.GetRandom, p, RunGetRandom(w, p).p)
  {
    hide MasterRun, ReplicaRun, V.FromExit, V.FromWait, Completed, Transferred, Loaded, ToU64;
    MasterRunEffect(w, p);
    var q := MasterRun(w, p).p;
    var n := q.m.info.ExitValue();
    var c := if n != -1 then Copied(w, q, p.m.info.Arg(0), p.r.info.Arg(0), ToU64(n)) else q;
    var x := c.(r := c.r.WithNr(SYS_GETPID));
    PairLeaves(w, p, x, x.r.t.regs, x.r.t.mem, n);
  }

  lemma FstatEffect(w: World, p: Pair)
    requires AtEntries(p) && RunFstat(w, p).ok
    ensures Effect(Plan.Fstat, p, RunFstat(w, p).p) && DataEffect(w, Plan.Fstat, p, RunFstat(w, p).p)
  {
    hide MasterRun, ReplicaRun, V.FromExit, V.FromWait, Completed, Transferred, Loaded, ToInt;
    MasterRunEffect(w, p);
    var q := MasterRun(w, p).p;
    var n := q.m.info.ExitValue();
    var c := Copied(w, q, p.m.info.Arg(2), p.r.info.Arg(2), SIZEOF_STAT);
    var x := c.(r := c.r.WithNr(SYS_GETPID));
    PairLeaves(w, p, x, x.r.t.regs, x.r.t.mem, ToInt(n));
  }

  /** Poll writes into the replica while it stands at the exit stop. */
  lemma PollEffect(w: World, p: Pair)
    requires AtEntries(p) && RunPoll(w, p).ok
    ensures Effect(Plan.Poll, p, RunPoll(w, p).p) && DataEffect(w, Plan.Poll, p, RunPoll(w, p).p)
  {
    hide MasterRun, ReplicaRun, V.FromExit, V.FromWait, Completed, Transferred, Loaded, PollBytes;
    MasterRunEffect(w, p);
    var q := MasterRun(w, p).p;
    var x := q.(r := q.r.WithNr(SYS_GETPID));
    ReplicaRunEffect(w, x);
    var km, kr := MasterOutcome(w, p), ReplicaOutcome(w, p, x.r.t.regs, p.r.t.mem);
    var mem := CopyInto(w, Plan.Poll, p, km.mem, kr.mem, km.rval);
    LeaveExit(p.m, p.m.t.regs, km.rval, km.mem, Exit(km.rval), km.rval);
    LeaveExit(p.r, x.r.t.regs, kr.rval, mem, p.r.info, km.rval);
  }

  lemma MmapEffect(w: World, p: Pair)
    requires AtEntries(p) && RunMmap(w, p).ok
    ensures var q := RunMmap(w, p).p;
      && Effect(Plan.Mmap, p, q)
      && q.table == p.table + [Mapping(ToU64(LastResult(q.m)), 0, ToInt(p.m.info.Arg(2)), ToInt(p.m.info.Arg(3)))]
  {
    hide MasterRun, V.FromExit, Completed, ToU64, ToInt;
    MasterRunEffect(w, p);
    var km := MasterOutcome(w, p);
    LeaveExit(p.m, p.m.t.regs, km.rval, km.mem, Exit(km.rval), km.rval);
  }

  // ---------- the executor as a whole ----------

  /** A successful executor passed its checks and had its plan's effect. */
  lemma ExecuteEffect(w: World, plan: Plan, p: Pair)
    requires AtEntries(p) && Execute(w, plan, p).ok
    ensures Passes(plan, p)
    ensures Effect(plan, p, Execute(w, plan, p).p)
  {
    hide Passes, CheckBuf, RunReturning, RunRead, RunPread, RunGetRandom, RunPoll, RunFstat, RunMmap, Completed,
        DataEffect, ReplicaTold, ReplicaCall;
    var q := p.(buf := CheckBuf(plan, p));
    match plan
    case Replicate(_) => ReturningEffect(w, plan, q);
    case CopyRet(_) => ReturningEffect(w, plan, q);
    case Bind => ReturningEffect(w, plan, q);
    case Read => ReadEffect(w, q);
    case Pread => PreadEffect(w, q);
    case GetRandom => GetRandomEffect(w, q);
    case Poll => PollEffect(w, q);
    case Fstat => FstatEffect(w, q);
    case Mmap => MmapEffect(w, q);
    case _ =>
  }

  /** The data-handing executors, with the buffer their checks left. */
  lemma ExecuteData(w: World, plan: Plan, p: Pair)
    requires AtEntries(p) && Execute(w, plan, p).ok && HandsData(plan)
    ensures DataEffect(w, plan, p.(buf := CheckBuf(plan, p)), Execute(w, plan, p).p)
  {
    hide Passes, CheckBuf, RunRead, RunPread, RunGetRandom, RunPoll, RunFstat, DataEffect, Effect;
    var q := p.(buf := CheckBuf(plan, p));
    match plan
    case Read => ReadEffect(w, q);
    case Pread => PreadEffect(w, q);
    case GetRandom => GetRandomEffect(w, q);
    case Poll => PollEffect(w, q);
    case Fstat => FstatEffect(w, q);
  }

  /** A failed check leaves both variants at the entry stop, except that fadvise64
      and rseq have by then resumed both. */
  lemma ExecuteFailedCheck(w: World, plan: Plan, p: Pair)
    requires AtEntries(p) && !Passes(plan, p)
    ensures !Execute(w, plan, p).ok
    ensures var q := Execute(w, plan, p).p;
      if plan.ResumeUnchecked? then Started(p.m, q.m) && Started(p.r, q.r)
      else q.m == p.m && q.r == p.r
  {
    hide Passes, CheckBuf, RunPlan;
  }

  /** However its call is rewritten, what the replica completes is what its kernel answered. */
  lemma ExecuteAnswers(w: World, plan: Plan, p: Pair)
    requires AtEntries(p) && Execute(w, plan, p).ok
    ensures OneAnswer(w, p.r.t.role, p.r.t.done, Execute(w, plan, p).p.r.t.done)
  {
    hide Execute, Passes, CheckBuf, RunPlan, CopyInto, ReplicaCall, ReplicaTold, OutBuffer, PollBytes;
    ExecuteEffect(w, plan, p);
    var b, q := p.(buf := CheckBuf(plan, p)), Execute(w, plan, p).p;
    if HandsData(plan) {
      ExecuteData(w, plan, p);
      var km := MasterOutcome(w, p);
      var call := ReplicaCall(plan, p.r.t.regs, p.m.info.Arg(0), km.rval);
      var mem := if plan.Poll? then p.r.t.mem else CopyInto(w, plan, b, km.mem, p.r.t.mem, km.rval);
      assert AnsweredOn(w, p.r.t.role, p.r.t.done, q.r.t.done, call, mem);
    } else if !Resumes(plan) && !plan.Mmap? {
      ExecuteReturning(w, plan, p);
      ReturningEffect(w, plan, b);
    }
  }

  lemma ExecuteReturning(w: World, plan: Plan, p: Pair)
    requires Execute(w, plan, p).ok && !Resumes(plan) && !plan.Mmap? && !HandsData(plan)
    ensures plan.Replicate? || plan.CopyRet? || plan.Bind?
    ensures Execute(w, plan, p) == RunReturning(w, p.(buf := CheckBuf(plan, p)), !plan.CopyRet?)
  {
    hide Passes, CheckBuf, RunReturning;
  }

  /** Master let into the kernel at most once, with its own call, the replica at most once. */
  ghost predicate AtMostEntered(p: Pair, q: Pair) {
    && (q.m.t.entered == p.m.t.entered || q.m.t.entered == p.m.t.entered + [p.m.t.regs])
    && p.r.t.entered <= q.r.t.entered && |q.r.t.entered| <= |p.r.t.entered| + 1
  }

  lemma MasterRunEnters(w: World, p: Pair)
    requires p.m.t.phase.AtEntry?
    ensures var q := MasterRun(w, p).p; q.m.t.entered == p.m.t.entered + [p.m.t.regs] && q.r == p.r
  {
  }

  lemma ReplicaRunEnters(w: World, p: Pair)
    ensures var q := ReplicaRun(w, p).p;
      q.m == p.m && p.r.t.entered <= q.r.t.entered && |q.r.t.entered| <= |p.r.t.entered| + 1
  {
  }

  lemma RunFails(w: World, plan: Plan, p: Pair)
    requires AtEntries(p) && !RunPlan(w, plan, p).ok
    ensures AtMostEntered(p, RunPlan(w, plan, p).p)
    ensures MasterOutcome(w, p).Dies? ==> RunPlan(w, plan, p).p.r == p.r
  {
    hide MasterRun, ReplicaRun, ReplicaNop, Transferred, Loaded, ToInt, ToU64, PollBytes;
    MasterRunEnters(w, p);
    MasterRunEffect(w, p);
    var v := MasterRun(w, p);
    if v.ok && (plan.Poll? || DataFits(plan, p.m.info, v.p.m.info.ExitValue())) {
      var q, n, at := v.p, v.p.m.info.ExitValue(), OutArg(plan);
      var size := CopySize(plan, p.m.info, n);
      var c := if HandsData(plan) && Copies(plan, n) && !plan.Poll?
        then Copied(w, q, p.m.info.Arg(at), p.r.info.Arg(at), size) else q;
      if plan.CopyRet? {
        ReplicaRunEnters(w, q);
      } else if plan.Read? {
        ReplicaRunEnters(w, c.(r := c.r.WithArgs(ToU64(ToInt(p.m.info.Arg(0))), size, SEEK_CUR).WithNr(SYS_LSEEK)));
      } else {
        NopEnters(w, c);
      }
    }
  }

  lemma NopEnters(w: World, p: Pair)
    ensures var q := ReplicaNop(w, p).p;
      q.m == p.m && p.r.t.entered <= q.r.t.entered && |q.r.t.entered| <= |p.r.t.entered| + 1
  {
    hide ReplicaRun;
    ReplicaRunEnters(w, p.(r := p.r.WithNr(SYS_GETPID)));
  }

  /** However an executor fails, no variant has entered the kernel more than once; and if
      master's call did not return, the replica has not been touched. */
  lemma ExecuteFails(w: World, plan: Plan, p: Pair)
    requires AtEntries(p) && !Execute(w, plan, p).ok
    ensures AtMostEntered(p, Execute(w, plan, p).p)
    ensures MasterOutcome(w, p).Dies? && !plan.ResumeUnchecked? ==> Execute(w, plan, p).p.r == p.r
  {
    hide Passes, CheckBuf, RunPlan;
    if Passes(plan, p) {
      RunFails(w, plan, p.(buf := CheckBuf(plan, p)));
    } else {
      ExecuteFailedCheck(w, plan, p);
    }
  }
}
