/** The synchronised call by its number: when it goes ahead, what it leaves behind, and
    what whole runs are made of.  Plans do not appear in these statements. */
module Dispatch {
  import opened Words
  import opened Syscalls
  import opened Memory
  import opened Mappings
  import opened Tracees
  import opened Executors
  import opened Effects
  import opened Checks
  import opened Lockstep
  import opened Ledger
  import opened Runs
  import opened Policy
  import opened Transparency

  // ---------- what was compared ----------

  /** The two requests are the same call, as far as the monitor looks. */
  ghost predicate SeenAlike(m: Request, r: Request) {
    && m.Request? && r.Request? && m.call.nr == r.call.nr && Modelled(m.call.nr)
    && RegistersAgree(m.call.nr, m.call.args, r.call.args)
    && forall k: nat :: Readable(m.call.nr, m.call.args, m.mem, r.call.args, r.mem, k) ==>
         BytesAgree(m.call.nr, m.call.args, m.mem, r.call.args, r.mem, k)
  }

  lemma ArgumentsAreSeen(m: Request, r: Request)
    requires m.Request? && r.Request? && m.call.nr == r.call.nr
    requires ArgsAgree(PlanOf(m.call.nr), Entry(m.call), m.mem, Entry(r.call), r.mem)
    ensures SeenAlike(m, r)
  {
    hide PlanOf, ArgsAgree, RegistersAgree, Readable, BytesAgree, Modelled;
    var nr := m.call.nr;
    if !Modelled(nr) {
      OthersRefused(nr, m.call, m.mem, r.call, r.mem);
    }
    RegistersNeeded(nr, m.call, m.mem, r.call, r.mem);
    forall k: nat | Readable(nr, m.call.args, m.mem, r.call.args, r.mem, k)
      ensures BytesAgree(nr, m.call.args, m.mem, r.call.args, r.mem, k)
    {
      ArgumentsIff(nr, m.call, m.mem, r.call, r.mem, k);
    }
  }

  /** Recorded lengths are 0 all along. */
  ghost predicate ZeroLengths(table: seq<Mapping>) {
    forall e :: e in table ==> e.len == 0
  }

  lemma {:induction false} ChainedIsZero(c: Config, k: nat)
    requires Chained(c) && k < |c.syncs|
    ensures ZeroLengths(c.syncs[k].table)
    decreases k
  {
    hide TableNext, MasterResult;
    if k > 0 {
      ChainedIsZero(c, k - 1);
      assert TableAfter(c, k - 1) == TableNext(c.syncs[k - 1], MasterResult(c, k - 1));
      NextIsZero(c.syncs[k - 1], MasterResult(c, k - 1));
    }
  }

  lemma NextIsZero(s: Sync, result: I64)
    requires ZeroLengths(s.table)
    ensures ZeroLengths(TableNext(s, result))
  {
    hide ToU64, ToInt, BaseFrom;
  }

  /** Every call that went ahead was the same in both, register by register and byte by
      byte, and allowed by the table of its time. */
  lemma ComparedCallsAgree(w: World, c: Config, schedule: seq<Role>, k: nat)
    requires Initial(c) && Schedules(w, Live(c), schedule) && Run(w, Live(c), schedule).Live?
    requires k < |Run(w, Live(c), schedule).c.syncs|
    ensures var s := Run(w, Live(c), schedule).c.syncs[k];
      SeenAlike(s.m, s.r) && ZeroLengths(s.table) && TableAgrees(s.m.call.nr, s.m.call.args, s.table)
  {
    hide Run, Schedules, MasterBooks, ReplicaBooks, Pairs, Inv, Chained, SeenAlike, ZeroLengths, TableAgrees, Agreed;
    NoInvalidStateNoDeadlock(w, c, schedule);
    TablesFollowTheCalls(w, c, schedule);
    var e := Run(w, Live(c), schedule).c;
    ChainedIsZero(e, k);
    PairedAgreed(w, e, k);
    AgreedIsSeen(e.syncs[k]);
  }

  lemma AgreedIsSeen(s: Sync)
    requires Agreed(s)
    ensures SeenAlike(s.m, s.r)
    ensures ZeroLengths(s.table) ==> TableAgrees(s.m.call.nr, s.m.call.args, s.table)
  {
    hide PlanOf, ArgsAgree, PolicyAllows, SeenAlike, TableAgrees;
    ArgumentsAreSeen(s.m, s.r);
    if ZeroLengths(s.table) {
      PolicyIff(s.m.call.nr, s.m.call, s.table);
    }
  }

  /** So was every call but the last of a killed run; and if the last was not, nothing of
      it was run, except in fadvise64 and rseq. */
  lemma KilledCallsAgree(w: World, c: Config, schedule: seq<Role>)
    requires Initial(c) && Schedules(w, Live(c), schedule) && Run(w, Live(c), schedule).Killed?
    ensures var s := Run(w, Live(c), schedule);
      |s.syncs| > 0 &&
      var n, last := |s.syncs| - 1, s.syncs[|s.syncs| - 1];
      && (forall k :: 0 <= k < n ==> SeenAlike(s.syncs[k].m, s.syncs[k].r))
      && last.m.Request?
      && (!SeenAlike(last.m, last.r) && last.m.call.nr !in {SYS_FADVISE64, SYS_RSEQ} ==>
            |s.mEntered| == n == |s.rEntered|)
  {
    hide Run, Schedules, SeenAlike, Agreed;
    KilledInTime(w, c, schedule);
    var s := Run(w, Live(c), schedule);
    forall k | 0 <= k < |s.syncs| && Agreed(s.syncs[k]) ensures SeenAlike(s.syncs[k].m, s.syncs[k].r) {
      AgreedIsSeen(s.syncs[k]);
    }
    assert forall k :: 0 <= k < |s.syncs| - 1 ==> AgreedAndEntered(s.syncs[k], s.mEntered[k], s.rEntered[k]);
  }

  // ---------- when a call goes ahead ----------

  /** The result of a call that hands over a byte count can be handed over. */
  predicate CountFitsBuffer(nr: nat, n: I64) {
    nr in {SYS_READ, SYS_PREAD64, SYS_GETRANDOM} ==> 0 <= n <= 10_000_000 || (n == -1 && nr != SYS_PREAD64)
  }

  /** Where the replica's memory stands when its kernel runs the stand-in: the data has
      been copied already, except in poll. */
  ghost function Furnished(w: World, p: Pair, km: Outcome): seq<Byte>
    requires km.Returns?
  {
    var nr, n, a, b := p.m.t.regs.nr, km.rval, p.m.t.regs.args, p.r.t.regs.args;
    if nr in {SYS_READ, SYS_PREAD64} && 0 <= n <= BUF_SIZE then
      Transferred(km.mem, a[1], p.r.t.mem, b[1], n, p.buf, w.beyond)
    else if nr == SYS_GETRANDOM && 0 <= n <= BUF_SIZE then
      Transferred(km.mem, a[0], p.r.t.mem, b[0], n, p.buf, w.beyond)
    else if nr == SYS_NEWFSTATAT then Transferred(km.mem, a[2], p.r.t.mem, b[2], 144, p.buf, w.beyond)
    else p.r.t.mem
  }

  /** The call runs to its end: at once, if both run it on their own; otherwise if master's
      kernel returns with a result that fits, and then, except in mmap, the replica's. */
  ghost predicate RunsThrough(w: World, p: Pair) {
    var nr, km := p.m.t.regs.nr, MasterOutcome(w, p);
    BothRun(nr) ||
    (km.Returns? &&
     (nr == SYS_MMAP ||
      (CountFitsBuffer(nr, km.rval) &&
       ReplicaOutcome(w, p, StandIn(nr, p.r.t.regs, p.m.t.regs.args[0], km.rval), Furnished(w, p, km)).Returns?)))
  }

  lemma DataFitsIs(nr: nat, m: Info, n: I64)
    requires nr == SYS_POLL ==> m.Entry? && ArraySize(m.call.args[1]) <= 10_000_000
    ensures DataFits(PlanOf(nr), m, n) <==> CountFitsBuffer(nr, n)
  {
    hide PlanOf, ToU64, PollBytes, ArraySize;
    PlanTable(nr);
    RegisterRoundTrip(n);
    UnsignedIs(n);
    if m.Entry? {
      ArraySizeIs(m.call.args[1]);
    }
  }

  lemma FurnishedIs(w: World, nr: nat, p: Pair, km: Outcome)
    requires AtEntries(p) && nr == p.m.t.regs.nr == p.r.t.regs.nr && km.Returns? && CountFitsBuffer(nr, km.rval)
    requires Modelled(nr) && !OwnCall(nr)
    ensures ReplicaFinds(w, PlanOf(nr), p, km) == Furnished(w, p, km)
  {
    hide PlanOf, ToU64, Transferred, PollBytes;
    PlanTable(nr);
    UnsignedIs(km.rval);
  }

  /** The buffer the checks load does not matter where data is copied before the replica runs. */
  lemma CheckedBuffer(nr: nat, p: Pair)
    requires nr !in {SYS_BIND, SYS_POLL}
    ensures CheckBuf(PlanOf(nr), p) == p.buf
  {
    hide PlanOf;
    PlanTable(nr);
  }

  lemma RunsThroughIs(w: World, p: Pair)
    requires AtEntries(p) && p.m.t.regs.nr == p.r.t.regs.nr && Modelled(p.m.t.regs.nr) && !OwnCall(p.m.t.regs.nr)
    requires p.m.t.regs.nr == SYS_POLL ==> ArraySize(p.m.t.regs.args[1]) <= 10_000_000
    ensures GoesThrough(w, PlanOf(p.m.t.regs.nr), p) <==> RunsThrough(w, p)
  {
    hide PlanOf, DataFits, CountFitsBuffer, ReplicaFinds, Furnished, StandIn, ReplicaCall, Modelled, ArraySize;
    var nr, km := p.m.t.regs.nr, MasterOutcome(w, p);
    OwnPlans(nr);
    DataFitsIs(nr, p.m.info, if km.Returns? then km.rval else 0);
    if km.Returns? && CountFitsBuffer(nr, km.rval) {
      FurnishedIs(w, nr, p, km);
      StandInIs(nr, p.r.t.regs, p.m.t.regs.args[0], km.rval);
    }
  }

  lemma OwnPlans(nr: nat)
    requires Modelled(nr)
    ensures OwnCall(nr) <==> RunsOwn(PlanOf(nr))
    ensures !OwnCall(nr) ==> !RunsAlone(PlanOf(nr)) && !BothRun(nr) && nr != SYS_MMAP
    ensures !OwnCall(nr) <==> PlanOf(nr).Replicate? || PlanOf(nr).CopyRet? || PlanOf(nr).Bind? || HandsData(PlanOf(nr))
  {
    hide PlanOf;
    PlanTable(nr);
  }

  /** The executor goes ahead, for any two calls with the same number, exactly when their
      registers agree, the bytes they point at agree, the table agrees, and the call runs
      to its end. */
  lemma GoesAheadIff(w: World, p: Pair, k: nat)
    requires AtEntries(p) && p.m.t.regs.nr == p.r.t.regs.nr && Modelled(p.m.t.regs.nr) && ZeroLengths(p.table)
    requires Readable(p.m.t.regs.nr, p.m.t.regs.args, p.m.t.mem, p.r.t.regs.args, p.r.t.mem, k)
    ensures var nr, a, b := p.m.t.regs.nr, p.m.t.regs.args, p.r.t.regs.args;
      Execute(w, PlanOf(nr), p).ok <==>
        && RegistersAgree(nr, a, b) && BytesAgree(nr, a, p.m.t.mem, b, p.r.t.mem, k) && TableAgrees(nr, a, p.table)
        && RunsThrough(w, p)
  {
    hide PlanOf, CheckBuf, ArgsAgree, RegistersAgree, BytesAgree, TableAgrees, PolicyAllows, ZeroLengths, RunsThrough;
    hide Modelled, Readable;
    var nr := p.m.t.regs.nr;
    ArgumentsIff(nr, p.m.t.regs, p.m.t.mem, p.r.t.regs, p.r.t.mem, k);
    ZeroPolicyIff(nr, p.m.t.regs, p.table);
    PassedRunsIff(w, p, k);
    BufferIsIdle(w, p);
  }

  /** What the checks left in the transfer buffer does not decide. */
  lemma BufferIsIdle(w: World, p: Pair)
    ensures RunsThrough(w, p.(buf := CheckBuf(PlanOf(p.m.t.regs.nr), p))) <==> RunsThrough(w, p)
  {
    hide CheckBuf, StandIn, Transferred, CountFitsBuffer, BothRun;
    var nr := p.m.t.regs.nr;
    if nr !in {SYS_BIND, SYS_POLL} {
      CheckedBuffer(nr, p);
    }
  }

  lemma ZeroPolicyIff(nr: nat, a: Call, table: seq<Mapping>)
    requires ZeroLengths(table)
    ensures PolicyAllows(PlanOf(nr), Entry(a), table) <==> TableAgrees(nr, a.args, table)
  {
    hide PlanOf, PolicyAllows, TableAgrees;
    PolicyIff(nr, a, table);
  }

  lemma PassedRunsIff(w: World, p: Pair, k: nat)
    requires AtEntries(p) && p.m.t.regs.nr == p.r.t.regs.nr && Modelled(p.m.t.regs.nr)
    ensures var plan := PlanOf(p.m.t.regs.nr);
      Execute(w, plan, p).ok <==> Passes(plan, p) && RunsThrough(w, p.(buf := CheckBuf(plan, p)))
  {
    hide PlanOf, CheckBuf, Passes, RunPlan, RunsThrough, Modelled, OwnCall;
    var nr := p.m.t.regs.nr;
    var plan := PlanOf(nr);
    var q := p.(buf := CheckBuf(plan, p));
    OwnPlans(nr);
    if OwnCall(nr) {
      OwnRunsIff(w, q);
      UncheckedRuns(w, q);
    } else if Passes(plan, p) {
      PassesRegisters(p);
      RunsThroughIs(w, q);
      PlanRunsIff(w, plan, q);
    }
  }

  lemma PassesRegisters(p: Pair)
    requires AtEntries(p) && Modelled(p.m.t.regs.nr) && Passes(PlanOf(p.m.t.regs.nr), p)
    ensures p.m.t.regs.nr == SYS_POLL ==> ArraySize(p.m.t.regs.args[1]) <= 10_000_000
  {
    hide PlanOf, ArgsAgree, PolicyAllows, ArraySize;
    RegistersNeeded(p.m.t.regs.nr, p.m.t.regs, p.m.t.mem, p.r.t.regs, p.r.t.mem);
  }

  lemma PlanRunsIff(w: World, plan: Plan, p: Pair)
    requires AtEntries(p) && (plan.Replicate? || plan.CopyRet? || plan.Bind? || HandsData(plan))
    ensures RunPlan(w, plan, p).ok <==> GoesThrough(w, plan, p)
  {
    hide GoesThrough, RunReturning, RunRead, RunPread, RunGetRandom, RunPoll, RunFstat;
    if HandsData(plan) {
      DataRunsIff(w, plan, p);
    } else {
      ReturningIff(w, plan, p);
    }
  }

  lemma DataRunsIff(w: World, plan: Plan, p: Pair)
    requires AtEntries(p) && HandsData(plan)
    ensures RunPlan(w, plan, p).ok <==> GoesThrough(w, plan, p)
  {
    hide GoesThrough, RunRead, RunPread, RunGetRandom, RunPoll, RunFstat;
    if plan.Poll? {
      PollIff(w, p);
    } else if plan.Read? {
      ReadIff(w, p);
    } else {
      NopIff(w, plan, p);
    }
  }

  lemma OwnRunsIff(w: World, p: Pair)
    requires AtEntries(p) && OwnCall(p.m.t.regs.nr)
    ensures RunPlan(w, PlanOf(p.m.t.regs.nr), p).ok <==> RunsThrough(w, p)
  {
    hide PlanOf, Furnished, StandIn, ToInt, ToU64;
    PlanTable(p.m.t.regs.nr);
    MasterRunEffect(w, p);
  }

  lemma UncheckedRuns(w: World, p: Pair)
    ensures PlanOf(p.m.t.regs.nr).ResumeUnchecked? ==> RunsThrough(w, p)
  {
    hide PlanOf, Furnished, StandIn;
    PlanTable(p.m.t.regs.nr);
  }

  // ---------- one event, by number ----------

  /** At the event with which both variants have arrived: what each asks for. */
  function Asked(w: World, c: Config, who: Role): Request {
    w.prog(who, c.Of(who).t.past)
  }

  /** The event that completes the pair goes ahead exactly when the reference says so;
      otherwise it kills both. */
  lemma ArrivalGoesAheadIff(w: World, c: Config, who: Role, k: nat)
    requires Inv(w, c) && Arrives(c, who) && Asked(w, c, who).Request? && ZeroLengths(c.p.table)
    requires var m, r := Asked(w, c, Master), Asked(w, c, Replica);
      && m.Request? && r.Request? && m.call.nr == r.call.nr && Modelled(m.call.nr)
      && Readable(m.call.nr, m.call.args, m.mem, r.call.args, r.mem, k)
    ensures var m, r := Asked(w, c, Master), Asked(w, c, Replica);
      var nr, a, b := m.call.nr, m.call.args, r.call.args;
      var goes := RegistersAgree(nr, a, b) && BytesAgree(nr, a, m.mem, b, r.mem, k) && TableAgrees(nr, a, c.p.table)
        && RunsThrough(w, AtStop(w, c, who).p);
      if goes then Step(w, c, who).Live? else Step(w, c, who).Killed?
  {
    hide Step, SyncStep, RegistersAgree, BytesAgree, TableAgrees, RunsThrough, Modelled, Readable, ZeroLengths;
    hide Execute, PlanOf;
    ArrivalEvent(w, c, who);
    var s := AtStop(w, c, who);
    assert s.Of(Master).t.past == c.Of(Master).t.past && s.Of(Replica).t.past == c.Of(Replica).t.past;
    GoesAheadIff(w, s.p, k);
    SyncFollows(w, s);
  }

  lemma SyncFollows(w: World, c: Config)
    requires Ready(w, c) && c.p.m.t.asked.nr == c.p.r.t.asked.nr && Modelled(c.p.m.t.asked.nr)
    ensures if Execute(w, PlanOf(c.p.m.t.asked.nr), c.p).ok then SyncStep(w, c).Live? else SyncStep(w, c).Killed?
  {
    hide Execute, PlanOf;
    ResumesAre(c.p.m.t.asked.nr);
  }

  /** The tables of reachable states have lengths 0 only. */
  lemma ReachedTables(w: World, c: Config, schedule: seq<Role>)
    requires Initial(c) && Schedules(w, Live(c), schedule) && Run(w, Live(c), schedule).Live?
    ensures ZeroLengths(Run(w, Live(c), schedule).c.p.table)
  {
    hide Run, Schedules, PermsAllowed;
    TableStaysSafe(w, c, schedule);
  }

  /** A munmap goes ahead exactly when the lengths are the same and its address is a base
      that the table still lists; then that entry, and no other, is gone. */
  lemma MunmapGoesAheadIff(w: World, c: Config, who: Role)
    requires Inv(w, c) && Arrives(c, who) && ZeroLengths(c.p.table)
    requires Asked(w, c, Master).Request? && Asked(w, c, Replica).Request?
    requires Asked(w, c, Master).call.nr == SYS_MUNMAP == Asked(w, c, Replica).call.nr
    ensures var a, b, s := Asked(w, c, Master).call.args, Asked(w, c, Replica).call.args, Step(w, c, who);
      if a[1] == b[1] && exists i :: 0 <= i < |c.p.table| && c.p.table[i].addr == a[0]
      then s.Live? && s.c.p.table == Removed(c.p.table, a[0])
      else s.Killed?
  {
    hide Step, SyncStep, RunsThrough, ZeroLengths, PlanOf, Removed, Ready, AtStop, Readable, BytesAgree;
    NothingToRead(w, c);
    ArrivalGoesAheadIff(w, c, who, 0);
    AlwaysThrough(w, AtStop(w, c, who).p, c, who);
    if Step(w, c, who).Live? {
      MunmapRemoves(w, c, who);
    }
  }

  lemma NothingToRead(w: World, c: Config)
    ensures forall a: Args, b: Args, am: seq<Byte>, bm: seq<Byte> ::
      Readable(SYS_MUNMAP, a, am, b, bm, 0) && BytesAgree(SYS_MUNMAP, a, am, b, bm, 0)
  {
  }

  lemma AlwaysThrough(w: World, p: Pair, c: Config, who: Role)
    requires Inv(w, c) && Arrives(c, who) && Asked(w, c, who).Request? && p == AtStop(w, c, who).p
    requires BothRun(Asked(w, c, Master).call.nr)
    ensures RunsThrough(w, p)
  {
    hide Step, BothRun, Furnished, StandIn, SyncStep;
    ArrivalEvent(w, c, who);
    var s := AtStop(w, c, who);
    assert s.Of(Master).t.past == c.Of(Master).t.past;
  }

  lemma MunmapRemoves(w: World, c: Config, who: Role)
    requires Inv(w, c) && Arrives(c, who) && Step(w, c, who).Live?
    requires Asked(w, c, Master).Request? && Asked(w, c, Master).call.nr == SYS_MUNMAP && Asked(w, c, who).Request?
    ensures Step(w, c, who).c.p.table == Removed(c.p.table, Asked(w, c, Master).call.args[0])
  {
    hide Step, SyncStep, PlanOf, Removed, UnmapAllowed;
    ArrivalEvent(w, c, who);
    var s := AtStop(w, c, who);
    assert s.Of(Master).t.past == c.Of(Master).t.past;
    PlansOfMappings(SYS_MUNMAP);
    SyncTable(w, s);
  }

  /** Calls that are not the same, or have no executor, kill both variants with nothing of
      them run, except for fadvise64 and rseq. */
  lemma OtherwiseKilled(w: World, c: Config, who: Role)
    requires Inv(w, c) && Arrives(c, who) && Asked(w, c, who).Request?
    requires !SeenAlike(Asked(w, c, Master), Asked(w, c, Replica)) && !LeftOut(Asked(w, c, Master).call.nr)
    ensures var m, r, s := Asked(w, c, Master), Asked(w, c, Replica), Step(w, c, who);
      && s.Killed?
      && if m.call.nr == r.call.nr && m.call.nr in {SYS_FADVISE64, SYS_RSEQ}
         then s.mEntered == c.p.m.t.entered + [m.call] && s.rEntered == c.p.r.t.entered + [r.call]
         else s.mEntered == c.p.m.t.entered && s.rEntered == c.p.r.t.entered
  {
    hide Step, SyncStep, PlanOf, ArgsAgree, PolicyAllows, SeenAlike;
    ArrivalEvent(w, c, who);
    var s := AtStop(w, c, who);
    assert s.Of(Master).t.past == c.Of(Master).t.past && s.Of(Replica).t.past == c.Of(Replica).t.past;
    var m, r := Asked(w, c, Master), Asked(w, c, Replica);
    ResumesAre(m.call.nr);
    if m.call.nr == r.call.nr && Passes(PlanOf(m.call.nr), s.p) {
      ArgumentsAreSeen(m, r);
    }
    RefusalIsInTime(w, c, who);
  }

  // ---------- what the call leaves ----------

  /** What a synchronised call that went ahead has left, by its number. */
  ghost predicate WentAhead(nr: nat, p: Pair, q: Pair) {
    var m, r, n := p.m.t, p.r.t, LastResult(q.m);
    if BothRun(nr) then
      && q.m.t.phase.InKernel? && q.m.num == p.m.num && q.m.t.entered == m.entered + [m.regs] && q.m.t.done == m.done
      && q.r.t.phase.InKernel? && q.r.num == p.r.num && q.r.t.entered == r.entered + [r.regs] && q.r.t.done == r.done
    else
      && q.m.t.phase.User? && q.m.num == p.m.num + (if nr == SYS_GETRANDOM then 0 else 1)
      && q.m.t.done == m.done + [Done(m.regs, n)] && |q.m.t.past| == |m.past| + 1 && q.m.t.past[|m.past|].rval == n
      && if nr == SYS_MMAP then
           q.r.t.phase.InKernel? && q.r.num == p.r.num && q.r.t.entered == r.entered + [r.regs] && q.r.t.done == r.done
         else
           && q.r.t.phase.User? && q.r.num == p.r.num + (if nr == SYS_GETRANDOM then 0 else 1)
           && q.r.t.done == r.done + [Done(StandIn(nr, r.regs, m.regs.args[0], n), LastResult(q.r))]
           && |q.r.t.past| == |r.past| + 1 && q.r.t.past[|r.past|].rval == if HandsOnWhole(nr) then n else LowHalf(n)
  }

  lemma GoesAheadAs(w: World, p: Pair)
    requires AtEntries(p) && p.m.t.regs.nr == p.r.t.regs.nr && Modelled(p.m.t.regs.nr)
    requires Execute(w, PlanOf(p.m.t.regs.nr), p).ok
    ensures WentAhead(p.m.t.regs.nr, p, Execute(w, PlanOf(p.m.t.regs.nr), p).p)
  {
    hide Execute, PlanOf, Passes, OutBuffer, StandIn, LowHalf, ReplicaCall, ReplicaTold, Modelled, Counted;
    var nr := p.m.t.regs.nr;
    ExecuteEffect(w, PlanOf(nr), p);
    ResumesAre(nr);
    OwnPlans(nr);
    PlansOfMappings(nr);
    CountedIs(nr);
    if !OwnCall(nr) {
      var n := LastResult(Execute(w, PlanOf(nr), p).p.m);
      StandInIs(nr, p.r.t.regs, p.m.t.regs.args[0], n);
      ToldIs(nr, n);
    }
  }

  /** Where the data of a call lies in master and in the replica, and how much of it there
      is when master's result is `n`. */
  ghost predicate DataLies(nr: nat, a: Args, b: Args, n: I64, from: nat, to: nat, size: nat) {
    if nr == SYS_READ || nr == SYS_PREAD64 then from == a[1] && to == b[1] && size == n
    else if nr == SYS_GETRANDOM then from == a[0] && to == b[0] && size == n
    else if nr == SYS_POLL then from == a[0] && to == b[0] && size == ArraySize(a[1])
    else nr == SYS_NEWFSTATAT && from == a[2] && to == b[2] && size == 144
  }

  lemma DataIsCopied(w: World, p: Pair, n: I64, from: nat, to: nat, size: nat, src: seq<Byte>, dst: seq<Byte>)
    requires AtEntries(p) && p.m.t.regs.nr == p.r.t.regs.nr && size <= BUF_SIZE
    requires DataLies(p.m.t.regs.nr, p.m.t.regs.args, p.r.t.regs.args, n, from, to, size)
    requires WholeWords(size) && from + Footprint(size) <= |src| && to + WriteSpan(size) <= |dst|
    ensures HandsData(PlanOf(p.m.t.regs.nr))
    ensures CopyInto(w, PlanOf(p.m.t.regs.nr), p, src, dst, n) == dst[..to] + src[from..from + size] + dst[to + size..]
  {
    hide PlanOf, Transferred, PollBytes, ArraySize, WholeWords, Footprint, WriteSpan;
    var nr := p.m.t.regs.nr;
    PlanTable(nr);
    UnsignedIs(n);
    ArraySizeIs(p.m.t.regs.args[1]);
    TransferExact(src, from, dst, to, size, p.buf, w.beyond);
  }

  /** After read, pread64, getrandom, poll and newfstatat the replica's memory is what it
      was, but for the out-buffer, which holds master's bytes: whole words, mapped on both
      sides, and a stand-in that leaves memory alone. */
  lemma DataHandedOver(w: World, p: Pair, from: nat, to: nat, size: nat)
    requires AtEntries(p) && p.m.t.regs.nr == p.r.t.regs.nr && p.r.t.role == Replica
    requires Execute(w, PlanOf(p.m.t.regs.nr), p).ok && MasterOutcome(w, p).Returns?
    requires var nr, n := p.m.t.regs.nr, MasterOutcome(w, p).rval;
      && DataLies(nr, p.m.t.regs.args, p.r.t.regs.args, n, from, to, size) && size <= BUF_SIZE
      && Quiet(w, p.r.t.done, StandIn(nr, p.r.t.regs, p.m.t.regs.args[0], n))
    requires WholeWords(size)
    requires from + Footprint(size) <= |MasterOutcome(w, p).mem| && to + WriteSpan(size) <= |p.r.t.mem|
    ensures var q, km := Execute(w, PlanOf(p.m.t.regs.nr), p).p, MasterOutcome(w, p);
      && q.m.t.mem == km.mem
      && q.r.t.mem == p.r.t.mem[..to] + km.mem[from..from + size] + p.r.t.mem[to + size..]
  {
    hide Execute, PlanOf, CopyInto, StandIn, ReplicaCall, WholeWords, Footprint, WriteSpan, Quiet, CheckBuf;
    var nr, km := p.m.t.regs.nr, MasterOutcome(w, p);
    var plan, b := PlanOf(nr), p.(buf := CheckBuf(PlanOf(nr), p));
    DataIsCopied(w, b, km.rval, from, to, size, km.mem, p.r.t.mem);
    ExecuteData(w, plan, p);
    StandInIs(nr, p.r.t.regs, p.m.t.regs.args[0], km.rval);
    var call := ReplicaCall(plan, p.r.t.regs, p.m.info.Arg(0), km.rval);
    QuietOutcome(w, p, call, p.r.t.mem);
    QuietOutcome(w, p, call, CopyInto(w, plan, b, km.mem, p.r.t.mem, km.rval));
  }

  // ---------- the count of calls ----------

  /** The calls that advance `syscallNum`: all but getrandom. */
  function Advancing(syncs: seq<Sync>): nat {
    if syncs == [] then 0
    else
      var last := syncs[|syncs| - 1];
      Advancing(syncs[..|syncs| - 1]) + if last.m.Request? && last.m.call.nr == SYS_GETRANDOM then 0 else 1
  }

  lemma AdvancingStep(syncs: seq<Sync>, s: Sync)
    ensures Advancing(syncs + [s]) == Advancing(syncs) + if s.m.Request? && s.m.call.nr == SYS_GETRANDOM then 0 else 1
  {
    assert (syncs + [s])[..|syncs|] == syncs;
  }

  /** `syscallNum` counts the completed calls other than getrandom. */
  ghost predicate NumbersCount(c: Config) {
    && |c.p.m.t.past| <= |c.syncs| && c.p.m.num == Advancing(c.syncs[..|c.p.m.t.past|])
    && |c.p.r.t.past| <= |c.syncs| && c.p.r.num == Advancing(c.syncs[..|c.p.r.t.past|])
  }

  lemma OneMoreCounts(syncs: seq<Sync>, n: nat)
    requires n < |syncs|
    ensures Advancing(syncs[..n + 1]) == Advancing(syncs[..n]) +
      if syncs[n].m.Request? && syncs[n].m.call.nr == SYS_GETRANDOM then 0 else 1
  {
    assert syncs[..n] + [syncs[n]] == syncs[..n + 1];
    AdvancingStep(syncs[..n], syncs[n]);
  }

  lemma StepCountsNumbers(w: World, c: Config, who: Role)
    requires Inv(w, c) && Books(w, c) && Enabled(c, who) && NumbersCount(c) && Step(w, c, who).Live?
    ensures NumbersCount(Step(w, c, who).c)
  {
    hide Step, SyncStep, OutBuffer, Advancing, Pairs, MasterLine, ReplicaLine, PlanOf;
    if c.Of(who).t.phase.InKernel? {
      ExitEvent(w, c, who);
      OneMoreCounts(c.syncs, |c.Of(who).t.past|);
      ResumesAre(c.syncs[|c.Of(who).t.past|].m.call.nr);
      RunsOwnIs(c.syncs[|c.Of(who).t.past|].m.call.nr);
    } else if !c.Of(who.Other()).t.phase.AtEntry? {
      EntryEvent(w, c, who);
    } else {
      ArrivalEvent(w, c, who);
      SyncCountsNumbers(w, c, AtStop(w, c, who));
    }
  }

  lemma SyncCountsNumbers(w: World, c: Config, s: Config)
    requires Inv(w, c) && NumbersCount(c) && Ready(w, s) && SyncStep(w, s).Live? && s.syncs == c.syncs
    requires forall x: Role :: s.Of(x).num == c.Of(x).num && s.Of(x).t.past == c.Of(x).t.past
    ensures NumbersCount(SyncStep(w, s).c)
  {
    hide SyncStep, OutBuffer, Advancing, PlanOf, Execute, Passes, StandIn, LowHalf, Effect, Modelled;
    assert s.Of(Master).num == c.Of(Master).num && s.Of(Replica).num == c.Of(Replica).num;
    assert s.Of(Master).t.past == c.Of(Master).t.past && s.Of(Replica).t.past == c.Of(Replica).t.past;
    var n, nr := |c.syncs|, s.p.m.t.asked.nr;
    SyncEffect(w, s);
    PassedIsModelled(s);
    GoesAheadAs(w, s.p);
    var c' := SyncStep(w, s).c;
    assert c'.syncs[..n] == c.syncs == c.syncs[..n] && c'.syncs[..n + 1] == c'.syncs;
    OneMoreCounts(c'.syncs, n);
    PastGrows(w, s.p, nr);
  }

  lemma PassedIsModelled(s: Config)
    requires AtEntries(s.p) && Passes(PlanOf(s.p.m.t.regs.nr), s.p)
    ensures Modelled(s.p.m.t.regs.nr)
  {
    hide PlanOf, ArgsAgree, PolicyAllows, Modelled;
    if !Modelled(s.p.m.t.regs.nr) {
      OthersRefused(s.p.m.t.regs.nr, s.p.m.t.regs, s.p.m.t.mem, s.p.r.t.regs, s.p.r.t.mem);
    }
  }

  /** A variant that was only let into the kernel has been told nothing yet. */
  lemma PastGrows(w: World, p: Pair, nr: nat)
    requires AtEntries(p) && nr == p.m.t.regs.nr == p.r.t.regs.nr && Modelled(nr) && Execute(w, PlanOf(nr), p).ok
    ensures var q := Execute(w, PlanOf(nr), p).p;
      && (q.m.t.phase.InKernel? ==> q.m.t.past == p.m.t.past)
      && (q.r.t.phase.InKernel? ==> q.r.t.past == p.r.t.past)
  {
    hide Execute, PlanOf, Passes, OutBuffer, ReplicaCall, ReplicaTold, Modelled, Counted;
    ExecuteEffect(w, PlanOf(nr), p);
  }

  lemma {:induction false} RunCountsNumbers(w: World, c: Config, schedule: seq<Role>)
    requires Inv(w, c) && Books(w, c) && NumbersCount(c)
    requires Schedules(w, Live(c), schedule) && Run(w, Live(c), schedule).Live?
    ensures NumbersCount(Run(w, Live(c), schedule).c)
    decreases |schedule|
  {
    hide Step, Inv, Books, NumbersCount;
    if schedule != [] {
      StepKeepsInv(w, c, schedule[0]);
      StepKeepsBooks(w, c, schedule[0]);
      StepCountsNumbers(w, c, schedule[0]);
      RunCountsNumbers(w, Step(w, c, schedule[0]).c, schedule[1..]);
    }
  }

  /** In every reachable live state each `syscallNum` is the number of calls that the
      variant has completed, getrandom not counted. */
  lemma NumbersCountCalls(w: World, c: Config, schedule: seq<Role>)
    requires Initial(c) && Schedules(w, Live(c), schedule) && Run(w, Live(c), schedule).Live?
    ensures NumbersCount(Run(w, Live(c), schedule).c)
  {
    hide Run, Schedules;
    InitialBooks(w, c);
    RunCountsNumbers(w, c, schedule);
  }
}
