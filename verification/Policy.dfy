/** The mapping policy over whole runs: nothing shared is ever writable, as far as
    the table can tell, and when the table can tell. */
module Policy {
  import opened Words
  import opened Syscalls
  import opened Mappings
  import opened Memory
  import opened Tracees
  import opened Executors
  import opened Effects
  import opened Lockstep
  import opened Ledger
  import opened Runs
  import opened Native
  import opened AddressSpace

  // ---------- the table ----------

  /** No entry is writable without MAP_PRIVATE; and every recorded length is 0. */
  ghost predicate TableSafe(table: seq<Mapping>) {
    forall e :: e in table ==> PermsAllowed(e.prot, e.flags) && e.len == 0
  }

  /** How one synchronised call changes the table. */
  lemma SyncTable(w: World, c: Config)
    requires Ready(w, c) && SyncStep(w, c).Live?
    ensures var table, table', args, plan :=
        c.p.table, SyncStep(w, c).c.p.table, c.p.m.t.asked.args, PlanOf(c.p.m.t.asked.nr);
      if plan.Mmap? then
        && PermsAllowed(ToInt(args[2]), ToInt(args[3]))
        && table' == table + [Mapping(ToU64(LastResult(SyncStep(w, c).c.p.m)), 0, ToInt(args[2]), ToInt(args[3]))]
      else if plan.Munmap? then UnmapAllowed(table, args[0]) && table' == Removed(table, args[0])
      else table' == table && (plan.Mprotect? ==> ProtectAllowed(table, args[0], ToInt(args[2])))
  {
    hide SyncStep, Execute, PlanOf, ArgsAgree, PermsAllowed, UnmapAllowed, ProtectAllowed, Removed, Effect, ToU64,
        ToInt;
    SyncEffect(w, c);
    var plan := PlanOf(c.p.m.t.asked.nr);
    ExecuteTable(w, plan, c.p);
  }

  lemma ExecuteTable(w: World, plan: Plan, p: Pair)
    requires AtEntries(p) && Execute(w, plan, p).ok
    ensures var q, a := Execute(w, plan, p).p, p.m.info;
      q.table ==
        if plan.Mmap? then p.table + [Mapping(ToU64(LastResult(q.m)), 0, ToInt(a.Arg(2)), ToInt(a.Arg(3)))]
        else if plan.Munmap? then Removed(p.table, a.Arg(0))
        else p.table
  {
    hide Passes, CheckBuf, Resumed, Stopped, Transferred, Loaded, Completed, Removed, ToU64, ToInt, PollBytes, InfoOf;
    if plan.Mmap? {
      MmapEffect(w, p.(buf := CheckBuf(plan, p)));
    }
  }

  lemma StepTableSafe(w: World, c: Config, who: Role)
    requires Inv(w, c) && Enabled(c, who) && TableSafe(c.p.table) && Step(w, c, who).Live?
    ensures TableSafe(Step(w, c, who).c.p.table)
  {
    hide Step, SyncStep, PlanOf, PermsAllowed, UnmapAllowed, ProtectAllowed, ToInt, ToU64;
    if c.Of(who).t.phase.InKernel? {
      ExitEvent(w, c, who);
    } else if !c.Of(who.Other()).t.phase.AtEntry? {
      EntryEvent(w, c, who);
    } else {
      ArrivalEvent(w, c, who);
      SyncTable(w, AtStop(w, c, who));
    }
  }

  /** In every reachable live state no table entry is writable without MAP_PRIVATE. */
  lemma {:induction false} TableStaysSafe(w: World, c: Config, schedule: seq<Role>)
    requires Inv(w, c) && TableSafe(c.p.table) && Schedules(w, Live(c), schedule) && Run(w, Live(c), schedule).Live?
    ensures TableSafe(Run(w, Live(c), schedule).c.p.table)
    decreases |schedule|
  {
    hide Step, Inv, TableSafe;
    if schedule != [] {
      StepKeepsInv(w, c, schedule[0]);
      StepTableSafe(w, c, schedule[0]);
      TableStaysSafe(w, Step(w, c, schedule[0]).c, schedule[1..]);
    }
  }

  /** In such a table, munmap removes the very entry it looked up. */
  lemma UnmapRemovesFound(table: seq<Mapping>, target: U64)
    requires TableSafe(table) && UnmapAllowed(table, target)
    ensures Removed(table, target) == Without(table, FindIndex(table, target))
  {
    hide FindFrom, BaseFrom, PermsAllowed, Covers;
    assert forall j :: 0 <= j < |table| ==> table[j] in table && !Wraps(table[j]);
    RemovesWhatItFound(table, target);
  }

  // ---------- the table a call finds ----------

  /** The table after a synchronised call, when master's kernel answers it with `result`. */
  function TableNext(s: Sync, result: I64): seq<Mapping> {
    if !s.m.Request? then s.table
    else
      var nr, a := s.m.call.nr, s.m.call.args;
      if nr == SYS_MMAP then s.table + [Mapping(ToU64(result), 0, ToInt(a[2]), ToInt(a[3]))]
      else if nr == SYS_MUNMAP then Removed(s.table, a[0])
      else s.table
  }

  function TableAfter(c: Config, k: nat): seq<Mapping>
    requires k < |c.syncs|
  {
    if k + 1 < |c.syncs| then c.syncs[k + 1].table else c.p.table
  }

  /** The log's tables follow from its calls and master's results, from the empty table on. */
  ghost predicate Chained(c: Config) {
    && (if |c.syncs| == 0 then c.p.table else c.syncs[0].table) == []
    && forall k :: 0 <= k < |c.syncs| ==> TableAfter(c, k) == TableNext(c.syncs[k], MasterResult(c, k))
  }

  lemma SyncChains(w: World, c: Config)
    requires Ready(w, c) && SyncStep(w, c).Live? && Chained(c)
    ensures Chained(SyncStep(w, c).c)
  {
    hide SyncStep, Execute, PlanOf, Passes, UnmapAllowed, ProtectAllowed, PermsAllowed, ReplicaCall, ReplicaTold,
        Removed;
    hide ToU64, ToInt, OutBuffer;
    SyncTable(w, c);
    SyncEffect(w, c);
    PlansOfMappings(c.p.m.t.asked.nr);
    var c', n := SyncStep(w, c).c, |c.syncs|;
    forall k | 0 <= k < n ensures TableAfter(c', k) == TableNext(c'.syncs[k], MasterResult(c', k)) {
      assert TableAfter(c, k) == TableNext(c.syncs[k], MasterResult(c, k));
    }
  }

  lemma StillChained(c: Config, c': Config)
    requires Chained(c) && c'.syncs == c.syncs && c'.p.table == c.p.table
    requires forall k :: 0 <= k < |c.syncs| ==>
        TableNext(c.syncs[k], MasterResult(c', k)) == TableNext(c.syncs[k], MasterResult(c, k))
    ensures Chained(c')
  {
    hide TableNext, MasterResult;
    forall k | 0 <= k < |c.syncs| ensures TableAfter(c', k) == TableNext(c'.syncs[k], MasterResult(c', k)) {
      assert TableAfter(c, k) == TableNext(c.syncs[k], MasterResult(c, k));
    }
  }

  lemma StepChains(w: World, c: Config, who: Role)
    requires Inv(w, c) && Books(w, c) && Enabled(c, who) && Chained(c) && Step(w, c, who).Live?
    ensures Chained(Step(w, c, who).c)
  {
    hide Step, SyncStep, OutBuffer, TableNext, MasterBooks, ReplicaBooks, Pairs, Chained;
    var c' := Step(w, c, who).c;
    if c.Of(who).t.phase.InKernel? {
      ExitEvent(w, c, who);
      forall k | 0 <= k < |c.syncs|
        ensures TableNext(c.syncs[k], MasterResult(c', k)) == TableNext(c.syncs[k], MasterResult(c, k))
      {
        ResultMatters(c, c', who, k);
      }
      StillChained(c, c');
    } else if !c.Of(who.Other()).t.phase.AtEntry? {
      EntryEvent(w, c, who);
      StillChained(c, c');
    } else {
      ArrivalEvent(w, c, who);
      var s := AtStop(w, c, who);
      assert s.Of(Master).t.done == c.Of(Master).t.done;
      StillChained(c, s);
      SyncChains(w, s);
    }
  }

  /** Only mmap's result shows in the table, and that is known when mmap is synchronised. */
  lemma ResultMatters(c: Config, c': Config, who: Role, k: nat)
    requires MasterBooks(c) && k < |c.syncs| && c'.syncs == c.syncs && c.Of(who).t.phase.InKernel?
    requires c.p.m.t.done <= c'.p.m.t.done
    requires who == Replica ==> c'.p.m == c.p.m
    ensures TableNext(c'.syncs[k], MasterResult(c', k)) == TableNext(c.syncs[k], MasterResult(c, k))
  {
    hide PlanOf, MasterLine, ToU64, ToInt, Removed;
    if c.syncs[k].m.Request? {
      PlansOfMappings(c.syncs[k].m.call.nr);
    }
  }

  lemma PairedAgreed(w: World, c: Config, k: nat)
    requires Inv(w, c) && Pairs(w, c) && k < |c.syncs|
    ensures Agreed(c.syncs[k])
  {
    hide Agreed;
    assert Paired(w, c, k);
  }

  lemma {:induction false} RunChains(w: World, c: Config, schedule: seq<Role>)
    requires Inv(w, c) && Books(w, c) && Chained(c)
    requires Schedules(w, Live(c), schedule) && Run(w, Live(c), schedule).Live?
    ensures var e := Run(w, Live(c), schedule).c;
      && Chained(e)
      && forall k :: 0 <= k < |e.syncs| ==>
           e.syncs[k].m.Request?
               && PolicyAllows(PlanOf(e.syncs[k].m.call.nr), Entry(e.syncs[k].m.call), e.syncs[k].table)
    decreases |schedule|
  {
    hide Step, Inv, Chained, MasterBooks, ReplicaBooks, PlanOf, PolicyAllows, ArgsAgree;
    if schedule != [] {
      StepKeepsInv(w, c, schedule[0]);
      StepKeepsBooks(w, c, schedule[0]);
      StepChains(w, c, schedule[0]);
      RunChains(w, Step(w, c, schedule[0]).c, schedule[1..]);
    } else {
      PairsAre(w, c);
      forall k | 0 <= k < |c.syncs|
        ensures c.syncs[k].m.Request?
            && PolicyAllows(PlanOf(c.syncs[k].m.call.nr), Entry(c.syncs[k].m.call), c.syncs[k].table)
      {
        PairedAgreed(w, c, k);
      }
    }
  }

  /** In every reachable live state the table is what the synchronised calls have made of
      the empty one, and each of them was allowed by the table as its predecessors had
      left it. */
  lemma TablesFollowTheCalls(w: World, c: Config, schedule: seq<Role>)
    requires Initial(c) && Schedules(w, Live(c), schedule) && Run(w, Live(c), schedule).Live?
    ensures var e := Run(w, Live(c), schedule).c;
      && Chained(e)
      && forall k :: 0 <= k < |e.syncs| ==>
           && e.syncs[k].m.Request?
           && PolicyAllows(PlanOf(e.syncs[k].m.call.nr), Entry(e.syncs[k].m.call), e.syncs[k].table)
  {
    hide Run, Schedules, PlanOf, PolicyAllows;
    RunChains(w, c, schedule);
  }

  // ---------- the address space over runs ----------

  /** So far master's kernel has used free addresses for new mappings and unmapped whole
      ones, and a munmap in flight returns. */
  ghost predicate WholeSoFar(w: World, v: V) {
    && WholeMappings(Settled(w, v))
    && (v.t.phase.InKernel? && v.t.regs.nr == SYS_MUNMAP ==> w.kernel(v.t.role, v.t.done, v.t.regs, v.t.mem).Returns?)
  }

  /** The table is in step with the address space, which has been safe throughout
      exactly when write access to shared memory was only granted from its base. */
  ghost predicate Supervised(table: seq<Mapping>, done: seq<Done>) {
    InStep(table, SpaceOf(done)) && (AlwaysSafe(done) <==> WritesAsked(done))
  }

  ghost predicate PolicyHolds(w: World, c: Config) {
    WholeSoFar(w, c.p.m) ==> Supervised(c.p.table, Settled(w, c.p.m))
  }

  /** The calls that change the address space have their own plans. */
  lemma PlansOfMappings(nr: nat)
    ensures nr == SYS_MMAP <==> PlanOf(nr).Mmap?
    ensures nr == SYS_MUNMAP <==> PlanOf(nr).Munmap?
    ensures nr == SYS_MPROTECT <==> PlanOf(nr).Mprotect?
  {
  }

  /** What master will have completed once the synchronised call has returned. */
  lemma SyncSettles(w: World, c: Config)
    requires Ready(w, c) && SyncStep(w, c).Live?
    ensures var m, m' := c.p.m, SyncStep(w, c).c.p.m;
      var k := w.kernel(Master, m.t.done, m.t.asked, m.t.mem);
      && Settled(w, m') == (if k.Returns? then m.t.done + [Done(m.t.asked, k.rval)] else m.t.done)
      && (k.Dies? ==> Resumes(PlanOf(m.t.asked.nr)) && m' == m.FromWait())
      && (!Resumes(PlanOf(m.t.asked.nr)) ==> LastResult(m') == k.rval)
  {
    hide SyncStep, Execute, PlanOf, Passes, ReplicaCall, ReplicaTold, OutBuffer, Completed;
    SyncEffect(w, c);
    var plan := PlanOf(c.p.m.t.asked.nr);
    ExecuteMaster(w, plan, c.p);
    if !Resumes(plan) {
      ExecuteMasterReturns(w, plan, c.p);
    }
  }

  lemma ExecuteMasterReturns(w: World, plan: Plan, p: Pair)
    requires AtEntries(p) && Execute(w, plan, p).ok && !Resumes(plan)
    ensures MasterOutcome(w, p).Returns?
  {
    hide Execute, OutBuffer, ReplicaCall, ReplicaTold;
    ExecuteEffect(w, plan, p);
    ExecuteMaster(w, plan, p);
  }

  /** The effect of master's next completed call on table and address space together. */
  lemma CallSupervised(table: seq<Mapping>, table': seq<Mapping>, done: seq<Done>, d: Done)
    requires Supervised(table, done) && WholeMappings(done + [d])
    requires
      var args, plan := d.call.args, PlanOf(d.call.nr);
      if plan.Mmap? then
        && PermsAllowed(ToInt(args[2]), ToInt(args[3]))
        && table' == table + [Mapping(ToU64(d.rval), 0, ToInt(args[2]), ToInt(args[3]))]
      else if plan.Munmap? then UnmapAllowed(table, args[0]) && table' == Removed(table, args[0])
      else table' == table && (plan.Mprotect? ==> ProtectAllowed(table, args[0], ToInt(args[2])))
    ensures Supervised(table', done + [d])
  {
    hide PlanOf, PermsAllowed, UnmapAllowed, ProtectAllowed, Removed, InStep, SpaceOf, ToU64, ToInt;
    hide WholeMapping, WriteAsked, WholeMappings, WritesAsked, AlwaysSafe, SpaceSafe, Mapped;
    var space := SpaceOf(done);
    PlansOfMappings(d.call.nr);
    HistoryGrows(done, d);
    SpaceStep(done, d);
    if d.call.nr == SYS_MMAP {
      MapKeepsStep(table, space, d);
    } else if d.call.nr == SYS_MUNMAP {
      UnmapKeepsStep(table, space, d);
    } else {
      OtherKeepsStep(table, space, d);
    }
    if AlwaysSafe(done) {
      SafeNow(done);
      MappedSafeIff(table, space, d);
    }
  }

  lemma SafeNow(done: seq<Done>)
    requires AlwaysSafe(done)
    ensures SpaceSafe(SpaceOf(done))
  {
    assert done[..|done|] == done;
  }

  lemma SyncKeepsPolicy(w: World, c: Config)
    requires Ready(w, c) && SyncStep(w, c).Live? && PolicyHolds(w, c)
    ensures PolicyHolds(w, SyncStep(w, c).c)
  {
    hide SyncStep, PlanOf, PermsAllowed, UnmapAllowed, ProtectAllowed, Removed, ToU64, ToInt, Supervised, WholeMappings;
    SyncTable(w, c);
    SyncSettles(w, c);
    var m, q := c.p.m.t, SyncStep(w, c).c.p;
    var k := w.kernel(Master, m.done, m.asked, m.mem);
    PlansOfMappings(m.asked.nr);
    if WholeSoFar(w, q.m) && k.Returns? {
      WholeBefore(m.done, Done(m.asked, k.rval));
      CallSupervised(c.p.table, q.table, m.done, Done(m.asked, k.rval));
    }
  }

  lemma WholeBefore(done: seq<Done>, d: Done)
    requires WholeMappings(done + [d])
    ensures WholeMappings(done)
  {
    hide WholeMappings, WritesAsked, AlwaysSafe, WholeMapping, WriteAsked, SpaceSafe, SpaceOf, Mapped;
    HistoryGrows(done, d);
  }

  lemma StepKeepsPolicy(w: World, c: Config, who: Role)
    requires Inv(w, c) && Enabled(c, who) && PolicyHolds(w, c) && Step(w, c, who).Live?
    ensures PolicyHolds(w, Step(w, c, who).c)
  {
    hide Step, SyncStep, Supervised, WholeMappings, OutBuffer;
    if c.Of(who).t.phase.InKernel? {
      ExitEvent(w, c, who);
    } else if !c.Of(who.Other()).t.phase.AtEntry? {
      EntryEvent(w, c, who);
    } else {
      ArrivalEvent(w, c, who);
      var s := AtStop(w, c, who);
      assert s.Of(Master).t.done == c.Of(Master).t.done;
      SyncKeepsPolicy(w, s);
    }
  }

  lemma {:induction false} RunKeepsPolicy(w: World, c: Config, schedule: seq<Role>)
    requires Inv(w, c) && PolicyHolds(w, c)
    requires Schedules(w, Live(c), schedule) && Run(w, Live(c), schedule).Live?
    ensures PolicyHolds(w, Run(w, Live(c), schedule).c)
    decreases |schedule|
  {
    hide Step, Inv, PolicyHolds;
    if schedule != [] {
      StepKeepsInv(w, c, schedule[0]);
      StepKeepsPolicy(w, c, schedule[0]);
      RunKeepsPolicy(w, Step(w, c, schedule[0]).c, schedule[1..]);
    }
  }

  /** Shared-writable safety.  In every reachable live state no table entry is writable
      without MAP_PRIVATE.  As long as mappings are new and unmapped whole, the table
      lists exactly the live mappings; and then no live byte of master's has ever been
      writable in a shared mapping if and only if no mprotect granted write access to
      shared memory from elsewhere than a shared mapping's base. */
  lemma NothingSharedIsWritableIff(w: World, c: Config, schedule: seq<Role>)
    requires Initial(c) && Schedules(w, Live(c), schedule) && Run(w, Live(c), schedule).Live?
    ensures var e := Run(w, Live(c), schedule).c;
      && TableSafe(e.p.table)
      && (WholeSoFar(w, e.p.m) ==>
            && InStep(e.p.table, SpaceOf(Settled(w, e.p.m)))
            && (AlwaysSafe(Settled(w, e.p.m)) <==> WritesAsked(Settled(w, e.p.m))))
  {
    hide Run, Schedules, WholeSoFar;
    TableStaysSafe(w, c, schedule);
    assert Settled(w, c.p.m) == [];
    RunKeepsPolicy(w, c, schedule);
  }

  // ---------- the replica's address space ----------

  /** The replica's mmaps carry the protection and flags that master's were tested with. */
  lemma ReplicaPermitted(w: World, c: Config, k: nat)
    requires Inv(w, c) && Books(w, c) && k < |Settled(w, c.p.r)|
    ensures Permitted(Settled(w, c.p.r)[k])
  {
    hide Agreed, Pairs, MasterBooks, ToInt, ToU64, PermsAllowed, PlanOf, ReplicaTold;
    var t := c.p.r.t;
    PairedAgreed(w, c, k);
    AgreedNumber(c.syncs[k]);
    PlansOfMappings(c.syncs[k].m.call.nr);
    if k < |t.done| {
      assert ReplicaLine(c.syncs[k], MasterResult(c, k), t.done[k], t.past[k]);
    }
    if Settled(w, c.p.r)[k].call.nr == SYS_MMAP {
      AgreedPermits(c.syncs[k]);
    }
  }

  lemma AgreedNumber(s: Sync)
    requires Agreed(s)
    ensures s.m.Request? && s.r.Request? && s.m.call.nr == s.r.call.nr
  {
    hide PlanOf, ArgsAgree, PolicyAllows;
  }

  lemma AgreedPermits(s: Sync)
    requires Agreed(s) && PlanOf(s.m.call.nr).Mmap?
    ensures PermsAllowed(ToInt(s.r.call.args[2]), ToInt(s.r.call.args[3]))
  {
    hide ToInt, ToU64, PermsAllowed, PlanOf;
    IntRoundTrip(s.m.call.args[2]);
    IntRoundTrip(s.m.call.args[3]);
  }

  /** The monitor looks at master's addresses only.  In every reachable live state the
      replica's memory has been safe throughout exactly when the replica never asked for
      write access to shared memory; master's table does not come into it. */
  lemma ReplicaSafeIff(w: World, c: Config, schedule: seq<Role>)
    requires Initial(c) && Schedules(w, Live(c), schedule) && Run(w, Live(c), schedule).Live?
    ensures var done := Settled(w, Run(w, Live(c), schedule).c.p.r);
      AlwaysSafe(done) <==> NeverAskedFor(done)
  {
    hide Run, Schedules, Books, Permitted;
    NoInvalidStateNoDeadlock(w, c, schedule);
    var e := Run(w, Live(c), schedule).c;
    forall k | 0 <= k < |Settled(w, e.p.r)| ensures Permitted(Settled(w, e.p.r)[k]) {
      ReplicaPermitted(w, e, k);
    }
    HistorySafeIff(Settled(w, e.p.r));
  }
}
