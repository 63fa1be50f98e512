/** What whole runs leave behind: which calls were paired, which were executed by
    which kernel, and what each program was told. */
module Ledger {
  import opened Words
  import opened Syscalls
  import opened Tracees
  import opened Executors
  import opened Effects
  import opened Lockstep

  /** The variant's kernel runs its own call, and its program sees that result. */
  predicate RunsOwn(plan: Plan) {
    Resumes(plan) || plan.Mmap?
  }

  /** The two calls handed to an executor were the same call with matching arguments,
      and the mapping policy allowed it. */
  ghost predicate Agreed(s: Sync) {
    && s.m.Request? && s.r.Request? && s.m.call.nr == s.r.call.nr
    && ArgsAgree(PlanOf(s.m.call.nr), Entry(s.m.call), s.m.mem, Entry(s.r.call), s.r.mem)
    && PolicyAllows(PlanOf(s.m.call.nr), Entry(s.m.call), s.table)
  }

  /** Synchronisation `k` paired each program's `k`-th request. */
  ghost predicate Paired(w: World, c: Config, k: nat)
    requires k < |c.syncs| && k <= |c.p.m.t.past| && k <= |c.p.r.t.past|
  {
    && c.syncs[k].m == w.prog(Master, c.p.m.t.past[..k]) && c.syncs[k].r == w.prog(Replica, c.p.r.t.past[..k])
    && Agreed(c.syncs[k])
  }

  /** Master's kernel ran master's own call, and its program was told that result. */
  ghost predicate MasterLine(s: Sync, d: Done, o: Obs) {
    s.m.Request? && d.call == s.m.call && o.rval == d.rval
  }

  /** The replica's kernel ran its own call or the stand-in for it, and its program
      was told its own result or what master's became. */
  ghost predicate ReplicaLine(s: Sync, master: I64, d: Done, o: Obs) {
    && s.m.Request? && s.r.Request?
    && var plan := PlanOf(s.m.call.nr);
       if RunsOwn(plan) then d.call == s.r.call && o.rval == d.rval
       else d.call == ReplicaCall(plan, s.r.call, s.m.call.args[0], master) && o.rval == ReplicaTold(plan, master)
  }

  /** The result master's kernel gave call `k`, if it has completed. */
  function MasterResult(c: Config, k: nat): I64 {
    if k < |c.p.m.t.done| then c.p.m.t.done[k].rval else 0
  }

  ghost predicate Pairs(w: World, c: Config)
    requires Inv(w, c)
  {
    forall k :: 0 <= k < |c.syncs| ==> Paired(w, c, k)
  }

  /** Master's kernel calls, completed and in flight. */
  ghost predicate MasterBooks(c: Config) {
    var t, n := c.p.m.t, |c.syncs|;
    && |t.done| == |t.past| && |t.done| + Busy(c.p.m) == n == |t.entered|
    && (forall k :: 0 <= k < |t.done| ==>
          MasterLine(c.syncs[k], t.done[k], t.past[k]) && t.entered[k] == t.done[k].call)
    && (t.phase.InKernel? ==> c.syncs[n - 1].m.Request? && t.regs == t.entered[n - 1] == c.syncs[n - 1].m.call
                              && Resumes(PlanOf(c.syncs[n - 1].m.call.nr)))
  }

  /** The replica's kernel calls, completed and in flight. */
  ghost predicate ReplicaBooks(c: Config) {
    var t, n := c.p.r.t, |c.syncs|;
    && |t.done| == |t.past| && |t.done| + Busy(c.p.r) == n == |t.entered|
    && (forall k :: 0 <= k < |t.done| ==>
          ReplicaLine(c.syncs[k], MasterResult(c, k), t.done[k], t.past[k]) && t.entered[k] == t.done[k].call)
    && (t.phase.InKernel? ==> c.syncs[n - 1].m.Request? && c.syncs[n - 1].r.Request?
                              && t.regs == t.entered[n - 1] == c.syncs[n - 1].r.call
                              && RunsOwn(PlanOf(c.syncs[n - 1].m.call.nr)))
  }

  ghost predicate Books(w: World, c: Config)
    requires Inv(w, c)
  {
    Pairs(w, c) && MasterBooks(c) && ReplicaBooks(c)
  }

  /** Pairing only looks at the part of each history that is already there. */
  lemma PairsGrow(w: World, c: Config, c': Config)
    requires Inv(w, c) && Pairs(w, c) && Inv(w, c')
    requires c.syncs <= c'.syncs && c.p.m.t.past <= c'.p.m.t.past && c.p.r.t.past <= c'.p.r.t.past
    ensures forall k :: 0 <= k < |c.syncs| ==> Paired(w, c', k)
  {
    hide Agreed;
    assert |c.syncs| <= |c.p.m.t.past| + 1 && |c.syncs| <= |c.p.r.t.past| + 1;
    forall k | 0 <= k < |c.syncs| ensures Paired(w, c', k) {
      assert Paired(w, c, k);
      assert c'.p.m.t.past[..k] == c.p.m.t.past[..k] && c'.p.r.t.past[..k] == c.p.r.t.past[..k];
    }
  }

  lemma ExitKeepsBooks(w: World, c: Config, who: Role)
    requires Inv(w, c) && Books(w, c) && c.Of(who).t.phase.InKernel? && Step(w, c, who).Live?
    requires Inv(w, Step(w, c, who).c)
    ensures Books(w, Step(w, c, who).c)
  {
    hide Step, PlanOf, Agreed, ReplicaCall, ReplicaTold, OutBuffer, Pairs;
    ExitEvent(w, c, who);
    var c' := Step(w, c, who).c;
    assert Pairs(w, c') by { PairsGrow(w, c, c'); PairsAre(w, c'); }
    hide Inv;
    if who == Master {
      assert MasterBooks(c');
    } else {
      assert ReplicaBooks(c');
    }
  }

  lemma PairsAre(w: World, c: Config)
    requires Inv(w, c)
    ensures Pairs(w, c) <==> forall k :: 0 <= k < |c.syncs| ==> Paired(w, c, k)
  {
  }

  /** A synchronised call is entered in the books as it was carried out. */
  lemma SyncKeepsBooks(w: World, c: Config)
    requires Ready(w, c) && SyncStep(w, c).Live? && Inv(w, SyncStep(w, c).c)
    requires forall k :: 0 <= k < |c.syncs| ==> Paired(w, c, k)
    requires MasterBooks(c) && ReplicaBooks(c)
    ensures Books(w, SyncStep(w, c).c)
  {
    hide SyncStep, PlanOf, ArgsAgree, PolicyAllows, Execute, ReplicaCall, ReplicaTold, OutBuffer, Pairs;
    SyncEffect(w, c);
    var c', n := SyncStep(w, c).c, |c.syncs|;
    var plan := PlanOf(c.p.m.t.asked.nr);
    forall k | 0 <= k < n + 1 ensures Paired(w, c', k) {
      if k < n {
        assert Paired(w, c, k);
        assert c'.p.m.t.past[..k] == c.p.m.t.past[..k] && c'.p.r.t.past[..k] == c.p.r.t.past[..k];
      } else {
        assert c'.p.m.t.past[..n] == c.p.m.t.past && c'.p.r.t.past[..n] == c.p.r.t.past;
      }
    }
    PairsAre(w, c');
    MasterSync(w, c, c', plan);
    ReplicaSync(w, c, c', plan);
  }

  lemma MasterSync(w: World, c: Config, c': Config, plan: Plan)
    requires Ready(w, c) && MasterBooks(c) && plan == PlanOf(c.p.m.t.asked.nr) && Effect(plan, c.p, c'.p)
    requires c'.syncs == c.syncs + [NextSync(w, c)]
    ensures MasterBooks(c')
  {
    hide PlanOf, ReplicaCall, ReplicaTold, OutBuffer;
  }

  lemma ReplicaSync(w: World, c: Config, c': Config, plan: Plan)
    requires Ready(w, c) && MasterBooks(c) && ReplicaBooks(c) && plan == PlanOf(c.p.m.t.asked.nr)
        && Effect(plan, c.p, c'.p)
    requires c'.syncs == c.syncs + [NextSync(w, c)]
    ensures ReplicaBooks(c')
  {
    hide PlanOf, ReplicaCall, ReplicaTold, OutBuffer, ReplicaLine, MasterBooks;
    var n := |c.syncs|;
    forall k | 0 <= k < n ensures ReplicaLine(c'.syncs[k], MasterResult(c', k), c'.p.r.t.done[k], c'.p.r.t.past[k]) {
      assert ReplicaLine(c.syncs[k], MasterResult(c, k), c.p.r.t.done[k], c.p.r.t.past[k]);
      assert MasterResult(c', k) == MasterResult(c, k);
    }
    if |c'.p.r.t.done| == n + 1 {
      NewReplicaLine(w, c, c', plan);
    }
  }

  lemma NewReplicaLine(w: World, c: Config, c': Config, plan: Plan)
    requires Ready(w, c) && plan == PlanOf(c.p.m.t.asked.nr) && Effect(plan, c.p, c'.p)
    requires c'.syncs == c.syncs + [NextSync(w, c)]
    requires |c'.p.r.t.done| == |c.syncs| + 1 == |c'.p.r.t.past|
    ensures var n := |c.syncs|;
      ReplicaLine(c'.syncs[n], MasterResult(c', n), c'.p.r.t.done[n], c'.p.r.t.past[n])
  {
    hide PlanOf, ReplicaCall, ReplicaTold, OutBuffer;
    assert c.p.m.info.Arg(0) == c.p.m.t.asked.args[0];
  }

  lemma StepKeepsBooks(w: World, c: Config, who: Role)
    requires Inv(w, c) && Books(w, c) && Enabled(c, who) && Step(w, c, who).Live?
    ensures Inv(w, Step(w, c, who).c) && Books(w, Step(w, c, who).c)
  {
    hide Step, SyncStep, Paired, MasterLine, ReplicaLine, RunsOwn, PlanOf;
    StepKeepsInv(w, c, who);
    if c.Of(who).t.phase.InKernel? {
      ExitKeepsBooks(w, c, who);
    } else if !c.Of(who.Other()).t.phase.AtEntry? {
      EntryEvent(w, c, who);
      var c' := Step(w, c, who).c;
      PairsGrow(w, c, c');
    } else {
      ArrivalEvent(w, c, who);
      var s := AtStop(w, c, who);
      StopKeepsBooks(w, c, s);
      SyncKeepsBooks(w, s);
    }
  }

  /** Stopping at an entry changes nothing in the books. */
  lemma StopKeepsBooks(w: World, c: Config, s: Config)
    requires Inv(w, c) && Books(w, c) && Ready(w, s) && s.syncs == c.syncs
    requires forall x: Role ::
      s.Of(x).t.past == c.Of(x).t.past && s.Of(x).t.done == c.Of(x).t.done && s.Of(x).t.entered == c.Of(x).t.entered
    ensures forall k :: 0 <= k < |s.syncs| ==> Paired(w, s, k)
    ensures MasterBooks(s) && ReplicaBooks(s)
  {
    hide MasterLine, ReplicaLine, RunsOwn, PlanOf, Agreed;
    assert s.Of(Master).t.past == c.Of(Master).t.past;
    assert s.Of(Replica).t.past == c.Of(Replica).t.past;
    forall k | 0 <= k < |c.syncs| ensures Paired(w, s, k) {
      assert Paired(w, c, k);
    }
  }

  // ---------- every result in the books is the kernel's ----------

  /** Call `k` was answered by the variant's kernel, knowing the calls before it. */
  ghost predicate AnsweredCall(w: World, role: Role, done: seq<Done>, k: nat)
    requires k < |done|
  {
    OneAnswer(w, role, done[..k], done[..k + 1])
  }

  ghost predicate Answered(w: World, role: Role, done: seq<Done>) {
    forall k :: 0 <= k < |done| ==> AnsweredCall(w, role, done, k)
  }

  lemma AnsweredGrows(w: World, role: Role, done: seq<Done>, done': seq<Done>)
    requires Answered(w, role, done) && OneAnswer(w, role, done, done')
    ensures Answered(w, role, done')
  {
    assert done <= done' && |done'| <= |done| + 1;
    forall k | 0 <= k < |done'| ensures AnsweredCall(w, role, done', k) {
      if k < |done| {
        assert done'[..k] == done[..k] && done'[..k + 1] == done[..k + 1];
        assert AnsweredCall(w, role, done, k);
      } else {
        assert done'[..k] == done && done'[..k + 1] == done';
      }
    }
  }

  lemma StepKeepsAnswers(w: World, c: Config, who: Role)
    requires Inv(w, c) && Enabled(c, who) && Step(w, c, who).Live? && Answered(w, Replica, c.p.r.t.done)
    ensures Answered(w, Replica, Step(w, c, who).c.p.r.t.done)
  {
    hide Step, SyncStep, Answered, OutBuffer, Execute, Passes, Effect, PlanOf;
    var c' := Step(w, c, who).c;
    if c.Of(who).t.phase.InKernel? {
      ExitEvent(w, c, who);
      var t := c.p.r.t;
      assert who == Replica ==> AnsweredOn(w, Replica, t.done, c'.p.r.t.done, t.regs, t.mem);
    } else if !c.Of(who.Other()).t.phase.AtEntry? {
      EntryEvent(w, c, who);
    } else {
      ArrivalEvent(w, c, who);
      var s := AtStop(w, c, who);
      assert s.Of(Replica).t.done == c.Of(Replica).t.done;
      SyncEffect(w, s);
      ExecuteAnswers(w, PlanOf(s.p.m.t.asked.nr), s.p);
    }
    AnsweredGrows(w, Replica, c.p.r.t.done, c'.p.r.t.done);
  }
}
