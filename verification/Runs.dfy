/** Theorems about whole runs of the event loop, under every schedule. */
module Runs {
  import opened Words
  import opened Syscalls
  import opened Tracees
  import opened Executors
  import opened Effects
  import opened Checks
  import opened Lockstep
  import opened Ledger

  /** A freshly started variant, resumed by `main`. */
  ghost predicate Fresh(v: V, role: Role) {
    && v.state == RUNNING && v.num == 0
    && v.t.role == role && v.t.phase.User?
    && v.t.past == [] && v.t.done == [] && v.t.entered == []
  }

  ghost predicate Initial(c: Config) {
    Fresh(c.p.m, Master) && Fresh(c.p.r, Replica) && c.p.table == [] && c.syncs == []
  }

  lemma InitialBooks(w: World, c: Config)
    requires Initial(c)
    ensures Inv(w, c) && Books(w, c)
  {
  }

  lemma {:induction false} RunKeeps(w: World, c: Config, schedule: seq<Role>)
    requires Inv(w, c) && Books(w, c) && Schedules(w, Live(c), schedule)
    ensures var s := Run(w, Live(c), schedule);
      && !s.Invalid?
      && (s.Live? ==> Inv(w, s.c) && Books(w, s.c))
    decreases |schedule|
  {
    hide Step, Books, Inv;
    if schedule != [] {
      var s := Step(w, c, schedule[0]);
      StepKeepsInv(w, c, schedule[0]);
      if s.Live? {
        StepKeepsBooks(w, c, schedule[0]);
        RunKeeps(w, s.c, schedule[1..]);
      }
    }
  }

  /** A run from the start never reaches "Invalid State"; while it lives the lockstep
      invariant holds and some variant is running. */
  lemma NoInvalidStateNoDeadlock(w: World, c: Config, schedule: seq<Role>)
    requires Initial(c) && Schedules(w, Live(c), schedule)
    ensures var s := Run(w, Live(c), schedule);
      && !s.Invalid?
      && (s.Live? ==> Inv(w, s.c) && Books(w, s.c) && (Enabled(s.c, Master) || Enabled(s.c, Replica)))
  {
    hide Run, Schedules;
    RunKeeps(w, c, schedule);
    if Run(w, Live(c), schedule).Live? {
      SomeEnabled(w, Run(w, Live(c), schedule).c);
    }
  }

  /** Synchronisation `k`: what was compared, and what the kernels were entered with. */
  ghost predicate EntryTold(w: World, e: Config, k: nat) {
    var m, r := e.p.m.t, e.p.r.t;
    && k < |e.syncs| && k < |m.entered| && k < |r.entered| && k <= |m.past| && k <= |r.past|
    && e.syncs[k].m == w.prog(Master, m.past[..k]) && e.syncs[k].r == w.prog(Replica, r.past[..k])
    && Agreed(e.syncs[k])
    && m.entered[k] == e.syncs[k].m.call
    && var nr, own := e.syncs[k].m.call.nr, e.syncs[k].r.call;
       if OwnCall(nr) then r.entered[k] == own
       else k < |m.done| && r.entered[k] == StandIn(nr, own, e.syncs[k].m.call.args[0], m.done[k].rval)
  }

  /** Pairing and agreement.  In every reachable live state the `k`-th call of
      `processSyscallSync` compared master's `k`-th request with the replica's `k`-th,
      found the same call with matching arguments that the mapping policy allowed, and
      the kernels have been entered for exactly the calls so compared: master's for
      its own, the replica's for its own or the stand-in.  So the two histories are
      about the same calls as far as both go, and differ in length by at most one. */
  lemma AgreementBeforeExecution(w: World, c: Config, schedule: seq<Role>)
    requires Initial(c) && Schedules(w, Live(c), schedule) && Run(w, Live(c), schedule).Live?
    ensures var e := Run(w, Live(c), schedule).c;
      var m, r := e.p.m.t, e.p.r.t;
      && |m.entered| == |r.entered| == |e.syncs|
      && -1 <= |m.past| - |r.past| <= 1
      && forall k :: 0 <= k < |e.syncs| ==> EntryTold(w, e, k)
  {
    hide Run, Schedules, Books, EntryTold, Inv;
    NoInvalidStateNoDeadlock(w, c, schedule);
    var e := Run(w, Live(c), schedule).c;
    LedgerLengths(w, e);
    forall k | 0 <= k < |e.syncs| ensures EntryTold(w, e, k) {
      EntriesTold(w, e, k);
    }
  }

  lemma LedgerLengths(w: World, e: Config)
    requires Inv(w, e) && Books(w, e)
    ensures |e.p.m.t.entered| == |e.p.r.t.entered| == |e.syncs|
    ensures -1 <= |e.p.m.t.past| - |e.p.r.t.past| <= 1
  {
    hide MasterLine, ReplicaLine, PlanOf, Pairs;
  }

  lemma EntriesTold(w: World, e: Config, k: nat)
    requires Inv(w, e) && Books(w, e) && k < |e.syncs|
    ensures EntryTold(w, e, k)
  {
    hide Agreed, PlanOf, ReplicaCall, ReplicaTold, StandIn;
    assert Paired(w, e, k);
    var nr := e.syncs[k].m.call.nr;
    AgreedNumbers(e.syncs[k]);
    RunsOwnIs(nr);
    if !OwnCall(nr) && k < |e.p.m.t.done| {
      StandInIs(nr, e.syncs[k].r.call, e.syncs[k].m.call.args[0], e.p.m.t.done[k].rval);
    }
  }

  lemma AgreedNumbers(s: Sync)
    requires Agreed(s)
    ensures s.m.Request? && s.r.Request? && s.m.call.nr == s.r.call.nr && Modelled(s.m.call.nr)
  {
    hide PlanOf, ArgsAgree, Modelled;
    if !Modelled(s.m.call.nr) {
      OthersRefused(s.m.call.nr, s.m.call, s.m.mem, s.r.call, s.r.mem);
    }
  }

  lemma RunsOwnIs(nr: nat)
    ensures RunsOwn(PlanOf(nr)) <==> OwnCall(nr)
  {
    hide PlanOf;
    PlanTable(nr);
  }

  /** Exactly-once effects, call number by call number.  Master's kernel ran exactly
      master's calls and master was told their results.  For the calls both run, the
      replica's kernel ran the replica's own, and its program was told that; close it
      also ran itself; the others it ran as getpid, read as an lseek on master's file by
      what master read.  What the replica was told of these is master's result, whole or
      the low half of it, sign-extended. */
  lemma ExactlyOnce(w: World, c: Config, schedule: seq<Role>, k: nat)
    requires Initial(c) && Schedules(w, Live(c), schedule) && Run(w, Live(c), schedule).Live?
    requires var e := Run(w, Live(c), schedule).c; k < |e.p.m.t.done| && k < |e.p.r.t.done| && k < |e.syncs|
    ensures var e := Run(w, Live(c), schedule).c;
      RanOnce(e.syncs[k], e.p.m.t, e.p.r.t, k)
  {
    hide Run, Schedules, Inv, Books, RanOnce;
    NoInvalidStateNoDeadlock(w, c, schedule);
    CallsRanOnce(w, Run(w, Live(c), schedule).c, k);
  }

  ghost predicate RanOnce(s: Sync, m: Tracee, r: Tracee, k: nat) {
    && k < |m.done| && k < |r.done| && k < |m.past| && k < |r.past| && s.m.Request? && s.r.Request?
    && m.done[k].call == s.m.call && m.past[k].rval == m.done[k].rval
    && var nr, n := s.m.call.nr, m.done[k].rval;
       && Modelled(nr)
       && (OwnCall(nr) ==> r.done[k].call == s.r.call && r.past[k].rval == r.done[k].rval)
       && (nr == SYS_CLOSE ==> r.done[k].call == s.r.call)
       && (Nopped(nr) ==> r.done[k].call == Call(SYS_GETPID, s.r.call.args))
       && (nr == SYS_READ ==> r.done[k].call == StandIn(nr, s.r.call, s.m.call.args[0], n))
       && (!OwnCall(nr) ==> r.past[k].rval == if HandsOnWhole(nr) then n else LowHalf(n))
  }

  lemma CallsRanOnce(w: World, e: Config, k: nat)
    requires Inv(w, e) && Books(w, e) && k < |e.p.m.t.done| && k < |e.p.r.t.done| && k < |e.syncs|
    ensures RanOnce(e.syncs[k], e.p.m.t, e.p.r.t, k)
  {
    hide Agreed, PlanOf, ReplicaCall, ReplicaTold, LowHalf;
    assert Paired(w, e, k);
    assert MasterLine(e.syncs[k], e.p.m.t.done[k], e.p.m.t.past[k]);
    assert ReplicaLine(e.syncs[k], MasterResult(e, k), e.p.r.t.done[k], e.p.r.t.past[k]);
    var nr := e.syncs[k].m.call.nr;
    AgreedNumbers(e.syncs[k]);
    RunsOwnIs(nr);
    if !OwnCall(nr) {
      StandInIs(nr, e.syncs[k].r.call, e.syncs[k].m.call.args[0], e.p.m.t.done[k].rval);
      ToldIs(nr, e.p.m.t.done[k].rval);
    }
  }

  // ---------- runs that are killed ----------

  /** The comparison of two arrived variants refuses to go on. */
  ghost predicate Refused(s: Config) {
    || s.p.m.t.asked.nr != s.p.r.t.asked.nr
    || !Passes(PlanOf(s.p.m.t.asked.nr), s.p)
  }

  /** When the variants are killed for diverging, neither has executed anything of the
      diverging call: except for fadvise64 and rseq, whose executors resume both
      variants before they give the verdict. */
  lemma RefusalIsInTime(w: World, c: Config, who: Role)
    requires Inv(w, c) && Arrives(c, who) && w.prog(who, c.Of(who).t.past).Request?
    requires Refused(AtStop(w, c, who)) && !PlanOf(AtStop(w, c, who).p.m.t.asked.nr).NotModelled?
    ensures Step(w, c, who).Killed?
    ensures var s, k := AtStop(w, c, who), Step(w, c, who);
      if s.p.m.t.asked.nr == s.p.r.t.asked.nr && s.p.m.t.asked.nr in {SYS_FADVISE64, SYS_RSEQ}
      then k.mEntered == c.p.m.t.entered + [s.p.m.t.asked] && k.rEntered == c.p.r.t.entered + [s.p.r.t.asked]
      else k.mEntered == c.p.m.t.entered && k.rEntered == c.p.r.t.entered
  {
    hide Step, Execute, Passes, PlanOf;
    ArrivalEvent(w, c, who);
    var s := AtStop(w, c, who);
    assert s.Of(Master).t.entered == c.p.m.t.entered && s.Of(Replica).t.entered == c.p.r.t.entered;
    var nr := s.p.m.t.asked.nr;
    LateVerdicts(nr);
    if nr == s.p.r.t.asked.nr {
      ExecuteFailedCheck(w, PlanOf(nr), s.p);
    }
  }

  /** The event with which a run is killed, and the live state it happens in. */
  ghost predicate KilledFrom(w: World, d: Config, who: Role, s: Status) {
    Inv(w, d) && Books(w, d) && Enabled(d, who) && Step(w, d, who) == s
  }

  lemma {:induction false} LastEvent(w: World, c: Config, schedule: seq<Role>)
    requires Inv(w, c) && Books(w, c) && Schedules(w, Live(c), schedule) && Run(w, Live(c), schedule).Killed?
    ensures exists d, who :: KilledFrom(w, d, who, Run(w, Live(c), schedule))
    decreases |schedule|
  {
    hide Step, Books, Inv;
    var s := Step(w, c, schedule[0]);
    if s.Live? {
      StepKeepsInv(w, c, schedule[0]);
      StepKeepsBooks(w, c, schedule[0]);
      LastEvent(w, s.c, schedule[1..]);
    } else {
      assert KilledFrom(w, c, schedule[0], s);
    }
  }

  /** The comparison that kills. */
  lemma SyncKills(w: World, c: Config)
    requires Ready(w, c) && SyncStep(w, c).Killed?
    ensures var s, n := SyncStep(w, c), |c.syncs|;
      && s.syncs == c.syncs + [NextSync(w, c)] && s.syncs[n].m.Request? && s.syncs[n].r.Request?
      && (s.mEntered == c.p.m.t.entered || s.mEntered == c.p.m.t.entered + [s.syncs[n].m.call])
      && c.p.r.t.entered <= s.rEntered && |s.rEntered| <= n + 1
      && (!Agreed(s.syncs[n]) && s.syncs[n].m.call.nr !in {SYS_FADVISE64, SYS_RSEQ} ==>
            s.mEntered == c.p.m.t.entered && s.rEntered == c.p.r.t.entered)
  {
    hide Execute, PlanOf, ArgsAgree, PolicyAllows;
    var nr := c.p.m.t.asked.nr;
    LateVerdicts(nr);
    if nr == c.p.r.t.asked.nr {
      ExecuteFails(w, PlanOf(nr), c.p);
      if !Passes(PlanOf(nr), c.p) {
        ExecuteFailedCheck(w, PlanOf(nr), c.p);
      }
    }
  }

  /** The call agreed; the kernels were entered with it, or the replica's with its stand-in. */
  ghost predicate AgreedAndEntered(s: Sync, m: Call, r: Call) {
    && Agreed(s)
    && m == s.m.call
    && var nr := s.m.call.nr;
       if OwnCall(nr) then r == s.r.call else exists n: I64 :: r == StandIn(nr, s.r.call, s.m.call.args[0], n)
  }

  /** Every call but the last that was compared agreed, was allowed by the policy, and is
      what the kernels were entered with; with the last one each was entered at most
      once more, and not at all if it was refused, but for fadvise64 and rseq. */
  ghost predicate CutInTime(syncs: seq<Sync>, m: seq<Call>, r: seq<Call>) {
    |syncs| > 0 &&
    var n, last := |syncs| - 1, syncs[|syncs| - 1];
    && n <= |m| <= n + 1 && n <= |r| <= n + 1
    && (forall k :: 0 <= k < n ==> AgreedAndEntered(syncs[k], m[k], r[k]))
    && last.m.Request? && last.r.Request?
    && (|m| == n + 1 ==> m[n] == last.m.call)
    && (!Agreed(last) && last.m.call.nr !in {SYS_FADVISE64, SYS_RSEQ} ==> |m| == n == |r|)
  }

  /** The event that kills is an arrival, and its comparison is the one that kills. */
  lemma KillerEvent(w: World, d: Config, who: Role, s: Status)
    requires KilledFrom(w, d, who, s) && s.Killed?
    ensures CutInTime(s.syncs, s.mEntered, s.rEntered)
  {
    hide Step, SyncStep, Agreed, Books, Inv, AgreedAndEntered;
    StepKeepsInv(w, d, who);
    KillerArrives(w, d, who);
    var c, n := AtStop(w, d, who), |d.syncs|;
    SyncKills(w, c);
    assert |c.p.m.t.entered| == n == |c.p.r.t.entered|;
    forall k | 0 <= k < n ensures AgreedAndEntered(s.syncs[k], s.mEntered[k], s.rEntered[k]) {
      EntryTells(w, d, k);
    }
  }

  lemma KillerArrives(w: World, d: Config, who: Role)
    requires Inv(w, d) && Enabled(d, who) && Step(w, d, who).Killed?
    ensures var c := AtStop(w, d, who);
      && Ready(w, c) && Step(w, d, who) == SyncStep(w, c) && c.syncs == d.syncs
      && c.p.m.t.entered == d.p.m.t.entered && c.p.r.t.entered == d.p.r.t.entered
  {
    hide Step, SyncStep;
    StepKeepsInv(w, d, who);
    ArrivalEvent(w, d, who);
    var c := AtStop(w, d, who);
    assert c.Of(Master).t.entered == d.p.m.t.entered && c.Of(Replica).t.entered == d.p.r.t.entered;
  }

  lemma EntryTells(w: World, d: Config, k: nat)
    requires Inv(w, d) && Books(w, d) && k < |d.syncs|
    ensures |d.p.m.t.entered| == |d.p.r.t.entered| == |d.syncs|
    ensures AgreedAndEntered(d.syncs[k], d.p.m.t.entered[k], d.p.r.t.entered[k])
  {
    hide Agreed, Books, Inv, StandIn, OwnCall;
    LedgerLengths(w, d);
    EntriesTold(w, d, k);
  }

  /** Agreement before execution, for runs that are killed. */
  lemma KilledInTime(w: World, c: Config, schedule: seq<Role>)
    requires Initial(c) && Schedules(w, Live(c), schedule) && Run(w, Live(c), schedule).Killed?
    ensures var s := Run(w, Live(c), schedule);
      CutInTime(s.syncs, s.mEntered, s.rEntered)
  {
    hide Run, Schedules, KilledFrom, CutInTime, Inv, Books;
    InitialBooks(w, c);
    LastEvent(w, c, schedule);
    var d, who :| KilledFrom(w, d, who, Run(w, Live(c), schedule));
    KillerEvent(w, d, who, Run(w, Live(c), schedule));
  }

  lemma LateVerdicts(nr: nat)
    ensures PlanOf(nr).ResumeUnchecked? <==> nr in {SYS_FADVISE64, SYS_RSEQ}
  {
  }

  // ---------- progress ----------

  /** The exact count of events: fewer than `Rank(c)` events bring no synchronised call
      and lower the rank by their number; as many bring exactly one, or end the run. */
  lemma {:induction false} RankCounts(w: World, c: Config, schedule: seq<Role>)
    requires Inv(w, c) && Schedules(w, Live(c), schedule) && |schedule| <= Rank(c)
    ensures var s := Run(w, Live(c), schedule);
      && (|schedule| < Rank(c) ==>
          (s.Live? && s.c.syncs == c.syncs && Inv(w, s.c) && Rank(s.c) == Rank(c) - |schedule|) || s.Ended?)
      && (|schedule| == Rank(c) ==> s.Ended? || |SyncsOf(s)| == |c.syncs| + 1)
    decreases |schedule|
  {
    hide Step, Inv, Rank;
    RankPositive(w, c);
    if schedule != [] {
      var s := Step(w, c, schedule[0]);
      StepKeepsInv(w, c, schedule[0]);
      if Rank(c) == 1 {
        StepSyncs(w, c, schedule[0]);
      } else if s.Live? {
        RankCounts(w, s.c, schedule[1..]);
      }
    }
  }

  lemma RankPositive(w: World, c: Config)
    requires Inv(w, c)
    ensures 1 <= Rank(c) <= 4
  {
  }

  /** The completing event records one more synchronised call, even if it kills. */
  lemma StepSyncs(w: World, c: Config, who: Role)
    requires Inv(w, c) && Enabled(c, who) && Rank(c) == 1
    ensures Step(w, c, who).Ended? || |SyncsOf(Step(w, c, who))| == |c.syncs| + 1
  {
    hide Step, SyncStep;
    StepKeepsInv(w, c, who);
    RankOneArrives(w, c, who);
    ArrivalEvent(w, c, who);
    SyncRecords(w, AtStop(w, c, who));
  }

  lemma RankOneArrives(w: World, c: Config, who: Role)
    requires Inv(w, c) && Enabled(c, who) && Rank(c) == 1
    ensures Arrives(c, who)
  {
  }

  lemma SyncRecords(w: World, c: Config)
    ensures |SyncsOf(SyncStep(w, c))| == |c.syncs| + 1
  {
  }

  /** Any four consecutive handled events contain a synchronised call or end the run. */
  lemma FourEventsSync(w: World, c: Config, schedule: seq<Role>)
    requires Inv(w, c) && Schedules(w, Live(c), schedule) && |schedule| == 4
    ensures var s := Run(w, Live(c), schedule);
      s.Ended? || |SyncsOf(s)| > |c.syncs|
  {
    hide Step, Schedules, Inv, Rank;
    RankPositive(w, c);
    var n := Rank(c);
    RunSplit(w, Live(c), schedule[..n], schedule[n..]);
    assert schedule[..n] + schedule[n..] == schedule;
    RankCounts(w, c, schedule[..n]);
    var mid := Run(w, Live(c), schedule[..n]);
    SyncsGrow(w, mid, schedule[n..]);
    if mid.Ended? {
      assert Run(w, mid, schedule[n..]) == mid;
    }
  }

  lemma {:induction false} RunSplit(w: World, s: Status, a: seq<Role>, b: seq<Role>)
    ensures Run(w, s, a + b) == Run(w, Run(w, s, a), b)
    ensures Schedules(w, s, a + b) <==> Schedules(w, s, a) && Schedules(w, Run(w, s, a), b)
    decreases |a|
  {
    hide Step;
    if a == [] {
      assert a + b == b;
    } else if s.Live? {
      assert (a + b)[0] == a[0];
      assert (a + b)[1..] == a[1..] + b;
      RunSplit(w, Step(w, s.c, a[0]), a[1..], b);
    }
  }

  lemma ReachesOn(w: World, c: Config, a: seq<Role>, d: Config, b: seq<Role>, s: Status)
    requires Reaches(w, c, a, Live(d)) && Reaches(w, d, b, s)
    ensures Reaches(w, c, a + b, s)
  {
    hide Run, Schedules;
    RunSplit(w, Live(c), a, b);
  }

  lemma ReachesAtOnce(w: World, c: Config, who: Role)
    requires Enabled(c, who)
    ensures Reaches(w, c, [who], Step(w, c, who))
  {
    hide Step;
    assert [who][1..] == [];
    assert Run(w, Step(w, c, who), []) == Step(w, c, who);
    assert Schedules(w, Step(w, c, who), []);
  }

  /** Synchronised calls are never forgotten. */
  lemma {:induction false} SyncsGrow(w: World, s: Status, schedule: seq<Role>)
    ensures |SyncsOf(s)| <= |SyncsOf(Run(w, s, schedule))|
    decreases |schedule|
  {
    if schedule != [] && s.Live? {
      StepGrows(w, s.c, schedule[0]);
      SyncsGrow(w, Step(w, s.c, schedule[0]), schedule[1..]);
    }
  }

  lemma StepGrows(w: World, c: Config, who: Role)
    ensures |c.syncs| <= |SyncsOf(Step(w, c, who))|
  {
    hide SyncStep;
    SyncRecords(w, AtStop(w, c, who));
  }
}
