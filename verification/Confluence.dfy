/** The event loop's nondeterminism does not show: every schedule refines one
    sequential machine that brings both variants to their next call and then
    synchronises them. */
module Confluence {
  import opened Words
  import opened Syscalls
  import opened Memory
  import opened Tracees
  import opened Executors
  import opened Lockstep
  import opened Runs

  // ---------- which variant arrived last does not matter ----------

  /** The pair with both monitor states overwritten: the one trace of the order of arrival. */
  function Marked(p: Pair, a: RunState, b: RunState): Pair {
    p.(m := p.m.(state := a), r := p.r.(state := b))
  }

  /** The same outcome: verdict, calls that entered the kernel and, if it goes on, the whole state. */
  ghost predicate SameVerdict(v: Verdict, v': Verdict) {
    && v.ok == v'.ok
    && v.p.m.t.entered == v'.p.m.t.entered && v.p.r.t.entered == v'.p.r.t.entered
    && (v.ok ==> v.p == v'.p)
  }

  lemma MasterRunForgets(w: World, p: Pair, a: RunState, b: RunState)
    ensures var v, v' := MasterRun(w, p), MasterRun(w, Marked(p, a, b));
      v'.ok == v.ok && v'.p == v.p.(r := v.p.r.(state := b))
  {
  }

  lemma ReplicaRunForgets(w: World, p: Pair, a: RunState, b: RunState)
    ensures ReplicaRun(w, p.(r := p.r.(state := b))) == ReplicaRun(w, p)
  {
  }

  lemma ReturningForgets(w: World, p: Pair, a: RunState, b: RunState, nop: bool)
    ensures SameVerdict(RunReturning(w, p, nop), RunReturning(w, Marked(p, a, b), nop))
  {
    hide MasterRun, ReplicaRun, ToInt;
    MasterRunForgets(w, p, a, b);
    var q := MasterRun(w, p).p;
    ReplicaRunForgets(w, if nop then q.(r := q.r.WithNr(SYS_GETPID)) else q, a, b);
  }

  lemma ReadForgets(w: World, p: Pair, a: RunState, b: RunState)
    ensures SameVerdict(RunRead(w, p), RunRead(w, Marked(p, a, b)))
  {
    hide MasterRun, ReplicaRun, Transferred, Loaded, ToInt, ToU64;
    MasterRunForgets(w, p, a, b);
    var q := MasterRun(w, p).p;
    var n := q.m.info.ExitValue();
    if n == -1 || Transfers(ToU64(n)) {
      var c := if n != -1 then Copied(w, q, p.m.info.Arg(1), p.r.info.Arg(1), ToU64(n)) else q;
      var x := c.(r := c.r.WithArgs(ToU64(ToInt(p.m.info.Arg(0))), ToU64(n), SEEK_CUR).WithNr(SYS_LSEEK));
      ReplicaRunForgets(w, x, a, b);
    }
  }

  lemma NopForgets(w: World, p: Pair, a: RunState, b: RunState)
    ensures ReplicaNop(w, p.(r := p.r.(state := b))) == ReplicaNop(w, p)
  {
    hide ReplicaRun;
    ReplicaRunForgets(w, p.(r := p.r.WithNr(SYS_GETPID)), a, b);
  }

  lemma CopyingForgets(w: World, plan: Plan, p: Pair, a: RunState, b: RunState)
    requires plan.Pread? || plan.GetRandom? || plan.Poll? || plan.Fstat?
    ensures SameVerdict(RunPlan(w, plan, p), RunPlan(w, plan, Marked(p, a, b)))
  {
    hide MasterRun, ReplicaNop, Transferred, Loaded, ToInt, ToU64, PollBytes;
    MasterRunForgets(w, p, a, b);
    var q := MasterRun(w, p).p;
    var n := q.m.info.ExitValue();
    match plan
    case Pread =>
      if Transfers(ToU64(n)) {
        NopForgets(w, Copied(w, q, p.m.info.Arg(1), p.r.info.Arg(1), ToU64(n)), a, b);
      }
    case GetRandom =>
      if n == -1 {
        NopForgets(w, q, a, b);
      } else if Transfers(ToU64(n)) {
        NopForgets(w, Copied(w, q, p.m.info.Arg(0), p.r.info.Arg(0), ToU64(n)), a, b);
      }
    case Poll => NopForgets(w, q, a, b);
    case Fstat => NopForgets(w, Copied(w, q, p.m.info.Arg(2), p.r.info.Arg(2), SIZEOF_STAT), a, b);
  }

  lemma RunForgets(w: World, plan: Plan, p: Pair, a: RunState, b: RunState)
    ensures SameVerdict(RunPlan(w, plan, p), RunPlan(w, plan, Marked(p, a, b)))
  {
    hide MasterRun, RunReturning, RunRead, RunPread, RunGetRandom, RunPoll, RunFstat, ToInt, ToU64;
    match plan
    case Replicate(_) => ReturningForgets(w, p, a, b, true);
    case CopyRet(_) => ReturningForgets(w, p, a, b, false);
    case Bind => ReturningForgets(w, p, a, b, true);
    case Read => ReadForgets(w, p, a, b);
    case Mmap => MasterRunForgets(w, p, a, b);
    case Pread => CopyingForgets(w, plan, p, a, b);
    case GetRandom => CopyingForgets(w, plan, p, a, b);
    case Poll => CopyingForgets(w, plan, p, a, b);
    case Fstat => CopyingForgets(w, plan, p, a, b);
    case _ =>
  }

  /** `processSyscallSync` does the same whichever variant was waiting. */
  lemma SyncForgets(w: World, c: Config, a: RunState, b: RunState)
    ensures SyncStep(w, c) == SyncStep(w, c.(p := Marked(c.p, a, b)))
  {
    hide RunPlan, PlanOf, ArgsAgree, PolicyAllows, Loaded, PollBytes;
    var p, p' := c.p, Marked(c.p, a, b);
    var plan := PlanOf(InfoNr(c.p.m.info));
    assert CheckBuf(plan, p') == CheckBuf(plan, p) && Passes(plan, p') == Passes(plan, p);
    var q := p.(buf := CheckBuf(plan, p));
    assert p'.(buf := CheckBuf(plan, p')) == Marked(q, a, b);
    RunForgets(w, plan, q, a, b);
  }

  // ---------- the sequential machine ----------

  /** A variant run on its own to the entry of its next call, or until it is gone. */
  ghost function Arrive(w: World, v: V): V {
    match v.t.phase
    case InKernel =>
      var x := v.Waited(w);
      if x.Left() then x else ArriveFromUser(w, x.Informed().FromExit())
    case User => ArriveFromUser(w, v)
    case _ => v
  }

  ghost function ArriveFromUser(w: World, v: V): V {
    var x := v.Waited(w);
    if x.Left() then x else x.Informed().(state := WAIT)
  }

  /** One round of the sequential machine: bring master to its next call, then the
      replica, then synchronise. */
  ghost function Round(w: World, c: Config): Status {
    var m, r := Arrive(w, c.p.m), Arrive(w, c.p.r);
    if m.Left() || r.Left() then Over(w, c)
    else SyncStep(w, c.(p := c.p.(m := m, r := r)))
  }

  ghost function Rounds(w: World, s: Status, k: nat): Status
    decreases k
  {
    if k == 0 || !s.Live? then s else Rounds(w, Round(w, s.c), k - 1)
  }

  lemma ExitInRound(w: World, c: Config, who: Role)
    requires Inv(w, c) && c.Of(who).t.phase.InKernel?
    ensures var s := Step(w, c, who);
      if s.Ended? then s == Round(w, c) else s.Live? && Round(w, s.c) == Round(w, c)
  {
    hide SyncStep, Step, OutBuffer, ArriveFromUser;
    ExitEvent(w, c, who);
  }

  lemma EntryInRound(w: World, c: Config, who: Role)
    requires Inv(w, c) && c.Of(who).t.phase.User? && !c.Of(who.Other()).t.phase.AtEntry?
    ensures var s := Step(w, c, who);
      if s.Ended? then s == Round(w, c) else s.Live? && Round(w, s.c) == Round(w, c)
  {
    hide SyncStep, Step;
    EntryEvent(w, c, who);
  }

  lemma ArrivalInRound(w: World, c: Config, who: Role)
    requires Inv(w, c) && Arrives(c, who)
    ensures Step(w, c, who) == Round(w, c)
  {
    hide SyncStep, Step;
    ArrivalEvent(w, c, who);
    SyncForgets(w, AtStop(w, c, who), WAIT, WAIT);
  }

  /** An event that does not complete the pair leaves the round's outcome as it was;
      one that does is the round. */
  lemma StepInRound(w: World, c: Config, who: Role)
    requires Inv(w, c) && Enabled(c, who)
    ensures var s := Step(w, c, who);
      if Rank(c) == 1 || s.Ended? then s == Round(w, c)
      else s.Live? && Inv(w, s.c) && s.c.syncs == c.syncs && Round(w, s.c) == Round(w, c)
  {
    hide Step, Round;
    StepKeepsInv(w, c, who);
    if c.Of(who).t.phase.InKernel? {
      ExitInRound(w, c, who);
    } else if !c.Of(who.Other()).t.phase.AtEntry? {
      EntryInRound(w, c, who);
    } else {
      ArrivalInRound(w, c, who);
    }
  }

  /** The status a run is on its way to. */
  ghost function Next(w: World, s: Status): Status {
    if s.Live? then Round(w, s.c) else s
  }

  /** Refinement: after any schedule the event loop stands inside round k + 1 of the
      sequential machine, k being the calls synchronised so far, with the same log. */
  lemma {:induction false} RunInRounds(w: World, c: Config, schedule: seq<Role>)
    requires Inv(w, c) && Schedules(w, Live(c), schedule)
    ensures var s := Run(w, Live(c), schedule);
      && |c.syncs| <= |SyncsOf(s)|
      && var k := |SyncsOf(s)| - |c.syncs|;
         && Next(w, s) == Rounds(w, Live(c), k + 1)
         && SyncsOf(s) == SyncsOf(Rounds(w, Live(c), k))
    decreases |schedule|
  {
    hide Step, Round, Inv;
    if schedule != [] {
      var s1, s := Step(w, c, schedule[0]), Run(w, Live(c), schedule);
      StepInRound(w, c, schedule[0]);
      StepKeepsInv(w, c, schedule[0]);
      StepGrowsByOne(w, c, schedule[0]);
      if s1.Live? {
        RunInRounds(w, s1.c, schedule[1..]);
      }
    }
  }

  lemma StepGrowsByOne(w: World, c: Config, who: Role)
    requires Inv(w, c) && Enabled(c, who)
    ensures var s := Step(w, c, who);
      && (s.Ended? ==> s.syncs == c.syncs)
      && (!s.Ended? ==> |SyncsOf(s)| == |c.syncs| + if Rank(c) == 1 then 1 else 0)
  {
    hide Step, Inv, Rank;
    StepKeepsInv(w, c, who);
    RankPositive(w, c);
    if Rank(c) == 1 {
      StepSyncs(w, c, who);
    }
  }

  /** Every schedule with as many events as the rank ends in the same state: the
      sequential machine's. */
  lemma {:induction false} RankLongRunsAgree(w: World, c: Config, schedule: seq<Role>)
    requires Inv(w, c) && Schedules(w, Live(c), schedule) && |schedule| == Rank(c)
    ensures Run(w, Live(c), schedule) == Round(w, c)
    decreases |schedule|
  {
    hide Step, Round, Inv, Rank;
    RankPositive(w, c);
    StepInRound(w, c, schedule[0]);
    StepKeepsInv(w, c, schedule[0]);
    var s := Step(w, c, schedule[0]);
    if Rank(c) > 1 && s.Live? {
      RankLongRunsAgree(w, s.c, schedule[1..]);
    }
  }

  /** Some schedule brings the round to its end: the event loop never gets stuck in it. */
  lemma {:induction false} RoundIsReached(w: World, c: Config)
    requires Inv(w, c)
    ensures exists schedule :: Reaches(w, c, schedule, Round(w, c))
    decreases Rank(c)
  {
    hide Step, Round, Inv, Rank, Reaches;
    SomeEnabled(w, c);
    var who := if Enabled(c, Master) then Master else Replica;
    RankPositive(w, c);
    StepInRound(w, c, who);
    StepKeepsInv(w, c, who);
    var s := Step(w, c, who);
    ReachesAtOnce(w, c, who);
    if Rank(c) > 1 && s.Live? {
      RoundIsReached(w, s.c);
      var rest :| Reaches(w, s.c, rest, Round(w, s.c));
      ReachesOn(w, c, [who], s.c, rest, Round(w, s.c));
    }
  }

  /** The converse of the refinement: every state the sequential machine gets to is
      reached by the event loop under some schedule. */
  lemma {:induction false} RoundsAreReached(w: World, c: Config, k: nat)
    requires Inv(w, c)
    ensures exists schedule :: Reaches(w, c, schedule, Rounds(w, Live(c), k))
    decreases k
  {
    hide Step, Round, Inv;
    if k == 0 {
      assert Reaches(w, c, [], Rounds(w, Live(c), 0));
    } else {
      RoundIsReached(w, c);
      var schedule :| Reaches(w, c, schedule, Round(w, c));
      RunKeepsInv(w, c, schedule);
      var s := Round(w, c);
      assert Rounds(w, Live(c), k) == Rounds(w, s, k - 1);
      if s.Live? {
        RoundsAreReached(w, s.c, k - 1);
        var rest :| Reaches(w, s.c, rest, Rounds(w, s, k - 1));
        ReachesOn(w, c, schedule, s.c, rest, Rounds(w, s, k - 1));
      } else {
        assert Rounds(w, s, k - 1) == s;
      }
    }
  }

  lemma {:induction false} RunKeepsInv(w: World, c: Config, schedule: seq<Role>)
    requires Inv(w, c) && Schedules(w, Live(c), schedule)
    ensures Run(w, Live(c), schedule).Live? ==> Inv(w, Run(w, Live(c), schedule).c)
    decreases |schedule|
  {
    hide Step, Inv;
    if schedule != [] {
      StepKeepsInv(w, c, schedule[0]);
      if Step(w, c, schedule[0]).Live? {
        RunKeepsInv(w, Step(w, c, schedule[0]).c, schedule[1..]);
      }
    }
  }

  // ---------- equally many events: the same log ----------

  /** A round that ends the run adds nothing to the log, however far it gets. */
  lemma {:induction false} DoomedLog(w: World, c: Config, schedule: seq<Role>)
    requires Inv(w, c) && Schedules(w, Live(c), schedule) && Round(w, c).Ended? && Round(w, c).syncs == c.syncs
    ensures var s := Run(w, Live(c), schedule); SyncsOf(s) == c.syncs && (s.Live? || s.Ended?)
    decreases |schedule|
  {
    hide Step, Round, Inv;
    if schedule != [] {
      StepInRound(w, c, schedule[0]);
      var s := Step(w, c, schedule[0]);
      if s.Live? {
        DoomedLog(w, s.c, schedule[1..]);
      }
    }
  }

  /** Two live states of the same round, equally far along. */
  ghost predicate Alike(w: World, c: Config, d: Config) {
    Inv(w, c) && Inv(w, d) && Round(w, c) == Round(w, d) && Rank(c) == Rank(d) && c.syncs == d.syncs
  }

  lemma {:induction false} EqualLengthLogs(w: World, c: Config, d: Config, a: seq<Role>, b: seq<Role>)
    requires Alike(w, c, d) && |a| == |b|
    requires Schedules(w, Live(c), a) && Schedules(w, Live(d), b)
    ensures var s, t := Run(w, Live(c), a), Run(w, Live(d), b);
      && SyncsOf(s) == SyncsOf(t)
      && (s.Live? && t.Live? ==> Alike(w, s.c, t.c))
      && (s.Live? || s.Ended? || s == t)
      && (t.Live? || t.Ended? || s == t)
    decreases |a|
  {
    hide Step, Round, Inv, Rank;
    if a != [] {
      var s, t := Step(w, c, a[0]), Step(w, d, b[0]);
      StepInRound(w, c, a[0]);
      StepInRound(w, d, b[0]);
      StepKeepsInv(w, c, a[0]);
      StepKeepsInv(w, d, b[0]);
      RankPositive(w, c);
      if s.Live? && t.Live? {
        EqualLengthLogs(w, s.c, t.c, a[1..], b[1..]);
      } else if s.Live? {
        DoomedLog(w, s.c, a[1..]);
      } else if t.Live? {
        DoomedLog(w, t.c, b[1..]);
      }
    }
  }

  /** All schedules with equally many events have synchronised the same calls; and if
      one of them has the variants killed, so have all, with the same calls run. */
  lemma SameLogForEqualLengths(w: World, c: Config, a: seq<Role>, b: seq<Role>)
    requires Inv(w, c) && |a| == |b| && Schedules(w, Live(c), a) && Schedules(w, Live(c), b)
    ensures var s, t := Run(w, Live(c), a), Run(w, Live(c), b);
      && SyncsOf(s) == SyncsOf(t)
      && (s.Killed? || t.Killed? ==> s == t)
  {
    hide Inv, Run, Schedules, Round;
    EqualLengthLogs(w, c, c, a, b);
  }

  lemma {:induction false} RoundsStay(w: World, s: Status, i: nat, j: nat)
    requires i <= j && !Rounds(w, s, i).Live?
    ensures Rounds(w, s, j) == Rounds(w, s, i)
    decreases i
  {
    hide Round;
    if s.Live? && i > 0 {
      RoundsStay(w, Round(w, s.c), i - 1, j - 1);
    }
  }

  /** There is one way to finish: any two schedules that run to the end, of whatever
      lengths, end in the same status. */
  lemma FinishedRunsAgree(w: World, c: Config, a: seq<Role>, b: seq<Role>)
    requires Inv(w, c) && Schedules(w, Live(c), a) && Schedules(w, Live(c), b)
    requires !Run(w, Live(c), a).Live? && !Run(w, Live(c), b).Live?
    ensures Run(w, Live(c), a) == Run(w, Live(c), b)
  {
    hide Inv, Run, Schedules, Rounds;
    RunInRounds(w, c, a);
    RunInRounds(w, c, b);
    var i, j := |SyncsOf(Run(w, Live(c), a))| - |c.syncs| + 1, |SyncsOf(Run(w, Live(c), b))| - |c.syncs| + 1;
    if i <= j {
      RoundsStay(w, Live(c), i, j);
    } else {
      RoundsStay(w, Live(c), j, i);
    }
  }
}
