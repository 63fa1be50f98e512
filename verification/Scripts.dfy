/** Worlds in which both programs follow a script, and how far their runs get. */
module Scripts {
  import opened Words
  import opened Syscalls
  import opened Mappings
  import opened Tracees
  import opened Executors
  import opened Effects
  import opened Lockstep
  import opened Ledger
  import opened Runs
  import opened Confluence
  import opened Policy

  // ---------- two programs that follow a script ----------

  /** A call of master's, the replica's call at the same point, and the result their
      kernels give them. */
  datatype Line = Line(call: Call, other: Call, result: I64) {
    function Of(who: Role): Call {
      if who == Master then call else other
    }
  }

  /** Both programs make the same call. */
  function Both(call: Call, result: I64): Line {
    Line(call, call, result)
  }

  /** The programs make the calls of the script in turn, and end after the last. */
  function Scripted(script: seq<Line>): World {
    World(
      (who, h) => if |h| < |script| then Request(script[|h|].Of(who), []) else Terminate,
      (who, done, call, mem) => Returns(if |done| < |script| then script[|done|].result else 0, mem),
      i => 0)
  }

  /** The variant at the entry of its next call. */
  ghost predicate Arrived(w: World, v: V, a: V) {
    && ReadyVariant(w, a, v.t.role, |Told(w, v)|) && a.t.phase.AtEntry? && a.info == Entry(a.t.regs)
    && a.t.past == Told(w, v) && a.t.done == Settled(w, v)
    && a.num == v.num + Busy(v)
  }

  lemma ArriveArrives(w: World, v: V, role: Role)
    requires Sound(w, v, role) && w.prog(role, Told(w, v)).Request?
    requires v.t.phase.InKernel? ==> w.kernel(role, v.t.done, v.t.regs, v.t.mem).Returns?
    ensures Arrived(w, v, Arrive(w, v))
  {
    hide OutBuffer;
  }

  /** The pair that a round hands to `processSyscallSync`. */
  ghost function Met(w: World, c: Config): Config {
    c.(p := c.p.(m := Arrive(w, c.p.m), r := Arrive(w, c.p.r)))
  }

  /** A round of a script runs its next line. */
  lemma ScriptMeets(script: seq<Line>, c: Config)
    requires var w := Scripted(script); Inv(w, c) && |c.syncs| < |script|
    ensures var w, s := Scripted(script), Met(Scripted(script), c);
      && Ready(w, s) && Round(w, c) == SyncStep(w, s) && s.p.table == c.p.table && s.syncs == c.syncs
      && s.p.m.t.done == Settled(w, c.p.m)
      && s.p.r.t.done == Settled(w, c.p.r)
      && s.p.m.t.asked == script[|c.syncs|].call && s.p.r.t.asked == script[|c.syncs|].other
      && s.p.m.t.mem == s.p.r.t.mem == []
  {
    hide SyncStep, OutBuffer, Arrive;
    var w := Scripted(script);
    ArriveArrives(w, c.p.m, Master);
    ArriveArrives(w, c.p.r, Replica);
  }

  /** Calls that both variants run, or master runs first, with arguments the checks like. */
  ghost predicate Plain(call: Call, other: Call) {
    var plan := PlanOf(call.nr);
    && call.nr == other.nr
    && (plan.Resume? || plan.Mmap? || plan.Munmap? || plan.Mprotect?)
    && ArgsAgree(plan, Entry(call), [], Entry(other), [])
  }

  /** If the policy allows the next line, it goes ahead. */
  lemma ScriptGoesOn(script: seq<Line>, c: Config)
    requires var w := Scripted(script); Inv(w, c) && |c.syncs| < |script|
    requires var line := script[|c.syncs|];
      Plain(line.call, line.other) && PolicyAllows(PlanOf(line.call.nr), Entry(line.call), c.p.table)
    ensures var w, line, s := Scripted(script), script[|c.syncs|], Round(Scripted(script), c);
      && s.Live? && Inv(w, s.c) && |s.c.syncs| == |c.syncs| + 1
      && Settled(w, s.c.p.m) == Settled(w, c.p.m) + [Done(line.call, line.result)]
      && Settled(w, s.c.p.r) == Settled(w, c.p.r) + [Done(line.other, line.result)]
      && s.c.p.table == TableNext(Sync(Request(line.call, []), Terminate, c.p.table), line.result)
      && (s.c.p.m.t.phase.InKernel? ==> s.c.p.m.t.regs == line.call)
  {
    hide Round, SyncStep, PlanOf, PolicyAllows, ArgsAgree, Execute, Settled, OutBuffer, PermsAllowed;
    hide UnmapAllowed, ProtectAllowed, ToU64, ToInt, Removed;
    var w, s, line := Scripted(script), Met(Scripted(script), c), script[|c.syncs|];
    ScriptMeets(script, c);
    assert Settled(w, c.p.m) == s.p.m.t.done;
    PlansOfMappings(line.call.nr);
    PlainExecutes(w, PlanOf(line.call.nr), s.p);
    SettledLength(w, c);
    assert Settled(w, c.p.r) == s.p.r.t.done;
    SyncGoesAhead(w, s);
    SyncEffect(w, s);
    SyncKeepsInv(w, s);
    SyncSettles(w, s);
    SyncTable(w, s);
    ReplicaSettles(w, s);
  }

  /** The replica's kernel gives its own call the result. */
  lemma ReplicaSettles(w: World, s: Config)
    requires Ready(w, s) && SyncStep(w, s).Live? && RunsOwn(PlanOf(s.p.m.t.asked.nr))
    requires w.kernel(Replica, s.p.r.t.done, s.p.r.t.asked, s.p.r.t.mem).Returns?
    ensures Settled(w, SyncStep(w, s).c.p.r) ==
      s.p.r.t.done + [Done(s.p.r.t.asked, w.kernel(Replica, s.p.r.t.done, s.p.r.t.asked, s.p.r.t.mem).rval)]
  {
    hide SyncStep, PlanOf, Passes, Execute, Completed;
    SyncEffect(w, s);
  }

  lemma SettledLength(w: World, c: Config)
    requires Inv(w, c)
    requires c.p.m.t.phase.InKernel? ==> w.kernel(Master, c.p.m.t.done, c.p.m.t.regs, c.p.m.t.mem).Returns?
    requires c.p.r.t.phase.InKernel? ==> w.kernel(Replica, c.p.r.t.done, c.p.r.t.regs, c.p.r.t.mem).Returns?
    ensures |Settled(w, c.p.m)| == |c.syncs| == |Settled(w, c.p.r)|
  {
  }

  lemma PlainExecutes(w: World, plan: Plan, p: Pair)
    requires plan.Resume? || plan.Mmap? || plan.Munmap? || plan.Mprotect?
    requires Passes(plan, p) && AtEntries(p)
    requires MasterOutcome(w, p).Returns?
    ensures Execute(w, plan, p).ok
  {
    hide Passes, CheckBuf, ToU64, ToInt;
  }

  lemma SyncGoesAhead(w: World, s: Config)
    requires Ready(w, s) && s.p.m.t.asked.nr == s.p.r.t.asked.nr
    requires Execute(w, PlanOf(s.p.m.t.asked.nr), s.p).ok && !PlanOf(s.p.m.t.asked.nr).NotModelled?
    ensures SyncStep(w, s).Live?
  {
    hide Execute, PlanOf;
  }

  lemma NothingSettled(w: World, c: Config)
    requires Initial(c)
    ensures Settled(w, c.p.m) == [] == Settled(w, c.p.r)
  {
  }

  lemma TwoRounds(w: World, c: Config)
    requires Round(w, c).Live? && Round(w, Round(w, c).c).Live?
    ensures Rounds(w, Live(c), 2) == Round(w, Round(w, c).c)
  {
    hide Round;
    assert Rounds(w, Live(c), 2) == Rounds(w, Round(w, c), 1);
    assert Rounds(w, Round(w, c), 1) == Rounds(w, Round(w, Round(w, c).c), 0);
  }

  lemma ThreeRounds(w: World, c: Config)
    requires Round(w, c).Live? && Round(w, Round(w, c).c).Live?
    ensures Rounds(w, Live(c), 3) == Round(w, Round(w, Round(w, c).c).c)
  {
    hide Round;
    var s := Round(w, Round(w, c).c);
    assert Rounds(w, Live(c), 3) == Rounds(w, Round(w, c), 2) == Rounds(w, s, 1) == Rounds(w, Round(w, s.c), 0);
  }
}
