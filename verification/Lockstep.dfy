/** The event loop as a state machine over its handled events. */
module Lockstep {
  import opened Syscalls
  import opened Mappings
  import opened Tracees
  import opened Executors
  import opened Effects

  /** One call of `processSyscallSync`: what the monitor found in each variant, and the
      mapping table as it stood. */
  datatype Sync = Sync(m: Request, r: Request, table: seq<Mapping>)

  datatype Config = Config(p: Pair, syncs: seq<Sync>) {
    function Of(who: Role): V {
      if who == Master then p.m else p.r
    }

    function With(who: Role, v: V): Config {
      if who == Master then this.(p := p.(m := v)) else this.(p := p.(r := v))
    }
  }

  datatype Status =
    | Live(c: Config)
    | Killed(syncs: seq<Sync>, mEntered: seq<Call>, rEntered: seq<Call>)  // calls that had entered the kernel
    | Ended(syncs: seq<Sync>, mTold: seq<Obs>, rTold: seq<Obs>)  // a variant exited
    | Invalid(syncs: seq<Sync>)     // the monitor printed "Invalid State"
    | OutOfModel(syncs: seq<Sync>)  // an executor this model leaves out

  function Seen(v: V): Request {
    if v.info.Entry? then Request(v.info.call, v.t.mem) else Terminate
  }

  function InfoNr(info: Info): nat {
    if info.Entry? then info.call.nr else 0
  }

  /** What the program has been told, counting the call its kernel is still busy with. */
  function Told(w: World, v: V): seq<Obs> {
    if v.t.phase.InKernel? then
      match w.kernel(v.t.role, v.t.done, v.t.regs, v.t.mem)
      case Returns(k, mem) => v.t.past + [Obs(k, OutBuffer(v.t.asked, k, mem))]
      case Dies => v.t.past
    else v.t.past
  }

  /** A variant's completed calls once the one in flight has returned. */
  function Settled(w: World, v: V): seq<Done> {
    if v.t.phase.InKernel? then
      match w.kernel(v.t.role, v.t.done, v.t.regs, v.t.mem)
      case Returns(k, mem) => v.t.done + [Done(v.t.regs, k)]
      case Dies => v.t.done
    else v.t.done
  }

  function Over(w: World, c: Config): Status {
    Ended(c.syncs, Told(w, c.p.m), Told(w, c.p.r))
  }

  function Kill(p: Pair, syncs: seq<Sync>): Status {
    Killed(syncs, p.m.t.entered, p.r.t.entered)
  }

  /** `processSyscallSync`, with the kill that follows a nonzero result. */
  ghost function SyncStep(w: World, c: Config): Status {
    var syncs := c.syncs + [Sync(Seen(c.p.m), Seen(c.p.r), c.p.table)];
    if c.p.m.info.Entry? != c.p.r.info.Entry? || c.p.m.info.Exit? != c.p.r.info.Exit? then Kill(c.p, syncs)
    else if InfoNr(c.p.m.info) != InfoNr(c.p.r.info) then Kill(c.p, syncs)
    else
      var plan := PlanOf(InfoNr(c.p.m.info));
      if plan.NotModelled? then OutOfModel(syncs)
      else
        var v := Execute(w, plan, c.p);
        if v.ok then Live(Config(v.p, syncs)) else Kill(v.p, syncs)
  }

  /** `processVariantEvent` on a variant that has stopped and told us why. */
  ghost function EventStep(w: World, c: Config, who: Role): Status {
    var v, other := c.Of(who), c.Of(who.Other());
    if v.info.Entry? then
      if v.num == other.num then
        if other.state == WAIT then SyncStep(w, c)
        else Live(c.With(who, v.(state := WAIT)))
      else if v.num > other.num then Live(c.With(who, v.(state := WAIT)))
      else Invalid(c.syncs)
    else if v.info.Exit? then Live(c.With(who, v.FromExit()))
    else Invalid(c.syncs)
  }

  /** One turn of the event loop: `waitpid` reports variant `who`. */
  ghost function Step(w: World, c: Config, who: Role): Status {
    var v := c.Of(who).Waited(w);
    if v.Left() then Over(w, c) else EventStep(w, c.With(who, v.Informed()), who)
  }

  /** Whatever the two records say, reachable or not: a stop is invalid exactly when it is
      neither an entry nor an exit, or the entry of a call that the partner has passed. */
  lemma InvalidIff(w: World, c: Config, who: Role)
    ensures var v, other := c.Of(who), c.Of(who.Other());
      EventStep(w, c, who).Invalid? <==> v.info.NoInfo? || (v.info.Entry? && v.num < other.num)
  {
    hide Execute, PlanOf;
  }

  /** And it synchronises the pair exactly when it is an entry with the number at which
      the partner waits. */
  lemma SynchronisesIff(w: World, c: Config, who: Role)
    ensures var v, other := c.Of(who), c.Of(who.Other());
      |SyncsOf(EventStep(w, c, who))| > |c.syncs| <==> v.info.Entry? && v.num == other.num && other.state == WAIT
  {
    hide Execute, PlanOf;
  }

  /** Two stops of different kinds kill both variants as they are. */
  lemma DifferentStopsKill(w: World, c: Config)
    requires c.p.m.info.Entry? != c.p.r.info.Entry? || c.p.m.info.Exit? != c.p.r.info.Exit?
    ensures var s := SyncStep(w, c);
      s.Killed? && s.mEntered == c.p.m.t.entered && s.rEntered == c.p.r.t.entered
  {
    hide Execute, PlanOf;
  }

  /** `waitpid` can only report a variant that is running. */
  predicate Enabled(c: Config, who: Role) {
    Running(c.Of(who).t)
  }

  ghost function Run(w: World, s: Status, schedule: seq<Role>): Status
    decreases |schedule|
  {
    if schedule == [] || !s.Live? then s
    else Run(w, Step(w, s.c, schedule[0]), schedule[1..])
  }

  /** A schedule that only reports running variants, for as long as the run lives. */
  ghost predicate Schedules(w: World, s: Status, schedule: seq<Role>)
    decreases |schedule|
  {
    schedule == [] || !s.Live? ||
    (Enabled(s.c, schedule[0]) && Schedules(w, Step(w, s.c, schedule[0]), schedule[1..]))
  }

  ghost predicate Reaches(w: World, c: Config, schedule: seq<Role>, s: Status) {
    Schedules(w, Live(c), schedule) && Run(w, Live(c), schedule) == s
  }

  // ---------- the invariant ----------

  /** 1 while a call is in the kernel. */
  function Busy(v: V): nat {
    if v.t.phase.InKernel? then 1 else 0
  }

  /** What one variant may look like between events. */
  ghost predicate Sound(w: World, v: V, role: Role) {
    var t := v.t;
    && t.role == role
    && (t.phase.User? || t.phase.AtEntry? || t.phase.InKernel?)
    && (v.state == WAIT <==> t.phase.AtEntry?)
    && |t.done| == |t.past|
    && |t.entered| == |t.past| + Busy(v)
    && (!t.phase.User? ==> t.regs == t.asked && w.prog(role, t.past).Request? && t.asked == w.prog(role, t.past).call)
    && (t.phase.AtEntry? ==> v.info == Entry(t.regs) && t.mem == w.prog(role, t.past).mem)
  }

  /** The lockstep invariant. */
  ghost predicate Inv(w: World, c: Config) {
    var m, r := c.p.m, c.p.r;
    && Sound(w, m, Master)
    && Sound(w, r, Replica)
    && !(m.t.phase.AtEntry? && r.t.phase.AtEntry?)
    && m.num + |r.t.past| == r.num + |m.t.past|
    && |m.t.past| + Busy(m) == |c.syncs| == |r.t.past| + Busy(r)
  }

  /** What the invariant says about numbers, states and phases: the numbers differ by
      at most one; with equal numbers the variants are both in user code, or one of
      them waits at an entry, or both are in the kernel; a variant that is one
      ahead is in user code or waits while the other is still in the kernel. */
  lemma InvPhases(w: World, c: Config, who: Role)
    requires Inv(w, c)
    ensures var v, o := c.Of(who), c.Of(who.Other());
      && -1 <= v.num - o.num <= 1
      && (v.num == o.num ==> (v.t.phase.InKernel? <==> o.t.phase.InKernel?) && !(v.state == WAIT && o.state == WAIT))
      && (v.num == o.num + 1 ==> (v.t.phase.User? || v.t.phase.AtEntry?) && o.t.phase.InKernel?)
      && (v.state == WAIT ==> v.t.phase.AtEntry? && v.info == Entry(v.t.asked))
      && (v.state == RUNNING ==> Enabled(c, who))
  {
  }

  /** Deadlock freedom: some variant is running, so `waitpid` will report one. */
  lemma SomeEnabled(w: World, c: Config)
    requires Inv(w, c)
    ensures Enabled(c, Master) || Enabled(c, Replica)
  {
  }

  // ---------- the three kinds of event ----------

  /** An event on `who` ends with both variants at the entry of their next call. */
  ghost predicate Arrives(c: Config, who: Role) {
    c.Of(who).t.phase.User? && c.Of(who.Other()).t.phase.AtEntry?
  }

  /** `c` with variant `who` at its next stop. */
  function AtStop(w: World, c: Config, who: Role): Config {
    c.With(who, c.Of(who).Waited(w).Informed())
  }

  lemma ExitEvent(w: World, c: Config, who: Role)
    requires Inv(w, c) && c.Of(who).t.phase.InKernel?
    ensures var v, t := c.Of(who), c.Of(who).t;
      var k := w.kernel(who, t.done, t.regs, t.mem);
      if k.Dies? then Step(w, c, who) == Over(w, c)
      else Step(w, c, who) == Live(c.With(who, V(RUNNING, v.num + 1, Exit(k.rval), t.(
        phase := User, rax := k.rval, mem := k.mem, done := t.done + [Done(t.regs, k.rval)],
        past := t.past + [Obs(k.rval, OutBuffer(t.asked, k.rval, k.mem))]))))
  {
  }

  /** An entry whose partner has not arrived: the variant waits. */
  lemma EntryEvent(w: World, c: Config, who: Role)
    requires Inv(w, c) && c.Of(who).t.phase.User? && !c.Of(who.Other()).t.phase.AtEntry?
    ensures var v, t := c.Of(who), c.Of(who).t;
      var q := w.prog(who, t.past);
      if q.Terminate? then Step(w, c, who) == Over(w, c)
      else Step(w, c, who) == Live(c.With(who, V(WAIT, v.num, Entry(q.call), t.(
        phase := AtEntry, asked := q.call, regs := q.call, mem := q.mem))))
  {
  }

  /** Both variants stopped at the entry of their call number |syncs|. */
  ghost predicate Ready(w: World, c: Config) {
    && AtEntries(c.p)
    && ReadyVariant(w, c.p.m, Master, |c.syncs|)
    && ReadyVariant(w, c.p.r, Replica, |c.syncs|)
    && c.p.m.num == c.p.r.num
  }

  ghost predicate ReadyVariant(w: World, v: V, role: Role, k: nat) {
    var t := v.t;
    && t.role == role && t.regs == t.asked
    && |t.past| == |t.done| == |t.entered| == k
    && w.prog(role, t.past) == Request(t.asked, t.mem)
  }

  /** An entry whose partner waits: the pair is handed to `processSyscallSync`. */
  lemma ArrivalEvent(w: World, c: Config, who: Role)
    requires Inv(w, c) && Arrives(c, who)
    ensures var s := AtStop(w, c, who);
      if w.prog(who, c.Of(who).t.past).Terminate? then Step(w, c, who) == Over(w, c)
      else
        && Step(w, c, who) == SyncStep(w, s)
        && Ready(w, s) && s.syncs == c.syncs && s.p.table == c.p.table && s.p.buf == c.p.buf
        && (forall x: Role :: s.Of(x).num == c.Of(x).num && s.Of(x).t.past == c.Of(x).t.past
              && s.Of(x).t.done == c.Of(x).t.done && s.Of(x).t.entered == c.Of(x).t.entered)
  {
    hide SyncStep;
  }

  /** What the log records when two arrived variants are synchronised. */
  function NextSync(w: World, c: Config): Sync {
    Sync(w.prog(Master, c.p.m.t.past), w.prog(Replica, c.p.r.t.past), c.p.table)
  }

  /** A synchronised call that goes ahead passed its checks and had its plan's effect. */
  lemma SyncEffect(w: World, c: Config)
    requires Ready(w, c) && SyncStep(w, c).Live?
    ensures var nr, c' := c.p.m.t.asked.nr, SyncStep(w, c).c;
      && nr == c.p.r.t.asked.nr
      && c'.syncs == c.syncs + [NextSync(w, c)]
      && Passes(PlanOf(nr), c.p) && Effect(PlanOf(nr), c.p, c'.p)
      && Execute(w, PlanOf(nr), c.p) == Verdict(true, c'.p)
  {
    hide Execute, Passes, PlanOf, Effect;
    ExecuteEffect(w, PlanOf(c.p.m.t.asked.nr), c.p);
  }

  lemma SyncKeepsInv(w: World, c: Config)
    requires Ready(w, c) && SyncStep(w, c).Live?
    ensures Inv(w, SyncStep(w, c).c)
    ensures 2 <= Rank(SyncStep(w, c).c) <= 4
  {
    hide SyncStep, PlanOf, Passes, Execute, ReplicaCall, ReplicaTold;
    SyncEffect(w, c);
  }

  /** Events a variant still takes part in before the next synchronised call. */
  function Weight(v: V): nat {
    match v.t.phase
    case InKernel => 2
    case User => 1
    case _ => 0
  }

  function Rank(c: Config): nat {
    Weight(c.p.m) + Weight(c.p.r)
  }

  function SyncsOf(s: Status): seq<Sync> {
    if s.Live? then s.c.syncs else s.syncs
  }

  /** Every event keeps the lockstep invariant, never reaches "Invalid State", and
      moves the rank down by exactly one, unless it completes the pair: that happens
      exactly when the rank was one. */
  lemma StepKeepsInv(w: World, c: Config, who: Role)
    requires Inv(w, c) && Enabled(c, who)
    ensures var s := Step(w, c, who);
      && !s.Invalid?
      && (s.Live? ==> Inv(w, s.c))
      && (s.Live? && Rank(c) > 1 ==> s.c.syncs == c.syncs && Rank(s.c) == Rank(c) - 1)
      && (s.Live? && Rank(c) == 1 ==> |s.c.syncs| == |c.syncs| + 1 && 2 <= Rank(s.c) <= 4)
      && (Rank(c) == 1 <==> Arrives(c, who))
      && (Rank(c) > 1 ==> s.Live? || s.Ended?)
      && (s.Ended? ==> s.syncs == c.syncs)
  {
    hide SyncStep, Step;
    if c.Of(who).t.phase.InKernel? {
      ExitEvent(w, c, who);
    } else if !c.Of(who.Other()).t.phase.AtEntry? {
      EntryEvent(w, c, who);
    } else {
      ArrivalEvent(w, c, who);
      var s := AtStop(w, c, who);
      SyncNeverInvalid(w, s);
      if w.prog(who, c.Of(who).t.past).Request? && SyncStep(w, s).Live? {
        SyncEffect(w, s);
        SyncKeepsInv(w, s);
      }
    }
  }

  lemma SyncNeverInvalid(w: World, c: Config)
    ensures !SyncStep(w, c).Invalid? && !SyncStep(w, c).Ended?
  {
  }
}
