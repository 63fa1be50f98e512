/** Events of the two variants commute, so a run's state depends only on how many
    events each variant has had. */
module Reordering {
  import opened Syscalls
  import opened Tracees
  import opened Executors
  import opened Effects
  import opened Lockstep
  import opened Ledger
  import opened Runs
  import opened Confluence

  function Count(schedule: seq<Role>, who: Role): nat {
    if schedule == [] then 0
    else (if schedule[0] == who then 1 else 0) + Count(schedule[1..], who)
  }

  /** Equally many events of each variant. */
  ghost predicate SameCounts(a: seq<Role>, b: seq<Role>) {
    forall who: Role :: Count(a, who) == Count(b, who)
  }

  /** While its partner is running too, an event leaves the other variant alone. */
  lemma StepLeavesOther(w: World, c: Config, who: Role)
    requires Inv(w, c) && Enabled(c, who) && Enabled(c, who.Other())
    ensures var s := Step(w, c, who);
      s.Ended? || (s.Live? && Inv(w, s.c) && s.c == c.With(who, s.c.Of(who)) && Enabled(s.c, who.Other()))
  {
    hide Step, OutBuffer;
    StepKeepsInv(w, c, who);
    if c.Of(who).t.phase.InKernel? {
      ExitEvent(w, c, who);
    } else {
      EntryEvent(w, c, who);
    }
  }

  /** What an event that finds the partner running does to its own variant. */
  ghost function Moved(w: World, v: V): V {
    if v.t.phase.InKernel? then v.Waited(w).Informed().FromExit()
    else v.Waited(w).Informed().(state := WAIT)
  }

  lemma StepMoves(w: World, c: Config, who: Role)
    requires Inv(w, c) && Enabled(c, who)
    requires !Arrives(c, who)
    ensures Step(w, c, who) == if c.Of(who).Waited(w).Left() then Over(w, c) else Live(c.With(who, Moved(w, c.Of(who))))
  {
    hide Step, OutBuffer;
    if c.Of(who).t.phase.InKernel? {
      ExitEvent(w, c, who);
    } else {
      EntryEvent(w, c, who);
    }
  }

  /** Such an event brings the program no news: what it is told was already settled. */
  lemma MovedToldSame(w: World, c: Config, who: Role)
    requires Inv(w, c) && Enabled(c, who) && !Arrives(c, who) && Step(w, c, who).Live?
    ensures Over(w, Step(w, c, who).c) == Over(w, c)
  {
    hide Step, OutBuffer;
    if c.Of(who).t.phase.InKernel? {
      ExitEvent(w, c, who);
    } else {
      EntryEvent(w, c, who);
    }
  }

  /** The diamond: when both variants can step, the two orders meet. */
  lemma Diamond(w: World, c: Config)
    requires Inv(w, c) && Enabled(c, Master) && Enabled(c, Replica)
    ensures Run(w, Live(c), [Master, Replica]) == Run(w, Live(c), [Replica, Master])
    ensures Schedules(w, Live(c), [Master, Replica]) && Schedules(w, Live(c), [Replica, Master])
  {
    hide Step, Inv, Round, Moved, Told;
    RunTwo(w, c, Master, Replica);
    RunTwo(w, c, Replica, Master);
    StepLeavesOther(w, c, Master);
    StepLeavesOther(w, c, Replica);
    var s, t := Step(w, c, Master), Step(w, c, Replica);
    BothRunning(w, c);
    StepKeepsInv(w, c, Master);
    StepKeepsInv(w, c, Replica);
    if Rank(c) == 2 {
      StepInRound(w, c, Master);
      StepInRound(w, c, Replica);
      if s.Live? {
        StepInRound(w, s.c, Replica);
      }
      if t.Live? {
        StepInRound(w, t.c, Master);
      }
    } else {
      StepMoves(w, c, Master);
      StepMoves(w, c, Replica);
      if s.Live? {
        MovedToldSame(w, c, Master);
        StepKeepsInv(w, s.c, Replica);
        StepMoves(w, s.c, Replica);
      }
      if t.Live? {
        MovedToldSame(w, c, Replica);
        StepKeepsInv(w, t.c, Master);
        StepMoves(w, t.c, Master);
      }
    }
  }

  lemma BothRunning(w: World, c: Config)
    requires Inv(w, c) && Enabled(c, Master) && Enabled(c, Replica)
    ensures 2 <= Rank(c)
    ensures !Arrives(c, Master) && !Arrives(c, Replica)
    ensures Rank(c) > 2 ==> (c.p.m.t.phase.InKernel? || c.p.r.t.phase.InKernel?)
  {
  }

  lemma RunTwo(w: World, c: Config, x: Role, y: Role)
    ensures Run(w, Live(c), [x, y]) == var s := Step(w, c, x); if s.Live? then Step(w, s.c, y) else s
    ensures Schedules(w, Live(c), [x, y]) <==>
      Enabled(c, x) && (Step(w, c, x).Live? ==> Enabled(Step(w, c, x).c, y))
  {
    hide Step;
    assert [x, y][1..] == [y] && [y][1..] == [];
    var s := Step(w, c, x);
    if s.Live? {
      assert Run(w, s, [y]) == Run(w, Step(w, s.c, y), []);
      assert Schedules(w, s, [y]) == (Enabled(s.c, y) && Schedules(w, Step(w, s.c, y), []));
    }
  }

  function RemoveFirst(schedule: seq<Role>, who: Role): (r: seq<Role>)
    requires Count(schedule, who) > 0
    ensures |r| == |schedule| - 1
    ensures forall x: Role :: Count(r, x) == Count(schedule, x) - if x == who then 1 else 0
  {
    if schedule[0] == who then schedule[1..]
    else
      var rest := RemoveFirst(schedule[1..], who);
      var r := [schedule[0]] + rest;
      assert r[1..] == rest;
      r
  }

  /** The first event of a running variant can be moved to the front of a schedule. */
  lemma {:induction false} PullFront(w: World, c: Config, who: Role, schedule: seq<Role>)
    requires Inv(w, c) && Enabled(c, who) && Count(schedule, who) > 0 && Schedules(w, Live(c), schedule)
    ensures var front := [who] + RemoveFirst(schedule, who);
      Schedules(w, Live(c), front) && Run(w, Live(c), front) == Run(w, Live(c), schedule)
    decreases |schedule|
  {
    hide Step, Inv;
    var rest, x := RemoveFirst(schedule, who), schedule[0];
    if x == who {
      assert [who] + rest == schedule;
    } else {
      var s := Step(w, c, x);
      var tail := rest[1..];
      assert rest == [x] + tail && tail == RemoveFirst(schedule[1..], who);
      StepLeavesOther(w, c, x);
      Swap(w, c, x, who, tail);
      if s.Live? {
        PullFront(w, s.c, who, schedule[1..]);
        RunSplit(w, Live(c), [x], [who] + tail);
        RunSplit(w, Live(c), [x], schedule[1..]);
        assert [x] + schedule[1..] == schedule;
        assert [x] + ([who] + tail) == [x, who] + tail;
      }
      assert [who] + rest == [who, x] + tail;
    }
  }

  /** Two leading events of running variants can be swapped. */
  lemma Swap(w: World, c: Config, x: Role, y: Role, tail: seq<Role>)
    requires Inv(w, c) && x != y && Enabled(c, x) && Enabled(c, y)
    ensures Run(w, Live(c), [x, y] + tail) == Run(w, Live(c), [y, x] + tail)
    ensures Schedules(w, Live(c), [x, y] + tail) <==> Schedules(w, Live(c), [y, x] + tail)
    ensures !Step(w, c, x).Live? ==>
      Schedules(w, Live(c), [y, x] + tail) && Run(w, Live(c), [y, x] + tail) == Step(w, c, x)
  {
    hide Step, Inv;
    Diamond(w, c);
    RunTwo(w, c, x, y);
    RunTwo(w, c, y, x);
    RunSplit(w, Live(c), [x, y], tail);
    RunSplit(w, Live(c), [y, x], tail);
  }

  /** Schedule independence: two schedules with equally many events of each variant end
      in the same state. */
  lemma {:induction false} SameCountsSameState(w: World, s: Status, a: seq<Role>, b: seq<Role>)
    requires s.Live? ==> Inv(w, s.c)
    requires Schedules(w, s, a) && Schedules(w, s, b)
    requires SameCounts(a, b)
    ensures Run(w, s, a) == Run(w, s, b)
    decreases |a|
  {
    hide Step, Inv;
    if a == [] {
      CountNone(b);
    } else if s.Live? {
      var x := a[0];
      assert Count(a, x) > 0;
      StepKeepsInv(w, s.c, x);
      PullFront(w, s.c, x, b);
      var rest := RemoveFirst(b, x);
      assert ([x] + rest)[1..] == rest;
      forall who: Role ensures Count(a[1..], who) == Count(rest, who) {
        assert Count(a, who) == Count(b, who);
      }
      SameCountsSameState(w, Step(w, s.c, x), a[1..], rest);
    }
  }

  lemma CountNone(schedule: seq<Role>)
    requires forall who: Role :: Count(schedule, who) == 0
    ensures schedule == []
  {
    if schedule != [] {
      assert Count(schedule, schedule[0]) > 0;
    }
  }

  // ---------- equal states need equal counts ----------

  /** The events variant `who` takes part in for one synchronised call: its entry, and
      its exit if its kernel runs the call after the executor has returned. */
  function Share(s: Sync, who: Role): nat {
    var plan := PlanOf(if s.m.Request? then s.m.call.nr else 0);
    1 + if (if who == Master then Resumes(plan) else RunsOwn(plan)) then 1 else 0
  }

  function Shares(syncs: seq<Sync>, who: Role): nat {
    if syncs == [] then 0 else Shares(syncs[..|syncs| - 1], who) + Share(syncs[|syncs| - 1], who)
  }

  /** How many events of `who` a state has behind it, read off the state alone. */
  function Events(c: Config, who: Role): int {
    var v := c.Of(who);
    Shares(c.syncs, who) + (if v.t.phase.AtEntry? then 1 else 0) - Busy(v)
  }

  lemma SharesStep(syncs: seq<Sync>, s: Sync, who: Role)
    ensures Shares(syncs + [s], who) == Shares(syncs, who) + Share(s, who)
  {
    assert (syncs + [s])[..|syncs|] == syncs;
  }

  lemma SyncCounts(w: World, c: Config, x: Role)
    requires Ready(w, c) && SyncStep(w, c).Live?
    ensures Events(SyncStep(w, c).c, x) == Events(c, x)
  {
    hide SyncStep, Execute, Passes, PlanOf, ReplicaCall, ReplicaTold, OutBuffer, Shares;
    SyncEffect(w, c);
    SharesStep(c.syncs, NextSync(w, c), x);
  }

  lemma StepCounts(w: World, c: Config, who: Role, x: Role)
    requires Inv(w, c) && Enabled(c, who) && Step(w, c, who).Live?
    ensures Events(Step(w, c, who).c, x) == Events(c, x) + if x == who then 1 else 0
  {
    hide Step, SyncStep, OutBuffer, Shares;
    if c.Of(who).t.phase.InKernel? {
      ExitEvent(w, c, who);
    } else if !c.Of(who.Other()).t.phase.AtEntry? {
      EntryEvent(w, c, who);
    } else {
      ArrivalEvent(w, c, who);
      SyncCounts(w, AtStop(w, c, who), x);
    }
  }

  /** A live state tells how many events of each variant led to it. */
  lemma {:induction false} RunCounts(w: World, c: Config, schedule: seq<Role>, x: Role)
    requires Inv(w, c) && Schedules(w, Live(c), schedule) && Run(w, Live(c), schedule).Live?
    ensures Count(schedule, x) == Events(Run(w, Live(c), schedule).c, x) - Events(c, x)
    decreases |schedule|
  {
    hide Step, Inv, Events;
    if schedule != [] {
      StepKeepsInv(w, c, schedule[0]);
      StepCounts(w, c, schedule[0], x);
      RunCounts(w, Step(w, c, schedule[0]).c, schedule[1..], x);
    }
  }

  /** Schedule independence, exactly: two schedules that keep the run alive end in the
      same state if and only if they have equally many events of each variant. */
  lemma SameStateIff(w: World, c: Config, a: seq<Role>, b: seq<Role>)
    requires Inv(w, c) && Schedules(w, Live(c), a) && Schedules(w, Live(c), b)
    requires Run(w, Live(c), a).Live? && Run(w, Live(c), b).Live?
    ensures Run(w, Live(c), a) == Run(w, Live(c), b) <==> SameCounts(a, b)
  {
    hide Inv, Step, Events;
    if Run(w, Live(c), a) == Run(w, Live(c), b) {
      forall who: Role ensures Count(a, who) == Count(b, who) {
        RunCounts(w, c, a, who);
        RunCounts(w, c, b, who);
      }
    } else if SameCounts(a, b) {
      SameCountsSameState(w, Live(c), a, b);
    }
  }
}
