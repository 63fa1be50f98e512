/** The monitor is invisible to master: under every schedule, and whatever the replica
    does to its own kernel, master goes through exactly the states of a run without a
    monitor.  A file that both variants inherited is not the replica's own: see
    `Offsets.InheritedReadIff`. */
module Native {
  import opened Words
  import opened Syscalls
  import opened Memory
  import opened Tracees
  import opened Executors
  import opened Effects
  import opened Lockstep
  import opened Runs

  /** One step of a process that is merely traced: run to the next stop, or be resumed. */
  function TracedStep(w: World, t: Tracee): Tracee {
    if Running(t) then Stopped(w, t) else Resumed(t)
  }

  function Traced(w: World, t: Tracee, n: nat): Tracee
    decreases n
  {
    if n == 0 then t else TracedStep(w, Traced(w, t, n - 1))
  }

  /** Traced steps taken by a process with `calls` calls behind it: a call is four steps. */
  function StepsTaken(t: Tracee): nat {
    4 * |t.past| + match t.phase
                   case User => 0
                   case AtEntry => 1
                   case InKernel => 2
                   case AtExit => 3
                   case Gone => 0
  }

  ghost predicate OnNativeRun(w: World, t0: Tracee, t: Tracee) {
    t == Traced(w, t0, StepsTaken(t))
  }

  /** Every executor that succeeds resumes master as it stopped, once or through the
      whole call. */
  lemma ExecuteMaster(w: World, plan: Plan, p: Pair)
    requires Execute(w, plan, p).ok
    ensures Execute(w, plan, p).p.m.t == if Resumes(plan) then Resumed(p.m.t) else Resumed(Stopped(w, Resumed(p.m.t)))
  {
    hide Resumed, Stopped, Transferred, Loaded, Passes, CheckBuf, ToInt, ToU64, PollBytes;
  }

  // ---------- what the native run looks like ----------

  /** Call `k` of a process told `past`: its program asked for it, its kernel answered it
      knowing the calls before, and the program was told that answer. */
  ghost predicate LivedCall(w: World, role: Role, past: seq<Obs>, done: seq<Done>, k: nat)
    requires k < |past| && k < |done|
  {
    var q := w.prog(role, past[..k]);
    q.Request? &&
    var a := w.kernel(role, done[..k], q.call, q.mem);
    a.Returns? && done[k] == Done(q.call, a.rval) && past[k] == Obs(a.rval, OutBuffer(q.call, a.rval, a.mem))
  }

  ghost predicate Lived(w: World, role: Role, past: seq<Obs>, done: seq<Done>) {
    |past| == |done| && forall k :: 0 <= k < |past| ==> LivedCall(w, role, past, done, k)
  }

  /** A process in the middle of its life. */
  ghost predicate Living(w: World, t: Tracee) {
    var n, q := |t.past|, w.prog(t.role, t.past);
    && n <= |t.done| && Lived(w, t.role, t.past, t.done[..n])
    && (t.phase.User? || t.phase.AtEntry? || t.phase.InKernel? ==> |t.done| == n)
    && (t.phase.AtEntry? || t.phase.InKernel? ==> q == Request(t.asked, t.mem) && t.regs == t.asked)
    && (t.phase.AtExit? ==>
          && q.Request? && t.asked == q.call && t.done == t.done[..n] + [Done(q.call, t.rax)]
          && w.kernel(t.role, t.done[..n], q.call, q.mem) == Returns(t.rax, t.mem))
  }

  lemma OneMoreCall(w: World, role: Role, past: seq<Obs>, done: seq<Done>, o: Obs, d: Done)
    requires Lived(w, role, past, done)
    ensures Lived(w, role, past + [o], done + [d]) <==>
      var q := w.prog(role, past);
      q.Request? &&
      var a := w.kernel(role, done, q.call, q.mem);
      a.Returns? && d == Done(q.call, a.rval) && o == Obs(a.rval, OutBuffer(q.call, a.rval, a.mem))
  {
    hide OutBuffer;
    var past', done' := past + [o], done + [d];
    assert past'[..|past|] == past && done'[..|done|] == done;
    forall k | 0 <= k < |past| ensures LivedCall(w, role, past', done', k) {
      assert past'[..k] == past[..k] && done'[..k] == done[..k];
      assert LivedCall(w, role, past, done, k);
    }
    assert LivedCall(w, role, past', done', |past|) <==>
      var q := w.prog(role, past);
      q.Request? &&
      var a := w.kernel(role, done, q.call, q.mem);
      a.Returns? && d == Done(q.call, a.rval) && o == Obs(a.rval, OutBuffer(q.call, a.rval, a.mem));
  }

  lemma TracedStepLives(w: World, t: Tracee)
    requires Living(w, t)
    ensures Living(w, TracedStep(w, t))
  {
    hide OutBuffer, LivedCall;
    var n := |t.past|;
    if t.phase.User? || t.phase.AtEntry? || t.phase.InKernel? {
      assert t.done[..n] == t.done;
      assert TracedStep(w, t).done[..n] == t.done;
    } else if t.phase.AtExit? {
      assert t.done[..n] + [t.done[n]] == t.done == t.done[..n + 1];
      OneMoreCall(w, t.role, t.past, t.done[..n], Obs(t.rax, OutBuffer(t.asked, t.rax, t.mem)), t.done[n]);
    }
  }

  /** The native run is the program's and the kernel's conversation, call by call. */
  lemma {:induction false} TracedLives(w: World, t0: Tracee, n: nat)
    requires t0.phase.User? && t0.past == [] && t0.done == []
    ensures Living(w, Traced(w, t0, n))
    decreases n
  {
    hide TracedStep;
    if n > 0 {
      TracedLives(w, t0, n - 1);
      TracedStepLives(w, Traced(w, t0, n - 1));
    }
  }

  lemma Advance(w: World, t0: Tracee, t: Tracee)
    requires OnNativeRun(w, t0, t) && StepsTaken(TracedStep(w, t)) == StepsTaken(t) + 1
    ensures OnNativeRun(w, t0, TracedStep(w, t))
  {
    hide TracedStep, StepsTaken;
  }

  /** From each phase, the moves the monitor makes stay on the native run. */
  lemma Moves(w: World, t0: Tracee, t: Tracee)
    requires OnNativeRun(w, t0, t)
    ensures t.phase.User? && Stopped(w, t).phase.AtEntry? ==> OnNativeRun(w, t0, Stopped(w, t))
    ensures t.phase.InKernel? && Stopped(w, t).phase.AtExit? ==> OnNativeRun(w, t0, Resumed(Stopped(w, t)))
    ensures t.phase.AtEntry? ==> OnNativeRun(w, t0, Resumed(t))
  {
    hide OnNativeRun, OutBuffer;
    if t.phase.User? && Stopped(w, t).phase.AtEntry? {
      Advance(w, t0, t);
    } else if t.phase.InKernel? && Stopped(w, t).phase.AtExit? {
      Advance(w, t0, t);
      Advance(w, t0, Stopped(w, t));
    } else if t.phase.AtEntry? {
      Advance(w, t0, t);
    }
  }

  lemma SyncStaysNative(w: World, c: Config, t0: Tracee)
    requires Ready(w, c) && SyncStep(w, c).Live? && OnNativeRun(w, t0, c.p.m.t)
    ensures OnNativeRun(w, t0, SyncStep(w, c).c.p.m.t)
  {
    hide SyncStep, Execute, OnNativeRun, Passes, PlanOf, OutBuffer, ReplicaCall, ReplicaTold;
    SyncEffect(w, c);
    ExecuteMaster(w, PlanOf(c.p.m.t.asked.nr), c.p);
    Moves(w, t0, c.p.m.t);
    Moves(w, t0, Resumed(c.p.m.t));
  }

  /** The invariant: master stands where its native run stands after as many steps. */
  lemma StepStaysNative(w: World, c: Config, who: Role, t0: Tracee)
    requires Inv(w, c) && Enabled(c, who) && OnNativeRun(w, t0, c.p.m.t) && Step(w, c, who).Live?
    ensures OnNativeRun(w, t0, Step(w, c, who).c.p.m.t)
  {
    hide SyncStep, OnNativeRun, OutBuffer;
    Moves(w, t0, c.p.m.t);
    if Arrives(c, who) {
      ArrivalEvent(w, c, who);
      SyncStaysNative(w, AtStop(w, c, who), t0);
    }
  }

  lemma {:induction false} RunStaysNative(w: World, c: Config, schedule: seq<Role>, t0: Tracee)
    requires Inv(w, c) && OnNativeRun(w, t0, c.p.m.t) && Schedules(w, Live(c), schedule)
        && Run(w, Live(c), schedule).Live?
    ensures OnNativeRun(w, t0, Run(w, Live(c), schedule).c.p.m.t)
    decreases |schedule|
  {
    hide Step, Inv, OnNativeRun;
    if schedule != [] {
      StepKeepsInv(w, c, schedule[0]);
      StepStaysNative(w, c, schedule[0], t0);
      RunStaysNative(w, Step(w, c, schedule[0]).c, schedule[1..], t0);
    }
  }

  /** Transparency for master: in every reachable live state it is in exactly the state
      of its unmonitored run: same memory, same calls, same results.  That run is the
      conversation of its program with its kernel. */
  lemma MasterRunsNatively(w: World, c: Config, schedule: seq<Role>)
    requires Initial(c) && Schedules(w, Live(c), schedule) && Run(w, Live(c), schedule).Live?
    ensures var t := Run(w, Live(c), schedule).c.p.m.t;
      t == Traced(w, c.p.m.t, StepsTaken(t)) && Lived(w, Master, t.past, t.done)
  {
    hide Run, Schedules, TracedStep, LivedCall;
    RunStaysNative(w, c, schedule, c.p.m.t);
    RunKeeps(w, c, schedule);
    var t := Run(w, Live(c), schedule).c.p.m.t;
    TracedLives(w, c.p.m.t, StepsTaken(t));
    assert t.done[..|t.past|] == t.done;
  }
}
