/** A variant: the traced process on one side of ptrace, the monitor's record of
    it on the other. */
module Tracees {
  import opened Words
  import opened Syscalls

  datatype Role = Master | Replica {
    function Other(): Role {
      if this == Master then Replica else Master
    }
  }

  /** Where the traced process is: running user code (its next stop is a call
      entry), stopped at the entry, inside the kernel (its next stop is the call's
      exit), stopped at the exit, or gone. */
  datatype Phase = User | AtEntry | InKernel | AtExit | Gone

  /** What one completed call told the program. */
  datatype Obs = Obs(rval: I64, out: seq<Byte>)

  /** What a program does next: make a call, with its memory at that moment, or end. */
  datatype Request = Request(call: Call, mem: seq<Byte>) | Terminate

  /** What the kernel makes of a call: a result and the memory it leaves, or the
      end of the process. */
  datatype Outcome = Returns(rval: I64, mem: seq<Byte>) | Dies

  /** A call the kernel completed, as the kernel saw it. */
  datatype Done = Done(call: Call, rval: I64)

  /** Everything the monitor does not control.  Each variant runs a deterministic
      program, whose next request depends on what its calls told it, against a
      kernel whose answers depend on the calls that variant has completed. */
  datatype World = World(
    prog: (Role, seq<Obs>) -> Request,
    kernel: (Role, seq<Done>, Call, seq<Byte>) -> Outcome,
    beyond: nat -> Byte  // the bytes found past the end of the transfer buffer
  )

  /** The traced process.  `asked` is the call its program made; `regs` is the call
      in its registers, which the monitor may have rewritten. */
  datatype Tracee = Tracee(
    role: Role,
    phase: Phase,
    asked: Call,
    regs: Call,
    rax: I64,
    mem: seq<Byte>,
    past: seq<Obs>,
    done: seq<Done>,
    entered: seq<Call>  // every call that entered the kernel
  )

  /** PTRACE_SYSCALL: from an entry stop into the kernel, from an exit stop back
      to the program, which now sees the result. */
  function Resumed(t: Tracee): Tracee {
    match t.phase
    case AtEntry => t.(phase := InKernel, entered := t.entered + [t.regs])
    case AtExit => t.(phase := User, past := t.past + [Obs(t.rax, OutBuffer(t.asked, t.rax, t.mem))])
    case _ => t
  }

  /** The next stop of a running process. */
  function Stopped(w: World, t: Tracee): Tracee {
    match t.phase
    case User => (
      match w.prog(t.role, t.past)
      case Request(call, mem) => t.(phase := AtEntry, asked := call, regs := call, mem := mem)
      case Terminate => t.(phase := Gone))
    case InKernel => (
      match w.kernel(t.role, t.done, t.regs, t.mem)
      case Returns(rval, mem) => t.(phase := AtExit, rax := rval, mem := mem, done := t.done + [Done(t.regs, rval)])
      case Dies => t.(phase := Gone))
    case _ => t
  }

  predicate Running(t: Tracee) {
    t.phase.User? || t.phase.InKernel?
  }

  datatype RunState = RUNNING | WAIT

  /** `struct ptrace_syscall_info`, a union that is cleared before it is filled. */
  datatype Info = NoInfo | Entry(call: Call) | Exit(rval: I64) {
    /** `entry.args[i]`: on an exit record, bytes that were cleared (i >= 1). */
    function Arg(i: nat): U64
      requires i < 6
    {
      if Entry? then call.args[i] else 0
    }

    function ExitValue(): I64 {
      if Exit? then rval else 0
    }
  }

  function InfoOf(t: Tracee): Info {
    match t.phase
    case AtEntry => Entry(t.regs)
    case AtExit => Exit(t.rax)
    case _ => NoInfo
  }

  /** The monitor's `variant` together with the process behind it. */
  datatype V = V(state: RunState, num: nat, info: Info, t: Tracee) {
    /** `resumeVariantFromWait` */
    function FromWait(): V {
      this.(t := Resumed(t), state := RUNNING)
    }

    /** `resumeVariantFromExit` */
    function FromExit(): V {
      this.(t := Resumed(t), num := num + 1)
    }

    /** `waitVariant` */
    function Waited(w: World): V {
      this.(t := Stopped(w, t))
    }

    /** `requestSyscallInfo` */
    function Informed(): V {
      this.(info := InfoOf(t))
    }

    /** `setSyscall` */
    function WithNr(nr: nat): V {
      this.(t := t.(regs := t.regs.(nr := nr)))
    }

    /** PTRACE_SETREGS on the three first argument registers */
    function WithArgs(a0: U64, a1: U64, a2: U64): V {
      this.(t := t.(regs := t.regs.(args := [a0, a1, a2] + t.regs.args[3..])))
    }

    /** `setSyscallReturnValue` */
    function WithRax(rval: I64): V {
      this.(t := t.(rax := rval))
    }

    function WithMem(mem: seq<Byte>): V {
      this.(t := t.(mem := mem))
    }

    predicate Left() {
      t.phase.Gone?
    }
  }

  class Variant {
    const role: Role
    var state: RunState
    var syscallNum: nat
    var syscallInfo: Info
    var tracee: Tracee

    function View(): V
      reads this
    {
      V(state, syscallNum, syscallInfo, tracee)
    }

    /** `initVariant`: the process is past its exec, no call made. */
    constructor (role: Role, idle: Call)
      ensures this.role == role
      ensures syscallNum == 0 && tracee == Tracee(role, User, idle, idle, 0, [], [], [], [])
    {
      this.role := role;
      syscallNum := 0;
      syscallInfo := NoInfo;
      tracee := Tracee(role, User, idle, idle, 0, [], [], [], []);
    }

    method RequestSyscallInfo()
      modifies this
      ensures View() == old(View()).Informed()
    {
      syscallInfo := InfoOf(tracee);
    }

    /** -1 if the process is gone. */
    method Wait(w: World) returns (r: int)
      modifies this
      ensures View() == old(View()).Waited(w)
      ensures r == if View().Left() then -1 else 0
    {
      tracee := Stopped(w, tracee);
      r := if tracee.phase.Gone? then -1 else 0;
    }

    method ResumeFromWait()
      modifies this
      ensures View() == old(View()).FromWait()
    {
      tracee := Resumed(tracee);
      state := RUNNING;
    }

    method ResumeFromExit()
      modifies this
      ensures View() == old(View()).FromExit()
    {
      tracee := Resumed(tracee);
      syscallNum := syscallNum + 1;
    }

    method SetSyscall(nr: nat)
      modifies this
      ensures View() == old(View()).WithNr(nr)
    {
      tracee := tracee.(regs := tracee.regs.(nr := nr));
    }

    method SetNopSyscall()
      modifies this
      ensures View() == old(View()).WithNr(SYS_GETPID)
    {
      SetSyscall(SYS_GETPID);
    }

    method SetArguments(a0: U64, a1: U64, a2: U64)
      modifies this
      ensures View() == old(View()).WithArgs(a0, a1, a2)
    {
      tracee := tracee.(regs := tracee.regs.(args := [a0, a1, a2] + tracee.regs.args[3..]));
    }

    method SetSyscallReturnValue(rval: I64)
      modifies this
      ensures View() == old(View()).WithRax(rval)
    {
      tracee := tracee.(rax := rval);
    }
  }
}
