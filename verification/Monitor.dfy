/** The monitor itself: executors, `processSyscallSync`, `processVariantEvent` and the
    event loop, working in place on the two variants, the buffers and the table. */
module MonitorLoop {
  import opened Words
  import opened Syscalls
  import opened Memory
  import opened Strings
  import opened Mappings
  import opened Tracees
  import opened RemoteMemory
  import opened Executors
  import opened Lockstep

  /** How an event came out: the monitor goes on, has killed both variants, met an
      executor that is not modelled, printed "Invalid State", or saw a variant exit. */
  datatype Report = WentOn | KilledBoth | NotCovered | InvalidState | Exited

  /** What the monitor does and leaves is what the state machine says. */
  ghost predicate Reports(s: Status, r: Report, p: Pair) {
    match s
    case Live(c) => r == WentOn && p == c.p
    case Killed(_, mEntered, rEntered) => r == KilledBoth && p.m.t.entered == mEntered && p.r.t.entered == rEntered
    case Ended(_, _, _) => r == Exited
    case Invalid(_) => r == InvalidState
    case OutOfModel(_) => r == NotCovered
  }

  class Monitor {
    const world: World
    const master: Variant
    const replica: Variant
    const bufA: array<Byte>
    const bufB: array<Byte>
    const fsBufA: array<Byte>
    const fsBufB: array<Byte>
    const mappings: MappingList

    ghost predicate Valid()
      reads this, mappings, mappings.nodes
    {
      && master != replica && master.role == Master && replica.role == Replica
      && bufA.Length == bufB.Length == fsBufA.Length == fsBufB.Length == BUF_SIZE
      && bufA != bufB && fsBufA != fsBufB && bufA != fsBufA && bufA != fsBufB
      && mappings.Valid()
    }

    ghost function Pair(): Pair
      requires Valid()
      reads this, mappings, mappings.nodes, master, replica, bufA
    {
      Executors.Pair.Pair(master.View(), replica.View(), bufA[..], mappings.contents)
    }

    constructor (world: World, idle: Call)
      ensures Valid() && fresh(master) && fresh(replica) && fresh(bufA) && fresh(bufB) && fresh(fsBufA) && fresh(fsBufB)
      ensures fresh(mappings) && fresh(mappings.nodes) && this.world == world
      ensures Pair().m.num == Pair().r.num == 0 && Pair().table == []
      ensures Pair().m.state == Pair().r.state == RUNNING
      ensures Pair().m.t == Tracee(Master, User, idle, idle, 0, [], [], [], [])
      ensures Pair().r.t == Tracee(Replica, User, idle, idle, 0, [], [], [], [])
    {
      this.world := world;
      var m := new Variant(Master, idle);
      m.ResumeFromWait();
      master := m;
      var r := new Variant(Replica, idle);
      r.ResumeFromWait();
      replica := r;
      bufA := new Byte[BUF_SIZE];
      bufB := new Byte[BUF_SIZE];
      fsBufA := new Byte[BUF_SIZE];
      fsBufB := new Byte[BUF_SIZE];
      mappings := new MappingList();
    }

    // ---------- steps the executors share ----------

    /** Complete the call in master: resume, wait, ask for the result. */
    method CompleteMaster() returns (r: int)
      requires Valid()
      modifies master
      ensures Valid()
      ensures var v := MasterRun(world, old(Pair())); Pair() == v.p && r == if v.ok then 0 else -1
    {
      master.ResumeFromWait();
      r := master.Wait(world);
      if r == 0 {
        master.RequestSyscallInfo();
      }
    }

    /** Complete the call in the replica's registers: resume, wait. */
    method CompleteReplica() returns (r: int)
      requires Valid()
      modifies replica
      ensures Valid()
      ensures var v := ReplicaRun(world, old(Pair())); Pair() == v.p && r == if v.ok then 0 else -1
    {
      replica.ResumeFromWait();
      r := replica.Wait(world);
    }

    /** Run the replica through a getpid instead of its own call. */
    method NopReplica() returns (r: int)
      requires Valid()
      modifies replica
      ensures Valid()
      ensures var v := ReplicaNop(world, old(Pair())); Pair() == v.p && r == if v.ok then 0 else -1
    {
      replica.SetNopSyscall();
      r := CompleteReplica();
    }

    /** Set the replica's result and resume both from their exit stops. */
    method ReturnToBoth(rval: I64)
      requires Valid()
      modifies master, replica
      ensures Valid()
      ensures Pair() == BothFromExit(WithReplicaRax(old(Pair()), rval))
    {
      hide Resumed;
      replica.SetSyscallReturnValue(rval);
      master.ResumeFromExit();
      replica.ResumeFromExit();
    }

    /** Resume both from where they wait. */
    method ResumeBoth()
      requires Valid()
      modifies master, replica
      ensures Valid()
      ensures Pair() == BothFromWait(old(Pair()))
    {
      hide Resumed;
      master.ResumeFromWait();
      replica.ResumeFromWait();
    }

    method RunMasterReplicateRet() returns (r: int)
      requires Valid()
      modifies master, replica
      ensures Valid()
      ensures var v := RunReturning(world, old(Pair()), true); Pair() == v.p && r == if v.ok then 0 else -1
    {
      hide BothFromExit, BothFromWait, MasterRun, ReplicaRun;
      r := CompleteMaster();
      if r != 0 {
        return -1;
      }
      var masterRVal := ToInt(master.syscallInfo.ExitValue());
      r := NopReplica();
      if r != 0 {
        return -1;
      }
      ReturnToBoth(masterRVal);
    }

    method RunBothCopyMasterRet() returns (r: int)
      requires Valid()
      modifies master, replica
      ensures Valid()
      ensures var v := RunReturning(world, old(Pair()), false); Pair() == v.p && r == if v.ok then 0 else -1
    {
      hide BothFromExit, BothFromWait, MasterRun, ReplicaRun;
      r := CompleteMaster();
      if r != 0 {
        return -1;
      }
      var masterRVal := ToInt(master.syscallInfo.ExitValue());
      r := CompleteReplica();
      if r != 0 {
        return -1;
      }
      ReturnToBoth(masterRVal);
    }

    /** `transferVariantMem(master, from, replica, to, size)` */
    method CopyToReplica(from: U64, to: U64, size: U64) returns (r: int)
      requires Valid()
      modifies replica, bufA
      ensures Valid()
      ensures r == if Transfers(size) then 0 else -1
      ensures Pair() == if Transfers(size) then Copied(world, old(Pair()), from, to, size) else old(Pair())
    {
      hide Transferred, Loaded;
      r := TransferVariantMem(master, from, replica, to, size, bufA, world.beyond);
    }

    // ---------- executors that move no data ----------

    /** brk, lseek, socket, exit_group and the others that resume both. */
    method ExecResume(checked: seq<nat>) returns (r: int)
      requires Valid()
      modifies master, replica
      ensures Valid()
      ensures var v := Execute(world, Resume(checked), old(Pair())); Pair() == v.p && r == if v.ok then 0 else -1
    {
      var eq := SameArgs(checked, master.syscallInfo, replica.syscallInfo);
      if !eq {
        return -1;
      }
      ResumeBoth();
      return 0;
    }

    /** fadvise64 and rseq: the verdict comes after both were resumed. */
    method ExecResumeUnchecked(checked: seq<nat>) returns (r: int)
      requires Valid()
      modifies master, replica
      ensures Valid()
      ensures var v := Execute(world, ResumeUnchecked(checked), old(Pair()));
        Pair() == v.p && r == if v.ok then 0 else -1
    {
      var eq := SameArgs(checked, master.syscallInfo, replica.syscallInfo);
      ResumeBoth();
      r := if eq then 0 else -1;
    }

    /** getpid, fchmod, fchown, listen. */
    method ExecReplicate(checked: seq<nat>) returns (r: int)
      requires Valid()
      modifies master, replica
      ensures Valid()
      ensures var v := Execute(world, Replicate(checked), old(Pair())); Pair() == v.p && r == if v.ok then 0 else -1
    {
      hide RunReturning;
      var eq := SameArgs(checked, master.syscallInfo, replica.syscallInfo);
      if !eq {
        return -1;
      }
      r := RunMasterReplicateRet();
    }

    /** close. */
    method ExecCopyRet(checked: seq<nat>) returns (r: int)
      requires Valid()
      modifies master, replica
      ensures Valid()
      ensures var v := Execute(world, CopyRet(checked), old(Pair())); Pair() == v.p && r == if v.ok then 0 else -1
    {
      hide RunReturning;
      var eq := SameArgs(checked, master.syscallInfo, replica.syscallInfo);
      if !eq {
        return -1;
      }
      r := RunBothCopyMasterRet();
    }

    method ExecMprotect() returns (r: int)
      requires Valid()
      modifies master, replica
      ensures Valid()
      ensures var v := Execute(world, Plan.Mprotect, old(Pair())); Pair() == v.p && r == if v.ok then 0 else -1
    {
      hide MappingList.Valid, PermsAllowed, ToInt, ToU64, FindFrom, BothFromWait;
      var target, newProt := master.syscallInfo.Arg(0), ToInt(master.syscallInfo.Arg(2));
      var eq := SameArgs([1], master.syscallInfo, replica.syscallInfo);
      eq := eq && ToU64(newProt) == replica.syscallInfo.Arg(2);
      if !eq {
        return -1;
      }
      var found := mappings.Find(target);
      if found != null {
        if !PermsAllowed(newProt, found.entry.flags) {
          return -1;
        }
      }
      ResumeBoth();
      return 0;
    }

    method ExecMunmap() returns (r: int)
      requires Valid()
      modifies master, replica, mappings, mappings.nodes
      ensures Valid() && forall n :: n in mappings.nodes ==> n in old(mappings.nodes)
      ensures var v := Execute(world, Plan.Munmap, old(Pair())); Pair() == v.p && r == if v.ok then 0 else -1
    {
      hide MappingList.Valid, FindFrom, BaseFrom, Removed, BothFromWait;
      var target := master.syscallInfo.Arg(0);
      var eq := SameArgs([1], master.syscallInfo, replica.syscallInfo);
      if !eq {
        return -1;
      }
      var found := mappings.Find(target);
      if found != null {
        if found.entry.addr != target {
          return -1;
        }
        var _ := mappings.Remove(found.entry.addr);
      } else {
        return -1;
      }
      ResumeBoth();
      return 0;
    }

    method ExecMmap() returns (r: int)
      requires Valid()
      modifies master, replica, mappings, mappings.nodes
      ensures Valid() && forall n :: n in mappings.nodes ==> n in old(mappings.nodes) || fresh(n)
      ensures var v := Execute(world, Plan.Mmap, old(Pair())); Pair() == v.p && r == if v.ok then 0 else -1
    {
      hide MappingList.Valid, PermsAllowed, ToInt, ToU64, MasterRun, Resumed;
      var eq := SameArgs([1, 4, 5], master.syscallInfo, replica.syscallInfo);
      var masterProt, masterFlags := ToInt(master.syscallInfo.Arg(2)), ToInt(master.syscallInfo.Arg(3));
      eq := eq && ToU64(masterProt) == replica.syscallInfo.Arg(2) && ToU64(masterFlags) == replica.syscallInfo.Arg(3);
      if !eq {
        return -1;
      }
      if !PermsAllowed(masterProt, masterFlags) {
        return -1;
      }
      r := CompleteMaster();
      if r != 0 {
        return -1;
      }
      var mappedAddr := ToU64(master.syscallInfo.ExitValue());
      master.ResumeFromExit();
      mappings.Add(mappedAddr, master.syscallInfo.Arg(1), masterProt, masterFlags);
      replica.ResumeFromWait();
    }

    // ---------- executors that compare or move data ----------

    method ExecBind() returns (r: int)
      requires Valid()
      modifies master, replica, bufA, bufB
      ensures Valid()
      ensures var v := Execute(world, Plan.Bind, old(Pair())); Pair() == v.p && r == if v.ok then 0 else -1
    {
      hide RunReturning, SameImage, Loaded;
      var eq := SameArgs([0], master.syscallInfo, replica.syscallInfo);
      var addrLen := BindLen(master.syscallInfo);
      eq := eq && addrLen == replica.syscallInfo.Arg(2);
      var cmp := VariantMemCmp(master, master.syscallInfo.Arg(1), replica, replica.syscallInfo.Arg(1), addrLen, bufA,
          bufB);
      eq := eq && cmp == 0;
      if !eq {
        return -1;
      }
      r := RunMasterReplicateRet();
    }

    method ExecRead() returns (r: int)
      requires Valid()
      modifies master, replica, bufA
      ensures Valid()
      ensures var v := Execute(world, Plan.Read, old(Pair())); Pair() == v.p && r == if v.ok then 0 else -1
    {
      hide BothFromExit, BothFromWait, MasterRun, ReplicaRun, Transferred, Loaded, ToInt, ToU64;
      var masterFd := ToInt(master.syscallInfo.Arg(0));
      var eq := ToU64(masterFd) == replica.syscallInfo.Arg(0);
      var masterBuf, replicaBuf := master.syscallInfo.Arg(1), replica.syscallInfo.Arg(1);
      eq := eq && SameArgs([2], master.syscallInfo, replica.syscallInfo);
      if !eq {
        return -1;
      }
      r := CompleteMaster();
      if r != 0 {
        return -1;
      }
      var bytesRead := master.syscallInfo.ExitValue();
      if bytesRead != -1 {
        r := CopyToReplica(masterBuf, replicaBuf, ToU64(bytesRead));
        if r != 0 {
          return -1;
        }
      }
      replica.SetArguments(ToU64(masterFd), ToU64(bytesRead), SEEK_CUR);
      replica.SetSyscall(SYS_LSEEK);
      r := CompleteReplica();
      if r != 0 {
        return -1;
      }
      ReturnToBoth(bytesRead);
    }

    method ExecPread64() returns (r: int)
      requires Valid()
      modifies master, replica, bufA
      ensures Valid()
      ensures var v := Execute(world, Plan.Pread, old(Pair())); Pair() == v.p && r == if v.ok then 0 else -1
    {
      hide BothFromExit, BothFromWait, MasterRun, ReplicaNop, Transferred, Loaded, ToU64;
      var eq := SameArgs([0, 2, 3], master.syscallInfo, replica.syscallInfo);
      var masterBuf, replicaBuf := master.syscallInfo.Arg(1), replica.syscallInfo.Arg(1);
      if !eq {
        return -1;
      }
      r := CompleteMaster();
      if r != 0 {
        return -1;
      }
      var bytesRead := master.syscallInfo.ExitValue();
      r := CopyToReplica(masterBuf, replicaBuf, ToU64(bytesRead));
      if r != 0 {
        return -1;
      }
      r := NopReplica();
      if r != 0 {
        return -1;
      }
      ReturnToBoth(bytesRead);
    }

    method ExecGetrandom() returns (r: int)
      requires Valid()
      modifies master, replica, bufA
      ensures Valid()
      ensures var v := Execute(world, Plan.GetRandom, old(Pair())); Pair() == v.p && r == if v.ok then 0 else -1
    {
      hide BothFromExit, BothFromWait, MasterRun, ReplicaNop, Transferred, Loaded, ToU64;
      var masterBuf, replicaBuf := master.syscallInfo.Arg(0), replica.syscallInfo.Arg(0);
      var eq := SameArgs([1, 2], master.syscallInfo, replica.syscallInfo);
      if !eq {
        return -1;
      }
      r := CompleteMaster();
      if r != 0 {
        return -1;
      }
      var bytesWritten := master.syscallInfo.ExitValue();
      if bytesWritten != -1 {
        r := CopyToReplica(masterBuf, replicaBuf, ToU64(bytesWritten));
        if r != 0 {
          return -1;
        }
      }
      r := NopReplica();
      if r != 0 {
        return -1;
      }
      replica.SetSyscallReturnValue(bytesWritten);
      ResumeBoth();
    }

    method ExecPoll() returns (r: int)
      requires Valid()
      modifies master, replica, bufA, bufB
      ensures Valid()
      ensures var v := Execute(world, Plan.Poll, old(Pair())); Pair() == v.p && r == if v.ok then 0 else -1
    {
      hide BothFromExit, BothFromWait, MasterRun, ReplicaNop, Transferred, Loaded, PollBytes, SameImage;
      var eq := SameArgs([1, 2], master.syscallInfo, replica.syscallInfo);
      var masterFds, replicaFds := master.syscallInfo.Arg(0), replica.syscallInfo.Arg(0);
      var fdsSize := PollBytes(master.syscallInfo.Arg(1));
      if eq {
        var cmp := VariantMemCmp(master, masterFds, replica, replicaFds, fdsSize, bufA, bufB);
        eq := cmp == 0;
      }
      if !eq {
        return -1;
      }
      r := CompleteMaster();
      if r == -1 {
        return -1;
      }
      r := NopReplica();
      if r == -1 {
        return -1;
      }
      r := CopyToReplica(masterFds, replicaFds, fdsSize);
      if r != 0 {
        return -1;
      }
      ReturnToBoth(master.syscallInfo.ExitValue());
    }

    method ExecNewfstatat() returns (r: int)
      requires Valid()
      modifies master, replica, bufA, fsBufA, fsBufB
      ensures Valid()
      ensures var v := Execute(world, Plan.Fstat, old(Pair())); Pair() == v.p && r == if v.ok then 0 else -1
    {
      hide BothFromExit, BothFromWait, MasterRun, ReplicaNop, Transferred, Loaded, ToInt, PathAgrees;
      var eq := master.syscallInfo.Arg(0) == replica.syscallInfo.Arg(0);
      if eq {
        eq := PathTest(master, master.syscallInfo.Arg(1), replica, replica.syscallInfo.Arg(1), fsBufA, fsBufB);
      }
      eq := eq && master.syscallInfo.Arg(3) == replica.syscallInfo.Arg(3);
      if !eq {
        return -1;
      }
      var masterBuf, replicaBuf := master.syscallInfo.Arg(2), replica.syscallInfo.Arg(2);
      r := CompleteMaster();
      if r != 0 {
        return -1;
      }
      var masterRet := ToInt(master.syscallInfo.ExitValue());
      r := CopyToReplica(masterBuf, replicaBuf, SIZEOF_STAT);
      if r != 0 {
        return -1;
      }
      r := NopReplica();
      if r != 0 {
        return -1;
      }
      ReturnToBoth(masterRet);
    }

    // ---------- the event loop ----------

    /** Everything the monitor writes to. */
    ghost function Writes(): set<object>
      reads this, mappings
    {
      {master, replica, bufA, bufB, fsBufA, fsBufB, mappings} + set n | n in mappings.nodes
    }

    /** The `switch` over executors. */
    method ExecSyscall(plan: Plan) returns (r: int)
      requires Valid() && !plan.NotModelled? && !plan.Missing?
      modifies Writes()
      ensures Valid() && forall n :: n in mappings.nodes ==> n in old(mappings.nodes) || fresh(n)
      ensures var v := Execute(world, plan, old(Pair())); Pair() == v.p && r == if v.ok then 0 else -1
    {
      hide Execute;
      match plan
      case Resume(checked) => r := ExecResume(checked);
      case ResumeUnchecked(checked) => r := ExecResumeUnchecked(checked);
      case Replicate(checked) => r := ExecReplicate(checked);
      case CopyRet(checked) => r := ExecCopyRet(checked);
      case Bind => r := ExecBind();
      case Read => r := ExecRead();
      case Pread => r := ExecPread64();
      case GetRandom => r := ExecGetrandom();
      case Poll => r := ExecPoll();
      case Fstat => r := ExecNewfstatat();
      case Mmap => r := ExecMmap();
      case Munmap => r := ExecMunmap();
      case Mprotect => r := ExecMprotect();
    }

    method ProcessSyscallSync(ghost syncs: seq<Sync>) returns (r: Report)
      requires Valid()
      modifies Writes()
      ensures Valid() && forall n :: n in mappings.nodes ==> n in old(mappings.nodes) || fresh(n)
      ensures Reports(SyncStep(world, Config(old(Pair()), syncs)), r, Pair())
    {
      hide Execute, PlanOf;
      var m, s := master.syscallInfo, replica.syscallInfo;
      if m.Entry? != s.Entry? || m.Exit? != s.Exit? {
        return KilledBoth;
      }
      if InfoNr(m) != InfoNr(s) {
        return KilledBoth;
      }
      var plan := PlanOf(InfoNr(m));
      if plan.NotModelled? {
        return NotCovered;
      }
      if plan.Missing? {
        MissingKills(world, Pair());
        return KilledBoth;
      }
      var execResult := ExecSyscall(plan);
      r := if execResult == 0 then WentOn else KilledBoth;
    }

    method ProcessVariantEvent(vSelf: Variant, vOther: Variant, ghost syncs: seq<Sync>) returns (r: Report)
      requires Valid() && ((vSelf == master && vOther == replica) || (vSelf == replica && vOther == master))
      modifies Writes()
      ensures Valid() && forall n :: n in mappings.nodes ==> n in old(mappings.nodes) || fresh(n)
      ensures var c := Config(old(Pair()), syncs);
        Reports(EventStep(world, c.With(vSelf.role, c.Of(vSelf.role).Informed()), vSelf.role), r, Pair())
    {
      hide SyncStep, Resumed;
      vSelf.RequestSyscallInfo();
      if vSelf.syscallInfo.Entry? {
        if vSelf.syscallNum == vOther.syscallNum {
          if vOther.state == WAIT {
            r := ProcessSyscallSync(syncs);
          } else {
            vSelf.state := WAIT;
            r := WentOn;
          }
        } else if vSelf.syscallNum > vOther.syscallNum {
          vSelf.state := WAIT;
          r := WentOn;
        } else {
          r := InvalidState;
        }
      } else if vSelf.syscallInfo.Exit? {
        vSelf.ResumeFromExit();
        r := WentOn;
      } else {
        r := InvalidState;
      }
    }

    /** One turn of the loop in `main`: `waitpid` has reported variant `who`. */
    method HandleEvent(who: Role, ghost syncs: seq<Sync>) returns (r: Report)
      requires Valid()
      modifies Writes()
      ensures Valid() && forall n :: n in mappings.nodes ==> n in old(mappings.nodes) || fresh(n)
      ensures Reports(Step(world, Config(old(Pair()), syncs), who), r, Pair())
    {
      hide EventStep, Stopped;
      var vSelf, vOther := if who == Master then master else replica, if who == Master then replica else master;
      var status := vSelf.Wait(world);
      if status != 0 {
        return Exited;
      }
      r := ProcessVariantEvent(vSelf, vOther, syncs);
    }

    /** The loop in `main`, on the variants `waitpid` reports in turn. */
    method EventLoop(schedule: seq<Role>) returns (r: Report)
      requires Valid()
      modifies Writes()
      ensures Valid()
      ensures Reports(Run(world, Live(Config(old(Pair()), [])), schedule), r, Pair())
    {
      hide Step;
      ghost var s, nodes := Live(Config(Pair(), [])), mappings.nodes;
      var i := 0;
      r := WentOn;
      while i < |schedule| && r == WentOn
        invariant 0 <= i <= |schedule| && Valid()
        invariant forall n :: n in mappings.nodes ==> n in nodes || fresh(n)
        invariant Reports(s, r, Pair())
        invariant Run(world, s, schedule[i..]) == Run(world, Live(Config(old(Pair()), [])), schedule)
      {
        assert schedule[i..][0] == schedule[i] && schedule[i..][1..] == schedule[i + 1..];
        r := HandleEvent(schedule[i], s.c.syncs);
        s := Step(world, s.c, schedule[i]);
        i := i + 1;
      }
    }
  }

  lemma MissingKills(w: World, p: Pair)
    ensures Execute(w, Missing, p) == Verdict(false, p)
  {
  }
}
