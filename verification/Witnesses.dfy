/** Runs from the start, of programs that follow a script, in which a claim fails. */
module Witnesses {
  import opened Words
  import opened Syscalls
  import opened Mappings
  import opened Tracees
  import opened Executors
  import opened Lockstep
  import opened Runs
  import opened Confluence
  import opened Reordering
  import opened AddressSpace
  import opened Policy
  import opened Scripts

  // ---------- mprotect past the table ----------

  const PAGE: U64 := 4096
  const BASE: U64 := 0x10000
  const PROT_READ: U64 := 1
  const PROT_READ_WRITE: U64 := 3
  const MAP_SHARED: U64 := 1
  const MAP_PRIVATE: U64 := 2
  const MAP_SHARED_VALIDATE: U64 := 3
  const MAP_FIXED: U64 := 16
  const FD: U64 := 3

  function MmapCall(addr: U64, len: U64, prot: U64, flags: U64): Call {
    Call(SYS_MMAP, [addr, len, prot, flags, FD, 0])
  }

  function WritableCall(addr: U64): Call {
    Call(SYS_MPROTECT, [addr, PAGE, PROT_READ_WRITE, 0, 0, 0])
  }

  /** Map two shared pages of a file for reading; make the second one writable. */
  function InteriorScript(): seq<Line> {
    [Both(MmapCall(0, 2 * PAGE, PROT_READ, MAP_SHARED), BASE), Both(WritableCall(BASE + PAGE), 0)]
  }

  /** Map a private page; map a shared one in its place; make that writable. */
  function ReplacingScript(): seq<Line> {
    [Both(MmapCall(0, PAGE, PROT_READ, MAP_PRIVATE), BASE),
     Both(MmapCall(BASE, PAGE, PROT_READ, MAP_SHARED + MAP_FIXED), BASE),
     Both(WritableCall(BASE), 0)]
  }

  /** Map a writable page of type MAP_SHARED_VALIDATE. */
  function ValidateScript(): seq<Line> {
    [Both(MmapCall(0, PAGE, PROT_READ_WRITE, MAP_SHARED_VALIDATE), BASE)]
  }

  /** Map a private page and a shared one; master makes the private one writable, the
      replica the shared one. */
  function DivergingScript(): seq<Line> {
    [Both(MmapCall(0, PAGE, PROT_READ, MAP_PRIVATE), BASE),
     Both(MmapCall(0, PAGE, PROT_READ, MAP_SHARED), BASE + PAGE),
     Line(WritableCall(BASE), WritableCall(BASE + PAGE), 0)]
  }

  lemma Bits()
    ensures !Bit1(1) && Bit1(2) && Bit1(3) && !Bit1(17)
  {
  }

  lemma MmapIsPlain(addr: U64, len: U64, prot: U64, flags: U64)
    requires prot < TWO_31 && flags < TWO_31 && PermsAllowed(prot, flags)
    ensures Plain(MmapCall(addr, len, prot, flags), MmapCall(addr, len, prot, flags)) && PlanOf(SYS_MMAP) == Mmap
    ensures forall table :: PolicyAllows(Mmap, Entry(MmapCall(addr, len, prot, flags)), table)
  {
    Bits();
    assert ToInt(flags) == flags && ToU64(flags) == flags && ToInt(prot) == prot && ToU64(prot) == prot;
  }

  lemma WritableIsPlain(addr: U64, other: U64)
    ensures Plain(WritableCall(addr), WritableCall(other)) && PlanOf(SYS_MPROTECT) == Mprotect
  {
  }

  lemma MmapTable(at: U64, addr: U64, len: U64, prot: U64, flags: U64, table: seq<Mapping>)
    requires at < TWO_31 && prot < TWO_31 && flags < TWO_31 && PermsAllowed(prot, flags)
    ensures TableNext(Sync(Request(MmapCall(addr, len, prot, flags), []), Terminate, table), at) ==
      table + [Mapping(at, 0, prot, flags)]
  {
    hide ToInt, ToU64;
    MmapIsPlain(addr, len, prot, flags);
    Small(prot);
    Small(flags);
    Small(at);
  }

  /** The protection passes where the entry found, if any, is private. */
  lemma WritableAllowed(addr: U64, table: seq<Mapping>)
    requires var k := FindIndex(table, addr); k < |table| ==> Bit1(table[k].flags)
    ensures PolicyAllows(Mprotect, Entry(WritableCall(addr)), table)
  {
    hide ToInt, FindIndex;
  }

  lemma MappedMmap(at: U64, space: Space, addr: U64, len: U64, prot: U64, flags: U64)
    requires at < TWO_31 && prot < TWO_31 && flags < TWO_31
    ensures Mapped(space, Done(MmapCall(addr, len, prot, flags), at)) ==
      Placed(space, at, Span(len), Area(at, prot, flags))
  {
    hide ToInt, ToU64, Span, Placed;
    Small(prot);
    Small(flags);
    Small(at);
  }

  lemma MappedWritable(space: Space, addr: U64)
    ensures Mapped(space, Done(WritableCall(addr), 0)) == Protected(space, addr, PAGE, 3)
  {
    hide ToInt, Protected;
    Small(3);
  }

  lemma InteriorSpace(done: seq<Done>)
    requires done == [Done(MmapCall(0, 2 * PAGE, PROT_READ, MAP_SHARED), BASE), Done(WritableCall(BASE + PAGE), 0)]
    ensures WholeMappings(done) && !SpaceSafe(SpaceOf(done))
  {
    hide SpaceOf, Mapped, Span, ToInt, ToU64;
    var one := [done[0]];
    SpaceStep([], done[0]);
    SpaceStep(one, done[1]);
    assert [] + one == one && one + [done[1]] == done && done[..0] == [] && done[..1] == one;
    assert SpaceOf([]) == map[] by { EmptySpace(); }
    MappedMmap(BASE, map[], 0, 2 * PAGE, PROT_READ, MAP_SHARED);
    MappedWritable(SpaceOf(one), BASE + PAGE);
    assert (BASE + PAGE) as int in SpaceOf(done);
    Bits();
  }

  lemma EmptySpace()
    ensures SpaceOf([]) == map[]
  {
  }

  /** Inside a mapping the check asks nothing: a run from the start whose mappings are new
      and whole, and in which a shared page of master's becomes writable all the same. */
  lemma InteriorMprotectBreaks(c: Config)
    requires Initial(c)
    ensures var w := Scripted(InteriorScript());
      exists schedule, e :: Reaches(w, c, schedule, Live(e))
        && WholeSoFar(w, e.p.m) && !SpaceSafe(SpaceOf(Settled(w, e.p.m)))
  {
    hide Round, Rounds, Reaches, PolicyAllows, Plain, WholeMappings, SpaceOf, SpaceSafe, Settled, PlanOf;
    var script, w := InteriorScript(), Scripted(InteriorScript());
    MmapIsPlain(0, 2 * PAGE, PROT_READ, MAP_SHARED);
    ScriptGoesOn(script, c);
    var c1 := Round(w, c).c;
    WritableIsPlain(BASE + PAGE, BASE + PAGE);
    MmapTable(BASE, 0, 2 * PAGE, PROT_READ, MAP_SHARED, []);
    assert c1.p.table == [] + [Mapping(BASE, 0, 1, 1)];
    WritableAllowed(BASE + PAGE, c1.p.table);
    ScriptGoesOn(script, c1);
    TwoRounds(w, c);
    assert Settled(w, c.p.m) == [] by { NothingSettled(w, c); }
    var m := Round(w, c1).c.p.m;
    assert Settled(w, m) == [Done(script[0].call, BASE), Done(script[1].call, 0)];
    InteriorSpace(Settled(w, m));
    RoundsAreReached(w, c, 2);
    var schedule :| Reaches(w, c, schedule, Rounds(w, Live(c), 2));
    assert Reaches(w, c, schedule, Live(Round(w, c1).c));
  }

  lemma ReplacingSpace(done: seq<Done>)
    requires done == [Done(MmapCall(0, PAGE, PROT_READ, MAP_PRIVATE), BASE),
        Done(MmapCall(BASE, PAGE, PROT_READ, MAP_SHARED + MAP_FIXED), BASE),
                      Done(WritableCall(BASE), 0)]
    ensures WritesAsked(done) && !SpaceSafe(SpaceOf(done))
  {
    hide SpaceOf, Mapped, Span, ToInt, ToU64;
    var one, two := [done[0]], [done[0], done[1]];
    SpaceStep(one, done[1]);
    SpaceStep(two, done[2]);
    assert one + [done[1]] == two && two + [done[2]] == done && done[..1] == one && done[..2] == two;
    MappedMmap(BASE, SpaceOf(one), BASE, PAGE, PROT_READ, MAP_SHARED + MAP_FIXED);
    MappedWritable(SpaceOf(two), BASE);
    assert IsBase(SpaceOf(two), BASE);
    assert BASE as int in SpaceOf(done);
    Bits();
  }

  /** The two mmaps leave both entries in the table, the private one in front. */
  lemma BothMapped(c: Config)
    requires Initial(c)
    ensures var w := Scripted(ReplacingScript());
      Round(w, c).Live? &&
      var s := Round(w, Round(w, c).c);
      && s.Live? && Inv(w, s.c) && |s.c.syncs| == 2
      && s.c.p.table == [Mapping(BASE, 0, 1, 2), Mapping(BASE, 0, 1, 17)]
      && Settled(w, s.c.p.m) == [Done(MmapCall(0, PAGE, PROT_READ, MAP_PRIVATE), BASE),
                                 Done(MmapCall(BASE, PAGE, PROT_READ, MAP_SHARED + MAP_FIXED), BASE)]
  {
    hide Round, PolicyAllows, Plain, Settled, PlanOf;
    var script, w := ReplacingScript(), Scripted(ReplacingScript());
    NothingSettled(w, c);
    MmapIsPlain(0, PAGE, PROT_READ, MAP_PRIVATE);
    ScriptGoesOn(script, c);
    var c1 := Round(w, c).c;
    MmapTable(BASE, 0, PAGE, PROT_READ, MAP_PRIVATE, []);
    MmapIsPlain(BASE, PAGE, PROT_READ, MAP_SHARED + MAP_FIXED);
    ScriptGoesOn(script, c1);
    MmapTable(BASE, BASE, PAGE, PROT_READ, MAP_SHARED + MAP_FIXED, c1.p.table);
  }

  /** A stale entry misleads the check: a run from the start in which a shared mapping
      takes a private one's place, and an mprotect at its very base makes it writable,
      because the lookup finds the private entry first. */
  lemma StaleEntryMisleads(c: Config)
    requires Initial(c)
    ensures var w := Scripted(ReplacingScript());
      exists schedule, e :: Reaches(w, c, schedule, Live(e))
        && e.p.table == [Mapping(BASE, 0, 1, 2), Mapping(BASE, 0, 1, 17)]
        && WritesAsked(Settled(w, e.p.m)) && !SpaceSafe(SpaceOf(Settled(w, e.p.m)))
  {
    hide Round, Rounds, Reaches, PolicyAllows, Plain, WritesAsked, SpaceOf, SpaceSafe, Settled, PlanOf;
    var script, w := ReplacingScript(), Scripted(ReplacingScript());
    BothMapped(c);
    var c2 := Round(w, Round(w, c).c).c;
    WritableIsPlain(BASE, BASE);
    StaleAllowed(c2.p.table);
    ScriptGoesOn(script, c2);
    ThreeRounds(w, c);
    var c3 := Round(w, c2).c;
    WritableTable(BASE, c2.p.table);
    ReplacingSpace(Settled(w, c3.p.m));
    RoundsAreReached(w, c, 3);
    var schedule :| Reaches(w, c, schedule, Rounds(w, Live(c), 3));
    assert Reaches(w, c, schedule, Live(c3));
  }

  lemma StaleAllowed(table: seq<Mapping>)
    requires table == [Mapping(BASE, 0, 1, 2), Mapping(BASE, 0, 1, 17)]
    ensures PolicyAllows(Mprotect, Entry(WritableCall(BASE)), table)
  {
    Bits();
    assert Covers(table[0], BASE);
    WritableAllowed(BASE, table);
  }

  lemma WritableTable(addr: U64, table: seq<Mapping>)
    ensures TableNext(Sync(Request(WritableCall(addr), []), Terminate, table), 0) == table
  {
  }

  lemma ValidateSpace(done: seq<Done>)
    requires done == [Done(MmapCall(0, PAGE, PROT_READ_WRITE, MAP_SHARED_VALIDATE), BASE)]
    ensures WholeMappings(done) && !SpaceSafe(SpaceOf(done))
  {
    hide SpaceOf, Mapped, Span, ToInt, ToU64;
    SpaceStep([], done[0]);
    assert [] + [done[0]] == done && done[..0] == [];
    assert SpaceOf([]) == map[] by { EmptySpace(); }
    MappedMmap(BASE, map[], 0, PAGE, PROT_READ_WRITE, MAP_SHARED_VALIDATE);
    assert BASE as int in SpaceOf(done);
    Bits();
  }

  /** The policy's one bit takes MAP_SHARED_VALIDATE for private: a run from the start, with
      the table in step, in which a single mmap makes a shared page writable. */
  lemma SharedValidateBreaks(c: Config)
    requires Initial(c)
    ensures var w := Scripted(ValidateScript());
      exists schedule, e :: Reaches(w, c, schedule, Live(e))
        && WholeSoFar(w, e.p.m) && TableSafe(e.p.table) && !SpaceSafe(SpaceOf(Settled(w, e.p.m)))
  {
    hide Round, Rounds, Reaches, PolicyAllows, Plain, WholeMappings, SpaceOf, SpaceSafe, Settled, PlanOf, TableSafe;
    var w := Scripted(ValidateScript());
    Bits();
    MmapIsPlain(0, PAGE, PROT_READ_WRITE, MAP_SHARED_VALIDATE);
    ScriptGoesOn(ValidateScript(), c);
    MmapTable(BASE, 0, PAGE, PROT_READ_WRITE, MAP_SHARED_VALIDATE, []);
    NothingSettled(w, c);
    var e := Round(w, c).c;
    assert TableSafe(e.p.table) by { assert e.p.table == [Mapping(BASE, 0, 3, 3)]; ValidateTableSafe(); }
    ValidateSpace(Settled(w, e.p.m));
    RoundIsReached(w, c);
    var schedule :| Reaches(w, c, schedule, Round(w, c));
    assert Reaches(w, c, schedule, Live(e));
  }

  lemma ValidateTableSafe()
    ensures TableSafe([Mapping(BASE, 0, 3, 3)])
  {
    Bits();
  }

  /** A private page at BASE and a shared one behind it. */
  ghost function TwoPages(): Space {
    Placed(Placed(map[], BASE, PAGE, Area(BASE, 1, 2)), BASE + PAGE, PAGE, Area(BASE + PAGE, 1, 1))
  }

  lemma TwoPagesMapped(two: seq<Done>)
    requires two == [Done(MmapCall(0, PAGE, PROT_READ, MAP_PRIVATE), BASE),
      Done(MmapCall(0, PAGE, PROT_READ, MAP_SHARED), BASE + PAGE)]
    ensures SpaceOf(two) == TwoPages()
  {
    hide SpaceOf, Mapped, ToInt, ToU64, Span, Placed;
    var one := [two[0]];
    SpaceStep([], two[0]);
    SpaceStep(one, two[1]);
    assert [] + one == one && one + [two[1]] == two;
    assert SpaceOf([]) == map[] by { EmptySpace(); }
    MappedMmap(BASE, map[], 0, PAGE, PROT_READ, MAP_PRIVATE);
    MappedMmap(BASE + PAGE, SpaceOf(one), 0, PAGE, PROT_READ, MAP_SHARED);
    OnePage();
  }

  lemma DivergingSpace(two: seq<Done>)
    requires SpaceOf(two) == TwoPages()
    ensures SpaceSafe(SpaceOf(two + [Done(WritableCall(BASE), 0)]))
    ensures !SpaceSafe(SpaceOf(two + [Done(WritableCall(BASE + PAGE), 0)]))
  {
    hide SpaceOf, Mapped, ToInt, ToU64;
    SpaceStep(two, Done(WritableCall(BASE), 0));
    SpaceStep(two, Done(WritableCall(BASE + PAGE), 0));
    MappedWritable(TwoPages(), BASE);
    MappedWritable(TwoPages(), BASE + PAGE);
    assert (BASE + PAGE) as int in SpaceOf(two + [Done(WritableCall(BASE + PAGE), 0)]);
    Bits();
  }

  lemma OnePage()
    ensures Span(PAGE) == 4096
  {
  }

  /** The monitor does not look at the replica's address: a run from the start in which
      the replica's shared page becomes writable while master's memory stays safe. */
  lemma ReplicaAloneBreaks(c: Config)
    requires Initial(c)
    ensures var w := Scripted(DivergingScript());
      exists schedule, e :: Reaches(w, c, schedule, Live(e))
        && SpaceSafe(SpaceOf(Settled(w, e.p.m))) && !SpaceSafe(SpaceOf(Settled(w, e.p.r)))
  {
    hide Round, Rounds, Reaches, PolicyAllows, Plain, SpaceOf, SpaceSafe, Settled, PlanOf;
    var script, w := DivergingScript(), Scripted(DivergingScript());
    NothingSettled(w, c);
    MmapIsPlain(0, PAGE, PROT_READ, MAP_PRIVATE);
    ScriptGoesOn(script, c);
    var c1 := Round(w, c).c;
    MmapTable(BASE, 0, PAGE, PROT_READ, MAP_PRIVATE, []);
    MmapIsPlain(0, PAGE, PROT_READ, MAP_SHARED);
    ScriptGoesOn(script, c1);
    var c2 := Round(w, c1).c;
    MmapTable(BASE + PAGE, 0, PAGE, PROT_READ, MAP_SHARED, c1.p.table);
    WritableIsPlain(BASE, BASE + PAGE);
    PrivateAllowed(c2.p.table);
    ScriptGoesOn(script, c2);
    ThreeRounds(w, c);
    var c3 := Round(w, c2).c;
    TwoPagesMapped(Settled(w, c2.p.m));
    DivergingSpace(Settled(w, c2.p.m));
    RoundsAreReached(w, c, 3);
    var schedule :| Reaches(w, c, schedule, Rounds(w, Live(c), 3));
    assert Reaches(w, c, schedule, Live(c3));
  }

  lemma PrivateAllowed(table: seq<Mapping>)
    requires |table| == 2 && table[0] == Mapping(BASE, 0, 1, 2)
    ensures PolicyAllows(Mprotect, Entry(WritableCall(BASE)), table)
  {
    Bits();
    assert Covers(table[0], BASE);
    WritableAllowed(BASE, table);
  }

  /** Map a shared page and unmap it again. */
  function UnmappingScript(): seq<Line> {
    [Both(MmapCall(0, PAGE, PROT_READ, MAP_SHARED), BASE), Both(Call(SYS_MUNMAP, [BASE, PAGE, 0, 0, 0, 0]), 0)]
  }

  /** A mapping that the table lists can be unmapped, shared or not: a run from the start
      that goes on, with the table empty again. */
  lemma UnmappingGoesOn(c: Config)
    requires Initial(c)
    ensures var w := Scripted(UnmappingScript());
      exists schedule, e :: Reaches(w, c, schedule, Live(e)) && |e.syncs| == 2 && e.p.table == []
  {
    hide Round, Rounds, Reaches, PolicyAllows, Plain, Settled, PlanOf;
    var script, w := UnmappingScript(), Scripted(UnmappingScript());
    Bits();
    MmapIsPlain(0, PAGE, PROT_READ, MAP_SHARED);
    ScriptGoesOn(script, c);
    var c1 := Round(w, c).c;
    MmapTable(BASE, 0, PAGE, PROT_READ, MAP_SHARED, []);
    assert c1.p.table == [Mapping(BASE, 0, 1, 1)];
    UnmapIsPlain(c1.p.table);
    ScriptGoesOn(script, c1);
    TwoRounds(w, c);
    RoundsAreReached(w, c, 2);
    var schedule :| Reaches(w, c, schedule, Rounds(w, Live(c), 2));
    assert Reaches(w, c, schedule, Live(Round(w, c1).c));
  }

  lemma UnmapIsPlain(table: seq<Mapping>)
    requires table == [Mapping(BASE, 0, 1, 1)]
    ensures var call := Call(SYS_MUNMAP, [BASE, PAGE, 0, 0, 0, 0]);
      && Plain(call, call) && PolicyAllows(PlanOf(SYS_MUNMAP), Entry(call), table)
      && TableNext(Sync(Request(call, []), Terminate, table), 0) == []
  {
    assert Covers(table[0], BASE);
    assert PlanOf(SYS_MUNMAP) == Munmap;
  }

  // ---------- equally many events, different states ----------

  /** Both variants ask brk twice. */
  function BrkScript(): seq<Line> {
    [Both(Call(SYS_BRK, [0, 0, 0, 0, 0, 0]), 0), Both(Call(SYS_BRK, [0, 0, 0, 0, 0, 0]), 0)]
  }

  /** With both variants in the kernel, either may go on to its next entry alone. */
  lemma GoesOnAlone(w: World, c: Config, who: Role)
    requires Inv(w, c) && c.p.m.t.phase.InKernel? && c.p.r.t.phase.InKernel?
    requires w.kernel(who, c.Of(who).t.done, c.Of(who).t.regs, c.Of(who).t.mem).Returns?
    requires w.prog(who, Told(w, c.Of(who))).Request?
    ensures exists e :: Reaches(w, c, [who, who], Live(e))
  {
    hide Step, OutBuffer;
    RunTwo(w, c, who, who);
    ExitEvent(w, c, who);
    StepKeepsInv(w, c, who);
    EntryEvent(w, Step(w, c, who).c, who);
    assert Reaches(w, c, [who, who], Live(Run(w, Live(c), [who, who]).c));
  }

  /** Two schedules of equal length that leave the run alive in different states. */
  ghost predicate Part(w: World, c: Config, a: seq<Role>, b: seq<Role>, e: Config, f: Config) {
    |a| == |b| && Reaches(w, c, a, Live(e)) && Reaches(w, c, b, Live(f)) && e != f
  }

  /** Master's two events and the replica's two lead to different states. */
  lemma PartWays(w: World, c: Config, start: seq<Role>, d: Config)
    requires Inv(w, c) && Reaches(w, c, start, Live(d))
    requires exists e :: Reaches(w, d, [Master, Master], Live(e))
    requires exists e :: Reaches(w, d, [Replica, Replica], Live(e))
    ensures exists a, b, e, f :: Part(w, c, a, b, e, f)
  {
    hide Run, Schedules, Inv, SameCounts;
    var e :| Reaches(w, d, [Master, Master], Live(e));
    var f :| Reaches(w, d, [Replica, Replica], Live(f));
    var a, b := start + [Master, Master], start + [Replica, Replica];
    ReachesOn(w, c, start, d, [Master, Master], Live(e));
    ReachesOn(w, c, start, d, [Replica, Replica], Live(f));
    TwoMore(start);
    SameStateIff(w, c, a, b);
    assert Part(w, c, a, b, e, f);
  }

  lemma TwoMore(start: seq<Role>)
    ensures !SameCounts(start + [Master, Master], start + [Replica, Replica])
  {
    CountSplit(start, [Master, Master], Master);
    CountSplit(start, [Replica, Replica], Master);
    assert Count(start + [Master, Master], Master) != Count(start + [Replica, Replica], Master);
  }

  /** Equal lengths do not give equal states: two schedules from the start, of equal
      length, both alive, that leave different variants waiting. */
  lemma EqualLengthsMayDiffer(c: Config)
    requires Initial(c)
    ensures var w := Scripted(BrkScript());
      exists a, b, e, f :: Part(w, c, a, b, e, f)
  {
    hide Round, Reaches, Settled, Inv, OutBuffer, Part;
    var w := Scripted(BrkScript());
    assert Plain(BrkScript()[0].call, BrkScript()[0].other);
    InitialBooks(w, c);
    ScriptGoesOn(BrkScript(), c);
    RoundIsReached(w, c);
    var start :| Reaches(w, c, start, Round(w, c));
    BothStarted(w, c);
    GoesOnAlone(w, Round(w, c).c, Master);
    GoesOnAlone(w, Round(w, c).c, Replica);
    PartWays(w, c, start, Round(w, c).c);
  }

  /** After brk was synchronised both variants are in the kernel, with one more request to come. */
  lemma BothStarted(w: World, c: Config)
    requires w == Scripted(BrkScript()) && Initial(c) && Round(w, c).Live?
    ensures var d := Round(w, c).c;
      && d.p.m.t.phase.InKernel? && d.p.r.t.phase.InKernel?
      && |Told(w, d.p.m)| == 1 == |Told(w, d.p.r)|
  {
    hide Round, SyncStep, OutBuffer, Execute, Passes, Arrive;
    InitialBooks(w, c);
    ScriptMeets(BrkScript(), c);
    SyncEffect(w, Met(w, c));
  }

  lemma {:induction false} CountSplit(a: seq<Role>, b: seq<Role>, who: Role)
    ensures Count(a + b, who) == Count(a, who) + Count(b, who)
    decreases |a|
  {
    if a == [] {
      assert a + b == b;
    } else {
      assert (a + b)[1..] == a[1..] + b;
      CountSplit(a[1..], b, who);
    }
  }
}
