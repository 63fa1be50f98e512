/** Master's address space, byte by byte, and how far the mapping table knows it. */
module AddressSpace {
  import opened Words
  import opened Syscalls
  import opened Mappings
  import opened Tracees
  import opened Executors

  /** What a live byte belongs to: the base and flags of its mapping, and its own protection. */
  datatype Area = Area(base: U64, prot: int, flags: int)

  type Space = map<int, Area>

  /** A length in whole pages, as the kernel takes it. */
  function Span(len: U64): (n: nat)
    ensures len <= n < len + 4096 && n % 4096 == 0
  {
    (len + 4095) / 4096 * 4096
  }

  predicate Within(x: int, start: int, n: nat) {
    start <= x < start + n
  }

  ghost function Placed(space: Space, start: int, n: nat, area: Area): Space {
    space + map x | start <= x < start + n && Within(x, start, n) :: area
  }

  ghost function Cleared(space: Space, start: int, n: nat): Space {
    map x | x in space && !Within(x, start, n) :: space[x]
  }

  ghost function Protected(space: Space, start: int, n: nat, prot: int): Space {
    map x | x in space :: if Within(x, start, n) then space[x].(prot := prot) else space[x]
  }

  /** What one completed call does to the address space. */
  ghost function Mapped(space: Space, d: Done): Space {
    var a := d.call.args;
    if d.call.nr == SYS_MMAP && d.rval >= 0 then
      Placed(space, d.rval, Span(a[1]), Area(ToU64(d.rval), ToInt(a[2]), ToInt(a[3])))
    else if d.call.nr == SYS_MUNMAP && d.rval == 0 then Cleared(space, a[0], Span(a[1]))
    else if d.call.nr == SYS_MPROTECT && d.rval == 0 then Protected(space, a[0], Span(a[1]), ToInt(a[2]))
    else space
  }

  /** The address space that completed calls have made. */
  ghost function SpaceOf(done: seq<Done>): Space {
    if done == [] then map[] else Mapped(SpaceOf(done[..|done| - 1]), done[|done| - 1])
  }

  lemma SpaceStep(done: seq<Done>, d: Done)
    ensures SpaceOf(done + [d]) == Mapped(SpaceOf(done), d)
  {
    assert (done + [d])[..|done|] == done;
  }

  /** What the kernel calls shared: the mapping type, `flags & MAP_TYPE`, is MAP_SHARED (1)
      or MAP_SHARED_VALIDATE (3).  The monitor looks at one bit of it, which types
      MAP_PRIVATE (2) and MAP_SHARED_VALIDATE have in common. */
  predicate IsShared(flags: int) {
    flags % 16 == 1 || flags % 16 == 3
  }

  /** The monitor's question is the right one except for MAP_SHARED_VALIDATE. */
  lemma SharedAsAsked(flags: int)
    requires IsShared(flags)
    ensures Bit1(flags) <==> flags % 16 == 3
    ensures forall prot :: PermsAllowed(prot, flags) <==> !Bit1(prot) || flags % 16 == 3
  {
    var k := flags / 16;
    if flags % 16 == 1 {
      assert flags == 2 * (8 * k) + 1;
      assert flags / 2 == 2 * (4 * k);
    } else {
      assert flags == 2 * (8 * k + 1) + 1;
      assert flags / 2 == 2 * (4 * k) + 1;
    }
  }

  /** Nothing live is writable in a shared mapping. */
  ghost predicate SpaceSafe(space: Space) {
    forall x :: x in space && IsShared(space[x].flags) ==> !Bit1(space[x].prot)
  }

  // ---------- how far the table knows it ----------

  /** A live mapping starts here. */
  ghost predicate IsBase(space: Space, b: int) {
    b in space && space[b].base == b
  }

  ghost predicate Listed(table: seq<Mapping>, b: int, flags: int) {
    exists i :: 0 <= i < |table| && table[i].addr == b && table[i].flags == flags
  }

  /** Every live byte belongs to a live base, which the table lists with its flags. */
  ghost predicate Based(table: seq<Mapping>, space: Space) {
    forall x :: x in space ==>
      var b := space[x].base;
      b < TWO_63 && IsBase(space, b) && space[b].flags == space[x].flags && Listed(table, b, space[x].flags)
  }

  /** Entries have length 0; each is a live base or the trace of an mmap that failed. */
  ghost predicate Accounted(table: seq<Mapping>, space: Space) {
    forall i :: 0 <= i < |table| ==> table[i].len == 0 && (IsBase(space, table[i].addr) || table[i].addr >= TWO_63)
  }

  ghost predicate LiveOnce(table: seq<Mapping>) {
    forall i, j :: 0 <= i < j < |table| && table[i].addr == table[j].addr ==> table[i].addr >= TWO_63
  }

  /** The table lists exactly the live mappings, at their bases, once each. */
  ghost predicate InStep(table: seq<Mapping>, space: Space) {
    Based(table, space) && Accounted(table, space) && LiveOnce(table)
  }

  /** Recorded lengths are 0, so the lookup finds something at exactly the recorded
      bases; at every other address, inside a mapping or not, any protection passes. */
  lemma AsksOnlyAtBases(table: seq<Mapping>, a: U64)
    requires forall e :: e in table ==> e.len == 0
    ensures FindIndex(table, a) < |table| <==> exists e :: e in table && e.addr == a
    ensures (forall e :: e in table ==> e.addr != a) ==> forall prot :: ProtectAllowed(table, a, prot)
  {
    if e :| e in table && e.addr == a {
      var i :| 0 <= i < |table| && table[i] == e;
      assert Covers(table[i], a);
    }
  }

  /** What the lookup answers at `a` is the mapping that starts there. */
  lemma LookupIsBase(table: seq<Mapping>, space: Space, a: U64)
    requires InStep(table, space)
    ensures IsBase(space, a) ==> FindIndex(table, a) < |table| && table[FindIndex(table, a)].flags == space[a].flags
    ensures a < TWO_63 && FindIndex(table, a) < |table| ==> IsBase(space, a)
  {
    var k := FindIndex(table, a);
    if IsBase(space, a) {
      assert Listed(table, a, space[a].flags);
      var i :| 0 <= i < |table| && table[i].addr == a && table[i].flags == space[a].flags;
      assert Covers(table[i], a);
      assert k <= i && table[k].addr == a;
    }
  }

  /** No live byte of the range is shared. */
  ghost predicate NothingShared(space: Space, start: int, n: nat) {
    forall x :: x in space && Within(x, start, n) ==> !IsShared(space[x].flags)
  }

  /** The range touches shared memory only if it starts at the base of a mapping that the
      monitor, too, takes for shared. */
  ghost predicate SharedFromBase(space: Space, start: int, n: nat) {
    NothingShared(space, start, n) || (IsBase(space, start) && !Bit1(space[start].flags))
  }

  lemma ProtectedSafeIff(space: Space, a: int, n: nat, prot: int)
    requires SpaceSafe(space)
    ensures SpaceSafe(Protected(space, a, n, prot)) <==> !Bit1(prot) || NothingShared(space, a, n)
  {
    hide Bit1, IsShared;
    var after := Protected(space, a, n, prot);
    if !NothingShared(space, a, n) {
      var x :| x in space && Within(x, a, n) && IsShared(space[x].flags);
      assert after[x] == space[x].(prot := prot);
    }
  }

  /** When is an mprotect that passes the check harmless?  Exactly when it does not
      grant write access, or touches shared memory only from such a base: a shared page
      reached from anywhere else becomes writable. */
  lemma ProtectSafeIff(table: seq<Mapping>, space: Space, a: U64, n: nat, prot: int)
    requires InStep(table, space) && SpaceSafe(space) && ProtectAllowed(table, a, prot)
    ensures SpaceSafe(Protected(space, a, n, prot)) <==> !Bit1(prot) || SharedFromBase(space, a, n)
  {
    hide InStep, SpaceSafe, Bit1, Protected, NothingShared;
    ProtectedSafeIff(space, a, n, prot);
    LookupIsBase(table, space, a);
  }

  /** For any table: its answers are good enough for whole mappings exactly when it
      reports every live shared one by flags that the monitor takes for shared. */
  lemma PolicySoundIff(table: seq<Mapping>, space: Space)
    ensures
      (forall b: U64, prot: int :: IsBase(space, b) && ProtectAllowed(table, b, prot) ==>
        !(IsShared(space[b].flags) && Bit1(prot)))
      <==>
      (forall b: U64 :: IsBase(space, b) && IsShared(space[b].flags) ==>
        FindIndex(table, b) < |table| && !Bit1(table[FindIndex(table, b)].flags))
  {
    hide FindIndex, IsShared;
    if forall b: U64, prot: int :: IsBase(space, b) && ProtectAllowed(table, b, prot) ==>
      !(IsShared(space[b].flags) && Bit1(prot))
    {
      forall b: U64 | IsBase(space, b) && IsShared(space[b].flags)
        ensures FindIndex(table, b) < |table| && !Bit1(table[FindIndex(table, b)].flags)
      {
        assert Bit1(2);
        assert !ProtectAllowed(table, b, 2);
      }
    }
  }

  // ---------- calls on whole mappings ----------

  /** MAP_FIXED: bit 4. */
  predicate Fixed(flags: int) {
    flags / 16 % 2 == 1
  }

  /** mmap uses free addresses, munmap of a mapping's base removes that mapping, and no
      call fails half-way: not an mmap that had to make room for itself, nor an mprotect
      that was asked for write access to shared memory. */
  ghost predicate WholeMapping(space: Space, d: Done) {
    var a := d.call.args;
    && (d.call.nr == SYS_MMAP && d.rval >= 0 ==>
          Span(a[1]) > 0 && forall x :: Within(x, d.rval, Span(a[1])) ==> x !in space)
    && (d.call.nr == SYS_MMAP && d.rval < 0 && Fixed(ToInt(a[3])) ==>
          forall x :: Within(x, a[0], Span(a[1])) ==> x !in space)
    && (d.call.nr == SYS_MUNMAP ==>
          && (IsBase(space, a[0]) ==> d.rval == 0)
          && (d.rval == 0 ==> forall x :: x in space ==> (Within(x, a[0], Span(a[1])) <==> space[x].base == a[0])))
    && (d.call.nr == SYS_MPROTECT && d.rval != 0 && Bit1(ToInt(a[2])) ==> NothingShared(space, a[0], Span(a[1])))
  }

  /** Write access to shared memory is only asked for where the monitor will see it: not
      by an mmap of type MAP_SHARED_VALIDATE, and by an mprotect only from the base of a
      mapping of type MAP_SHARED. */
  ghost predicate WriteAsked(space: Space, d: Done) {
    var a := d.call.args;
    && (d.call.nr == SYS_MMAP && d.rval >= 0 && Bit1(ToInt(a[2])) ==> ToInt(a[3]) % 16 != 3)
    && (d.call.nr == SYS_MPROTECT && d.rval == 0 && Bit1(ToInt(a[2])) ==> SharedFromBase(space, a[0], Span(a[1])))
  }

  ghost predicate WholeMappings(done: seq<Done>) {
    forall k :: 0 <= k < |done| ==> WholeMapping(SpaceOf(done[..k]), done[k])
  }

  ghost predicate WritesAsked(done: seq<Done>) {
    forall k :: 0 <= k < |done| ==> WriteAsked(SpaceOf(done[..k]), done[k])
  }

  ghost predicate AlwaysSafe(done: seq<Done>) {
    forall k :: 0 <= k <= |done| ==> SpaceSafe(SpaceOf(done[..k]))
  }

  lemma AddedLists(table: seq<Mapping>, e: Mapping)
    ensures Listed(table + [e], e.addr, e.flags)
    ensures forall b, flags :: Listed(table, b, flags) ==> Listed(table + [e], b, flags)
  {
    var table' := table + [e];
    assert table'[|table|] == e;
    forall b, flags | Listed(table, b, flags) ensures Listed(table', b, flags) {
      var i :| 0 <= i < |table| && table[i].addr == b && table[i].flags == flags;
      assert table'[i] == table[i];
    }
  }

  lemma MapKeepsStep(table: seq<Mapping>, space: Space, d: Done)
    requires InStep(table, space) && d.call.nr == SYS_MMAP && WholeMapping(space, d)
    ensures InStep(table + [Mapping(ToU64(d.rval), 0, ToInt(d.call.args[2]), ToInt(d.call.args[3]))], Mapped(space, d))
  {
    hide ToU64, ToInt, Span, Listed;
    RegisterRoundTrip(d.rval);
    AddedLists(table, Mapping(ToU64(d.rval), 0, ToInt(d.call.args[2]), ToInt(d.call.args[3])));
  }

  /** The entry of `Removed(table, a)` at `i` was entry `Kept(i, k)` of the table. */
  function Kept(i: nat, k: nat): nat {
    if i < k then i else i + 1
  }

  /** Where an entry that stays moves to. */
  function Shifted(i: nat, k: nat): nat {
    if i < k then i else if i > k then i - 1 else 0
  }

  lemma RemovedKeeps(table: seq<Mapping>, a: U64)
    requires BaseIndex(table, a) < |table|
    ensures |Removed(table, a)| == |table| - 1
    ensures forall i :: 0 <= i < |table| - 1 ==> Removed(table, a)[i] == table[Kept(i, BaseIndex(table, a))]
  {
    hide BaseFrom, BaseIndex;
  }

  lemma RemovedLists(table: seq<Mapping>, a: U64, b: int, flags: int)
    requires Listed(table, b, flags) && b != a
    ensures Listed(Removed(table, a), b, flags)
  {
    hide BaseFrom;
    var k, table' := BaseIndex(table, a), Removed(table, a);
    var i :| 0 <= i < |table| && table[i].addr == b && table[i].flags == flags;
    if k < |table| {
      assert table'[Shifted(i, k)] == table[i];
    }
  }

  /** `munmap` takes the entry out whatever its kernel then answers. */
  lemma UnmapKeepsStep(table: seq<Mapping>, space: Space, d: Done)
    requires InStep(table, space) && d.call.nr == SYS_MUNMAP && WholeMapping(space, d)
    requires UnmapAllowed(table, d.call.args[0])
    ensures InStep(Removed(table, d.call.args[0]), Mapped(space, d))
  {
    hide Removed, Covers, Span, BaseFrom, FindFrom, Listed;
    var a := d.call.args[0];
    var k, table', space' := BaseIndex(table, a), Removed(table, a), Mapped(space, d);
    forall x | x in space' ensures Listed(table', space'[x].base, space'[x].flags) {
      assert space'[x] == space[x] && space[x].base != a;
      RemovedLists(table, a, space[x].base, space[x].flags);
    }
    UnmapAccounted(table, space, d);
  }

  lemma UnmapAccounted(table: seq<Mapping>, space: Space, d: Done)
    requires InStep(table, space) && d.call.nr == SYS_MUNMAP && WholeMapping(space, d)
    requires UnmapAllowed(table, d.call.args[0])
    ensures Accounted(Removed(table, d.call.args[0]), Mapped(space, d)) && LiveOnce(Removed(table, d.call.args[0]))
  {
    hide Removed, Covers, Span, BaseFrom, FindFrom, Listed;
    var a := d.call.args[0];
    var k, table', space' := BaseIndex(table, a), Removed(table, a), Mapped(space, d);
    RemovedKeeps(table, a);
    forall i | 0 <= i < |table'|
      ensures table'[i].len == 0 && (IsBase(space', table'[i].addr) || table'[i].addr >= TWO_63)
    {
      var e := table[Kept(i, k)];
      assert e.addr == a ==> e.addr >= TWO_63;
    }
    forall i, j | 0 <= i < j < |table'| && table'[i].addr == table'[j].addr ensures table'[i].addr >= TWO_63 {
      assert Kept(i, k) < Kept(j, k);
    }
  }

  lemma OtherKeepsStep(table: seq<Mapping>, space: Space, d: Done)
    requires InStep(table, space) && d.call.nr != SYS_MMAP && d.call.nr != SYS_MUNMAP
    ensures InStep(table, Mapped(space, d))
  {
    hide Span, Listed, ToInt;
    var space' := Mapped(space, d);
    assert forall x :: x in space <==> x in space';
    assert forall x :: x in space ==> space'[x].base == space[x].base && space'[x].flags == space[x].flags;
  }

  lemma PlacedSafeIff(space: Space, start: int, n: nat, area: Area)
    requires SpaceSafe(space) && n > 0
    ensures SpaceSafe(Placed(space, start, n, area)) <==> !(IsShared(area.flags) && Bit1(area.prot))
  {
    hide IsShared, Bit1;
    assert Placed(space, start, n, area)[start] == area;
  }

  /** A call the policy let through leaves a safe address space safe exactly when it
      does not ask for write access to shared memory past the monitor's view. */
  lemma MappedSafeIff(table: seq<Mapping>, space: Space, d: Done)
    requires InStep(table, space) && SpaceSafe(space) && WholeMapping(space, d)
    requires d.call.nr == SYS_MMAP && d.rval >= 0 ==> PermsAllowed(ToInt(d.call.args[2]), ToInt(d.call.args[3]))
    requires d.call.nr == SYS_MPROTECT ==> ProtectAllowed(table, d.call.args[0], ToInt(d.call.args[2]))
    ensures SpaceSafe(Mapped(space, d)) <==> WriteAsked(space, d)
  {
    hide InStep, Span, Fixed, ToInt, ToU64, ProtectAllowed, SharedFromBase, PermsAllowed, Bit1, Placed, NothingShared;
    var a := d.call.args;
    if d.call.nr == SYS_MPROTECT {
      ProtectSafeIff(table, space, a[0], Span(a[1]), ToInt(a[2]));
    } else if d.call.nr == SYS_MMAP && d.rval >= 0 {
      PlacedSafeIff(space, d.rval, Span(a[1]), Area(ToU64(d.rval), ToInt(a[2]), ToInt(a[3])));
      if IsShared(ToInt(a[3])) {
        SharedAsAsked(ToInt(a[3]));
      }
    }
  }

  /** The same over a whole history of calls, one more call at a time. */
  lemma HistoryGrows(done: seq<Done>, d: Done)
    ensures WholeMappings(done + [d]) <==> WholeMappings(done) && WholeMapping(SpaceOf(done), d)
    ensures WritesAsked(done + [d]) <==> WritesAsked(done) && WriteAsked(SpaceOf(done), d)
    ensures AlwaysSafe(done + [d]) <==> AlwaysSafe(done) && SpaceSafe(Mapped(SpaceOf(done), d))
  {
    hide WholeMappings, WritesAsked, AlwaysSafe, WholeMapping, WriteAsked, SpaceSafe, SpaceOf, Mapped;
    WholeGrows(done, d);
    WritesGrow(done, d);
    SafeGrows(done, d);
    SpaceStep(done, d);
  }

  lemma Prefixes(done: seq<Done>, d: Done)
    ensures forall k :: 0 <= k <= |done| ==> (done + [d])[..k] == done[..k]
    ensures (done + [d])[..|done| + 1] == done + [d] && (done + [d])[..|done|] == done
  {
  }

  lemma WholeGrows(done: seq<Done>, d: Done)
    ensures WholeMappings(done + [d]) <==> WholeMappings(done) && WholeMapping(SpaceOf(done), d)
  {
    hide WholeMapping, SpaceOf;
    Prefixes(done, d);
    if WholeMappings(done + [d]) {
      forall k | 0 <= k < |done| ensures WholeMapping(SpaceOf(done[..k]), done[k]) {
        assert WholeMapping(SpaceOf((done + [d])[..k]), (done + [d])[k]);
      }
    }
  }

  lemma WritesGrow(done: seq<Done>, d: Done)
    ensures WritesAsked(done + [d]) <==> WritesAsked(done) && WriteAsked(SpaceOf(done), d)
  {
    hide WriteAsked, SpaceOf;
    Prefixes(done, d);
    if WritesAsked(done + [d]) {
      forall k | 0 <= k < |done| ensures WriteAsked(SpaceOf(done[..k]), done[k]) {
        assert WriteAsked(SpaceOf((done + [d])[..k]), (done + [d])[k]);
      }
    }
  }

  lemma SafeGrows(done: seq<Done>, d: Done)
    ensures AlwaysSafe(done + [d]) <==> AlwaysSafe(done) && SpaceSafe(SpaceOf(done + [d]))
  {
    hide SpaceSafe, SpaceOf;
    Prefixes(done, d);
    var all := done + [d];
    if AlwaysSafe(all) {
      forall k | 0 <= k <= |done| ensures SpaceSafe(SpaceOf(done[..k])) {
        assert SpaceSafe(SpaceOf(all[..k]));
      }
      assert SpaceSafe(SpaceOf(all[..|all|]));
    } else if AlwaysSafe(done) && SpaceSafe(SpaceOf(all)) {
      forall k | 0 <= k <= |all| ensures SpaceSafe(SpaceOf(all[..k])) {
        assert k <= |done| ==> all[..k] == done[..k];
      }
    }
  }

  // ---------- calls at addresses the monitor does not look at ----------

  /** Write access to shared memory is never asked for at all. */
  ghost predicate NeverAsked(space: Space, d: Done) {
    var a := d.call.args;
    && (d.call.nr == SYS_MMAP && d.rval >= 0 && Span(a[1]) > 0 && Bit1(ToInt(a[2])) ==> ToInt(a[3]) % 16 != 3)
    && (d.call.nr == SYS_MPROTECT && d.rval == 0 && Bit1(ToInt(a[2])) ==> NothingShared(space, a[0], Span(a[1])))
  }

  ghost predicate NeverAskedFor(done: seq<Done>) {
    forall k :: 0 <= k < |done| ==> NeverAsked(SpaceOf(done[..k]), done[k])
  }

  /** The mmaps passed the policy's test of protection and flags. */
  ghost predicate Permitted(d: Done) {
    d.call.nr == SYS_MMAP ==> PermsAllowed(ToInt(d.call.args[2]), ToInt(d.call.args[3]))
  }

  lemma MappedSafeAnywhereIff(space: Space, d: Done)
    requires SpaceSafe(space) && Permitted(d)
    ensures SpaceSafe(Mapped(space, d)) <==> NeverAsked(space, d)
  {
    hide Span, ToInt, ToU64, PermsAllowed, Bit1, Placed, Protected, NothingShared;
    var a := d.call.args;
    if d.call.nr == SYS_MPROTECT {
      ProtectedSafeIff(space, a[0], Span(a[1]), ToInt(a[2]));
    } else if d.call.nr == SYS_MMAP && d.rval >= 0 {
      if Span(a[1]) > 0 {
        PlacedSafeIff(space, d.rval, Span(a[1]), Area(ToU64(d.rval), ToInt(a[2]), ToInt(a[3])));
      } else {
        PlacedNothing(space, d.rval, Area(ToU64(d.rval), ToInt(a[2]), ToInt(a[3])));
      }
      if IsShared(ToInt(a[3])) {
        SharedAsAsked(ToInt(a[3]));
      }
    }
  }

  lemma PlacedNothing(space: Space, start: int, area: Area)
    ensures Placed(space, start, 0, area) == space
  {
  }

  /** Whatever the addresses, a history of permitted mmaps stays safe exactly when write
      access to shared memory is never asked for. */
  lemma {:induction false} HistorySafeIff(done: seq<Done>)
    requires forall k :: 0 <= k < |done| ==> Permitted(done[k])
    ensures AlwaysSafe(done) <==> NeverAskedFor(done)
    decreases |done|
  {
    hide SpaceSafe, NeverAsked, Mapped, SpaceOf, Permitted;
    if done == [] {
      assert SpaceSafe(SpaceOf([])) by { EmptyIsSafe(); }
      assert done[..0] == [];
    } else {
      var n := |done| - 1;
      var init, d := done[..n], done[n];
      assert done == init + [d];
      HistorySafeIff(init);
      SafeGrows(init, d);
      SpaceStep(init, d);
      NeverAskedGrows(init, d);
      if AlwaysSafe(init) {
        assert init[..n] == init;
        MappedSafeAnywhereIff(SpaceOf(init), d);
      }
    }
  }

  lemma EmptyIsSafe()
    ensures SpaceSafe(SpaceOf([]))
  {
  }

  lemma NeverAskedGrows(done: seq<Done>, d: Done)
    ensures NeverAskedFor(done + [d]) <==> NeverAskedFor(done) && NeverAsked(SpaceOf(done), d)
  {
    hide NeverAsked, SpaceOf;
    Prefixes(done, d);
    if NeverAskedFor(done + [d]) {
      forall k | 0 <= k < |done| ensures NeverAsked(SpaceOf(done[..k]), done[k]) {
        assert NeverAsked(SpaceOf((done + [d])[..k]), (done + [d])[k]);
      }
    }
  }
}
