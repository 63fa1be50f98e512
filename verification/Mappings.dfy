/** The monitor's table of memory mappings: a doubly linked list behind a sentinel,
    refining a sequence of entries. */
module Mappings {
  import opened Words

  datatype Mapping = Mapping(addr: U64, len: U64, prot: int, flags: int)

  /** The test of `findMapping`, with the pointer sum wrapping at 64 bits. */
  predicate Covers(e: Mapping, target: U64) {
    || (e.addr == target && e.len == 0)
    || (e.len > 0 && e.addr <= target && target < (e.addr + e.len) % TWO_64)
  }

  /** An entry of length 0 covers its base; others cover what lies in them, unless their
      end wraps, and then nothing. */
  lemma CoversExactly(e: Mapping, target: U64)
    ensures Covers(e, target) <==>
      if e.len == 0 then target == e.addr
      else e.addr as int + e.len as int < TWO_64 && e.addr <= target && target as int < e.addr as int + e.len as int
  {
  }

  /** The first entry from `i` on that covers the target, or the table's length. */
  function FindFrom(table: seq<Mapping>, target: U64, i: nat): (k: nat)
    requires i <= |table|
    ensures i <= k <= |table|
    ensures forall j :: i <= j < k ==> !Covers(table[j], target)
    ensures k < |table| ==> Covers(table[k], target)
    decreases |table| - i
  {
    if i == |table| || Covers(table[i], target) then i else FindFrom(table, target, i + 1)
  }

  function FindIndex(table: seq<Mapping>, target: U64): (k: nat)
    ensures k <= |table|
    ensures forall j :: 0 <= j < k ==> !Covers(table[j], target)
    ensures k < |table| ==> Covers(table[k], target)
  {
    FindFrom(table, target, 0)
  }

  /** The first entry from `i` on with this base, or the table's length. */
  function BaseFrom(table: seq<Mapping>, addr: U64, i: nat): (k: nat)
    requires i <= |table|
    ensures i <= k <= |table|
    ensures forall j :: i <= j < k ==> table[j].addr != addr
    ensures k < |table| ==> table[k].addr == addr
    decreases |table| - i
  {
    if i == |table| || table[i].addr == addr then i else BaseFrom(table, addr, i + 1)
  }

  function BaseIndex(table: seq<Mapping>, addr: U64): (k: nat)
    ensures k <= |table|
    ensures forall j :: 0 <= j < k ==> table[j].addr != addr
    ensures k < |table| ==> table[k].addr == addr
  {
    BaseFrom(table, addr, 0)
  }

  function Without(table: seq<Mapping>, k: nat): seq<Mapping>
    requires k < |table|
  {
    table[..k] + table[k + 1..]
  }

  /** The table after `removeMapping(addr)`. */
  function Removed(table: seq<Mapping>, addr: U64): seq<Mapping> {
    var k := BaseIndex(table, addr);
    if k < |table| then Without(table, k) else table
  }

  /** What `removeMapping` leaves: all entries but the first with this base, in order. */
  lemma RemovedExactly(table: seq<Mapping>, addr: U64, k: nat)
    requires k <= |table| && (forall j :: 0 <= j < k ==> table[j].addr != addr)
    requires k < |table| ==> table[k].addr == addr
    ensures k == |table| ==> Removed(table, addr) == table
    ensures k < |table| ==> Removed(table, addr) == table[..k] + table[k + 1..]
  {
    hide BaseFrom;
    assert BaseIndex(table, addr) == k;
  }

  // ---------- munmap removes what it found ----------

  predicate Wraps(e: Mapping) {
    e.addr + e.len >= TWO_64
  }

  /** When no length wraps, an entry found at its own base is the one removed. */
  lemma RemovesWhatItFound(table: seq<Mapping>, target: U64)
    requires forall j :: 0 <= j < |table| ==> !Wraps(table[j])
    requires FindIndex(table, target) < |table| && table[FindIndex(table, target)].addr == target
    ensures BaseIndex(table, target) == FindIndex(table, target)
    ensures Removed(table, target) == Without(table, FindIndex(table, target))
  {
    var k := FindIndex(table, target);
    assert forall j :: 0 <= j < k && table[j].addr == target ==> Covers(table[j], target);
  }

  /** An entry is safe to have in a table, whatever the others are, exactly when
      its length does not wrap. */
  lemma RemovesWhatItFoundIff(e: Mapping)
    ensures !Wraps(e) <==>
      forall rest: seq<Mapping> :: FindIndex([e] + rest, e.addr) < |[e] + rest|
          && ([e] + rest)[FindIndex([e] + rest, e.addr)].addr == e.addr
        ==> BaseIndex([e] + rest, e.addr) == FindIndex([e] + rest, e.addr)
  {
    if Wraps(e) {
      var rest := [Mapping(e.addr, 0, 0, 0)];
      var table := [e] + rest;
      assert !Covers(table[0], e.addr) && Covers(table[1], e.addr);
      assert FindIndex(table, e.addr) == 1 && BaseIndex(table, e.addr) == 0;
    } else {
      forall rest: seq<Mapping>
        ensures FindIndex([e] + rest, e.addr) == 0 == BaseIndex([e] + rest, e.addr)
      {
        assert Covers(([e] + rest)[0], e.addr);
      }
    }
  }

  // ---------- the list ----------

  class Node {
    var entry: Mapping
    var next: Node?
    var prev: Node?

    constructor (entry: Mapping)
      ensures this.entry == entry && next == null && prev == null
    {
      this.entry := entry;
      next := null;
      prev := null;
    }
  }

  class MappingList {
    const dummy: Node
    ghost var nodes: seq<Node>  // the sentinel, then the entries in order
    ghost var contents: seq<Mapping>

    ghost predicate Valid()
      reads this, nodes
    {
      && |nodes| == |contents| + 1
      && nodes[0] == dummy
      && (forall i, j :: 0 <= i < j < |nodes| ==> nodes[i] != nodes[j])
      && (forall i {:trigger nodes[i].next} :: 0 <= i < |nodes| ==>
          nodes[i].next == if i + 1 < |nodes| then nodes[i + 1] else null)
      && (forall i {:trigger nodes[i].prev} :: 1 <= i < |nodes| ==> nodes[i].prev == nodes[i - 1])
      && (forall i {:trigger nodes[i].entry} :: 1 <= i < |nodes| ==> nodes[i].entry == contents[i - 1])
    }

    constructor ()
      ensures Valid() && contents == [] && fresh(nodes)
    {
      dummy := new Node(Mapping(0, 0, 0, 0));
      new;
      nodes := [dummy];
      contents := [];
    }

    /** `addMapping`: walk to the last node and link a new one behind it. */
    method Add(addr: U64, len: U64, prot: int, flags: int)
      requires Valid()
      modifies this, nodes
      ensures Valid()
      ensures contents == old(contents) + [Mapping(addr, len, prot, flags)]
      ensures forall n :: n in nodes ==> n in old(nodes) || fresh(n)
    {
      var node := new Node(Mapping(addr, len, prot, flags));
      var current := dummy;
      ghost var i := 0;
      while current.next != null
        invariant 0 <= i < |nodes| && current == nodes[i]
        decreases |nodes| - i
      {
        current := current.next;
        i := i + 1;
      }
      current.next := node;
      node.prev := current;
      nodes := nodes + [node];
      contents := contents + [node.entry];
    }

    /** `removeMapping`: unlink the first node with this base. */
    method Remove(addr: U64) returns (r: int)
      requires Valid()
      modifies this, nodes
      ensures Valid()
      ensures contents == Removed(old(contents), addr)
      ensures r == if BaseIndex(old(contents), addr) < |old(contents)| then 0 else -1
      ensures forall n :: n in nodes ==> n in old(nodes)
    {
      var current := dummy.next;
      ghost var i := 1;
      while current != null
        invariant 1 <= i <= |nodes|
        invariant current == if i < |nodes| then nodes[i] else null
        invariant forall j :: 0 <= j < i - 1 ==> contents[j].addr != addr
        decreases |nodes| - i
      {
        assert current.entry == contents[i - 1];
        if current.entry.addr == addr {
          assert BaseIndex(contents, addr) == i - 1;
          Unlink(current, i);
          return 0;
        }
        current := current.next;
        i := i + 1;
      }
      return -1;
    }

    /** The pointer surgery of `removeMapping` on node `i`. */
    method Unlink(current: Node, ghost i: nat)
      requires Valid() && 1 <= i < |nodes| && current == nodes[i]
      modifies this, nodes
      ensures Valid()
      ensures contents == Without(old(contents), i - 1)
      ensures nodes == old(nodes)[..i] + old(nodes)[i + 1..]
    {
      current.prev.next := current.next;
      if current.next != null {
        current.next.prev := current.prev;
      }
      nodes := nodes[..i] + nodes[i + 1..];
      contents := Without(contents, i - 1);
    }

    /** `findMapping`: the first entry covering the target, or null. */
    method Find(target: U64) returns (found: Node?)
      requires Valid()
      ensures found == null <==> FindIndex(contents, target) == |contents|
      ensures found != null ==>
        && found == nodes[FindIndex(contents, target) + 1]
        && found.entry == contents[FindIndex(contents, target)]
    {
      found := dummy.next;
      ghost var i := 1;
      while found != null
        invariant 1 <= i <= |nodes|
        invariant found == if i < |nodes| then nodes[i] else null
        invariant forall j :: 0 <= j < i - 1 ==> !Covers(contents[j], target)
        decreases |nodes| - i
      {
        var e := found.entry;
        assert e == contents[i - 1];
        if (e.addr == target && e.len == 0) || (e.len > 0 && target >= e.addr && target < (e.addr + e.len) % TWO_64) {
          return;
        }
        found := found.next;
        i := i + 1;
      }
    }
  }
}
