/** The mark-sweep collector: an intrusive list of all objects, with mark bits set from the roots and cleared by the sweep. */
module MarkSweep {
  import opened Common

  const HEADER_SIZE: nat := 24
  const ALIGNMENT: nat := 8

  datatype TypeTag = IntTag | BoolTag | IntArrayTag | ClosureTag | BlobTag

  // What lies in front of every object.
  datatype GcHeader = GcHeader(size: nat, marked: bool, typeTag: TypeTag, next: Option<nat>)

  type Memory = map<nat, GcHeader>

  /** Bytes an object takes, header included. */
  function TotalSize(size: nat): (r: nat)
    ensures r >= HEADER_SIZE + size && r % ALIGNMENT == 0
  {
    (HEADER_SIZE + size + ALIGNMENT - 1) / ALIGNMENT * ALIGNMENT
  }

  /** The headers from one address up to another, in list order. */
  predicate Segment(memory: Memory, from: Option<nat>, objects: seq<nat>, to: Option<nat>)
    decreases objects
  {
    if objects == [] then from == to
    else from == Some(objects[0]) && objects[0] in memory && Segment(memory, memory[objects[0]].next, objects[1..], to)
  }

  predicate Distinct(objects: seq<nat>) {
    forall i, j :: 0 <= i < j < |objects| ==> objects[i] != objects[j]
  }

  /** Bytes taken by some objects. */
  function Bytes(memory: Memory, objects: seq<nat>): nat {
    if objects == [] then 0
    else (if objects[0] in memory then TotalSize(memory[objects[0]].size) else 0) + Bytes(memory, objects[1..])
  }

  /** A header whose data a root points to. */
  predicate IsRooted(roots: set<nat>, header: nat) {
    header + HEADER_SIZE in roots
  }

  /** The rooted objects, in list order. */
  function Rooted(objects: seq<nat>, roots: set<nat>): (kept: seq<nat>)
    ensures forall h :: h in kept <==> h in objects && IsRooted(roots, h)
    ensures |kept| <= |objects|
  {
    if objects == [] then []
    else if IsRooted(roots, objects[0]) then [objects[0]] + Rooted(objects[1..], roots)
    else Rooted(objects[1..], roots)
  }

  lemma RootedHead(objects: seq<nat>, roots: set<nat>)
    requires objects != []
    ensures Rooted(objects, roots)
         == (if IsRooted(roots, objects[0]) then [objects[0]] else []) + Rooted(objects[1..], roots)
  {
  }

  /** Collecting twice collects once: a second sweep with the same roots finds nothing to free. */
  lemma {:induction false} RootedTwice(objects: seq<nat>, roots: set<nat>)
    ensures Rooted(Rooted(objects, roots), roots) == Rooted(objects, roots)
  {
    if objects != [] {
      RootedTwice(objects[1..], roots);
      if IsRooted(roots, objects[0]) {
        assert Rooted(objects, roots)[1..] == Rooted(objects[1..], roots);
      }
    }
  }

  /** Nothing new in memory, and what is left has its size and type. */
  predicate Untouched(memory: Memory, memory': Memory) {
    forall h <- memory' :: h in memory && memory'[h].size == memory[h].size && memory'[h].typeTag == memory[h].typeTag
  }

  // ---------------------------------------------------------------- segments and their bytes

  lemma {:induction false} SegmentSame(memory: Memory, memory': Memory, from: Option<nat>, objects: seq<nat>, to: Option<nat>)
    requires Segment(memory, from, objects, to)
    requires forall h <- objects :: h in memory && h in memory' && memory'[h].next == memory[h].next
    ensures Segment(memory', from, objects, to)
    decreases objects
  {
    if objects != [] {
      assert objects[0] in objects;
      assert forall h <- objects[1..] :: h in objects;
      SegmentSame(memory, memory', memory[objects[0]].next, objects[1..], to);
    }
  }

  lemma {:induction false} SegmentListed(memory: Memory, from: Option<nat>, objects: seq<nat>, to: Option<nat>)
    requires Segment(memory, from, objects, to)
    ensures forall h <- objects :: h in memory
    decreases objects
  {
    if objects != [] {
      SegmentListed(memory, memory[objects[0]].next, objects[1..], to);
      assert objects == [objects[0]] + objects[1..];
    }
  }

  lemma SegmentHead(memory: Memory, from: Option<nat>, objects: seq<nat>)
    requires Segment(memory, from, objects, None)
    ensures from.None? <==> objects == []
    ensures from.Some? ==> objects[0] == from.value && from.value in memory && Segment(memory, memory[from.value].next, objects[1..], None)
  {
  }

  lemma {:induction false} SegmentSnoc(memory: Memory, from: Option<nat>, objects: seq<nat>, last: nat, to: Option<nat>)
    ensures Segment(memory, from, objects + [last], to)
       <==> Segment(memory, from, objects, Some(last)) && last in memory && memory[last].next == to
    decreases objects
  {
    var all := objects + [last];
    if objects == [] {
      assert all[1..] == [];
    } else {
      assert all[0] == objects[0] && all[1..] == objects[1..] + [last];
      if objects[0] in memory {
        SegmentSnoc(memory, memory[objects[0]].next, objects[1..], last, to);
      }
    }
  }

  lemma {:induction false} BytesSame(memory: Memory, memory': Memory, objects: seq<nat>)
    requires forall h <- objects :: h in memory && h in memory' && memory'[h].size == memory[h].size
    ensures Bytes(memory', objects) == Bytes(memory, objects)
  {
    if objects != [] {
      assert objects[0] in objects;
      assert forall h <- objects[1..] :: h in objects;
      BytesSame(memory, memory', objects[1..]);
    }
  }

  lemma {:induction false} BytesSnoc(memory: Memory, objects: seq<nat>, last: nat)
    requires last in memory
    ensures Bytes(memory, objects + [last]) == Bytes(memory, objects) + TotalSize(memory[last].size)
  {
    var all := objects + [last];
    if objects == [] {
      assert all[1..] == [];
    } else {
      assert all[0] == objects[0] && all[1..] == objects[1..] + [last];
      BytesSnoc(memory, objects[1..], last);
    }
  }

  /** Leading the last header of a segment on to another place. */
  lemma LedOn(memory: Memory, from: Option<nat>, objects: seq<nat>, to: Option<nat>, to': Option<nat>)
    requires objects != [] && Distinct(objects) && Segment(memory, from, objects, to)
    ensures objects[|objects| - 1] in memory
    ensures var last := objects[|objects| - 1]; Segment(memory[last := memory[last].(next := to')], from, objects, to')
  {
    var before, last := objects[..|objects| - 1], objects[|objects| - 1];
    assert objects == before + [last];
    SegmentListed(memory, from, objects, to);
    SegmentSnoc(memory, from, before, last, to);
    var memory' := memory[last := memory[last].(next := to')];
    assert last !in before;
    SegmentSame(memory, memory', from, before, Some(last));
    SegmentSnoc(memory', from, before, last, to');
  }

  /** Clearing the mark of the object in front of the rest moves it to those kept. */
  lemma Spared(memory: Memory, head: Option<nat>, kept: seq<nat>, here: nat, rest: seq<nat>)
    requires Segment(memory, head, kept, Some(here)) && Segment(memory, Some(here), rest, None)
    requires rest != [] && Distinct(kept) && Distinct(rest) && forall h <- kept :: h !in rest
    ensures here in memory && here == rest[0] && here !in kept && here !in rest[1..]
    ensures Distinct(kept + [here]) && Distinct(rest[1..]) && forall h <- kept + [here] :: h !in rest[1..]
    ensures
      var next := memory[here].next;
      var memory' := memory[here := memory[here].(marked := false)];
      && Segment(memory', head, kept + [here], next) && Segment(memory', next, rest[1..], None)
      && Bytes(memory', kept + [here]) + Bytes(memory', rest[1..]) == Bytes(memory, kept) + Bytes(memory, rest)
  {
    assert rest == [here] + rest[1..] && here in rest && here !in rest[1..];
    SegmentListed(memory, head, kept, Some(here));
    SegmentListed(memory, Some(here), rest, None);
    var memory' := memory[here := memory[here].(marked := false)];
    SegmentSame(memory, memory', head, kept, Some(here));
    SegmentSnoc(memory', head, kept, here, memory[here].next);
    SegmentSame(memory, memory', memory[here].next, rest[1..], None);
    BytesSame(memory, memory', kept);
    BytesSame(memory, memory', rest[1..]);
    BytesSnoc(memory', kept, here);
  }

  /** Memory without one header, the last of some others leading on. */
  function Without(memory: Memory, kept: seq<nat>, here: nat, next: Option<nat>): Memory
    requires kept != [] ==> kept[|kept| - 1] in memory
  {
    (if kept == [] then memory else var last := kept[|kept| - 1]; memory[last := memory[last].(next := next)]) - {here}
  }

  /** Cutting the object in front of the rest out of the list. */
  lemma Cut(memory: Memory, head: Option<nat>, kept: seq<nat>, here: nat, rest: seq<nat>)
    requires Segment(memory, head, kept, Some(here)) && Segment(memory, Some(here), rest, None)
    requires rest != [] && Distinct(kept) && Distinct(rest) && forall h <- kept :: h !in rest
    ensures here in memory && here == rest[0] && here !in kept && here !in rest[1..]
    ensures kept != [] ==> kept[|kept| - 1] in memory
    ensures Distinct(rest[1..]) && forall h <- kept :: h !in rest[1..]
    ensures
      var next := memory[here].next;
      var memory' := Without(memory, kept, here, next);
      && Segment(memory', if kept == [] then next else head, kept, next) && Segment(memory', next, rest[1..], None)
      && Bytes(memory', kept) == Bytes(memory, kept)
      && Bytes(memory', rest[1..]) == Bytes(memory, rest) - TotalSize(memory[here].size)
  {
    hide Segment, TotalSize;
    SegmentHead(memory, Some(here), rest);
    var next := memory[here].next;
    assert rest == [here] + rest[1..] && here in rest && here !in rest[1..];
    SegmentListed(memory, head, kept, Some(here));
    SegmentListed(memory, Some(here), rest, None);
    assert kept != [] ==> kept[|kept| - 1] in kept;
    var memory' := Without(memory, kept, here, next);
    CutKept(memory, head, kept, here, next);
    SegmentSame(memory, memory', next, rest[1..], None);
    BytesSame(memory, memory', kept);
    BytesSame(memory, memory', rest[1..]);
  }

  lemma CutKept(memory: Memory, head: Option<nat>, kept: seq<nat>, here: nat, next: Option<nat>)
    requires Segment(memory, head, kept, Some(here)) && Distinct(kept) && here !in kept
    requires kept != [] ==> kept[|kept| - 1] in memory
    ensures Segment(Without(memory, kept, here, next), if kept == [] then next else head, kept, next)
  {
    if kept != [] {
      var last := kept[|kept| - 1];
      LedOn(memory, head, kept, Some(here), next);
      var led := memory[last := memory[last].(next := next)];
      SegmentListed(led, head, kept, next);
      SegmentSame(led, led - {here}, head, kept, next);
    }
  }

  /** A new object in front of the list. */
  lemma Pushed(memory: Memory, head: Option<nat>, objects: seq<nat>, address: nat, size: nat, typeTag: TypeTag)
    requires Segment(memory, head, objects, None) && address !in objects
    ensures
      var memory' := memory[address := GcHeader(size, false, typeTag, head)];
      && Segment(memory', Some(address), [address] + objects, None)
      && Bytes(memory', [address] + objects) == TotalSize(size) + Bytes(memory, objects)
  {
    var memory' := memory[address := GcHeader(size, false, typeTag, head)];
    assert ([address] + objects)[1..] == objects;
    SegmentListed(memory, head, objects, None);
    SegmentSame(memory, memory', head, objects, None);
    BytesSame(memory, memory', objects);
  }

  class GarbageCollector {
    const gcThreshold: nat
    var memory: Memory
    var allObjects: Option<nat>
    var roots: set<nat>
    var bytesAllocated: nat
    var totalAllocated: nat
    var totalFreed: nat
    var objectsAllocated: nat
    var objectsFreed: nat

    // The headers in list order.
    ghost var objects: seq<nat>

    predicate Unmarked()
      reads this
    {
      forall h <- memory :: !memory[h].marked
    }

    /** The list holds each object once and nothing else is allocated; no mark is left; the bytes add up. */
    ghost predicate Valid()
      reads this
    {
      && Segment(memory, allObjects, objects, None) && Distinct(objects)
      && (forall h <- memory :: h in objects)
      && Unmarked()
      && bytesAllocated == Bytes(memory, objects)
      && totalAllocated == totalFreed + bytesAllocated
      && objectsAllocated == objectsFreed + |objects|
    }

    constructor (gcThreshold: nat)
      ensures Valid() && this.gcThreshold == gcThreshold && objects == [] && roots == {}
    {
      this.gcThreshold := gcThreshold;
      memory := map[];
      allObjects := None;
      roots := {};
      bytesAllocated := 0;
      totalAllocated := 0;
      totalFreed := 0;
      objectsAllocated := 0;
      objectsFreed := 0;
      objects := [];
    }

    method AddRoot(data: nat)
      requires Valid()
      modifies this`roots
      ensures Valid() && roots == old(roots) + {data}
    {
      roots := roots + {data};
    }

    method RemoveRoot(data: nat)
      requires Valid()
      modifies this`roots
      ensures Valid() && roots == old(roots) - {data}
    {
      roots := roots - {data};
    }

    method ClearRoots()
      requires Valid()
      modifies this`roots
      ensures Valid() && roots == {}
    {
      roots := {};
    }

    // -------------------------------------------------------------- mark

    /** Whether a header is on the list. */
    method IsGcObject(header: nat) returns (found: bool)
      requires Segment(memory, allObjects, objects, None)
      ensures found <==> header in objects
    {
      var current := allObjects;
      ghost var rest := objects;
      while current.Some?
        invariant Segment(memory, current, rest, None)
        invariant header in rest <==> header in objects
        decreases |rest|
      {
        if current.value == header {
          return true;
        }
        assert rest == [rest[0]] + rest[1..];
        current := memory[current.value].next;
        rest := rest[1..];
      }
      return false;
    }

    /** Marks the object a root points to, if it is one of ours. */
    method MarkObject(data: nat)
      requires Segment(memory, allObjects, objects, None)
      modifies this`memory
      ensures Segment(memory, allObjects, objects, None) && memory.Keys == old(memory).Keys
      ensures forall h <- memory :: memory[h] == if h in objects && h + HEADER_SIZE == data then old(memory)[h].(marked := true) else old(memory)[h]
    {
      if data < HEADER_SIZE {
        return;
      }
      var header := data - HEADER_SIZE;
      var ours := IsGcObject(header);
      if !ours {
        return;
      }
      SegmentListed(memory, allObjects, objects, None);
      if memory[header].marked {
        return;
      }
      ghost var was := memory;
      memory := memory[header := memory[header].(marked := true)];
      SegmentSame(was, memory, allObjects, objects, None);
    }

    /** Afterwards exactly the rooted objects are marked. */
    method Mark()
      requires Segment(memory, allObjects, objects, None) && Unmarked() && forall h <- memory :: h in objects
      modifies this`memory
      ensures Segment(memory, allObjects, objects, None) && memory.Keys == old(memory).Keys
      ensures forall h <- memory :: memory[h] == old(memory)[h].(marked := IsRooted(roots, h))
    {
      var pending := roots;
      while pending != {}
        invariant pending <= roots
        invariant Segment(memory, allObjects, objects, None) && memory.Keys == old(memory).Keys
        invariant forall h <- memory :: memory[h] == old(memory)[h].(marked := IsRooted(roots - pending, h))
        decreases |pending|
      {
        var root :| root in pending;
        MarkObject(root);
        pending := pending - {root};
      }
      assert roots - pending == roots;
    }

    // -------------------------------------------------------------- sweep

    /** The list in two parts: objects already kept, and those the sweep has yet to see, the only ones still marked. */
    ghost predicate Sweeping(kept: seq<nat>, current: Option<nat>, rest: seq<nat>)
      reads this
    {
      && Segment(memory, allObjects, kept, current) && Segment(memory, current, rest, None)
      && Distinct(kept) && Distinct(rest) && (forall h <- kept :: h !in rest)
      && (forall h <- memory :: h in kept || h in rest)
      && (forall h <- memory :: memory[h].marked == (IsRooted(roots, h) && h in rest))
      && bytesAllocated == Bytes(memory, kept) + Bytes(memory, rest)
      && totalAllocated == totalFreed + bytesAllocated
      && objectsAllocated == objectsFreed + |kept| + |rest|
    }

    lemma SweepHead(kept: seq<nat>, current: Option<nat>, rest: seq<nat>)
      requires Sweeping(kept, current, rest)
      ensures current.None? <==> rest == []
      ensures current.Some? ==>
                && current.value == rest[0] && current.value in memory
                && memory[current.value].marked == IsRooted(roots, current.value)
    {
      SegmentHead(memory, current, rest);
    }

    lemma SweepEnd(kept: seq<nat>)
      requires Sweeping(kept, None, [])
      ensures Segment(memory, allObjects, kept, None) && Distinct(kept) && (forall h <- memory :: h in kept) && Unmarked()
      ensures bytesAllocated == Bytes(memory, kept) && totalAllocated == totalFreed + bytesAllocated
      ensures objectsAllocated == objectsFreed + |kept| && Rooted([], roots) == []
    {
    }

    /** Unlinks and frees every unmarked object; the others lose their mark and keep their order. */
    method Sweep()
      requires Sweeping([], allObjects, objects)
      modifies this
      ensures Valid() && roots == old(roots) && objects == Rooted(old(objects), roots)
      ensures Untouched(old(memory), memory)
      ensures totalAllocated == old(totalAllocated) && objectsAllocated == old(objectsAllocated)
    {
      hide Segment, Bytes, Rooted, Sweeping;
      var prev: Option<nat> := None;
      var current := allObjects;
      ghost var kept: seq<nat>, rest := [], objects;
      while current.Some?
        invariant Sweeping(kept, current, rest) && roots == old(roots)
        invariant prev == (if kept == [] then None else Some(kept[|kept| - 1]))
        invariant kept + Rooted(rest, roots) == Rooted(old(objects), roots)
        invariant Untouched(old(memory), memory)
        invariant totalAllocated == old(totalAllocated) && objectsAllocated == old(objectsAllocated)
        decreases |rest|
      {
        SweepHead(kept, current, rest);
        RootedHead(rest, roots);
        var next := memory[current.value].next;
        if memory[current.value].marked {
          Spare(current.value, kept, rest);
          prev := current;
          kept := kept + [current.value];
        } else {
          Unlink(prev, current.value, next, kept, rest);
        }
        current := next;
        rest := rest[1..];
      }
      SweepHead(kept, None, rest);
      SweepEnd(kept);
      objects := kept;
    }

    /** Clears the mark of an object that stays. */
    method Spare(here: nat, ghost kept: seq<nat>, ghost rest: seq<nat>)
      requires Sweeping(kept, Some(here), rest) && rest != [] && memory[here].marked
      modifies this`memory
      ensures Sweeping(kept + [here], old(memory)[here].next, rest[1..])
      ensures Untouched(old(memory), memory)
    {
      hide Segment, Bytes, TotalSize, Distinct;
      Spared(memory, allObjects, kept, here, rest);
      memory := memory[here := memory[here].(marked := false)];
    }

    /** Takes one object out of the list and frees it. */
    method Unlink(prev: Option<nat>, here: nat, next: Option<nat>, ghost kept: seq<nat>, ghost rest: seq<nat>)
      requires Sweeping(kept, Some(here), rest) && rest != [] && !memory[here].marked && next == memory[here].next
      requires prev == (if kept == [] then None else Some(kept[|kept| - 1]))
      modifies this`memory, this`allObjects, this`bytesAllocated, this`totalFreed, this`objectsFreed
      ensures Sweeping(kept, next, rest[1..])
      ensures Untouched(old(memory), memory)
    {
      hide Segment, Bytes, TotalSize, Distinct;
      Cut(memory, allObjects, kept, here, rest);
      var totalSize := TotalSize(memory[here].size);
      if prev.None? {
        allObjects := next;
      } else {
        memory := memory[prev.value := memory[prev.value].(next := next)];
      }
      memory := memory - {here};
      bytesAllocated := bytesAllocated - totalSize;
      totalFreed := totalFreed + totalSize;
      objectsFreed := objectsFreed + 1;
    }

    /**
     * After a collection the list holds exactly the rooted objects that were on it, in the same order, unmarked and
     * unchanged, and the bytes in use are theirs.
     */
    method Collect()
      requires Valid()
      modifies this
      ensures Valid() && roots == old(roots) && objects == Rooted(old(objects), roots)
      ensures Untouched(old(memory), memory)
      ensures totalAllocated == old(totalAllocated) && objectsAllocated == old(objectsAllocated)
    {
      SegmentListed(memory, allObjects, objects, None);
      Mark();
      BytesSame(old(memory), memory, objects);
      Sweep();
    }

    // -------------------------------------------------------------- allocate

    /** The objects that are left when this request has collected, if it does. */
    ghost function Before(size: nat): seq<nat>
      reads this
    {
      if bytesAllocated + size > gcThreshold then Rooted(objects, roots) else objects
    }

    /**
     * Puts a new object in front of the list, after a collection when the threshold would be passed. The host gives an
     * address at which no object is left.
     */
    method Alloc(size: nat, typeTag: TypeTag, address: nat) returns (data: nat)
      requires Valid() && address !in Before(size)
      modifies this
      ensures Valid() && data == address + HEADER_SIZE && roots == old(roots)
      ensures objects == [address] + old(Before(size))
      ensures address in memory && memory[address].size == size && memory[address].typeTag == typeTag && !memory[address].marked
      ensures totalAllocated == old(totalAllocated) + TotalSize(size)
    {
      hide Segment, Bytes, TotalSize, Rooted;
      if bytesAllocated + size > gcThreshold {
        Collect();
      }
      Pushed(memory, allObjects, objects, address, size, typeTag);
      var totalSize := TotalSize(size);
      memory := memory[address := GcHeader(size, false, typeTag, allObjects)];
      allObjects := Some(address);
      bytesAllocated := bytesAllocated + totalSize;
      totalAllocated := totalAllocated + totalSize;
      objectsAllocated := objectsAllocated + 1;
      objects := [address] + objects;
      return address + HEADER_SIZE;
    }
  }
}
