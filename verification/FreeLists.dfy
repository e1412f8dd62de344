/** The allocator: an intrusive free list threaded through the headers of a region's blocks. */
module FreeLists {
  import opened Common
  import opened Tiling

  // What lies at the start of every block.
  datatype Header = Header(size: nat, next: Option<nat>)

  type Memory = map<nat, Header>

  /** The list from head runs through exactly these free blocks. */
  predicate Linked(memory: Memory, head: Option<nat>, free: Spans) {
    && head == NextOf(free, 0)
    && forall i :: 0 <= i < |free| ==>
         free[i].start in memory && memory[free[i].start] == Header(free[i].size, NextOf(free, i + 1))
  }

  /** Where the list goes on. */
  function NextOf(free: Spans, i: nat): Option<nat> {
    if i < |free| then Some(free[i].start) else None
  }

  predicate Within(b: Span, x: nat) {
    b.start <= x < b.End()
  }

  /** No other header lies in a free block. */
  lemma HeadersApart(limit: nat, free: Spans, used: Blocks, i: nat)
    requires Tiled(limit, free, used) && i < |free|
    ensures forall j :: 0 <= j < |free| && j != i ==> !Within(free[i], free[j].start)
    ensures forall h <- used :: !Within(free[i], h)
    ensures free[i].size >= MIN_BLOCK_SIZE
  {
    assert free[i] in free && BlockOk(limit, free[i]);
    forall j | 0 <= j < |free| ensures free[j] in free && BlockOk(limit, free[j]) {
    }
    forall h <- used ensures Apart(free[i], Span(h, used[h])) && BlockOk(limit, Span(h, used[h])) {
    }
  }

  /** Memory with the headers around a taken block rewritten. */
  function Relinked(memory: Memory, free: Spans, need: nat, i: nat): Memory
    requires i < |free| && need <= free[i].size && free[i].start in memory && (i > 0 ==> free[i - 1].start in memory)
  {
    var h, split := free[i].start, free[i].size - need >= MIN_BLOCK_SIZE;
    var rest := if split then Some(h + need) else memory[h].next;
    var m1 := if split then memory[h + need := Header(free[i].size - need, memory[h].next)] else memory;
    var m2 := if i > 0 then m1[free[i - 1].start := m1[free[i - 1].start].(next := rest)] else m1;
    m2[h := Header(TakenSize(free[i], need), None)]
  }

  lemma RelinkedAt(memory: Memory, free: Spans, need: nat, i: nat, a: nat)
    requires i < |free| && 0 < need <= free[i].size && free[i].start in memory && (i > 0 ==> free[i - 1].start in memory)
    requires i > 0 ==> !Within(free[i], free[i - 1].start)
    requires a in memory && !Within(free[i], a)
    ensures a in Relinked(memory, free, need, i)
    ensures Relinked(memory, free, need, i)[a].size == memory[a].size
    ensures !(i > 0 && a == free[i - 1].start) ==> Relinked(memory, free, need, i)[a] == memory[a]
  {
  }

  lemma TakeLinks(limit: nat, memory: Memory, free: Spans, used: Blocks, need: nat, i: nat)
    requires Tiled(limit, free, used) && Linked(memory, NextOf(free, 0), free)
    requires i < |free| && MIN_BLOCK_SIZE <= need <= free[i].size
    ensures Linked(Relinked(memory, free, need, i), NextOf(Take(free, need, i), 0), Take(free, need, i))
  {
    hide Tiled;
    HeadersApart(limit, free, used, i);
    var taken, after := Take(free, need, i), Relinked(memory, free, need, i);
    forall k | 0 <= k < |taken|
      ensures taken[k].start in after && after[taken[k].start] == Header(taken[k].size, NextOf(taken, k + 1))
    {
      var j := if |taken| == |free| || k < i then k else k + 1;
      if j != i {
        assert taken[k] == free[j];
        LinkKept(limit, memory, free, used, need, i, j);
      }
    }
  }

  /** A block that stays in the list keeps its header, save that the one before the taken block gets a new next. */
  lemma LinkKept(limit: nat, memory: Memory, free: Spans, used: Blocks, need: nat, i: nat, j: nat)
    requires Tiled(limit, free, used) && Linked(memory, NextOf(free, 0), free)
    requires i < |free| && MIN_BLOCK_SIZE <= need <= free[i].size && j < |free| && j != i
    ensures var after, taken := Relinked(memory, free, need, i), Take(free, need, i);
      && free[j].start in after
      && after[free[j].start] == Header(free[j].size, if j == i - 1 then NextOf(taken, i) else NextOf(free, j + 1))
  {
    hide Tiled;
    HeadersApart(limit, free, used, i);
    if i > 0 {
      HeadersApart(limit, free, used, i - 1);
    }
    RelinkedAt(memory, free, need, i, free[j].start);
  }

  lemma TakeKeepsUsed(limit: nat, memory: Memory, free: Spans, used: Blocks, need: nat, i: nat)
    requires Tiled(limit, free, used) && Linked(memory, NextOf(free, 0), free)
    requires forall h <- used :: h in memory && memory[h].size == used[h]
    requires i < |free| && MIN_BLOCK_SIZE <= need <= free[i].size
    ensures var after := Relinked(memory, free, need, i);
      && (forall h <- used :: h in after && after[h].size == used[h])
      && free[i].start in after && after[free[i].start].size == TakenSize(free[i], need)
  {
    hide Tiled, Relinked;
    HeadersApart(limit, free, used, i);
    forall h <- used ensures h in Relinked(memory, free, need, i) && Relinked(memory, free, need, i)[h].size == used[h] {
      RelinkedAt(memory, free, need, i, h);
    }
    TakenHeader(memory, free, need, i);
  }

  lemma TakenHeader(memory: Memory, free: Spans, need: nat, i: nat)
    requires i < |free| && need <= free[i].size && free[i].start in memory && (i > 0 ==> free[i - 1].start in memory)
    ensures free[i].start in Relinked(memory, free, need, i)
    ensures Relinked(memory, free, need, i)[free[i].start].size == TakenSize(free[i], need)
  {
  }

  // ---------------------------------------------------------------- giving back, in memory

  /** Memory with a block linked in, joined with the neighbours it touches. */
  function Rejoined(memory: Memory, free: Spans, b: Span, i: nat): Memory
    requires i <= |free| && b.start in memory && (i > 0 ==> free[i - 1].start in memory) && (i < |free| ==> free[i].start in memory)
  {
    var own := if TouchesRight(free, b, i) then Header(b.size + memory[free[i].start].size, memory[free[i].start].next)
               else Header(b.size, NextOf(free, i));
    var m1 := memory[b.start := own];
    if i == 0 then m1
    else
      var left := free[i - 1].start;
      if TouchesLeft(free, b, i) then m1[left := Header(memory[left].size + own.size, own.next)]
      else m1[left := memory[left].(next := Some(b.start))]
  }

  /** The premises of linking a block in. */
  ghost predicate Joinable(limit: nat, memory: Memory, free: Spans, used: Blocks, h: nat, i: nat) {
    && Tiled(limit, free, used) && Linked(memory, NextOf(free, 0), free) && h in used && h in memory
    && Place(free, Span(h, used[h]), i)
  }

  /** Headers that are neither the block's nor its left neighbour's stay as they are. */
  lemma RejoinedAt(limit: nat, memory: Memory, free: Spans, used: Blocks, h: nat, i: nat, a: nat)
    requires Joinable(limit, memory, free, used, h, i) && a in memory && a != h && (i > 0 ==> a != free[i - 1].start)
    ensures a in Rejoined(memory, free, Span(h, used[h]), i) && Rejoined(memory, free, Span(h, used[h]), i)[a] == memory[a]
  {
    hide Tiled;
  }

  lemma JoinedHeader(limit: nat, memory: Memory, free: Spans, used: Blocks, h: nat, i: nat)
    requires Joinable(limit, memory, free, used, h, i)
    ensures var b := Span(h, used[h]); var m, after := Merged(free, b, i), Rejoined(memory, free, b, i);
      m.start in after && after[m.start] == Header(m.size, NextOf(free, if TouchesRight(free, b, i) then i + 1 else i))
  {
    hide Tiled;
    FreeIsApart(limit, free, used, h);
  }

  lemma FreeIsApart(limit: nat, free: Spans, used: Blocks, h: nat)
    requires Tiled(limit, free, used) && h in used
    ensures forall j :: 0 <= j < |free| ==> free[j].start != h
    ensures forall j, k :: 0 <= j < k < |free| ==> free[j].start != free[k].start
    ensures forall k <- used, j :: 0 <= j < |free| ==> free[j].start != k
  {
    forall j | 0 <= j < |free| ensures free[j] in free && free[j].start !in used {
      FreeIsNotUsed(limit, free, used, free[j]);
    }
  }

  /** The block before the joined one leads to it. */
  lemma LeftLeadsOn(limit: nat, memory: Memory, free: Spans, used: Blocks, h: nat, i: nat)
    requires Joinable(limit, memory, free, used, h, i)
    ensures var b := Span(h, used[h]); var left := |Before(free, b, i)|;
      left > 0 ==>
        && free[left - 1].start in Rejoined(memory, free, b, i)
        && Rejoined(memory, free, b, i)[free[left - 1].start] == Header(free[left - 1].size, Some(Merged(free, b, i).start))
  {
    hide Tiled;
    FreeIsApart(limit, free, used, h);
    var b := Span(h, used[h]);
    if TouchesLeft(free, b, i) && i >= 2 {
      RejoinedAt(limit, memory, free, used, h, i, free[i - 2].start);
    }
  }

  lemma LinkOf(memory: Memory, head: Option<nat>, free: Spans, j: nat)
    requires Linked(memory, head, free) && j < |free|
    ensures free[j].start in memory && memory[free[j].start] == Header(free[j].size, NextOf(free, j + 1))
  {
  }

  /** One block of the new list: its header gives its size and leads to the next one. */
  predicate LinkAt(memory: Memory, free: Spans, k: nat)
    requires k < |free|
  {
    free[k].start in memory && memory[free[k].start] == Header(free[k].size, NextOf(free, k + 1))
  }

  lemma GiveBackLinkLeft(limit: nat, memory: Memory, free: Spans, used: Blocks, h: nat, i: nat, k: nat)
    requires Joinable(limit, memory, free, used, h, i) && k < |Before(free, Span(h, used[h]), i)|
    ensures k < |GiveBack(free, Span(h, used[h]), i)| && LinkAt(Rejoined(memory, free, Span(h, used[h]), i), GiveBack(free, Span(h, used[h]), i), k)
  {
    hide Tiled, Rejoined, Merged, GiveBack, Linked;
    var b := Span(h, used[h]);
    var left := |Before(free, b, i)|;
    GiveBackSize(free, b, i);
    GiveBackAt(free, b, i, k);
    GiveBackAt(free, b, i, k + 1);
    if k < left - 1 {
      FreeIsApart(limit, free, used, h);
      LinkOf(memory, NextOf(free, 0), free, k);
      RejoinedAt(limit, memory, free, used, h, i, free[k].start);
    } else {
      LeftLeadsOn(limit, memory, free, used, h, i);
    }
  }

  lemma GiveBackLinkRight(limit: nat, memory: Memory, free: Spans, used: Blocks, h: nat, i: nat, k: nat)
    requires Joinable(limit, memory, free, used, h, i)
    requires |Before(free, Span(h, used[h]), i)| <= k < |GiveBack(free, Span(h, used[h]), i)|
    ensures LinkAt(Rejoined(memory, free, Span(h, used[h]), i), GiveBack(free, Span(h, used[h]), i), k)
  {
    hide Tiled, Rejoined, Merged, GiveBack, Linked, Before, Behind;
    var b := Span(h, used[h]);
    var left, skip := |Before(free, b, i)|, if TouchesRight(free, b, i) then i + 1 else i;
    var all := GiveBack(free, b, i);
    GiveBackSize(free, b, i);
    GiveBackAt(free, b, i, k);
    if k + 1 < |all| {
      GiveBackAt(free, b, i, k + 1);
    }
    if k == left {
      JoinedHeader(limit, memory, free, used, h, i);
    } else {
      var j := skip + k - left - 1;
      FreeIsApart(limit, free, used, h);
      LinkOf(memory, NextOf(free, 0), free, j);
      RejoinedAt(limit, memory, free, used, h, i, free[j].start);
    }
  }

  lemma GiveBackLinks(limit: nat, memory: Memory, free: Spans, used: Blocks, h: nat, i: nat)
    requires Joinable(limit, memory, free, used, h, i)
    ensures var b := Span(h, used[h]);
      Linked(Rejoined(memory, free, b, i), NextOf(GiveBack(free, b, i), 0), GiveBack(free, b, i))
  {
    hide Tiled, Rejoined, GiveBack, Before;
    var b := Span(h, used[h]);
    var all, after := GiveBack(free, b, i), Rejoined(memory, free, b, i);
    forall k | 0 <= k < |all| ensures all[k].start in after && after[all[k].start] == Header(all[k].size, NextOf(all, k + 1)) {
      if k < |Before(free, b, i)| {
        GiveBackLinkLeft(limit, memory, free, used, h, i, k);
      } else {
        GiveBackLinkRight(limit, memory, free, used, h, i, k);
      }
    }
  }

  lemma GiveBackSize(free: Spans, b: Span, i: nat)
    requires i <= |free|
    ensures |GiveBack(free, b, i)| == |Before(free, b, i)| + 1 + |free| - (if TouchesRight(free, b, i) then i + 1 else i)
  {
  }

  lemma GiveBackKeepsUsed(limit: nat, memory: Memory, free: Spans, used: Blocks, h: nat, i: nat)
    requires Joinable(limit, memory, free, used, h, i)
    requires forall k <- used :: k in memory && memory[k].size == used[k]
    ensures var after := Rejoined(memory, free, Span(h, used[h]), i);
      forall k <- used - {h} :: k in after && after[k].size == used[k]
  {
    hide Tiled, Rejoined;
    FreeIsApart(limit, free, used, h);
    forall k <- used - {h}
      ensures k in Rejoined(memory, free, Span(h, used[h]), i) && Rejoined(memory, free, Span(h, used[h]), i)[k].size == used[k]
    {
      RejoinedAt(limit, memory, free, used, h, i, k);
    }
  }

  class FreeListAllocator {
    const size: nat
    var memory: Memory
    var freeList: Option<nat>
    var allocationCount: nat
    var bytesAllocated: nat

    // The free blocks in list order, and the allocated ones.
    ghost var free: Spans
    ghost var used: Blocks

    ghost predicate Valid()
      reads this
    {
      && Linked(memory, freeList, free)
      && (forall h <- used :: h in memory && memory[h].size == used[h])
      && Tiled(size, free, used)
      && allocationCount == |used|
      && bytesAllocated + FreeBytes(free) == size
    }

    /** One free block covers everything. The region must hold at least one block. */
    constructor (size: nat)
      requires size >= MIN_BLOCK_SIZE
      ensures Valid() && this.size == size && used == map[] && free == [Span(0, size)]
    {
      this.size := size;
      memory := map[0 := Header(size, None)];
      freeList := Some(0);
      allocationCount := 0;
      bytesAllocated := 0;
      free := [Span(0, size)];
      used := map[];
      new;
      BytesOne(Span(0, size));
      assert Span(0, size) in free;
    }

    /** Hands out the block at `here`, found behind `prev`, and keeps the rest if it can be a block. */
    method TakeBlock(prev: Option<nat>, here: nat, minSize: nat, ghost i: nat)
      requires Valid() && i < |free| && here == free[i].start && MIN_BLOCK_SIZE <= minSize <= free[i].size
      requires minSize % ALIGNMENT == 0
      requires prev == if i == 0 then None else Some(free[i - 1].start)
      modifies this
      ensures Valid() && here !in old(used)
      ensures used == old(used)[here := TakenSize(old(free)[i], minSize)] && free == Take(old(free), minSize, i)
    {
      hide Tiled, Take, FreeBytes, Relinked, Linked, TakenSize, NextOf;
      HeadIs(memory, freeList, free, i);
      TakeKeeps(size, free, used, minSize, i);
      TakeBytes(free, minSize, i);
      TakeLinks(size, memory, free, used, minSize, i);
      TakeKeepsUsed(size, memory, free, used, minSize, i);
      TakeNext(free, minSize, i);
      HeadersApart(size, free, used, i);
      Unlink(prev, here, minSize, i);
      allocationCount := allocationCount + 1;
      bytesAllocated := bytesAllocated + memory[here].size;
      used := used[here := TakenSize(free[i], minSize)];
      free := Take(free, minSize, i);
    }

    /** Rewrites the headers around the block at `here`. */
    method Unlink(prev: Option<nat>, here: nat, minSize: nat, ghost i: nat)
      requires i < |free| && here == free[i].start && 0 < minSize <= free[i].size
      requires here in memory && memory[here] == Header(free[i].size, NextOf(free, i + 1))
      requires prev == (if i == 0 then None else Some(free[i - 1].start)) && (i > 0 ==> free[i - 1].start in memory)
      requires i > 0 ==> !Within(free[i], free[i - 1].start)
      modifies this`memory, this`freeList
      ensures memory == Relinked(old(memory), free, minSize, i)
      ensures freeList == if i > 0 then old(freeList)
                          else if free[i].size - minSize >= MIN_BLOCK_SIZE then Some(here + minSize) else NextOf(free, 1)
    {
      var remaining := memory[here].size - minSize;
      var rest := memory[here].next;
      if remaining >= MIN_BLOCK_SIZE {
        rest := Some(here + minSize);
        memory := memory[here + minSize := Header(remaining, memory[here].next)];
        memory := memory[here := memory[here].(size := minSize)];
      }
      if prev.None? {
        freeList := rest;
      } else {
        memory := memory[prev.value := memory[prev.value].(next := rest)];
      }
      memory := memory[here := memory[here].(next := None)];
    }

    /**
     * First fit. A block is handed out exactly if some free block is large enough; its data starts behind its header,
     * is aligned, and lies in no other block.
     */
    method Alloc(request: nat) returns (data: Option<nat>)
      requires Valid()
      modifies this
      ensures Valid()
      ensures data.None? <==> forall b <- old(free) :: b.size < Need(request)
      ensures data.None? ==> used == old(used) && free == old(free)
      ensures data.Some? ==> exists i: nat :: Handed(old(free), old(used), Need(request), i, data.value, used, free)
    {
      hide Tiled, Take, FreeBytes, Need;
      var minSize := Need(request);
      var prev: Option<nat> := None;
      var current := freeList;
      ghost var i: nat := 0;
      while current.Some?
        invariant i <= |free| && current == NextOf(free, i)
        invariant prev == if i == 0 then None else Some(free[i - 1].start)
        invariant forall j :: 0 <= j < i ==> free[j].size < minSize
        invariant Valid() && free == old(free) && used == old(used)
        decreases |free| - i
      {
        var here := current.value;
        if memory[here].size >= minSize {
          assert free[i] in free;
          AlignedStart(size, free, used, i);
          TakeBlock(prev, here, minSize, i);
          assert Handed(old(free), old(used), minSize, i, here + HEADER_SIZE, used, free);
          return Some(here + HEADER_SIZE);
        }
        prev := current;
        current := memory[here].next;
        i := i + 1;
      }
      return None;
    }

    /** Links the block at `header` in between `prev` and `current`, joining what touches. */
    method Link(prev: Option<nat>, header: nat, current: Option<nat>, ghost i: nat)
      requires i <= |free| && header in memory && current == NextOf(free, i)
      requires i < |free| ==> free[i].start in memory
      requires prev == (if i == 0 then None else Some(free[i - 1].start)) && (i > 0 ==> free[i - 1].start in memory)
      requires i > 0 ==> free[i - 1].start != header && memory[free[i - 1].start].size == free[i - 1].size
      requires i < |free| ==> free[i].start != header && (i > 0 ==> free[i].start != free[i - 1].start)
      modifies this`memory, this`freeList
      ensures memory == Rejoined(old(memory), free, Span(header, old(memory)[header].size), i)
      ensures freeList == if i > 0 then old(freeList) else Some(header)
    {
      var end := header + memory[header].size;
      if Some(end) == current {
        memory := memory[header := memory[header].(size := memory[header].size + memory[current.value].size)];
        memory := memory[header := memory[header].(next := memory[current.value].next)];
      } else {
        memory := memory[header := memory[header].(next := current)];
      }
      if prev.Some? {
        var before := prev.value;
        if before + memory[before].size == header {
          memory := memory[before := memory[before].(size := memory[before].size + memory[header].size)];
          memory := memory[before := memory[before].(next := memory[header].next)];
          return;
        }
      }
      if prev.None? {
        freeList := Some(header);
      } else {
        memory := memory[prev.value := memory[prev.value].(next := Some(header))];
      }
    }

    /** The neighbours between which a header belongs. */
    method SearchSpot(header: nat) returns (prev: Option<nat>, current: Option<nat>, ghost i: nat)
      requires Linked(memory, freeList, free) && Tiled(size, free, used) && header in used
      ensures Place(free, Span(header, used[header]), i)
      ensures current == NextOf(free, i) && prev == if i == 0 then None else Some(free[i - 1].start)
    {
      hide Tiled;
      FreeIsApart(size, free, used, header);
      prev := None;
      current := freeList;
      i := 0;
      while current.Some? && current.value < header
        invariant i <= |free| && current == NextOf(free, i)
        invariant prev == if i == 0 then None else Some(free[i - 1].start)
        invariant forall j :: 0 <= j < i ==> free[j].start < header
        decreases |free| - i
      {
        prev := current;
        current := memory[current.value].next;
        i := i + 1;
      }
      PlaceFound(size, free, used, header, i);
    }

    /** Takes back the block that was handed out with this data pointer. */
    method Free(data: nat)
      requires Valid() && data >= HEADER_SIZE && data - HEADER_SIZE in used
      modifies this
      ensures Valid() && used == old(used) - {data - HEADER_SIZE}
      ensures var b := Span(data - HEADER_SIZE, old(used)[data - HEADER_SIZE]);
        exists i: nat :: Place(old(free), b, i) && free == GiveBack(old(free), b, i)
      ensures used == map[] ==> free == [Span(0, size)]
    {
      hide Tiled, FreeBytes, Rejoined, GiveBack, Ordered, Linked, Place;
      var header := data - HEADER_SIZE;
      ghost var b := Span(header, used[header]);
      Bounded(size, free, used, header);
      allocationCount := allocationCount - 1;
      bytesAllocated := bytesAllocated - memory[header].size;
      var prev, current, i := SearchSpot(header);
      JoinReady(size, memory, freeList, free, used, header, i);
      GiveBackKeeps(size, free, used, header, i);
      GiveBackBytes(free, b, i);
      GiveBackLinks(size, memory, free, used, header, i);
      GiveBackKeepsUsed(size, memory, free, used, header, i);
      GiveBackHead(free, b, i);
      Link(prev, header, current, i);
      free := GiveBack(free, b, i);
      used := used - {header};
      if used == map[] {
        AllFree(size, free);
      }
    }
  }

  /** What linking a block in needs to know about the neighbours' headers. */
  lemma JoinReady(limit: nat, memory: Memory, head: Option<nat>, free: Spans, used: Blocks, h: nat, i: nat)
    requires Tiled(limit, free, used) && Linked(memory, head, free) && h in used && h in memory && Place(free, Span(h, used[h]), i)
    ensures i <= |free| && head == NextOf(free, 0) && Joinable(limit, memory, free, used, h, i)
    ensures i > 0 ==> free[i - 1].start in memory && free[i - 1].start != h && memory[free[i - 1].start].size == free[i - 1].size
    ensures i < |free| ==> free[i].start in memory && free[i].start != h && (i > 0 ==> free[i].start != free[i - 1].start)
  {
    hide Tiled;
    FreeIsApart(limit, free, used, h);
  }

  /** Where the search stops is where the block belongs. */
  lemma PlaceFound(limit: nat, free: Spans, used: Blocks, h: nat, i: nat)
    requires Tiled(limit, free, used) && h in used && i <= |free|
    requires forall j :: 0 <= j < i ==> free[j].start < h
    requires i < |free| ==> free[i].start >= h
    ensures Place(free, Span(h, used[h]), i)
  {
    forall j | i <= j < |free| ensures free[j].start >= h {
      if j > i {
        assert free[i].End() < free[j].start;
      }
    }
  }

  lemma FindPlace(limit: nat, free: Spans, used: Blocks, h: nat) returns (i: nat)
    requires Tiled(limit, free, used) && h in used
    ensures Place(free, Span(h, used[h]), i)
  {
    hide Tiled;
    i := 0;
    while i < |free| && free[i].start < h
      invariant i <= |free| && forall j :: 0 <= j < i ==> free[j].start < h
    {
      i := i + 1;
    }
    PlaceFound(limit, free, used, h, i);
  }

  lemma {:induction false} BytesWithin(limit: nat, free: Spans)
    requires Ordered(free) && forall b <- free :: BlockOk(limit, b)
    ensures FreeBytes(free) <= if free == [] then 0 else free[|free| - 1].End()
    ensures FreeBytes(free) <= limit
  {
    if free != [] {
      var before, last := free[..|free| - 1], free[|free| - 1];
      assert forall b <- before :: b in free;
      BytesWithin(limit, before);
      assert last in free && BlockOk(limit, last);
    }
  }

  /** The counters cannot underflow. */
  lemma Bounded(limit: nat, free: Spans, used: Blocks, h: nat)
    requires Tiled(limit, free, used) && h in used
    ensures |used| > 0 && |used - {h}| == |used| - 1 && limit > 0
    ensures FreeBytes(free) + used[h] <= limit
  {
    hide GiveBack, FreeBytes, Place;
    assert (used - {h}).Keys == used.Keys - {h};
    assert BlockOk(limit, Span(h, used[h]));
    var i := FindPlace(limit, free, used, h);
    GiveBackKeeps(limit, free, used, h, i);
    PlaceBound(free, Span(h, used[h]), i);
    GiveBackBytes(free, Span(h, used[h]), i);
    BytesWithin(limit, GiveBack(free, Span(h, used[h]), i));
  }

  lemma PlaceBound(free: Spans, b: Span, i: nat)
    requires Place(free, b, i)
    ensures i <= |free|
  {
  }

  /** The list begins with the block only when nothing lies before it. */
  lemma GiveBackHead(free: Spans, b: Span, i: nat)
    requires i <= |free|
    ensures NextOf(GiveBack(free, b, i), 0) == if i > 0 then NextOf(free, 0) else Some(b.start)
  {
  }

  lemma HeadIs(memory: Memory, head: Option<nat>, free: Spans, i: nat)
    requires Linked(memory, head, free) && i < |free|
    ensures head == NextOf(free, 0)
    ensures free[i].start in memory && memory[free[i].start] == Header(free[i].size, NextOf(free, i + 1))
    ensures i > 0 ==> free[i - 1].start in memory && memory[free[i - 1].start] == Header(free[i - 1].size, Some(free[i].start))
  {
  }

  lemma TakeNext(free: Spans, need: nat, i: nat)
    requires i < |free| && need <= free[i].size
    ensures NextOf(Take(free, need, i), i) == if free[i].size - need >= MIN_BLOCK_SIZE then Some(free[i].start + need) else NextOf(free, i + 1)
    ensures i > 0 ==> NextOf(Take(free, need, i), 0) == NextOf(free, 0)
  {
  }

  lemma AlignedStart(limit: nat, free: Spans, used: Blocks, i: nat)
    requires Tiled(limit, free, used) && i < |free|
    ensures (free[i].start + HEADER_SIZE) % ALIGNMENT == 0
  {
    assert free[i] in free && BlockOk(limit, free[i]);
  }

  /** The data of the i-th free block, the first that fits, is handed out: aligned, and allocated to nobody before. */
  predicate Handed(free: Spans, used: Blocks, need: nat, i: nat, data: nat, used': Blocks, free': Spans) {
    && FirstFit(free, need, i)
    && var h, taken := free[i].start, TakenSize(free[i], need);
       && data == h + HEADER_SIZE && data % ALIGNMENT == 0
       && h !in used && used' == used[h := taken] && taken >= need
       && free' == Take(free, need, i)
  }
}
