/** Blocks that tile a region: what taking from and giving back to an address-ordered free list preserves. */
module Tiling {
  const HEADER_SIZE: nat := 16
  const ALIGNMENT: nat := 8
  const MIN_BLOCK_SIZE: nat := HEADER_SIZE + ALIGNMENT

  /** A block: its offset in the region and its size, header included. */
  datatype Span = Span(start: nat, size: nat) {
    function End(): nat {
      start + size
    }
  }

  type Spans = seq<Span>

  // Allocated blocks: the size of each, by offset.
  type Blocks = map<nat, nat>

  function AlignUp(size: nat): (r: nat)
    ensures size <= r < size + ALIGNMENT && r % ALIGNMENT == 0
  {
    (size + ALIGNMENT - 1) / ALIGNMENT * ALIGNMENT
  }

  /** The block size a request takes at least. */
  function Need(size: nat): (r: nat)
    ensures r >= MIN_BLOCK_SIZE && r >= size + HEADER_SIZE && r % ALIGNMENT == 0
  {
    var aligned := AlignUp(size + HEADER_SIZE);
    if aligned > MIN_BLOCK_SIZE then aligned else MIN_BLOCK_SIZE
  }

  function FreeBytes(free: Spans): nat {
    if free == [] then 0 else FreeBytes(free[..|free| - 1]) + free[|free| - 1].size
  }

  predicate BlockOk(limit: nat, b: Span) {
    b.size >= MIN_BLOCK_SIZE && b.End() <= limit && b.start % ALIGNMENT == 0
  }

  predicate Apart(a: Span, b: Span) {
    a.End() <= b.start || b.End() <= a.start
  }

  /** In address order, and no two of them touching. */
  predicate Ordered(free: Spans) {
    forall i, j :: 0 <= i < j < |free| ==> free[i].End() < free[j].start
  }

  predicate FreeCovers(free: Spans, x: nat) {
    exists b <- free :: b.start <= x < b.End()
  }

  predicate UsedCovers(used: Blocks, x: nat) {
    exists h <- used :: h <= x < h + used[h]
  }

  /** Free and allocated blocks together cover the region, each byte once. */
  ghost predicate Tiled(limit: nat, free: Spans, used: Blocks) {
    && Ordered(free)
    && (forall b <- free :: BlockOk(limit, b))
    && (forall h <- used :: BlockOk(limit, Span(h, used[h])))
    && (forall h <- used, k <- used :: h != k ==> Apart(Span(h, used[h]), Span(k, used[k])))
    && (forall b <- free, h <- used :: Apart(b, Span(h, used[h])))
    && (forall x: nat :: x < limit ==> FreeCovers(free, x) || UsedCovers(used, x))
  }

  // ---------------------------------------------------------------- taking

  /** First fit: no earlier block is large enough. */
  predicate FirstFit(free: Spans, need: nat, i: nat) {
    i < |free| && free[i].size >= need && forall j :: 0 <= j < i ==> free[j].size < need
  }

  /** The size of the block taken: the rest is split off only when it can be a block itself. */
  function TakenSize(b: Span, need: nat): nat
    requires need <= b.size
  {
    if b.size - need >= MIN_BLOCK_SIZE then need else b.size
  }

  function Take(free: Spans, need: nat, i: nat): Spans
    requires i < |free| && need <= free[i].size
  {
    if free[i].size - need >= MIN_BLOCK_SIZE then free[i := Span(free[i].start + need, free[i].size - need)]
    else free[..i] + free[i + 1..]
  }

  lemma {:induction false} BytesConcat(a: Spans, b: Spans)
    ensures FreeBytes(a + b) == FreeBytes(a) + FreeBytes(b)
  {
    if b == [] {
      assert a + b == a;
    } else {
      BytesConcat(a, b[..|b| - 1]);
      assert (a + b)[..|a + b| - 1] == a + b[..|b| - 1];
    }
  }

  lemma BytesOne(b: Span)
    ensures FreeBytes([b]) == b.size
  {
    assert [b][..0] == [];
  }

  lemma TakeBytes(free: Spans, need: nat, i: nat)
    requires i < |free| && need <= free[i].size
    ensures FreeBytes(Take(free, need, i)) + TakenSize(free[i], need) == FreeBytes(free)
  {
    hide FreeBytes;
    var before, after := free[..i], free[i + 1..];
    assert free == before + ([free[i]] + after);
    BytesConcat(before, [free[i]] + after);
    BytesConcat([free[i]], after);
    BytesOne(free[i]);
    BytesConcat(before, after);
    var rest := Span(free[i].start + need, free[i].size - need);
    assert free[i := rest] == before + ([rest] + after);
    BytesConcat(before, [rest] + after);
    BytesConcat([rest], after);
    BytesOne(rest);
  }

  /** Only the first bytes of one free block change hands. */
  lemma SplitOrdered(limit: nat, free: Spans, need: nat, i: nat)
    requires Ordered(free) && (forall b <- free :: BlockOk(limit, b))
    requires i < |free| && MIN_BLOCK_SIZE <= need && need + MIN_BLOCK_SIZE <= free[i].size && need % ALIGNMENT == 0
    ensures var rest := Span(free[i].start + need, free[i].size - need);
      && Ordered(free[i := rest]) && BlockOk(limit, rest)
      && forall b <- free[i := rest] :: b == rest || (b in free && b != free[i])
  {
    assert free[i] in free;
    AlignedSum(free[i].start, need);
    var taken := free[i := Span(free[i].start + need, free[i].size - need)];
    forall k | 0 <= k < |taken| && k != i ensures taken[k] in free && taken[k] != free[i] {
      assert taken[k] == free[k];
      OrderedDiffer(free, k, i);
    }
  }

  lemma RemovedOrdered(free: Spans, i: nat)
    requires Ordered(free) && i < |free|
    ensures Ordered(free[..i] + free[i + 1..]) && forall b <- free[..i] + free[i + 1..] :: b in free && b != free[i]
  {
    var taken := free[..i] + free[i + 1..];
    forall k | 0 <= k < |taken| ensures taken[k] in free && taken[k] != free[i] {
      var j := if k < i then k else k + 1;
      assert taken[k] == free[j];
      OrderedDiffer(free, j, i);
    }
  }

  lemma TakeOrdered(limit: nat, free: Spans, need: nat, i: nat)
    requires Ordered(free) && (forall b <- free :: BlockOk(limit, b))
    requires i < |free| && MIN_BLOCK_SIZE <= need <= free[i].size && need % ALIGNMENT == 0
    ensures Ordered(Take(free, need, i)) && forall b <- Take(free, need, i) :: BlockOk(limit, b)
    ensures forall b <- Take(free, need, i) ::
      || (b in free && b != free[i])
      || (b == Span(free[i].start + need, free[i].size - need) && TakenSize(free[i], need) == need)
  {
    hide Ordered;
    if free[i].size - need >= MIN_BLOCK_SIZE {
      SplitOrdered(limit, free, need, i);
    } else {
      RemovedOrdered(free, i);
    }
  }

  lemma AlignedSum(a: nat, b: nat)
    requires a % ALIGNMENT == 0 && b % ALIGNMENT == 0
    ensures (a + b) % ALIGNMENT == 0
  {
  }

  lemma OrderedDiffer(free: Spans, j: nat, i: nat)
    requires Ordered(free) && j < |free| && i < |free| && i != j
    ensures free[j] != free[i] && Apart(free[j], free[i])
  {
  }

  lemma TakeCovers(limit: nat, free: Spans, used: Blocks, need: nat, i: nat, x: nat)
    requires i < |free| && need <= free[i].size && x < limit
    requires FreeCovers(free, x) || UsedCovers(used, x)
    requires free[i].start !in used
    ensures FreeCovers(Take(free, need, i), x) || UsedCovers(used[free[i].start := TakenSize(free[i], need)], x)
  {
    var h := free[i].start;
    var taken, used' := Take(free, need, i), used[free[i].start := TakenSize(free[i], need)];
    if UsedCovers(used, x) {
      var k :| k in used && k <= x < k + used[k];
      assert k in used' && used'[k] == used[k];
    } else {
      var j :| 0 <= j < |free| && free[j].start <= x < free[j].End();
      if j != i {
        assert free[j] in taken by {
          var k := if |taken| == |free| || j < i then j else j - 1;
          assert taken[k] == free[j];
        }
      } else if x < h + TakenSize(free[i], need) {
        assert h in used' && h <= x < h + used'[h];
      } else {
        assert taken[i] in taken && taken[i].start <= x < taken[i].End();
      }
    }
  }

  lemma FreeIsNotUsed(limit: nat, free: Spans, used: Blocks, b: Span)
    requires Tiled(limit, free, used) && b in free
    ensures b.start !in used
  {
    forall h <- used ensures h != b.start {
      assert Apart(b, Span(h, used[h])) && BlockOk(limit, Span(h, used[h]));
    }
  }

  /** Taking a block from the free list leaves the region tiled, and moves exactly the block's bytes. */
  lemma TakeKeeps(limit: nat, free: Spans, used: Blocks, need: nat, i: nat)
    requires Tiled(limit, free, used)
    requires i < |free| && MIN_BLOCK_SIZE <= need <= free[i].size && need % ALIGNMENT == 0
    ensures free[i].start !in used
    ensures Tiled(limit, Take(free, need, i), used[free[i].start := TakenSize(free[i], need)])
  {
    hide FreeCovers, UsedCovers, Take, Ordered;
    var h, size := free[i].start, TakenSize(free[i], need);
    var taken, used' := Take(free, need, i), used[h := size];
    assert free[i] in free;
    FreeIsNotUsed(limit, free, used, free[i]);
    TakeOrdered(limit, free, need, i);
    forall k <- used ensures Apart(Span(k, used[k]), Span(h, size)) {
      assert Apart(free[i], Span(k, used[k]));
    }
    forall b <- taken ensures Apart(b, Span(h, size)) {
      if b in free && b != free[i] {
        var j :| 0 <= j < |free| && free[j] == b;
        OrderedDiffer(free, j, i);
      }
    }
    forall b <- taken, k <- used ensures Apart(b, Span(k, used[k])) {
      if b in free {
        assert Apart(b, Span(k, used[k]));
      } else {
        assert Apart(free[i], Span(k, used[k]));
      }
    }
    forall x: nat | x < limit ensures FreeCovers(taken, x) || UsedCovers(used', x) {
      TakeCovers(limit, free, used, need, i, x);
    }
  }

  // ---------------------------------------------------------------- giving back

  /** Where a block belongs: behind all free blocks that start before it. */
  predicate Place(free: Spans, b: Span, i: nat) {
    && i <= |free| && (forall j :: 0 <= j < i ==> free[j].start < b.start)
    && (forall j :: i <= j < |free| ==> free[j].start >= b.start)
  }

  predicate TouchesLeft(free: Spans, b: Span, i: nat)
    requires i <= |free|
  {
    i > 0 && free[i - 1].End() == b.start
  }

  predicate TouchesRight(free: Spans, b: Span, i: nat)
    requires i <= |free|
  {
    i < |free| && b.End() == free[i].start
  }

  /** The block together with the free neighbours it touches. */
  function Merged(free: Spans, b: Span, i: nat): Span
    requires i <= |free|
  {
    var right := if TouchesRight(free, b, i) then free[i].size else 0;
    if TouchesLeft(free, b, i) then Span(free[i - 1].start, free[i - 1].size + b.size + right) else Span(b.start, b.size + right)
  }

  function Before(free: Spans, b: Span, i: nat): Spans
    requires i <= |free|
  {
    if TouchesLeft(free, b, i) then free[..i - 1] else free[..i]
  }

  function Behind(free: Spans, b: Span, i: nat): Spans
    requires i <= |free|
  {
    if TouchesRight(free, b, i) then free[i + 1..] else free[i..]
  }

  function GiveBack(free: Spans, b: Span, i: nat): Spans
    requires i <= |free|
  {
    Before(free, b, i) + [Merged(free, b, i)] + Behind(free, b, i)
  }

  lemma BeforeBytes(free: Spans, b: Span, i: nat)
    requires i <= |free|
    ensures FreeBytes(free[..i]) == FreeBytes(Before(free, b, i)) + if TouchesLeft(free, b, i) then free[i - 1].size else 0
  {
    hide FreeBytes;
    if TouchesLeft(free, b, i) {
      assert free[..i] == free[..i - 1] + [free[i - 1]];
      BytesConcat(free[..i - 1], [free[i - 1]]);
      BytesOne(free[i - 1]);
    }
  }

  lemma BehindBytes(free: Spans, b: Span, i: nat)
    requires i <= |free|
    ensures FreeBytes(free[i..]) == FreeBytes(Behind(free, b, i)) + if TouchesRight(free, b, i) then free[i].size else 0
  {
    hide FreeBytes;
    if TouchesRight(free, b, i) {
      assert free[i..] == [free[i]] + free[i + 1..];
      BytesConcat([free[i]], free[i + 1..]);
      BytesOne(free[i]);
    }
  }

  lemma GiveBackBytes(free: Spans, b: Span, i: nat)
    requires i <= |free|
    ensures FreeBytes(GiveBack(free, b, i)) == FreeBytes(free) + b.size
  {
    hide FreeBytes, Before, Behind;
    assert free == free[..i] + free[i..];
    BytesConcat(free[..i], free[i..]);
    BeforeBytes(free, b, i);
    BehindBytes(free, b, i);
    BytesConcat(Before(free, b, i), [Merged(free, b, i)]);
    BytesConcat(Before(free, b, i) + [Merged(free, b, i)], Behind(free, b, i));
    BytesOne(Merged(free, b, i));
  }

  /** The premises of giving a block back. */
  ghost predicate Returnable(limit: nat, free: Spans, b: Span, i: nat) {
    && Ordered(free) && (forall f <- free :: BlockOk(limit, f)) && BlockOk(limit, b)
    && (forall f <- free :: Apart(f, b)) && Place(free, b, i)
  }

  /** The neighbours of the place are on their sides. */
  lemma Neighbours(limit: nat, free: Spans, b: Span, i: nat)
    requires Returnable(limit, free, b, i)
    ensures forall j :: 0 <= j < i ==> free[j].End() <= b.start
    ensures forall j :: i <= j < |free| ==> b.End() <= free[j].start
    ensures forall j :: 0 <= j < i - 1 ==> free[j].End() < b.start
    ensures forall j :: i < j < |free| ==> b.End() < free[j].start
  {
    forall j | 0 <= j < i ensures free[j].End() <= b.start {
      assert free[j] in free;
    }
    forall j | i <= j < |free| ensures b.End() <= free[j].start {
      assert free[j] in free;
    }
    if i > 0 {
      forall j | 0 <= j < i - 1 ensures free[j].End() < b.start {
        assert free[j].End() < free[i - 1].start;
      }
    }
    if i < |free| {
      forall j | i < j < |free| ensures b.End() < free[j].start {
        assert free[i].End() < free[j].start;
      }
    }
  }

  lemma MergedOk(limit: nat, free: Spans, b: Span, i: nat)
    requires Returnable(limit, free, b, i)
    ensures BlockOk(limit, Merged(free, b, i))
    ensures forall f <- Before(free, b, i) :: f in free && f.End() < Merged(free, b, i).start
    ensures forall f <- Behind(free, b, i) :: f in free && Merged(free, b, i).End() < f.start
  {
    Neighbours(limit, free, b, i);
    if i > 0 {
      assert free[i - 1] in free;
    }
    if i < |free| {
      assert free[i] in free;
    }
  }

  /** Where each block of the new list comes from. */
  lemma GiveBackAt(free: Spans, b: Span, i: nat, k: nat)
    requires i <= |free| && k < |GiveBack(free, b, i)|
    ensures var left := |Before(free, b, i)|; var skip := if TouchesRight(free, b, i) then i + 1 else i;
      && (k < left ==> k < |free| && GiveBack(free, b, i)[k] == free[k] == Before(free, b, i)[k])
      && (k == left ==> GiveBack(free, b, i)[k] == Merged(free, b, i))
      && (k > left ==> 0 <= skip + k - left - 1 < |free| && k - left - 1 < |Behind(free, b, i)|
                       && GiveBack(free, b, i)[k] == free[skip + k - left - 1] == Behind(free, b, i)[k - left - 1])
  {
    hide Merged;
  }

  lemma GiveBackOrdered(limit: nat, free: Spans, b: Span, i: nat)
    requires Returnable(limit, free, b, i)
    ensures Ordered(GiveBack(free, b, i)) && forall f <- GiveBack(free, b, i) :: BlockOk(limit, f)
    ensures forall f <- GiveBack(free, b, i) :: f in free || f == Merged(free, b, i)
  {
    hide Merged, GiveBack, Before, Behind, BlockOk;
    MergedOk(limit, free, b, i);
    var all, m, left := GiveBack(free, b, i), Merged(free, b, i), |Before(free, b, i)|;
    forall k | 0 <= k < |all| ensures (all[k] in free || all[k] == m) && BlockOk(limit, all[k]) {
      GiveBackAt(free, b, i, k);
    }
    forall j, k | 0 <= j < k < |all| ensures all[j].End() < all[k].start {
      GiveBackAt(free, b, i, j);
      GiveBackAt(free, b, i, k);
      if j < left {
        assert all[j] in Before(free, b, i);
      }
      if k > left {
        assert all[k] in Behind(free, b, i);
      }
      if j < left < k {
        assert all[j].End() < m.start && m.End() < all[k].start;
      }
    }
  }

  lemma KeptInGiveBack(free: Spans, b: Span, i: nat, j: nat)
    requires i <= |free| && j < |free|
    requires !(j == i - 1 && TouchesLeft(free, b, i)) && !(j == i && TouchesRight(free, b, i))
    ensures free[j] in GiveBack(free, b, i) && Merged(free, b, i) in GiveBack(free, b, i)
  {
    hide Merged;
    var all := GiveBack(free, b, i);
    var left := |Before(free, b, i)|;
    assert all[left] == Merged(free, b, i);
    var at := if j < i then j else left + 1 + j - (if TouchesRight(free, b, i) then i + 1 else i);
    assert all[at] == free[j];
  }

  lemma GiveBackCovers(limit: nat, free: Spans, used: Blocks, b: Span, i: nat, x: nat)
    requires Returnable(limit, free, b, i) && b.start in used && used[b.start] == b.size
    requires FreeCovers(free, x) || UsedCovers(used, x)
    ensures FreeCovers(GiveBack(free, b, i), x) || UsedCovers(used - {b.start}, x)
  {
    hide GiveBack, Ordered, BlockOk;
    var all, m := GiveBack(free, b, i), Merged(free, b, i);
    assert m in all by {
      MergedIn(free, b, i);
    }
    if UsedCovers(used, x) {
      var k :| k in used && k <= x < k + used[k];
      if k == b.start {
        assert m.start <= x < m.End();
      } else {
        assert k in used - {b.start} && (used - {b.start})[k] == used[k];
      }
    } else {
      var j :| 0 <= j < |free| && free[j].start <= x < free[j].End();
      if (j == i - 1 && TouchesLeft(free, b, i)) || (j == i && TouchesRight(free, b, i)) {
        assert m.start <= x < m.End();
      } else {
        KeptInGiveBack(free, b, i, j);
      }
    }
  }

  lemma MergedIn(free: Spans, b: Span, i: nat)
    requires i <= |free|
    ensures Merged(free, b, i) in GiveBack(free, b, i)
  {
    hide Merged;
    assert GiveBack(free, b, i)[|Before(free, b, i)|] == Merged(free, b, i);
  }

  /** A block apart from a span and from the neighbours it touches is apart from their union. */
  lemma MergedApart(limit: nat, free: Spans, b: Span, i: nat, other: Span)
    requires Returnable(limit, free, b, i) && other.size > 0
    requires Apart(b, other) && forall f <- free :: Apart(f, other)
    ensures Apart(Merged(free, b, i), other)
  {
    if i > 0 {
      assert Apart(free[i - 1], other) by { assert free[i - 1] in free; }
    }
    if i < |free| {
      assert Apart(free[i], other) by { assert free[i] in free; }
    }
    Neighbours(limit, free, b, i);
  }

  /** Giving an allocated block back leaves the region tiled. */
  lemma GiveBackKeeps(limit: nat, free: Spans, used: Blocks, h: nat, i: nat)
    requires Tiled(limit, free, used) && h in used && Place(free, Span(h, used[h]), i)
    ensures Tiled(limit, GiveBack(free, Span(h, used[h]), i), used - {h})
  {
    hide FreeCovers, UsedCovers, GiveBack, Ordered, Merged;
    var b := Span(h, used[h]);
    var all, used' := GiveBack(free, b, i), used - {h};
    assert Returnable(limit, free, b, i);
    GiveBackOrdered(limit, free, b, i);
    forall k <- used' ensures Apart(Merged(free, b, i), Span(k, used[k])) {
      assert BlockOk(limit, Span(k, used[k])) && Apart(b, Span(k, used[k]));
      MergedApart(limit, free, b, i, Span(k, used[k]));
    }
    forall x: nat | x < limit ensures FreeCovers(all, x) || UsedCovers(used', x) {
      GiveBackCovers(limit, free, used, b, i, x);
    }
  }

  /** Free blocks do not touch: the byte behind the first one is not free. */
  lemma GapBehindFirst(free: Spans)
    requires Ordered(free) && free != []
    ensures !FreeCovers(free, free[0].End())
  {
  }

  /** When nothing is allocated, there is a single free block: the whole region. */
  lemma AllFree(limit: nat, free: Spans)
    requires Tiled(limit, free, map[]) && limit > 0
    ensures free == [Span(0, limit)]
  {
    assert FreeCovers(free, 0);
    var j :| 0 <= j < |free| && free[j].start <= 0 < free[j].End();
    assert j == 0;
    GapBehindFirst(free);
    assert !UsedCovers(map[], free[0].End());
    var last := |free| - 1;
    assert free[0] in free && free[last] in free;
    assert BlockOk(limit, free[0]) && BlockOk(limit, free[last]);
    assert free[0].End() == limit;
    assert last == 0;
  }
}
