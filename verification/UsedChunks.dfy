/**
 From a used-block map to chunk reads: rounding extents outward to chunks,
 merging them, and iterating the chunks they cover.
 */
module UsedChunks {
  import opened Wrappers
  import opened Arithmetic
  import Sorting

  /** An inclusive byte range. */
  datatype Region = Region(first: nat, last: nat)

  /** A planned read: chunk number, byte offset and byte count. */
  datatype ChunkPlan = ChunkPlan(index: nat, offset: nat, len: nat)

  const U32_MAX: nat := 0xFFFF_FFFF

  // ---------------------------------------------------------------- rounding

  /** An extent rounded outward to chunks and clamped to the device. */
  function Rounded(e: Region, chunkSize: nat, deviceSize: nat): (r: (int, int))
    requires chunkSize > 0
  {
    (e.first / chunkSize * chunkSize,
     Min(e.last / chunkSize * chunkSize + chunkSize - 1, Max(deviceSize - 1, 0)))
  }

  function RoundAll(extents: seq<Region>, chunkSize: nat, deviceSize: nat): seq<Region>
    requires chunkSize > 0
  {
    if extents == [] then []
    else
      var front := RoundAll(extents[..|extents| - 1], chunkSize, deviceSize);
      var r := Rounded(extents[|extents| - 1], chunkSize, deviceSize);
      if r.0 <= r.1 then front + [Region(r.0, r.1)] else front
  }

  function First(r: Region): int {
    r.first
  }

  /** Append a range, or let the last one absorb it when they touch. */
  function Absorb(merged: seq<Region>, r: Region): seq<Region> {
    if merged != [] && r.first <= merged[|merged| - 1].last + 1 then
      merged[..|merged| - 1] + [Region(merged[|merged| - 1].first, Max(merged[|merged| - 1].last, r.last))]
    else merged + [r]
  }

  function AbsorbAll(sorted: seq<Region>): seq<Region> {
    if sorted == [] then [] else Absorb(AbsorbAll(sorted[..|sorted| - 1]), sorted[|sorted| - 1])
  }

  /** Sort ranges and merge those that overlap or touch. */
  method Merge(ranges: seq<Region>) returns (merged: seq<Region>)
    ensures merged == AbsorbAll(Sorting.SortBy(First, ranges))
  {
    var sorted := Sorting.SortBy(First, ranges);
    merged := [];
    for i := 0 to |sorted|
      invariant merged == AbsorbAll(sorted[..i])
    {
      assert sorted[..i + 1][..i] == sorted[..i];
      merged := Absorb(merged, sorted[i]);
    }
    assert sorted[..|sorted|] == sorted;
  }

  /** The regions a plan reads for a used-block map. */
  function ChunkAligned(extents: seq<Region>, chunkSize: nat, deviceSize: nat): seq<Region> {
    if chunkSize == 0 then extents
    else AbsorbAll(Sorting.SortBy(First, RoundAll(extents, chunkSize, deviceSize)))
  }

  /** Byte `b` lies in one of the ranges. */
  ghost predicate Covers(rs: seq<Region>, b: nat) {
    exists k :: 0 <= k < |rs| && rs[k].first <= b <= rs[k].last
  }

  /** A region starts at a chunk boundary and ends at a chunk end or the device end. */
  ghost predicate Aligned(r: Region, chunkSize: nat, deviceSize: nat)
    requires chunkSize > 0
  {
    && r.first <= r.last < deviceSize
    && r.first % chunkSize == 0
    && ((r.last + 1) % chunkSize == 0 || r.last + 1 == deviceSize)
  }

  /** What the chunk iteration relies on: aligned regions, in order and apart. */
  ghost predicate Planned(rs: seq<Region>, chunkSize: nat, deviceSize: nat)
    requires chunkSize > 0
  {
    && (forall k :: 0 <= k < |rs| ==> Aligned(rs[k], chunkSize, deviceSize))
    && forall j, k :: 0 <= j < k < |rs| ==> rs[j].last < rs[k].first
  }

  /** No region reaches past the last byte of the device, or past byte 0 of an empty one. */
  ghost predicate Bounded(rs: seq<Region>, deviceSize: nat) {
    forall k :: 0 <= k < |rs| ==> rs[k].last <= Max(deviceSize - 1, 0)
  }

  /** Nonempty ranges with a gap of at least one byte between neighbours. */
  ghost predicate Apart(rs: seq<Region>) {
    && (forall k :: 0 <= k < |rs| ==> rs[k].first <= rs[k].last)
    && forall j, k :: 0 <= j < k < |rs| ==> rs[j].last + 1 < rs[k].first
  }

  lemma AbsorbCovers(merged: seq<Region>, r: Region, b: nat)
    requires Apart(merged) && r.first <= r.last
    requires merged != [] ==> merged[|merged| - 1].first <= r.first
    ensures Apart(Absorb(merged, r))
    ensures Absorb(merged, r)[|Absorb(merged, r)| - 1].first <= r.first
    ensures Covers(Absorb(merged, r), b) <==> Covers(merged, b) || r.first <= b <= r.last
  {
    var n := |merged| - 1;
    var out := Absorb(merged, r);
    if merged != [] && r.first <= merged[n].last + 1 {
      if Covers(merged, b) {
        var k :| 0 <= k < |merged| && merged[k].first <= b <= merged[k].last;
        assert k < n ==> out[k] == merged[k];
        assert out[k].first <= b <= out[k].last;
      }
      if r.first <= b <= r.last { assert out[n].first <= b <= out[n].last; }
    } else {
      if Covers(merged, b) {
        var k :| 0 <= k < |merged| && merged[k].first <= b <= merged[k].last;
        assert out[k] == merged[k];
      }
      if r.first <= b <= r.last { assert out[|merged|] == r; }
    }
  }

  /** Merging sorted ranges covers the same bytes with ranges that keep apart. */
  lemma {:induction false} AbsorbAllCovers(sorted: seq<Region>, b: nat)
    requires Sorting.SortedBy(First, sorted)
    requires forall k :: 0 <= k < |sorted| ==> sorted[k].first <= sorted[k].last
    ensures Apart(AbsorbAll(sorted))
    ensures AbsorbAll(sorted) == [] <==> sorted == []
    ensures sorted == [] || AbsorbAll(sorted)[|AbsorbAll(sorted)| - 1].first <= First(sorted[|sorted| - 1])
    ensures Covers(AbsorbAll(sorted), b) <==> Covers(sorted, b)
  {
    if sorted != [] {
      var n := |sorted| - 1;
      var front := sorted[..n];
      AbsorbAllCovers(front, b);
      if front != [] {
        assert First(front[n - 1]) <= First(sorted[n]);
      }
      AbsorbCovers(AbsorbAll(front), sorted[n], b);
      CoversLast(sorted, b);
    }
  }

  lemma CoversLast(rs: seq<Region>, b: nat)
    requires rs != []
    ensures Covers(rs, b) <==> Covers(rs[..|rs| - 1], b) || rs[|rs| - 1].first <= b <= rs[|rs| - 1].last
  {
    var front := rs[..|rs| - 1];
    if Covers(front, b) {
      var k :| 0 <= k < |front| && front[k].first <= b <= front[k].last;
      assert rs[k] == front[k];
    }
    if Covers(rs, b) {
      var k :| 0 <= k < |rs| && rs[k].first <= b <= rs[k].last;
      assert k < |front| ==> front[k] == rs[k];
    }
  }

  /** Merging aligned ranges keeps them aligned. */
  lemma {:induction false} AbsorbAllAligned(sorted: seq<Region>, chunkSize: nat, deviceSize: nat)
    requires chunkSize > 0
    requires forall k :: 0 <= k < |sorted| ==> Aligned(sorted[k], chunkSize, deviceSize)
    ensures forall k :: 0 <= k < |AbsorbAll(sorted)| ==> Aligned(AbsorbAll(sorted)[k], chunkSize, deviceSize)
  {
    if sorted != [] {
      AbsorbAllAligned(sorted[..|sorted| - 1], chunkSize, deviceSize);
    }
  }

  lemma {:induction false} AbsorbAllBounded(sorted: seq<Region>, deviceSize: nat)
    requires Bounded(sorted, deviceSize)
    ensures Bounded(AbsorbAll(sorted), deviceSize)
  {
    if sorted != [] {
      AbsorbAllBounded(sorted[..|sorted| - 1], deviceSize);
    }
  }

  /** Rounding stays on the device, whatever the map and the size. */
  lemma ChunkAlignedBounded(extents: seq<Region>, chunkSize: nat, deviceSize: nat)
    requires chunkSize > 0
    ensures Bounded(ChunkAligned(extents, chunkSize, deviceSize), deviceSize)
  {
    var sorted := SortedRoundings(extents, chunkSize, deviceSize);
    AbsorbAllBounded(sorted, deviceSize);
  }

  lemma RoundedAligned(e: Region, chunkSize: nat, deviceSize: nat)
    requires chunkSize > 0 && deviceSize > 0 && e.first <= e.last
    ensures var r := Rounded(e, chunkSize, deviceSize);
            r.0 <= r.1 ==> Aligned(Region(r.0, r.1), chunkSize, deviceSize)
  {
    var q := e.last / chunkSize;
    assert (q * chunkSize + chunkSize - 1 + 1) % chunkSize == 0 by {
      assert q * chunkSize + chunkSize == (q + 1) * chunkSize;
      MultipleMod(q + 1, chunkSize);
    }
    MultipleMod(e.first / chunkSize, chunkSize);
  }

  lemma {:induction false} RoundAllMembers(extents: seq<Region>, chunkSize: nat, deviceSize: nat)
    requires chunkSize > 0
    ensures forall e :: e in extents && Rounded(e, chunkSize, deviceSize).0 <= Rounded(e, chunkSize, deviceSize).1 ==>
                          Region(Rounded(e, chunkSize, deviceSize).0, Rounded(e, chunkSize, deviceSize).1)
                          in RoundAll(extents, chunkSize, deviceSize)
    ensures forall r :: r in RoundAll(extents, chunkSize, deviceSize) ==>
                          exists e :: e in extents && Rounded(e, chunkSize, deviceSize) == (r.first, r.last)
                                      && r.first <= r.last
  {
    if extents != [] {
      var n := |extents| - 1;
      RoundAllMembers(extents[..n], chunkSize, deviceSize);
      assert extents == extents[..n] + [extents[n]];
    }
  }

  /** The covered bytes of a plan: those of every chunk that an extent touches, up to the device end. */
  ghost predicate Touched(extents: seq<Region>, chunkSize: nat, b: nat)
    requires chunkSize > 0
  {
    exists e :: e in extents && e.first / chunkSize <= b / chunkSize <= e.last / chunkSize
  }

  lemma RoundedCovers(e: Region, chunkSize: nat, deviceSize: nat, b: nat)
    requires chunkSize > 0 && e.first <= e.last
    ensures var r := Rounded(e, chunkSize, deviceSize);
            r.0 <= b <= r.1 <==> b < Max(deviceSize, 1) && e.first / chunkSize <= b / chunkSize <= e.last / chunkSize
  {
    var c, x, y, z := chunkSize, e.first / chunkSize, b / chunkSize, e.last / chunkSize;
    assert b == y * c + b % c;
    assert (y + 1) * c == y * c + c && (z + 1) * c == z * c + c;
    if x <= y { MulMonotone(x, y, c); } else { MulMonotone(y + 1, x, c); }
    if y <= z { MulMonotone(y, z, c); } else { MulMonotone(z + 1, y, c); }
  }

  /** The sorted rounded ranges are exactly the nonempty roundings of the extents. */
  lemma SortedRoundings(extents: seq<Region>, chunkSize: nat, deviceSize: nat) returns (sorted: seq<Region>)
    requires chunkSize > 0
    ensures sorted == Sorting.SortBy(First, RoundAll(extents, chunkSize, deviceSize))
    ensures Sorting.SortedBy(First, sorted)
    ensures forall k :: 0 <= k < |sorted| ==>
              sorted[k].first <= sorted[k].last && IsRounding(extents, sorted[k], chunkSize, deviceSize)
    ensures forall e :: e in extents && Rounded(e, chunkSize, deviceSize).0 <= Rounded(e, chunkSize, deviceSize).1 ==>
                          Region(Rounded(e, chunkSize, deviceSize).0, Rounded(e, chunkSize, deviceSize).1) in sorted
  {
    var rounded := RoundAll(extents, chunkSize, deviceSize);
    sorted := Sorting.SortBy(First, rounded);
    RoundAllMembers(extents, chunkSize, deviceSize);
    Sorting.SortByCorrect(First, rounded);
    Sorting.SortByMembers(First, rounded);
    forall k | 0 <= k < |sorted|
      ensures sorted[k].first <= sorted[k].last && IsRounding(extents, sorted[k], chunkSize, deviceSize)
    {
      assert sorted[k] in rounded;
    }
  }

  ghost predicate IsRounding(extents: seq<Region>, r: Region, chunkSize: nat, deviceSize: nat)
    requires chunkSize > 0
  {
    exists e :: e in extents && Rounded(e, chunkSize, deviceSize) == (r.first, r.last)
  }

  /**
   Exactly when a used-block map rounds to regions the iteration may rely on:
   always, except that an empty device must have no extent in its first chunk.
   */
  lemma ChunkAlignedPlanned(extents: seq<Region>, chunkSize: nat, deviceSize: nat)
    requires chunkSize > 0
    requires forall e :: e in extents ==> e.first <= e.last
    ensures Planned(ChunkAligned(extents, chunkSize, deviceSize), chunkSize, deviceSize) <==>
            deviceSize > 0 || forall e :: e in extents ==> chunkSize <= e.first
  {
    var sorted := SortedRoundings(extents, chunkSize, deviceSize);
    AbsorbAllCovers(sorted, 0);
    if deviceSize > 0 {
      forall k | 0 <= k < |sorted| ensures Aligned(sorted[k], chunkSize, deviceSize) {
        var e :| e in extents && Rounded(e, chunkSize, deviceSize) == (sorted[k].first, sorted[k].last);
        RoundedAligned(e, chunkSize, deviceSize);
      }
      AbsorbAllAligned(sorted, chunkSize, deviceSize);
    } else if e :| e in extents && e.first < chunkSize {
      EmptyDeviceRounding(e, chunkSize);
      assert sorted != [];
      assert AbsorbAll(sorted)[0].last >= deviceSize;
    } else {
      if sorted != [] {
        var e :| e in extents && Rounded(e, chunkSize, deviceSize) == (sorted[0].first, sorted[0].last);
        EmptyDeviceRounding(e, chunkSize);
      }
    }
  }

  /** On an empty device the extents of the first chunk round to a range, the others to nothing. */
  lemma EmptyDeviceRounding(e: Region, chunkSize: nat)
    requires chunkSize > 0 && e.first <= e.last
    ensures Rounded(e, chunkSize, 0).0 <= Rounded(e, chunkSize, 0).1 <==> e.first < chunkSize
    ensures e.first < chunkSize ==> Rounded(e, chunkSize, 0).0 == 0
  {
    if e.first < chunkSize {
      DivUnique(e.first, chunkSize, 0, e.first);
      MulMonotone(0, e.last / chunkSize, chunkSize);
    } else {
      assert e.first == e.first / chunkSize * chunkSize + e.first % chunkSize;
      if e.first / chunkSize >= 1 { MulMonotone(1, e.first / chunkSize, chunkSize); }
    }
  }

  /**
   Rounding covers every byte of every chunk an extent touches, up to the end
   of the device, and no byte of any other chunk. An empty device counts as
   one of a single byte.
   */
  lemma ChunkAlignedCovers(extents: seq<Region>, chunkSize: nat, deviceSize: nat, b: nat)
    requires chunkSize > 0
    requires forall e :: e in extents ==> e.first <= e.last
    ensures Covers(ChunkAligned(extents, chunkSize, deviceSize), b) <==>
            b < Max(deviceSize, 1) && Touched(extents, chunkSize, b)
  {
    var sorted := SortedRoundings(extents, chunkSize, deviceSize);
    AbsorbAllCovers(sorted, b);
    if Covers(sorted, b) {
      CoveredIsTouched(extents, sorted, chunkSize, deviceSize, b);
    }
    if b < Max(deviceSize, 1) && Touched(extents, chunkSize, b) {
      var e :| e in extents && e.first / chunkSize <= b / chunkSize <= e.last / chunkSize;
      RoundedCovers(e, chunkSize, deviceSize, b);
      var r := Rounded(e, chunkSize, deviceSize);
      var k :| 0 <= k < |sorted| && sorted[k] == Region(r.0, r.1);
      assert sorted[k].first <= b <= sorted[k].last;
    }
  }

  lemma CoveredIsTouched(extents: seq<Region>, sorted: seq<Region>, chunkSize: nat, deviceSize: nat, b: nat)
    requires chunkSize > 0 && forall e :: e in extents ==> e.first <= e.last
    requires forall k :: 0 <= k < |sorted| ==> IsRounding(extents, sorted[k], chunkSize, deviceSize)
    requires Covers(sorted, b)
    ensures b < Max(deviceSize, 1) && Touched(extents, chunkSize, b)
  {
    var k :| 0 <= k < |sorted| && sorted[k].first <= b <= sorted[k].last;
    var e :| e in extents && Rounded(e, chunkSize, deviceSize) == (sorted[k].first, sorted[k].last);
    RoundedCovers(e, chunkSize, deviceSize, b);
  }

  // --------------------------------------------------------------- iteration

  /** The read of the chunk at `offset` inside a region that ends at `last`. */
  function PlanAt(offset: nat, last: nat, chunkSize: nat, deviceSize: nat): ChunkPlan
    requires chunkSize > 0 && offset <= last <= Max(deviceSize - 1, 0)
  {
    ChunkPlan(offset / chunkSize, offset, Min(Min(Min(last - offset + 1, chunkSize), deviceSize - offset), U32_MAX))
  }

  /** The plans still to come from region `region`, continuing at `next`. */
  ghost function PlansFrom(rs: seq<Region>, region: nat, next: nat, chunkSize: nat, deviceSize: nat): seq<ChunkPlan>
    requires chunkSize > 0 && Bounded(rs, deviceSize)
    decreases |rs| - region, if region < |rs| then Max(0, rs[region].last + 1 - next) else 0
  {
    if region >= |rs| then []
    else
      var offset := Max(next, rs[region].first);
      if offset > rs[region].last then PlansFrom(rs, region + 1, 0, chunkSize, deviceSize)
      else [PlanAt(offset, rs[region].last, chunkSize, deviceSize)]
           + PlansFrom(rs, region, offset + chunkSize, chunkSize, deviceSize)
  }

  /** Byte `b` is still ahead of the iteration. */
  ghost predicate Ahead(rs: seq<Region>, region: nat, next: nat, b: nat) {
    exists k :: region <= k < |rs| && rs[k].first <= b <= rs[k].last && (k == region ==> next <= b)
  }

  /** A plan reads one whole chunk of the device: its index, its start and its length belong together. */
  predicate WholeChunk(p: ChunkPlan, chunkSize: nat, deviceSize: nat) {
    p.offset == p.index * chunkSize < deviceSize && p.len == Min(Min(chunkSize, deviceSize - p.offset), U32_MAX)
  }

  lemma PlanAtWhole(offset: nat, r: Region, chunkSize: nat, deviceSize: nat)
    requires chunkSize > 0 && Aligned(r, chunkSize, deviceSize)
    requires offset % chunkSize == 0 && r.first <= offset <= r.last
    ensures WholeChunk(PlanAt(offset, r.last, chunkSize, deviceSize), chunkSize, deviceSize)
    ensures r.last + 1 == deviceSize || offset + chunkSize <= r.last + 1
  {
    assert offset == offset / chunkSize * chunkSize;
    if r.last + 1 != deviceSize {
      MultiplesApart(offset, r.last + 1, chunkSize);
    }
  }

  /** Whatever is ahead after a step was ahead before it. */
  lemma AheadBefore(rs: seq<Region>, region: nat, next: nat, chunkSize: nat, deviceSize: nat, b: nat)
    requires chunkSize > 0 && Planned(rs, chunkSize, deviceSize) && region < |rs|
    ensures Ahead(rs, region + 1, 0, b) ==> Ahead(rs, region, next, b) && rs[region].last < b
    ensures var offset := Max(next, rs[region].first);
            offset <= rs[region].last && Ahead(rs, region, offset + chunkSize, b) ==>
              Ahead(rs, region, next, b) && offset < b
  {
    if Ahead(rs, region + 1, 0, b) {
      var k :| region + 1 <= k < |rs| && rs[k].first <= b <= rs[k].last;
      assert rs[region].last < rs[k].first;
    }
    var offset := Max(next, rs[region].first);
    if offset <= rs[region].last && Ahead(rs, region, offset + chunkSize, b) {
      var k :| region <= k < |rs| && rs[k].first <= b <= rs[k].last && (k == region ==> offset + chunkSize <= b);
      if region < k { assert rs[region].last < rs[k].first; }
    }
  }

  /** All of `ps` are whole chunks that are still ahead. */
  ghost predicate AllAhead(ps: seq<ChunkPlan>, rs: seq<Region>, region: nat, next: nat, chunkSize: nat,
                           deviceSize: nat)
  {
    forall j :: 0 <= j < |ps| ==> WholeChunk(ps[j], chunkSize, deviceSize) && Ahead(rs, region, next, ps[j].offset)
  }

  ghost predicate Ascending(ps: seq<ChunkPlan>) {
    forall i, j :: 0 <= i < j < |ps| ==> ps[i].index < ps[j].index
  }

  lemma AllAheadSkip(ps: seq<ChunkPlan>, rs: seq<Region>, region: nat, next: nat, chunkSize: nat, deviceSize: nat)
    requires chunkSize > 0 && Planned(rs, chunkSize, deviceSize) && region < |rs|
    requires AllAhead(ps, rs, region + 1, 0, chunkSize, deviceSize)
    ensures AllAhead(ps, rs, region, next, chunkSize, deviceSize)
  {
    forall j | 0 <= j < |ps| ensures Ahead(rs, region, next, ps[j].offset) {
      AheadBefore(rs, region, next, chunkSize, deviceSize, ps[j].offset);
    }
  }

  lemma AllAheadTake(ps: seq<ChunkPlan>, rs: seq<Region>, region: nat, next: nat, chunkSize: nat, deviceSize: nat)
    requires chunkSize > 0 && Planned(rs, chunkSize, deviceSize) && region < |rs| && next % chunkSize == 0
    requires Max(next, rs[region].first) <= rs[region].last
    requires AllAhead(ps, rs, region, Max(next, rs[region].first) + chunkSize, chunkSize, deviceSize)
    requires Ascending(ps)
    ensures var all := [PlanAt(Max(next, rs[region].first), rs[region].last, chunkSize, deviceSize)] + ps;
            AllAhead(all, rs, region, next, chunkSize, deviceSize) && Ascending(all)
  {
    var offset := Max(next, rs[region].first);
    var plan := PlanAt(offset, rs[region].last, chunkSize, deviceSize);
    PlanAtWhole(offset, rs[region], chunkSize, deviceSize);
    forall j | 0 <= j < |ps| ensures Ahead(rs, region, next, ps[j].offset) && plan.index < ps[j].index {
      AheadBefore(rs, region, next, chunkSize, deviceSize, ps[j].offset);
      IndexFollowsOffset(plan, ps[j], chunkSize, deviceSize);
    }
  }

  /** The iteration yields whole chunks, all still ahead, by strictly ascending index. */
  lemma {:induction false} PlansAscend(rs: seq<Region>, region: nat, next: nat, chunkSize: nat, deviceSize: nat)
    requires chunkSize > 0 && Planned(rs, chunkSize, deviceSize) && next % chunkSize == 0
    ensures AllAhead(PlansFrom(rs, region, next, chunkSize, deviceSize), rs, region, next, chunkSize, deviceSize)
    ensures Ascending(PlansFrom(rs, region, next, chunkSize, deviceSize))
    decreases |rs| - region, if region < |rs| then Max(0, rs[region].last + 1 - next) else 0
  {
    if region < |rs| {
      var offset := Max(next, rs[region].first);
      if offset > rs[region].last {
        PlansAscend(rs, region + 1, 0, chunkSize, deviceSize);
        AllAheadSkip(PlansFrom(rs, region + 1, 0, chunkSize, deviceSize), rs, region, next, chunkSize, deviceSize);
      } else {
        ModShift(offset, chunkSize);
        PlansAscend(rs, region, offset + chunkSize, chunkSize, deviceSize);
        AllAheadTake(PlansFrom(rs, region, offset + chunkSize, chunkSize, deviceSize), rs, region, next, chunkSize,
                     deviceSize);
      }
    }
  }

  lemma IndexFollowsOffset(p: ChunkPlan, q: ChunkPlan, chunkSize: nat, deviceSize: nat)
    requires WholeChunk(p, chunkSize, deviceSize) && WholeChunk(q, chunkSize, deviceSize) && p.offset < q.offset
    ensures p.index < q.index
  {
    if q.index <= p.index { MulMonotone(q.index, p.index, chunkSize); }
  }

  /** Every chunk whose start is still ahead is yielded. */
  lemma {:induction false} PlansReach(rs: seq<Region>, region: nat, next: nat, chunkSize: nat, deviceSize: nat, i: nat)
    returns (j: nat)
    requires chunkSize > 0 && Planned(rs, chunkSize, deviceSize) && next % chunkSize == 0
    requires Ahead(rs, region, next, i * chunkSize)
    ensures var ps := PlansFrom(rs, region, next, chunkSize, deviceSize);
            j < |ps| && ps[j].index == i
    decreases |rs| - region, if region < |rs| then Max(0, rs[region].last + 1 - next) else 0
  {
    var b := i * chunkSize;
    var k :| region <= k < |rs| && rs[k].first <= b <= rs[k].last && (k == region ==> next <= b);
    var offset := Max(next, rs[region].first);
    MultipleMod(i, chunkSize);
    if offset > rs[region].last {
      assert k > region;
      j := PlansReach(rs, region + 1, 0, chunkSize, deviceSize, i);
    } else if offset == b {
      j := 0;
    } else {
      assert offset < b by { if k > region { assert rs[region].last < rs[k].first; } }
      MultiplesApart(offset, b, chunkSize);
      ModShift(offset, chunkSize);
      j := PlansReach(rs, region, offset + chunkSize, chunkSize, deviceSize, i);
      j := j + 1;
    }
  }

  /**
   The whole plan: whole chunks of the device in strictly ascending order, one
   for every chunk the regions touch and none for any other.
   */
  lemma PlansExact(rs: seq<Region>, chunkSize: nat, deviceSize: nat)
    requires chunkSize > 0 && Planned(rs, chunkSize, deviceSize)
    ensures var ps := PlansFrom(rs, 0, 0, chunkSize, deviceSize);
            && (forall j :: 0 <= j < |ps| ==>
                  WholeChunk(ps[j], chunkSize, deviceSize) && ps[j].index < DivCeil(deviceSize, chunkSize))
            && Ascending(ps)
            && (forall i: nat :: (exists j :: 0 <= j < |ps| && ps[j].index == i) <==> Covers(rs, i * chunkSize))
  {
    var ps := PlansFrom(rs, 0, 0, chunkSize, deviceSize);
    PlansAscend(rs, 0, 0, chunkSize, deviceSize);
    forall j | 0 <= j < |ps|
      ensures ps[j].index < DivCeil(deviceSize, chunkSize) && Covers(rs, ps[j].index * chunkSize)
    {
      BelowCount(ps[j].index, chunkSize, deviceSize);
      AheadCovers(rs, ps[j].offset);
    }
    forall i: nat | Covers(rs, i * chunkSize) ensures exists j :: 0 <= j < |ps| && ps[j].index == i {
      AheadCovers(rs, i * chunkSize);
      var j := PlansReach(rs, 0, 0, chunkSize, deviceSize, i);
    }
  }

  lemma AheadCovers(rs: seq<Region>, b: nat)
    ensures Ahead(rs, 0, 0, b) <==> Covers(rs, b)
  {
    if k :| 0 <= k < |rs| && rs[k].first <= b <= rs[k].last { }
  }

  lemma BelowCount(i: nat, chunkSize: nat, deviceSize: nat)
    requires chunkSize > 0
    ensures i * chunkSize < deviceSize <==> i < DivCeil(deviceSize, chunkSize)
  {
    var d := deviceSize + chunkSize - 1;
    var q := d / chunkSize;
    assert d == q * chunkSize + d % chunkSize;
    assert (i + 1) * chunkSize == i * chunkSize + chunkSize && (q + 1) * chunkSize == q * chunkSize + chunkSize;
    if i < q { MulMonotone(i + 1, q, chunkSize); } else { MulMonotone(q, i, chunkSize); }
  }

  /** The chunks the regions from `k` on hold, region by region. */
  function PlannedChunks(rs: seq<Region>, k: nat, chunkSize: nat): nat
    requires chunkSize > 0
    decreases |rs| - k
  {
    if k >= |rs| then 0
    else (if rs[k].first <= rs[k].last + 1 then DivCeil(rs[k].last - rs[k].first + 1, chunkSize) else 0)
         + PlannedChunks(rs, k + 1, chunkSize)
  }

  /** The bytes the regions from `k` on hold. */
  function PlannedBytes(rs: seq<Region>, k: nat): int
    decreases |rs| - k
  {
    if k >= |rs| then 0 else rs[k].last - rs[k].first + 1 + PlannedBytes(rs, k + 1)
  }

  ghost function TotalLen(ps: seq<ChunkPlan>): nat {
    if ps == [] then 0 else ps[0].len + TotalLen(ps[1..])
  }

  lemma DivCeilStep(n: nat, d: nat)
    requires d > 0 && n > 0
    ensures DivCeil(n, d) == 1 + if n > d then DivCeil(n - d, d) else 0
  {
    if n > d { ModShift(n - d + d - 1, d); } else { DivUnique(n + d - 1, d, 1, n - 1); }
  }

  lemma {:induction false} PlansCount(rs: seq<Region>, region: nat, next: nat, chunkSize: nat, deviceSize: nat)
    requires 0 < chunkSize && Planned(rs, chunkSize, deviceSize) && next % chunkSize == 0
    ensures var ps := PlansFrom(rs, region, next, chunkSize, deviceSize);
            var left := if region < |rs| then Max(0, rs[region].last + 1 - Max(next, rs[region].first)) else 0;
            && |ps| == DivCeil(left, chunkSize) + PlannedChunks(rs, region + 1, chunkSize)
            && (chunkSize <= U32_MAX ==> TotalLen(ps) == left + PlannedBytes(rs, region + 1))
    decreases |rs| - region, if region < |rs| then Max(0, rs[region].last + 1 - next) else 0
  {
    DivUnique(chunkSize - 1, chunkSize, 0, chunkSize - 1);
    if region < |rs| {
      var offset := Max(next, rs[region].first);
      if offset > rs[region].last {
        PlansCount(rs, region + 1, 0, chunkSize, deviceSize);
      } else {
        ModShift(offset, chunkSize);
        PlansCount(rs, region, offset + chunkSize, chunkSize, deviceSize);
        PlanAtWhole(offset, rs[region], chunkSize, deviceSize);
        DivCeilStep(rs[region].last + 1 - offset, chunkSize);
      }
    }
  }

  /** The plan has as many chunks, and reads as many bytes, as announced beforehand. */
  lemma PlansAccounted(rs: seq<Region>, chunkSize: nat, deviceSize: nat)
    requires 0 < chunkSize && Planned(rs, chunkSize, deviceSize)
    ensures |PlansFrom(rs, 0, 0, chunkSize, deviceSize)| == PlannedChunks(rs, 0, chunkSize)
    ensures chunkSize <= U32_MAX ==> TotalLen(PlansFrom(rs, 0, 0, chunkSize, deviceSize)) == PlannedBytes(rs, 0)
  {
    PlansCount(rs, 0, 0, chunkSize, deviceSize);
    DivUnique(chunkSize - 1, chunkSize, 0, chunkSize - 1);
  }

  /**
   The plan of a used-block map names only chunks of the device, except exactly
   on an empty device with an extent in the first chunk: there it names chunk 0
   of no chunks, with nothing to read.
   */
  lemma PlansOnDevice(extents: seq<Region>, chunkSize: nat, deviceSize: nat)
    requires chunkSize > 0
    requires forall e :: e in extents ==> e.first <= e.last
    ensures Bounded(ChunkAligned(extents, chunkSize, deviceSize), deviceSize)
    ensures var ps := PlansFrom(ChunkAligned(extents, chunkSize, deviceSize), 0, 0, chunkSize, deviceSize);
            && ((forall p :: p in ps ==> p.index < DivCeil(deviceSize, chunkSize)) <==>
                deviceSize > 0 || forall e :: e in extents ==> chunkSize <= e.first)
            && ((exists e :: e in extents && e.first < chunkSize) && deviceSize == 0 ==> ps == [ChunkPlan(0, 0, 0)])
  {
    var rs := ChunkAligned(extents, chunkSize, deviceSize);
    ChunkAlignedBounded(extents, chunkSize, deviceSize);
    ChunkAlignedPlanned(extents, chunkSize, deviceSize);
    if Planned(rs, chunkSize, deviceSize) {
      PlansExact(rs, chunkSize, deviceSize);
    } else {
      EmptyDeviceRegions(extents, chunkSize);
      EmptyDevicePlan(chunkSize);
      assert PlansFrom(rs, 0, 0, chunkSize, deviceSize)[0].index == 0;
      DivUnique(chunkSize - 1, chunkSize, 0, chunkSize - 1);
    }
  }

  lemma EmptyDeviceRegions(extents: seq<Region>, chunkSize: nat)
    requires chunkSize > 0 && forall e :: e in extents ==> e.first <= e.last
    requires exists e :: e in extents && e.first < chunkSize
    ensures ChunkAligned(extents, chunkSize, 0) == [Region(0, 0)]
  {
    var rs := ChunkAligned(extents, chunkSize, 0);
    var sorted := SortedRoundings(extents, chunkSize, 0);
    AbsorbAllCovers(sorted, 0);
    ChunkAlignedBounded(extents, chunkSize, 0);
    var e :| e in extents && e.first < chunkSize;
    EmptyDeviceRounding(e, chunkSize);
    assert rs[0] == Region(0, 0);
    assert |rs| == 1;
  }

  lemma EmptyDevicePlan(chunkSize: nat)
    requires chunkSize > 0
    ensures PlansFrom([Region(0, 0)], 0, 0, chunkSize, 0) == [ChunkPlan(0, 0, 0)]
  {
    DivUnique(0, chunkSize, 0, 0);
    assert PlansFrom([Region(0, 0)], 1, 0, chunkSize, 0) == [];
    assert PlansFrom([Region(0, 0)], 0, chunkSize, chunkSize, 0) == [];
  }

  /** The used chunks of a source, one after the other. */
  class UsedChunks {
    const chunkSize: nat
    const deviceSize: nat
    const regions: seq<Region>
    var region: nat
    var nextOffset: nat

    constructor (regions: seq<Region>, chunkSize: nat, deviceSize: nat)
      ensures this.regions == regions && this.chunkSize == chunkSize && this.deviceSize == deviceSize
      ensures region == 0 && nextOffset == 0
    {
      this.regions, this.chunkSize, this.deviceSize := regions, chunkSize, deviceSize;
      this.region, this.nextOffset := 0, 0;
    }

    /** Start the iteration over what a used-block map rounds to. */
    static method New(extents: seq<Region>, chunkSize: nat, deviceSize: nat) returns (r: Result<UsedChunks>)
      ensures r.Failure? <==> chunkSize == 0
      ensures r.Success? ==> fresh(r.value) && r.value.chunkSize == chunkSize && r.value.deviceSize == deviceSize
      ensures r.Success? ==> r.value.regions == ChunkAligned(extents, chunkSize, deviceSize)
      ensures r.Success? ==>
                && r.value.Valid()
                && r.value.Remaining() ==
                   PlansFrom(ChunkAligned(extents, chunkSize, deviceSize), 0, 0, chunkSize, deviceSize)
    {
      if chunkSize == 0 {
        return Failure(Unsupported);
      }
      var regions := Merge(RoundAll(extents, chunkSize, deviceSize));
      ChunkAlignedBounded(extents, chunkSize, deviceSize);
      var plan := new UsedChunks(regions, chunkSize, deviceSize);
      return Success(plan);
    }

    ghost predicate Valid() {
      chunkSize > 0 && Bounded(regions, deviceSize)
    }

    /** What the iteration has yet to yield. */
    ghost function Remaining(): seq<ChunkPlan>
      requires Valid()
      reads this
    {
      PlansFrom(regions, region, nextOffset, chunkSize, deviceSize)
    }

    /** Step to the chunk after the last one yielded, moving on to the next region as needed. */
    method NextChunk() returns (r: Option<ChunkPlan>)
      requires Valid()
      modifies this
      ensures r == (if old(Remaining()) == [] then None else Some(old(Remaining())[0]))
      ensures Remaining() == if old(Remaining()) == [] then [] else old(Remaining())[1..]
    {
      while region < |regions|
        invariant Remaining() == old(Remaining())
        decreases |regions| - region
      {
        var first, last := regions[region].first, regions[region].last;
        var offset := Max(nextOffset, first);
        if offset > last {
          region := region + 1;
          nextOffset := 0;
          continue;
        }
        var plan := PlanAt(offset, last, chunkSize, deviceSize);
        nextOffset := offset + chunkSize;
        return Some(plan);
      }
      return None;
    }
  }
}
