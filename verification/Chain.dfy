/**
 Opening a chain and streaming its merged chunk state with one cursor per
 member, and the exact set of chains that such a walk accepts.
 */
module Chain {
  import opened Wrappers
  import opened Manifest
  import opened Superblocks
  import Sorting

  /** One opened member: its superblock, its manifest stream, and its chunk records by file offset. */
  datatype Member = Member(superblock: Superblock, manifest: Manifest, records: map<nat, Bytes>)

  /** One call of the visitor. */
  datatype Visit = Visit(index: nat, state: ChunkState)

  function Manifests(members: seq<Member>): (ms: seq<Manifest>)
    ensures |ms| == |members| && forall k :: 0 <= k < |ms| ==> ms[k] == members[k].manifest
  {
    seq(|members|, k requires 0 <= k < |members| => members[k].manifest)
  }

  /** Reads one manifest front to back, holding back at most one delta entry. */
  class Cursor {
    const manifest: Manifest
    const isFull: bool
    var position: nat
    var remaining: nat
    var pending: Option<DeltaEntry>

    constructor (manifest: Manifest)
      ensures this.manifest == manifest && isFull == manifest.FullManifest?
      ensures position == 0 && remaining == manifest.entryCount && pending == None
    {
      this.manifest := manifest;
      this.isFull := manifest.FullManifest?;
      this.position := 0;
      this.remaining := manifest.entryCount;
      this.pending := None;
    }

    /** Entries that no longer wait for their chunk. */
    ghost function Consumed(): int
      reads this
    {
      position - if pending.Some? then 1 else 0
    }

    /** Chunks below `index` have been asked for, and nothing else. */
    ghost predicate Ready(index: nat)
      reads this
    {
      && isFull == manifest.FullManifest?
      && position + remaining == manifest.entryCount
      && match manifest
         case FullManifest(_, _, _, entries) => pending == None && position == index <= |entries|
         case DeltaManifest(_, _, _, deltas) =>
           && position <= |deltas|
           && (pending.Some? ==> position > 0 && pending.value == deltas[position - 1])
           && (pending.None? ==> remaining == 0)
           && Ascending(deltas[..Consumed()])
           && (forall j :: 0 <= j < Consumed() ==> deltas[j].chunkNo < index)
           && (pending.Some? && pending.value.chunkNo < index ==>
                 Consumed() > 0 && pending.value.chunkNo <= deltas[Consumed() - 1].chunkNo)
    }

    /** Whether the final checks of a walk find nothing left over. */
    predicate Drained()
      reads this
    {
      pending.None? && remaining == 0
    }

    /** The next delta entry, or nothing once the declared count is used up. */
    method ReadDelta() returns (r: Result<Option<DeltaEntry>>)
      requires manifest.DeltaManifest?
      requires position + remaining == manifest.entryCount
      modifies this`position, this`remaining
      ensures position + remaining == manifest.entryCount
      ensures old(remaining) == 0 ==> r == Success(None) && unchanged(this)
      ensures old(remaining) > 0 && old(position) < |manifest.deltas| ==>
                r == Success(Some(manifest.deltas[old(position)])) && position == old(position) + 1
      ensures old(remaining) > 0 && old(position) >= |manifest.deltas| ==> r == Failure(Corrupt)
    {
      if remaining == 0 {
        return Success(None);
      }
      if position >= |manifest.deltas| {
        return Failure(Corrupt);
      }
      var entry := manifest.deltas[position];
      position := position + 1;
      remaining := remaining - 1;
      return Success(Some(entry));
    }

    /** Start reading; `delta` is what the superblock says about the manifest. */
    static method Open(manifest: Manifest, delta: bool) returns (r: Result<Cursor>)
      ensures r.Success? ==> fresh(r.value) && r.value.manifest == manifest && r.value.Ready(0)
      ensures r.Success? ==> delta == manifest.DeltaManifest?
      ensures r.Failure? ==> delta != manifest.DeltaManifest? || forall n: nat :: !Accepted(manifest, n)
    {
      if manifest.DeltaManifest? != delta {
        return Failure(Corrupt);
      }
      var cursor := new Cursor(manifest);
      if delta {
        var first :- cursor.ReadDelta();
        cursor.pending := first;
      }
      return Success(cursor);
    }

    /** Lay this member's entry for `index`, if it has one, over the state its ancestors gave. */
    method StateAt(index: nat, current: ChunkState, ghost count: nat) returns (r: Result<ChunkState>)
      requires Ready(index) && index < count
      modifies this
      ensures r.Success? ==> Ready(index + 1)
      ensures r.Success? && Accepted(manifest, count) ==> r.value == Overlay(manifest, index, current)
      ensures r.Failure? ==> !Accepted(manifest, count)
    {
      if isFull {
        if remaining == 0 || position >= |manifest.entries| {
          return Failure(Corrupt);
        }
        var entry := manifest.entries[position];
        position := position + 1;
        remaining := remaining - 1;
        return Success(StateOf(entry));
      }
      if pending.None? {
        PastTheEnd(manifest, index);
        return Success(current);
      }
      r := DeltaStateAt(index, current, count);
    }

    method DeltaStateAt(index: nat, current: ChunkState, ghost count: nat) returns (r: Result<ChunkState>)
      requires Ready(index) && index < count && manifest.DeltaManifest? && pending.Some?
      modifies this
      ensures r.Success? ==> Ready(index + 1)
      ensures r.Success? && Accepted(manifest, count) ==> r.value == Overlay(manifest, index, current)
      ensures r.Failure? ==> !Accepted(manifest, count)
    {
      var entry := pending.value;
      ghost var c := Consumed();
      if entry.chunkNo < index {
        return Failure(Corrupt);
      }
      if entry.chunkNo > index {
        if Accepted(manifest, count) { NotYet(manifest.deltas[..manifest.entryCount], c, index); }
        return Success(current);
      }
      if Accepted(manifest, count) { FindDeltaAt(manifest.deltas[..manifest.entryCount], c); }
      TakeOne(manifest.deltas, c, index);
      pending := None;
      var next :- ReadDelta();
      pending := next;
      return Success(StateOf(entry.entry));
    }
  }

  /** Nothing is left that could mention `index`. */
  lemma PastTheEnd(m: Manifest, index: nat)
    requires m.DeltaManifest? && m.entryCount <= |m.deltas|
    requires forall j :: 0 <= j < m.entryCount ==> m.deltas[j].chunkNo < index
    ensures EntryAt(m, index) == None
  {
    FindDeltaNone(m.deltas[..m.entryCount], index);
  }

  /** Taking the entry of chunk `index` keeps the taken entries in order. */
  lemma TakeOne(ds: seq<DeltaEntry>, c: nat, index: nat)
    requires c < |ds| && Ascending(ds[..c]) && ds[c].chunkNo == index
    requires forall j :: 0 <= j < c ==> ds[j].chunkNo < index
    ensures Ascending(ds[..c + 1])
    ensures forall j :: 0 <= j < c + 1 ==> ds[j].chunkNo < index + 1
  {
    assert ds[..c + 1] == ds[..c] + [ds[c]];
  }

  lemma NotYet(ds: seq<DeltaEntry>, c: nat, index: nat)
    requires Ascending(ds) && c < |ds|
    requires forall j :: 0 <= j < c ==> ds[j].chunkNo < index
    requires index < ds[c].chunkNo
    ensures FindDelta(ds, index) == None
  {
    forall j | 0 <= j < |ds| ensures ds[j].chunkNo != index {
      assert c < j ==> ds[c].chunkNo < ds[j].chunkNo;
    }
    FindDeltaNone(ds, index);
  }

  /** Once every chunk was asked for, an exhausted stream is the same as an acceptable manifest. */
  lemma DrainedIffAccepted(c: Cursor, count: nat)
    requires c.Ready(count)
    ensures c.Drained() <==> Accepted(c.manifest, count)
  {
    match c.manifest
    case FullManifest(_, _, _, _) =>
    case DeltaManifest(_, _, n, deltas) =>
      if c.Drained() {
        assert deltas[..n] == deltas[..c.Consumed()];
      }
  }

  function CursorManifests(cursors: seq<Cursor>): (ms: seq<Manifest>)
  {
    seq(|cursors|, k requires 0 <= k < |cursors| => cursors[k].manifest)
  }

  ghost predicate AllReady(cursors: seq<Cursor>, index: nat)
    reads cursors
  {
    && (forall j, k :: 0 <= j < k < |cursors| ==> cursors[j] != cursors[k])
    && forall k :: 0 <= k < |cursors| ==> cursors[k].Ready(index)
  }

  ghost predicate AllAccepted(ms: seq<Manifest>, count: nat) {
    forall k :: 0 <= k < |ms| ==> Accepted(ms[k], count)
  }

  /** What a merged walk hands to its visitor. */
  ghost function MergedVisits(ms: seq<Manifest>, count: nat): (v: seq<Visit>)
  {
    seq(count, i requires 0 <= i < count => Visit(i, Merged(ms, i)))
  }

  /** The position of a member as a 16-bit index; larger positions saturate. */
  function Saturate16(position: nat): nat {
    if position <= 0xFFFF then position else 0xFFFF
  }

  /** Whether the entry of `m` for chunk `i` is a payload that the member at `position` stores itself. */
  ghost predicate IsOwn(m: Manifest, position: nat, i: nat) {
    var state := Overlay(m, i, Unused);
    state.Stored? && state.member == position
  }

  /** The own payloads of one manifest among its first `count` chunks, in order. */
  ghost function OwnVisitsOf(m: Manifest, position: nat, count: nat): seq<Visit> {
    if count == 0 then []
    else OwnVisitsOf(m, position, count - 1)
         + if IsOwn(m, position, count - 1) then [Visit(count - 1, Overlay(m, count - 1, Unused))] else []
  }

  /** What an own-payload walk hands to its visitor: member by member, chunk by chunk. */
  ghost function OwnVisits(ms: seq<Manifest>, count: nat): seq<Visit> {
    if ms == [] then []
    else OwnVisits(ms[..|ms| - 1], count) + OwnVisitsOf(ms[|ms| - 1], |ms| - 1, count)
  }

  lemma MergedStep(ms: seq<Manifest>, p: nat, i: nat)
    requires p < |ms|
    ensures Merged(ms[..p + 1], i) == Overlay(ms[p], i, Merged(ms[..p], i))
  {
    assert ms[..p + 1][..p] == ms[..p];
  }

  lemma MergedVisitsStep(ms: seq<Manifest>, index: nat)
    ensures MergedVisits(ms, index + 1) == MergedVisits(ms, index) + [Visit(index, Merged(ms, index))]
  {
  }

  lemma OwnVisitsStep(ms: seq<Manifest>, p: nat, count: nat)
    requires p < |ms|
    ensures OwnVisits(ms[..p + 1], count) == OwnVisits(ms[..p], count) + OwnVisitsOf(ms[p], p, count)
  {
    assert ms[..p + 1][..p] == ms[..p];
  }

  /** The first `p` cursors have been asked for the chunks below `done`, the others for those below `todo`. */
  ghost predicate PartlyReady(cursors: seq<Cursor>, p: nat, done: nat, todo: nat)
    reads cursors
  {
    forall k :: 0 <= k < |cursors| ==> cursors[k].Ready(if k < p then done else todo)
  }

  /** Ask every cursor, from the full upward, for chunk `index`. */
  method MergeAt(cursors: seq<Cursor>, index: nat, ghost count: nat) returns (r: Result<ChunkState>)
    requires AllReady(cursors, index) && index < count
    modifies cursors
    ensures r.Success? ==> AllReady(cursors, index + 1)
    ensures r.Success? && AllAccepted(CursorManifests(cursors), count) ==>
              r.value == Merged(CursorManifests(cursors), index)
    ensures r.Failure? ==> !AllAccepted(CursorManifests(cursors), count)
  {
    ghost var ms := CursorManifests(cursors);
    ghost var accepted := AllAccepted(ms, count);
    var state := Unused;
    for p := 0 to |cursors|
      invariant PartlyReady(cursors, p, index + 1, index)
      invariant accepted ==> state == Merged(ms[..p], index)
    {
      MergedStep(ms, p, index);
      state :- cursors[p].StateAt(index, state, count);
    }
    assert ms[..|cursors|] == ms;
    return Success(state);
  }

  method MergedPass(cursors: seq<Cursor>, count: nat) returns (r: Result<seq<Visit>>)
    requires AllReady(cursors, 0)
    modifies cursors
    ensures r.Success? ==> AllReady(cursors, count)
    ensures r.Success? && AllAccepted(CursorManifests(cursors), count) ==>
              r.value == MergedVisits(CursorManifests(cursors), count)
    ensures r.Failure? ==> !AllAccepted(CursorManifests(cursors), count)
  {
    ghost var ms := CursorManifests(cursors);
    var visits: seq<Visit> := [];
    for index := 0 to count
      invariant AllReady(cursors, index)
      invariant AllAccepted(ms, count) ==> visits == MergedVisits(ms, index)
    {
      var state :- MergeAt(cursors, index, count);
      MergedVisitsStep(ms, index);
      visits := visits + [Visit(index, state)];
    }
    return Success(visits);
  }

  lemma OwnVisitsOfStep(m: Manifest, position: nat, index: nat)
    ensures OwnVisitsOf(m, position, index + 1) ==
            OwnVisitsOf(m, position, index)
            + if IsOwn(m, position, index) then [Visit(index, Overlay(m, index, Unused))] else []
  {
  }

  /** Read one cursor to the end and keep the payloads its own member stored. */
  method OwnPassOf(cursor: Cursor, position: nat, count: nat) returns (r: Result<seq<Visit>>)
    requires cursor.Ready(0)
    modifies cursor
    ensures r.Success? ==> cursor.Ready(count)
    ensures r.Success? && Accepted(cursor.manifest, count) ==> r.value == OwnVisitsOf(cursor.manifest, position, count)
    ensures r.Failure? ==> !Accepted(cursor.manifest, count)
  {
    var own := Saturate16(position);
    var visits: seq<Visit> := [];
    for index := 0 to count
      invariant cursor.Ready(index)
      invariant Accepted(cursor.manifest, count) ==> visits == OwnVisitsOf(cursor.manifest, position, index)
    {
      var state :- cursor.StateAt(index, Unused, count);
      OwnVisitsOfStep(cursor.manifest, position, index);
      if state.Stored? && state.member == own {
        visits := visits + [Visit(index, state)];
      }
    }
    return Success(visits);
  }

  /** The own payloads of one member of the chain; the other cursors stay where they were. */
  method OwnPassAt(cursors: seq<Cursor>, p: nat, count: nat) returns (r: Result<seq<Visit>>)
    requires p < |cursors| && PartlyReady(cursors, p, count, 0)
    requires forall j, k :: 0 <= j < k < |cursors| ==> cursors[j] != cursors[k]
    modifies cursors[p]
    ensures r.Success? ==> PartlyReady(cursors, p + 1, count, 0)
    ensures r.Success? && Accepted(cursors[p].manifest, count) ==> r.value == OwnVisitsOf(cursors[p].manifest, p, count)
    ensures r.Failure? ==> !Accepted(cursors[p].manifest, count)
  {
    assert cursors[p].Ready(0);
    r := OwnPassOf(cursors[p], p, count);
  }

  method OwnPass(cursors: seq<Cursor>, count: nat) returns (r: Result<seq<Visit>>)
    requires AllReady(cursors, 0)
    modifies cursors
    ensures r.Success? ==> AllReady(cursors, count)
    ensures r.Success? && AllAccepted(CursorManifests(cursors), count) ==>
              r.value == OwnVisits(CursorManifests(cursors), count)
    ensures r.Failure? ==> !AllAccepted(CursorManifests(cursors), count)
  {
    ghost var ms := CursorManifests(cursors);
    ghost var accepted := AllAccepted(ms, count);
    var visits: seq<Visit> := [];
    for p := 0 to |cursors|
      invariant PartlyReady(cursors, p, count, 0)
      invariant accepted ==> visits == OwnVisits(ms[..p], count)
    {
      assert ms[p] == cursors[p].manifest;
      var own :- OwnPassAt(cursors, p, count);
      OwnVisitsStep(ms, p, count);
      visits := visits + own;
    }
    assert ms[..|cursors|] == ms;
    return Success(visits);
  }

  function SeqNo(m: Member): int {
    m.superblock.seqInChain
  }

  /** Members in sequence order form one gapless, linked chain of one source. */
  ghost predicate Linked(members: seq<Member>) {
    && members != []
    && members[0].superblock.seqInChain == 0
    && (forall k :: 0 <= k < |members| ==> LinkedAt(members, k))
  }

  predicate LinkedAt(members: seq<Member>, k: nat)
    requires k < |members|
  {
    var first, sb := members[0].superblock, members[k].superblock;
    && sb.seqInChain == k
    && (k > 0 ==> sb.parentUuid == members[k - 1].superblock.imageUuid)
    && sb.chunkSize == first.chunkSize
    && sb.sourceSize == first.sourceSize
    && sb.imageKind == first.imageKind
    && sb.setId == first.setId
  }

  /**
   Linked, member against member: numbered from zero without gaps, each naming
   the one before it as its parent, and no two of another chunk size, source
   size, image kind or set.
   */
  lemma LinkedIff(members: seq<Member>)
    ensures Linked(members) <==>
            && members != []
            && (forall k :: 0 <= k < |members| ==> members[k].superblock.seqInChain == k)
            && (forall k :: 0 < k < |members| ==> NamesParent(members, k))
            && (forall j, k :: 0 <= j < |members| && 0 <= k < |members| ==>
                                 SameSource(members[j].superblock, members[k].superblock))
  {
    if Linked(members) {
      forall j, k | 0 <= j < |members| && 0 <= k < |members|
        ensures members[k].superblock.seqInChain == k
        ensures k > 0 ==> NamesParent(members, k)
        ensures SameSource(members[j].superblock, members[k].superblock)
      {
        assert LinkedAt(members, j) && LinkedAt(members, k);
      }
    } else if members != [] && forall k :: 0 <= k < |members| ==> members[k].superblock.seqInChain == k {
      var k :| 0 <= k < |members| && !LinkedAt(members, k);
      assert members[k].superblock.seqInChain == k;
      assert k > 0 ==> !NamesParent(members, k) || !SameSource(members[0].superblock, members[k].superblock);
    }
  }

  /** A member names the one before it as its parent. */
  ghost predicate NamesParent(members: seq<Member>, k: int)
    requires 0 < k < |members|
  {
    members[k].superblock.parentUuid == members[k - 1].superblock.imageUuid
  }

  ghost predicate SameSource(a: Superblock, b: Superblock) {
    a.chunkSize == b.chunkSize && a.sourceSize == b.sourceSize && a.imageKind == b.imageKind && a.setId == b.setId
  }

  predicate HeaderAgrees(m: Member, chunkCount: nat, chunkSize: nat) {
    && m.manifest.DeltaManifest? == KindOf(m.superblock).Incremental?
    && m.manifest.chunkCount == chunkCount
    && m.manifest.chunkSize == chunkSize
  }

  /** The chains a walk accepts, once linked. */
  ghost predicate Walkable(members: seq<Member>, chunkCount: nat, chunkSize: nat) {
    forall k :: 0 <= k < |members| ==>
      HeaderAgrees(members[k], chunkCount, chunkSize) && Accepted(members[k].manifest, chunkCount)
  }

  /**
   Walkable, manifest by manifest: the form the superblock announces, the chunk
   count and size of the chain, and either one entry per chunk or strictly
   ascending chunk numbers below the count.
   */
  lemma WalkableIff(members: seq<Member>, chunkCount: nat, chunkSize: nat)
    ensures Walkable(members, chunkCount, chunkSize) <==>
            forall k :: 0 <= k < |members| ==> IsWellFormed(members[k], chunkCount, chunkSize)
  {
    forall m: Member
      ensures HeaderAgrees(m, chunkCount, chunkSize) && Accepted(m.manifest, chunkCount) <==>
              IsWellFormed(m, chunkCount, chunkSize)
    {
      if m.manifest.DeltaManifest? && m.manifest.entryCount <= |m.manifest.deltas| {
        var n, ds := m.manifest.entryCount, m.manifest.deltas;
        assert Ascending(ds[..n]) <==> forall i, j :: 0 <= i < j < n ==> ds[i].chunkNo < ds[j].chunkNo;
      }
    }
  }

  ghost predicate IsWellFormed(m: Member, chunkCount: nat, chunkSize: nat) {
    var sb, manifest := m.superblock, m.manifest;
    && manifest.chunkCount == chunkCount && manifest.chunkSize == chunkSize
    && (manifest.DeltaManifest? <==> sb.seqInChain > 0 && (sb.imageKind == Stream || sb.deltaFlag))
    && match manifest
       case FullManifest(_, _, n, entries) => n == chunkCount && n <= |entries|
       case DeltaManifest(_, _, n, ds) =>
         && n <= |ds|
         && (forall j :: 0 <= j < n ==> ds[j].chunkNo < chunkCount)
         && (forall i, j :: 0 <= i < j < n ==> ds[i].chunkNo < ds[j].chunkNo)
  }

  /** Open one cursor per member and compare the headers with the chain. */
  method OpenCursors(members: seq<Member>, chunkCount: nat, chunkSize: nat) returns (r: Result<seq<Cursor>>)
    ensures r.Success? ==> fresh(r.value) && AllReady(r.value, 0) && CursorManifests(r.value) == Manifests(members)
    ensures r.Success? ==> forall k :: 0 <= k < |members| ==> HeaderAgrees(members[k], chunkCount, chunkSize)
    ensures r.Failure? ==> !Walkable(members, chunkCount, chunkSize)
  {
    var cursors: seq<Cursor> := [];
    for k := 0 to |members|
      invariant |cursors| == k && fresh(cursors) && AllReady(cursors, 0)
      invariant forall j :: 0 <= j < k ==> cursors[j].manifest == members[j].manifest
      invariant forall j :: 0 <= j < k ==>
                  members[j].manifest.DeltaManifest? == KindOf(members[j].superblock).Incremental?
    {
      var cursor :- Cursor.Open(members[k].manifest, KindOf(members[k].superblock).Incremental?);
      cursors := cursors + [cursor];
    }
    for k := 0 to |cursors|
      invariant forall j :: 0 <= j < k ==> HeaderAgrees(members[j], chunkCount, chunkSize)
    {
      if cursors[k].manifest.chunkCount != chunkCount || cursors[k].manifest.chunkSize != chunkSize {
        return Failure(Corrupt);
      }
    }
    return Success(cursors);
  }

  /** The final checks: no cursor may have entries left. */
  method CheckDrained(cursors: seq<Cursor>, count: nat) returns (ok: bool)
    requires AllReady(cursors, count)
    ensures ok == AllAccepted(CursorManifests(cursors), count)
  {
    ghost var ms := CursorManifests(cursors);
    for k := 0 to |cursors|
      invariant forall j :: 0 <= j < k ==> Accepted(ms[j], count)
    {
      assert ms[k] == cursors[k].manifest;
      DrainedIffAccepted(cursors[k], count);
      if !cursors[k].Drained() {
        return false;
      }
    }
    return true;
  }

  /** A validated chain, ready to be streamed. */
  class ChainWalk {
    const members: seq<Member>
    const chunkCount: nat
    const chunkSize: nat

    constructor (members: seq<Member>)
      requires members != []
      ensures this.members == members
      ensures chunkCount == members[0].manifest.chunkCount && chunkSize == members[0].superblock.chunkSize
    {
      this.members := members;
      this.chunkCount := members[0].manifest.chunkCount;
      this.chunkSize := members[0].superblock.chunkSize;
    }

    ghost predicate Valid() {
      && Linked(members)
      && chunkCount == members[0].manifest.chunkCount
      && chunkSize == members[0].superblock.chunkSize
    }

    /** Sort the opened members and validate them as a chain. */
    static method New(members: seq<Member>) returns (r: Result<ChainWalk>)
      ensures r.Success? <==> Linked(Sorting.SortBy(SeqNo, members))
      ensures r.Success? ==> fresh(r.value) && r.value.Valid() && r.value.members == Sorting.SortBy(SeqNo, members)
    {
      if members == [] {
        return Failure(Unsupported);
      }
      var sorted := Sorting.SortBy(SeqNo, members);
      if sorted[0].superblock.seqInChain != 0 || KindOf(sorted[0].superblock) != MemberKind.Full {
        return Failure(Corrupt);
      }
      for k := 0 to |sorted|
        invariant forall j :: 0 <= j < k ==> LinkedAt(sorted, j)
      {
        if !LinkedAt(sorted, k) {
          return Failure(Corrupt);
        }
      }
      var walk := new ChainWalk(sorted);
      return Success(walk);
    }

    /**
     Stream all manifests in one pass. The walk succeeds exactly on walkable
     chains, in either mode, and then the visitor has seen exactly the merged
     states or exactly the payloads the members stored themselves.
     */
    method WalkWith(ownPayloads: bool) returns (r: Result<seq<Visit>>)
      requires Valid()
      ensures r.Success? <==> Walkable(members, chunkCount, chunkSize)
      ensures r.Success? && !ownPayloads ==> r.value == MergedVisits(Manifests(members), chunkCount)
      ensures r.Success? && ownPayloads ==> r.value == OwnVisits(Manifests(members), chunkCount)
    {
      var cursors :- OpenCursors(members, chunkCount, chunkSize);
      assert forall k :: 0 <= k < |members| ==> Manifests(members)[k] == members[k].manifest;
      var visits: seq<Visit>;
      if ownPayloads {
        visits :- OwnPass(cursors, chunkCount);
      } else {
        visits :- MergedPass(cursors, chunkCount);
      }
      var drained := CheckDrained(cursors, chunkCount);
      if !drained {
        return Failure(Corrupt);
      }
      assert cursors[0].manifest == Manifests(members)[0] by {
        assert CursorManifests(cursors)[0] == cursors[0].manifest;
      }
      if !cursors[0].isFull {
        return Failure(Corrupt);
      }
      return Success(visits);
    }
  }

  lemma {:induction false} OwnVisitsOfExact(m: Manifest, position: nat, count: nat)
    ensures forall v :: v in OwnVisitsOf(m, position, count) <==>
              v.index < count && IsOwn(m, position, v.index) && v.state == Overlay(m, v.index, Unused)
    ensures Sorting.Distinct(OwnVisitsOf(m, position, count))
  {
    if count > 0 {
      OwnVisitsOfExact(m, position, count - 1);
    }
  }

  /** Member `p` itself recorded the payload that `v` hands over. */
  ghost predicate OwnedBy(ms: seq<Manifest>, p: int, count: nat, v: Visit) {
    0 <= p < |ms| && v.index < count && IsOwn(ms[p], p, v.index) && v.state == Overlay(ms[p], v.index, Unused)
  }

  /** Who recorded what does not depend on the members after it. */
  lemma OwnedByPrefix(ms: seq<Manifest>, n: nat, p: int, count: nat, v: Visit)
    requires p < n <= |ms|
    ensures OwnedBy(ms[..n], p, count, v) <==> OwnedBy(ms, p, count, v)
  {
  }

  lemma AppendDistinct(a: seq<Visit>, b: seq<Visit>)
    requires Sorting.Distinct(a) && Sorting.Distinct(b) && forall v :: v in a ==> v !in b
    ensures Sorting.Distinct(a + b)
  {
    forall i, j | 0 <= i < j < |a + b| ensures (a + b)[i] != (a + b)[j] {
      if i < |a| <= j {
        assert a[i] in a && b[j - |a|] in b;
      }
    }
  }

  lemma OwnedByLast(ms: seq<Manifest>, count: nat, v: Visit)
    requires ms != []
    ensures v in OwnVisits(ms, count) <==> v in OwnVisits(ms[..|ms| - 1], count) || OwnedBy(ms, |ms| - 1, count, v)
  {
    var n := |ms| - 1;
    OwnVisitsOfExact(ms[n], n, count);
    OwnVisitsStep(ms, n, count);
    assert ms[..n + 1] == ms;
  }

  lemma {:induction false} VisitHasOwner(ms: seq<Manifest>, count: nat, v: Visit) returns (p: nat)
    requires v in OwnVisits(ms, count)
    ensures OwnedBy(ms, p, count, v)
  {
    var n := |ms| - 1;
    OwnedByLast(ms, count, v);
    if OwnedBy(ms, n, count, v) {
      p := n;
    } else {
      p := VisitHasOwner(ms[..n], count, v);
      OwnedByPrefix(ms, n, p, count, v);
    }
  }

  lemma {:induction false} OwnerHasVisit(ms: seq<Manifest>, count: nat, v: Visit, p: nat)
    requires OwnedBy(ms, p, count, v)
    ensures v in OwnVisits(ms, count)
  {
    var n := |ms| - 1;
    OwnedByLast(ms, count, v);
    if p < n {
      OwnedByPrefix(ms, n, p, count, v);
      OwnerHasVisit(ms[..n], count, v, p);
    }
  }

  lemma {:induction false} OwnVisitsDistinct(ms: seq<Manifest>, count: nat)
    ensures Sorting.Distinct(OwnVisits(ms, count))
  {
    if ms != [] {
      var n := |ms| - 1;
      OwnVisitsDistinct(ms[..n], count);
      OwnVisitsOfExact(ms[n], n, count);
      forall v | v in OwnVisits(ms[..n], count) ensures v !in OwnVisitsOf(ms[n], n, count) {
        var p := VisitHasOwner(ms[..n], count, v);
        assert v.state.member == p < n;
      }
      AppendDistinct(OwnVisits(ms[..n], count), OwnVisitsOf(ms[n], n, count));
    }
  }

  /**
   An own-payload walk visits a chunk state exactly when some member's own
   manifest records it as stored in that very member, and visits it once.
   */
  lemma OwnVisitsExact(ms: seq<Manifest>, count: nat)
    ensures forall v :: v in OwnVisits(ms, count) <==> exists p :: OwnedBy(ms, p, count, v)
    ensures Sorting.Distinct(OwnVisits(ms, count))
  {
    forall v ensures v in OwnVisits(ms, count) <==> exists p :: OwnedBy(ms, p, count, v) {
      if v in OwnVisits(ms, count) {
        var p := VisitHasOwner(ms, count, v);
      }
      if p :| OwnedBy(ms, p, count, v) {
        OwnerHasVisit(ms, count, v, p);
      }
    }
    OwnVisitsDistinct(ms, count);
  }

  /** A payload recorded by its own member is visited. */
  lemma OwnIsVisited(ms: seq<Manifest>, count: nat, p: nat, i: nat)
    requires p < |ms| && i < count && IsOwn(ms[p], p, i)
    ensures Visit(i, Overlay(ms[p], i, Unused)) in OwnVisits(ms, count)
  {
    OwnVisitsExact(ms, count);
    assert OwnedBy(ms, p, count, Visit(i, Overlay(ms[p], i, Unused)));
  }

  /** What is visited is recorded by the member it names. */
  lemma VisitedIsOwn(ms: seq<Manifest>, count: nat, v: Visit)
    requires v in OwnVisits(ms, count)
    ensures v.state.Stored? && v.state.member < |ms| && v.index < count
    ensures IsOwn(ms[v.state.member], v.state.member, v.index)
            && v.state == Overlay(ms[v.state.member], v.index, Unused)
  {
    OwnVisitsExact(ms, count);
    var p :| OwnedBy(ms, p, count, v);
  }
}
