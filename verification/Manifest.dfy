/**
 Chunk states, manifest entries and block manifests.

 A manifest stream is a header followed by entries. `entryCount` is what the
 header declares; the sequence is what the page stream really holds, which may
 be shorter or longer in a damaged image.
 */
module Manifest {
  import opened Wrappers

  /** A manifest entry spends 14 bits on the member. */
  const MAX_MEMBER: nat := 0x3FFF

  /** A member index as an entry can hold it. */
  type MemberIndex = m: nat | m <= MAX_MEMBER witness 0

  datatype ChunkState =
    | Unused
    | Zero
    | Stored(member: MemberIndex, hash: Digest, offset: nat, storedLen: nat)
    | BadSector

  type StateBits = b: nat | b < 4 witness 0

  /** The 46-byte entry: a two-bit state beside a 14-bit member index. */
  datatype BlockEntry = BlockEntry(state: StateBits, member: MemberIndex, hash: Digest, offset: nat, storedLen: nat)

  datatype DeltaEntry = DeltaEntry(chunkNo: nat, entry: BlockEntry)

  const STATE_UNUSED: StateBits := 0
  const STATE_ZERO: StateBits := 1
  const STATE_STORED: StateBits := 2
  const STATE_BAD_SECTOR: StateBits := 3

  function UnusedEntry(): BlockEntry {
    BlockEntry(STATE_UNUSED, 0, [], 0, 0)
  }

  function ZeroEntry(): BlockEntry {
    BlockEntry(STATE_ZERO, 0, [], 0, 0)
  }

  /** An entry for a stored chunk; refused when the member index needs more than 14 bits. */
  function StoredEntry(member: nat, hash: Digest, offset: nat, storedLen: nat): Result<BlockEntry> {
    if member > MAX_MEMBER then Failure(Unsupported)
    else Success(BlockEntry(STATE_STORED, member, hash, offset, storedLen))
  }

  function BadSectorEntry(offset: nat, len: nat): BlockEntry {
    BlockEntry(STATE_BAD_SECTOR, 0, [], offset, len)
  }

  /** The state an entry records. */
  function StateOf(e: BlockEntry): ChunkState {
    if e.state == STATE_STORED then Stored(e.member, e.hash, e.offset, e.storedLen)
    else if e.state == STATE_ZERO then Zero
    else if e.state == STATE_BAD_SECTOR then BadSector
    else Unused
  }

  /** The entry a differential writes for a state it takes over from its parent. */
  function EntryOf(s: ChunkState): BlockEntry {
    match s
    case Stored(member, hash, offset, storedLen) =>
      (match StoredEntry(member, hash, offset, storedLen)
       case Success(e) => e
       case Failure(_) => UnusedEntry())
    case Zero => ZeroEntry()
    case Unused => UnusedEntry()
    case BadSector => BadSectorEntry(0, 0)
  }

  /** The change table: stored states compare by hash, a bad sector differs from everything, all else by kind. */
  predicate IsChange(source: ChunkState, parent: ChunkState) {
    match (source, parent)
    case (Stored(_, left, _, _), Stored(_, right, _, _)) => left != right
    case (Zero, Zero) => false
    case (Unused, Unused) => false
    case _ => true
  }

  datatype Manifest =
    | FullManifest(chunkSize: nat, chunkCount: nat, entryCount: nat, entries: seq<BlockEntry>)
    | DeltaManifest(chunkSize: nat, chunkCount: nat, entryCount: nat, deltas: seq<DeltaEntry>)

  ghost predicate Ascending(ds: seq<DeltaEntry>) {
    forall i, j :: 0 <= i < j < |ds| ==> ds[i].chunkNo < ds[j].chunkNo
  }

  /** The manifests a reader of an image of `count` chunks accepts. */
  ghost predicate Accepted(m: Manifest, count: nat) {
    match m
    case FullManifest(_, _, n, entries) => n == count <= |entries|
    case DeltaManifest(_, _, n, deltas) =>
      n <= |deltas| && Ascending(deltas[..n]) && forall j :: 0 <= j < n ==> deltas[j].chunkNo < count
  }

  /** The entry that `ds` holds for chunk `i`, if it mentions the chunk. */
  ghost function FindDelta(ds: seq<DeltaEntry>, i: nat): Option<BlockEntry> {
    if ds == [] then None
    else if ds[|ds| - 1].chunkNo == i then Some(ds[|ds| - 1].entry)
    else FindDelta(ds[..|ds| - 1], i)
  }

  /** The entry a manifest holds for chunk `i`; a full manifest mentions every chunk. */
  ghost function EntryAt(m: Manifest, i: nat): Option<BlockEntry> {
    match m
    case FullManifest(_, _, n, entries) => if i < n && i < |entries| then Some(entries[i]) else None
    case DeltaManifest(_, _, n, deltas) => if n <= |deltas| then FindDelta(deltas[..n], i) else None
  }

  ghost function Overlay(m: Manifest, i: nat, current: ChunkState): ChunkState {
    match EntryAt(m, i)
    case Some(e) => StateOf(e)
    case None => current
  }

  /** The meaning of a chain: the state of chunk `i` after laying every manifest over its ancestors. */
  ghost function Merged(ms: seq<Manifest>, i: nat): ChunkState {
    if ms == [] then Unused else Overlay(ms[|ms| - 1], i, Merged(ms[..|ms| - 1], i))
  }

  /** A delta that mentions the chunk at position `j` finds exactly that entry. */
  lemma {:induction false} FindDeltaAt(ds: seq<DeltaEntry>, j: nat)
    requires Ascending(ds) && j < |ds|
    ensures FindDelta(ds, ds[j].chunkNo) == Some(ds[j].entry)
  {
    var n := |ds| - 1;
    if j < n {
      assert ds[..n][j] == ds[j];
      FindDeltaAt(ds[..n], j);
    }
  }

  /** A chunk no entry mentions is not found. */
  lemma {:induction false} FindDeltaNone(ds: seq<DeltaEntry>, i: nat)
    requires forall j :: 0 <= j < |ds| ==> ds[j].chunkNo != i
    ensures FindDelta(ds, i) == None
  {
    if ds != [] {
      FindDeltaNone(ds[..|ds| - 1], i);
    }
  }

  /** The merged state is the entry of the last manifest that mentions the chunk, or unused. */
  lemma {:induction false} MergedIsLastMention(ms: seq<Manifest>, i: nat)
    ensures (exists k :: 0 <= k < |ms| && EntryAt(ms[k], i).Some?) ==>
              exists k :: 0 <= k < |ms| && EntryAt(ms[k], i).Some?
                          && Merged(ms, i) == StateOf(EntryAt(ms[k], i).value)
                          && forall j :: k < j < |ms| ==> EntryAt(ms[j], i).None?
    ensures (forall k :: 0 <= k < |ms| ==> EntryAt(ms[k], i).None?) ==> Merged(ms, i) == Unused
  {
    if ms != [] {
      var n := |ms| - 1;
      MergedIsLastMention(ms[..n], i);
      if EntryAt(ms[n], i).None? && exists k :: 0 <= k < |ms| && EntryAt(ms[k], i).Some? {
        var k :| 0 <= k < |ms| && EntryAt(ms[k], i).Some?;
        assert k < n && EntryAt(ms[..n][k], i).Some?;
        var k' :| 0 <= k' < |ms[..n]| && EntryAt(ms[..n][k'], i).Some?
                  && Merged(ms[..n], i) == StateOf(EntryAt(ms[..n][k'], i).value)
                  && forall j :: k' < j < |ms[..n]| ==> EntryAt(ms[..n][j], i).None?;
        assert ms[..n][k'] == ms[k'];
        forall j | k' < j < |ms| ensures EntryAt(ms[j], i).None? {
          if j < n { assert ms[..n][j] == ms[j]; }
        }
      }
      if forall k :: 0 <= k < |ms| ==> EntryAt(ms[k], i).None? {
        forall k | 0 <= k < n ensures EntryAt(ms[..n][k], i).None? {
          assert ms[..n][k] == ms[k];
        }
      }
    }
  }

  /** Taking a state over into a differential and reading it back changes nothing. */
  lemma EntryOfRoundTrip(s: ChunkState)
    ensures StateOf(EntryOf(s)) == s
  {
  }
}
