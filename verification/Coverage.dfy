/**
 What whole-chain verification reads, and when a published member leaves its
 chain readable.
 */
module Coverage {
  import opened Wrappers
  import opened Manifest
  import opened Chain
  import opened Superblocks
  import opened Backup
  import opened History
  import U = UsedChunks

  /** A state found in a manifest is the member's own exactly when its backup stored it. */
  lemma OwnOutcome(o: Outcome, c: Content, parent: ChunkState, kept: ChunkState, position: nat, codec: Codec,
                   records: map<nat, Bytes>)
    requires Decided(o, c, parent, position, codec, records)
    requires kept == parent || kept == Unused
    requires parent.Stored? ==> parent.member < position
    ensures var state := if o.Some? then StateOf(o.value) else kept;
            && (state.Stored? && state.member == position <==> IsStored(o))
            && (IsStored(o) ==>
                  && state.offset in records && state.offset == o.value.offset
                  && codec.hash(records[state.offset]) == state.hash)
  {
  }

  /** What a member records in its own name is exactly what its backup stored. */
  lemma OwnIsStored(m: Member, out: seq<Outcome>, chain: seq<Member>, src: Source, codec: Codec, i: nat, limit: nat)
    requires src.Valid() && Wrote(m, out, chain, src, codec) && i < src.ChunkCount()
    requires Resolves(Merged(Manifests(chain), i), chain, codec, limit)
    ensures IsOwn(m.manifest, |chain|, i) <==> IsStored(out[i])
    ensures IsStored(out[i]) ==> OwnRecord(m, i, codec) && StoresAt(out[i], OwnOffset(m, i))
  {
    OverlayOf(m, out, chain, src, codec, i);
    var parent := Merged(Manifests(chain), i);
    OwnOutcome(out[i], Contents(src)[i], parent, if KindOf(m.superblock).Incremental? then Unused else parent,
               |chain|, codec, m.records);
  }

  /** The own states of one member are its chunk records, one visit for one record. */
  ghost predicate Ledgered(m: Member, position: nat, count: nat, codec: Codec) {
    && (forall i :: 0 <= i < count && IsOwn(m.manifest, position, i) ==> OwnRecord(m, i, codec))
    && (forall r :: r in m.records ==>
                      exists i :: 0 <= i < count && IsOwn(m.manifest, position, i) && OwnOffset(m, i) == r)
    && forall i, j :: 0 <= i < j < count && IsOwn(m.manifest, position, i) && IsOwn(m.manifest, position, j) ==>
         OwnOffset(m, i) != OwnOffset(m, j)
  }

  ghost function OwnOffset(m: Member, i: nat): int {
    var state := Overlay(m.manifest, i, Unused);
    if state.Stored? then state.offset else -1
  }

  ghost predicate OwnRecord(m: Member, i: nat, codec: Codec) {
    var state := Overlay(m.manifest, i, Unused);
    state.Stored? && state.offset in m.records && codec.hash(m.records[state.offset]) == state.hash
  }

  /** The manifest's own states mirror the outcomes of the backup that wrote it. */
  ghost predicate Mirrors(m: Member, out: seq<Outcome>, position: nat, codec: Codec) {
    forall i :: 0 <= i < |out| ==>
      && (IsOwn(m.manifest, position, i) <==> IsStored(out[i]))
      && (IsStored(out[i]) ==> OwnRecord(m, i, codec) && StoresAt(out[i], OwnOffset(m, i)))
  }

  lemma WroteMirrors(m: Member, out: seq<Outcome>, chain: seq<Member>, src: Source, codec: Codec, limit: nat)
    requires src.Valid() && Wrote(m, out, chain, src, codec)
    requires forall i: nat :: i < src.ChunkCount() ==> Resolves(Merged(Manifests(chain), i), chain, codec, limit)
    ensures Mirrors(m, out, |chain|, codec)
  {
    forall i | 0 <= i < |out|
      ensures IsOwn(m.manifest, |chain|, i) <==> IsStored(out[i])
      ensures IsStored(out[i]) ==> OwnRecord(m, i, codec) && StoresAt(out[i], OwnOffset(m, i))
    {
      OwnIsStored(m, out, chain, src, codec, i, limit);
    }
  }

  lemma MirrorsLedgered(m: Member, out: seq<Outcome>, position: nat, codec: Codec)
    requires Mirrors(m, out, position, codec) && Ledger(out, m.records)
    ensures Ledgered(m, position, |out|, codec)
  {
    forall r | r in m.records
      ensures exists i :: 0 <= i < |out| && IsOwn(m.manifest, position, i) && OwnOffset(m, i) == r
    {
      var i :| 0 <= i < |out| && StoresAt(out[i], r);
      assert IsOwn(m.manifest, position, i) && OwnOffset(m, i) == r;
    }
  }

  lemma LedgeredAt(m: Member, position: nat, count: nat, codec: Codec, offset: nat) returns (i: nat)
    requires Ledgered(m, position, count, codec) && offset in m.records
    ensures i < count && IsOwn(m.manifest, position, i)
    ensures Reads(Visit(i, Overlay(m.manifest, i, Unused)), position, offset)
    ensures Overlay(m.manifest, i, Unused).hash == codec.hash(m.records[offset])
  {
    i :| 0 <= i < count && IsOwn(m.manifest, position, i) && OwnOffset(m, i) == offset;
    assert OwnRecord(m, i, codec);
  }

  lemma GrownLedgered(chain: seq<Member>, sources: seq<Source>, codec: Codec, p: nat)
    requires Grown(chain, sources, codec) && p < |chain|
    ensures Ledgered(chain[p], p, sources[0].ChunkCount(), codec)
  {
    assert Step(chain, sources, codec, p);
    if p > 0 {
      GrownPrefix(chain, sources, codec, p);
      forall i: nat | i < sources[0].ChunkCount()
        ensures Resolves(Merged(Manifests(chain[..p]), i), chain[..p], codec, sources[0].chunkSize)
      {
        NewestIsFaithful(chain[..p], sources[..p], codec, i);
      }
    }
    var out :| Wrote(chain[p], out, chain[..p], sources[p], codec);
    WroteMirrors(chain[p], out, chain[..p], sources[p], codec, sources[0].chunkSize);
    MirrorsLedgered(chain[p], out, p, codec);
  }

  /** The visits of a whole-chain verification. */
  ghost function Verified(chain: seq<Member>, sources: seq<Source>): seq<Visit>
    requires |sources| > 0 && sources[0].chunkSize > 0
  {
    OwnVisits(Manifests(chain), sources[0].ChunkCount())
  }

  /** A visit of the record that member `p` appended at `offset`. */
  ghost predicate Reads(v: Visit, p: nat, offset: nat) {
    v.state.Stored? && v.state.member == p && v.state.offset == offset
  }

  /** Verification reads every chunk record of every member, checking it against the hash of its content. */
  lemma EveryRecordIsRead(chain: seq<Member>, sources: seq<Source>, codec: Codec, p: nat, offset: nat)
    returns (v: Visit)
    requires Grown(chain, sources, codec) && p < |chain| && offset in chain[p].records
    ensures v in Verified(chain, sources) && Reads(v, p, offset)
    ensures v.state.hash == codec.hash(chain[p].records[offset])
  {
    var m, count := chain[p], sources[0].ChunkCount();
    GrownLedgered(chain, sources, codec, p);
    var i := LedgeredAt(m, p, count, codec, offset);
    v := Visit(i, Overlay(m.manifest, i, Unused));
    assert Manifests(chain)[p] == m.manifest;
    OwnIsVisited(Manifests(chain), count, p, i);
  }

  /** Verification reads nothing but such records, and expects of each the hash of its content. */
  lemma EveryReadIsARecord(chain: seq<Member>, sources: seq<Source>, codec: Codec, v: Visit)
    requires Grown(chain, sources, codec) && v in Verified(chain, sources)
    ensures v.state.Stored? && v.state.member < |chain| && v.state.offset in chain[v.state.member].records
    ensures v.state.hash == codec.hash(chain[v.state.member].records[v.state.offset])
  {
    VisitedIsOwn(Manifests(chain), sources[0].ChunkCount(), v);
    GrownLedgered(chain, sources, codec, v.state.member);
    assert OwnRecord(chain[v.state.member], v.index, codec);
  }

  /** Verification reads no record twice. */
  lemma NoRecordIsReadTwice(chain: seq<Member>, sources: seq<Source>, codec: Codec, i: nat, j: nat, p: nat, offset: nat)
    requires Grown(chain, sources, codec) && i < j < |Verified(chain, sources)|
    requires Reads(Verified(chain, sources)[i], p, offset)
    ensures !Reads(Verified(chain, sources)[j], p, offset)
  {
    var ms, count, vs := Manifests(chain), sources[0].ChunkCount(), Verified(chain, sources);
    VisitedIsOwn(ms, count, vs[i]);
    VisitedIsOwn(ms, count, vs[j]);
    GrownLedgered(chain, sources, codec, p);
    OwnVisitsExact(ms, count);
    assert vs[i] != vs[j];
    assert OwnOffset(chain[p], vs[i].index) == offset;
  }

  /**
   Whole-chain verification covers every recovery point: the payload of each
   stored state that a walk cut at any member reports, superseded later or not,
   is among the payloads read.
   */
  lemma EveryPointIsCovered(chain: seq<Member>, sources: seq<Source>, codec: Codec, k: nat, i: nat) returns (v: Visit)
    requires Grown(chain, sources, codec) && k < |chain| && i < sources[0].ChunkCount()
    requires Merged(Manifests(chain[..k + 1]), i).Stored?
    ensures var state := Merged(Manifests(chain[..k + 1]), i);
            v in Verified(chain, sources) && Reads(v, state.member, state.offset) && v.state.hash == state.hash
  {
    var cut := chain[..k + 1];
    GrownPrefix(chain, sources, codec, k + 1);
    NewestIsFaithful(cut, sources[..k + 1], codec, i);
    var state := Merged(Manifests(cut), i);
    assert cut[state.member] == chain[state.member];
    v := EveryRecordIsRead(chain, sources, codec, state.member, state.offset);
  }

  // ------------------------------------------------- extending a chain

  /**
   A backup checks only that the number of chunks is its parent's. Exactly when
   the chunk size and the source size are also unchanged is the chain with the
   published member still one that validates.
   */
  lemma ExtensionStaysLinked(chain: seq<Member>, sources: seq<Source>, codec: Codec, m: Member, src: Source,
                             req: Request)
    requires Grown(chain, sources, codec) && src.Valid() && src.ChunkCount() == sources[0].ChunkCount()
    requires IsBackup(m, chain, src, codec) && m.superblock == SuperblockFor(chain, src, req, codec.encrypted)
    requires chain[0].superblock.imageKind == Block
    ensures Linked(chain + [m]) <==> src.chunkSize == sources[0].chunkSize && src.deviceSize == sources[0].deviceSize
    ensures Linked(chain + [m]) ==> Grown(chain + [m], sources + [src], codec)
  {
    var n := |chain|;
    var all, from := chain + [m], sources + [src];
    assert Step(chain, sources, codec, 0);
    forall k | 0 <= k < n ensures LinkedAt(all, k) && all[..k] == chain[..k] {
      assert LinkedAt(chain, k);
    }
    assert LinkedAt(chain, n - 1) && chain[n - 1] == all[n - 1];
    assert Linked(all) <==> LinkedAt(all, n);
    if Linked(all) {
      assert all[..n] == chain;
      forall k | 0 <= k < |all| ensures Step(all, from, codec, k) {
        if k < n { assert Step(chain, sources, codec, k); }
      }
    }
  }

  const DRIFT_CHUNK: nat := 0x40000

  function Zeros(len: nat): (bytes: Bytes)
    ensures |bytes| == len && IsAllZero(bytes)
  {
    seq(len, i => 0 as Byte)
  }

  /** A device of one chunk, all of it in use and zero. */
  function ZeroDevice(deviceSize: nat): Source
    requires deviceSize > 0
  {
    Source(DRIFT_CHUNK, deviceSize, [U.Region(0, deviceSize - 1)], (offset: nat, len: nat) => Some(Zeros(len)))
  }

  lemma ZeroContents(deviceSize: nat)
    requires 0 < deviceSize <= DRIFT_CHUNK
    ensures ZeroDevice(deviceSize).Valid() && ZeroDevice(deviceSize).ChunkCount() == 1
    ensures Contents(ZeroDevice(deviceSize)) == [AllZero]
  {
    var src := ZeroDevice(deviceSize);
    U.ChunkAlignedCovers(src.extents, src.chunkSize, src.deviceSize, 0);
    assert src.extents[0] == U.Region(0, deviceSize - 1);
    assert U.Touched(src.extents, src.chunkSize, 0);
    assert ContentAt(src, 0) == AllZero;
  }

  /** The full image of such a device. */
  function ZeroFull(deviceSize: nat, req: Request): Member
    requires deviceSize > 0
  {
    Member(SuperblockFor([], ZeroDevice(deviceSize), req, false), FullManifest(DRIFT_CHUNK, 1, 1, [ZeroEntry()]), map[])
  }

  lemma ZeroFullGrown(deviceSize: nat, codec: Codec, req: Request)
    requires 0 < deviceSize <= DRIFT_CHUNK
    ensures Grown([ZeroFull(deviceSize, req)], [ZeroDevice(deviceSize)], codec)
  {
    var full, src := ZeroFull(deviceSize, req), ZeroDevice(deviceSize);
    var chain, out := [full], [Some(ZeroEntry())];
    ZeroContents(deviceSize);
    assert ParentStates([], 1) == [Unused];
    assert FullEntries(out, ParentStates([], 1)) == [ZeroEntry()];
    assert Decided(out[0], AllZero, Unused, 0, codec, map[]);
    assert Wrote(full, out, [], src, codec);
    assert chain[..0] == [];
    assert Step(chain, [src], codec, 0);
    assert LinkedAt(chain, 0);
  }

  /**
   A device that grows from 512 to 1024 bytes inside its only chunk: the
   incremental is accepted and published, and the chain no longer validates.
   */
  lemma SizeDriftBreaksChain(codec: Codec, req: Request)
    ensures var chain, src := [ZeroFull(512, req)], ZeroDevice(1024);
            && Grown(chain, [ZeroDevice(512)], codec)
            && src.Valid()
            && !Unfit(chain, src)
            && !Ends(Contents(src), ParentStates(chain, 1), 1, codec, req.policy)
            && forall m: Member :: m.superblock == SuperblockFor(chain, src, req, false) ==> !Linked(chain + [m])
  {
    var chain, src := [ZeroFull(512, req)], ZeroDevice(1024);
    ZeroFullGrown(512, codec, req);
    ZeroContents(512);
    ZeroContents(1024);
    GrownWalks(chain, [ZeroDevice(512)], codec);
    forall m: Member | m.superblock == SuperblockFor(chain, src, req, false) ensures !Linked(chain + [m]) {
      assert !LinkedAt(chain + [m], 1);
    }
  }
}
