/**
 Whole histories: a full backup followed by any mix of incrementals and
 differentials of a changing source, read back at any of its members.
 */
module History {
  import opened Wrappers
  import opened Manifest
  import opened Chain
  import opened Superblocks
  import opened Backup

  /** Fetch the payload a stored state names, refusing one of the wrong length or hash. */
  function ReadPayload(chain: seq<Member>, codec: Codec, maxPlaintext: nat, state: ChunkState): Result<Bytes> {
    match state
    case Stored(member, hash, offset, _) =>
      if member >= |chain| || offset !in chain[member].records then Failure(Corrupt)
      else
        var payload := chain[member].records[offset];
        if |payload| > maxPlaintext || codec.hash(payload) != hash then Failure(Corrupt)
        else Success(payload)
    case _ => Failure(Corrupt)
  }

  /**
   A chain grown by the backup loop: member `k` is a successful backup of
   `sources[k]` on top of the members before it. Chunking and source size stay
   what they were for the full.
   */
  ghost predicate Grown(chain: seq<Member>, sources: seq<Source>, codec: Codec) {
    && |chain| == |sources| > 0
    && Steady(sources)
    && Linked(chain)
    && forall k :: 0 <= k < |chain| ==> Step(chain, sources, codec, k)
  }

  /** One source over time: contents and used-block map may change, chunking and size do not. */
  ghost predicate Steady(sources: seq<Source>) {
    forall k :: 0 <= k < |sources| ==>
      && sources[k].Valid() && sources[k].chunkSize == sources[0].chunkSize
      && sources[k].deviceSize == sources[0].deviceSize
  }

  ghost predicate Step(chain: seq<Member>, sources: seq<Source>, codec: Codec, k: nat)
    requires k < |chain| == |sources| && Steady(sources)
  {
    IsBackup(chain[k], chain[..k], sources[k], codec)
  }

  /** A stored state names a member that recorded that payload itself, with that hash and no longer than a chunk. */
  ghost predicate Resolves(state: ChunkState, chain: seq<Member>, codec: Codec, maxPlaintext: nat) {
    state.Stored? ==>
      && state.member < |chain|
      && state.offset in chain[state.member].records
      && codec.hash(chain[state.member].records[state.offset]) == state.hash
      && |chain[state.member].records[state.offset]| <= maxPlaintext
  }

  lemma ManifestsPrefix(chain: seq<Member>, k: nat)
    requires k <= |chain|
    ensures Manifests(chain[..k]) == Manifests(chain)[..k]
  {
  }

  /** One member laid over its ancestors: what was decided, or what they said. */
  lemma OverlayOf(m: Member, out: seq<Outcome>, chain: seq<Member>, src: Source, codec: Codec, i: nat)
    requires src.Valid() && Wrote(m, out, chain, src, codec) && i < src.ChunkCount()
    ensures var parent := Merged(Manifests(chain), i);
            && Overlay(m.manifest, i, parent) == (if out[i].Some? then StateOf(out[i].value) else parent)
            && Overlay(m.manifest, i, Unused) ==
               if out[i].Some? then StateOf(out[i].value)
               else if KindOf(m.superblock).Incremental? then Unused
               else parent
  {
    if KindOf(m.superblock).Incremental? {
      DeltasFind(out, i);
      assert Deltas(out)[..|Deltas(out)|] == Deltas(out);
    } else {
      EntryOfRoundTrip(Merged(Manifests(chain), i));
    }
  }

  /** The change table by content: no change means a parent state that tells what the source holds and is not bad. */
  lemma ChangeByContent(c: Content, parent: ChunkState, codec: Codec)
    ensures !IsChange(AsState(c, codec), parent) <==> parent != BadSector && Matches(parent, c, codec)
  {
  }

  lemma OutcomeOfChunk(m: Member, out: seq<Outcome>, chain: seq<Member>, src: Source, codec: Codec, i: nat)
    requires src.Valid() && Wrote(m, out, chain, src, codec) && i < src.ChunkCount()
    ensures Decided(out[i], ContentAt(src, i), Merged(Manifests(chain), i), |chain|, codec, m.records)
  {
    ContentLength(src, i);
    assert Decided(out[i], Contents(src)[i], ParentStates(chain, src.ChunkCount())[i], |chain|, codec, m.records);
  }

  /**
   A delta manifest is minimal: it leaves a chunk out exactly when the merged
   state of the ancestors already tells what the source holds and is not a bad
   sector; an entry it holds tells what the source holds. In particular a chunk
   an ancestor could not read is always written again.
   */
  lemma DeltaIsMinimal(m: Member, chain: seq<Member>, src: Source, codec: Codec, i: nat)
    requires src.Valid() && IsBackup(m, chain, src, codec) && KindOf(m.superblock).Incremental?
    requires i < src.ChunkCount()
    ensures var entry, parent := EntryAt(m.manifest, i), Merged(Manifests(chain), i);
            && (entry.Some? <==> IsChange(AsState(ContentAt(src, i), codec), parent))
            && (entry.Some? ==> Matches(StateOf(entry.value), ContentAt(src, i), codec))
            && (entry.None? <==> parent != BadSector && Matches(parent, ContentAt(src, i), codec))
  {
    var out :| Wrote(m, out, chain, src, codec);
    DeltasFind(out, i);
    assert Deltas(out)[..|Deltas(out)|] == Deltas(out);
    OutcomeOfChunk(m, out, chain, src, codec, i);
    ChangeByContent(ContentAt(src, i), Merged(Manifests(chain), i), codec);
  }

  /** The manifest a backup writes is one every reader of the image accepts. */
  lemma WroteAccepted(m: Member, out: seq<Outcome>, chain: seq<Member>, src: Source, codec: Codec)
    requires src.Valid() && Wrote(m, out, chain, src, codec)
    ensures Accepted(m.manifest, src.ChunkCount()) && HeaderAgrees(m, src.ChunkCount(), src.chunkSize)
  {
    DeltasOrdered(out);
    assert Deltas(out)[..|Deltas(out)|] == Deltas(out);
  }

  lemma MergedLast(chain: seq<Member>, i: nat)
    requires chain != []
    ensures Merged(Manifests(chain), i) ==
            Overlay(chain[|chain| - 1].manifest, i, Merged(Manifests(chain[..|chain| - 1]), i))
  {
    ManifestsPrefix(chain, |chain| - 1);
  }

  /** A chain that grew, cut at member `k`, is a chain that grew. */
  lemma GrownPrefix(chain: seq<Member>, sources: seq<Source>, codec: Codec, k: nat)
    requires Grown(chain, sources, codec) && 0 < k <= |chain|
    ensures Grown(chain[..k], sources[..k], codec)
  {
    forall j | 0 <= j < k ensures LinkedAt(chain[..k], j) && Step(chain[..k], sources[..k], codec, j) {
      assert LinkedAt(chain, j) && Step(chain, sources, codec, j);
      assert chain[..k][..j] == chain[..j];
    }
  }

  /** Every chain that grew passes validation and walks without an error. */
  lemma GrownWalks(chain: seq<Member>, sources: seq<Source>, codec: Codec)
    requires Grown(chain, sources, codec)
    ensures Linked(chain) && Walkable(chain, chain[0].manifest.chunkCount, chain[0].superblock.chunkSize)
    ensures chain[0].manifest.chunkCount == sources[0].ChunkCount()
  {
    forall k | 0 <= k < |chain|
      ensures HeaderAgrees(chain[k], sources[0].ChunkCount(), sources[0].chunkSize)
      ensures Accepted(chain[k].manifest, sources[0].ChunkCount())
    {
      assert Step(chain, sources, codec, k);
      var out :| Wrote(chain[k], out, chain[..k], sources[k], codec);
      WroteAccepted(chain[k], out, chain[..k], sources[k], codec);
    }
    assert Step(chain, sources, codec, 0) && HeaderAgrees(chain[0], sources[0].ChunkCount(), sources[0].chunkSize);
  }

  /** No chunk holds more than a chunk of bytes. */
  lemma ContentLength(src: Source, i: nat)
    requires src.Valid() && i < src.ChunkCount()
    ensures Contents(src)[i] == ContentAt(src, i)
    ensures ContentAt(src, i).Bytes? ==> |ContentAt(src, i).bytes| <= src.chunkSize
  {
  }

  /** What a kept or new outcome means: the state tells what the source holds, and its payload can be found. */
  lemma DecidedMatches(o: Outcome, c: Content, parent: ChunkState, chain: seq<Member>, m: Member, codec: Codec,
                       maxPlaintext: nat)
    requires Decided(o, c, parent, |chain|, codec, m.records)
    requires c.Bytes? ==> |c.bytes| <= maxPlaintext
    requires Resolves(parent, chain, codec, maxPlaintext)
    ensures var state := if o.Some? then StateOf(o.value) else parent;
            Matches(state, c, codec) && Resolves(state, chain + [m], codec, maxPlaintext)
  {
    assert forall k :: 0 <= k < |chain| ==> (chain + [m])[k] == chain[k];
  }

  /**
   One backup step: if the ancestors' payloads can be found, the chain with the new member tells what the
   source holds.
   */
  lemma OneMoreMember(m: Member, front: seq<Member>, src: Source, codec: Codec, i: nat)
    requires src.Valid() && IsBackup(m, front, src, codec) && i < src.ChunkCount()
    requires Resolves(Merged(Manifests(front), i), front, codec, src.chunkSize)
    ensures Matches(Merged(Manifests(front + [m]), i), ContentAt(src, i), codec)
    ensures Resolves(Merged(Manifests(front + [m]), i), front + [m], codec, src.chunkSize)
  {
    var out :| Wrote(m, out, front, src, codec);
    var parent := Merged(Manifests(front), i);
    assert (front + [m])[..|front|] == front;
    MergedLast(front + [m], i);
    OverlayOf(m, out, front, src, codec, i);
    ContentLength(src, i);
    DecidedMatches(out[i], Contents(src)[i], parent, front, m, codec, src.chunkSize);
  }

  /**
   Faithfulness of the newest recovery point: after any history, the merged
   walk tells for every chunk what the source held at the last backup, and
   every stored state it reports can be read from the member it names.
   */
  lemma {:induction false} NewestIsFaithful(chain: seq<Member>, sources: seq<Source>, codec: Codec, i: nat)
    requires Grown(chain, sources, codec) && i < sources[0].ChunkCount()
    ensures Matches(Merged(Manifests(chain), i), ContentAt(sources[|chain| - 1], i), codec)
    ensures Resolves(Merged(Manifests(chain), i), chain, codec, sources[0].chunkSize)
  {
    var n := |chain| - 1;
    var front, m, src := chain[..n], chain[n], sources[n];
    assert Step(chain, sources, codec, n);
    if n > 0 {
      GrownPrefix(chain, sources, codec, n);
      NewestIsFaithful(front, sources[..n], codec, i);
    }
    assert chain == front + [m];
    OneMoreMember(m, front, src, codec, i);
  }

  /**
   Faithfulness of every recovery point. Cut at member `k`, the chain walks
   without an error and hands over, for every chunk, the state the source was
   in at backup `k`; nothing a later member wrote takes part.
   */
  lemma EveryPointIsFaithful(chain: seq<Member>, sources: seq<Source>, codec: Codec, k: nat)
    requires Grown(chain, sources, codec) && k < |chain|
    ensures var cut := chain[..k + 1];
            var visits := MergedVisits(Manifests(cut), cut[0].manifest.chunkCount);
            && Linked(cut)
            && Walkable(cut, cut[0].manifest.chunkCount, cut[0].superblock.chunkSize)
            && |visits| == sources[k].ChunkCount()
            && forall i :: 0 <= i < |visits| ==>
                 && visits[i].index == i
                 && Matches(visits[i].state, ContentAt(sources[k], i), codec)
                 && Resolves(visits[i].state, cut, codec, sources[0].chunkSize)
  {
    var cut := chain[..k + 1];
    GrownPrefix(chain, sources, codec, k + 1);
    GrownWalks(cut, sources[..k + 1], codec);
    forall i: nat | i < sources[0].ChunkCount()
      ensures Matches(Merged(Manifests(cut), i), ContentAt(sources[k], i), codec)
      ensures Resolves(Merged(Manifests(cut), i), cut, codec, sources[0].chunkSize)
    {
      NewestIsFaithful(cut, sources[..k + 1], codec, i);
    }
  }

  ghost predicate CollisionFree(codec: Codec) {
    forall a, b :: codec.hash(a) == codec.hash(b) ==> a == b
  }

  /**
   Reading a recovery point back: where the source held data at backup `k`, the
   stored state always yields a payload with the hash of that data, and yields
   the data itself when the hash has no collisions.
   */
  lemma RestoredPayload(chain: seq<Member>, sources: seq<Source>, codec: Codec, k: nat, i: nat)
    requires Grown(chain, sources, codec) && k < |chain| && i < sources[k].ChunkCount()
    requires ContentAt(sources[k], i).Bytes?
    ensures var cut := chain[..k + 1];
            var read := ReadPayload(cut, codec, cut[0].superblock.chunkSize, Merged(Manifests(cut), i));
            && read.Success?
            && codec.hash(read.value) == codec.hash(ContentAt(sources[k], i).bytes)
            && (CollisionFree(codec) ==> read.value == ContentAt(sources[k], i).bytes)
  {
    assert Step(chain, sources, codec, 0);
    GrownPrefix(chain, sources, codec, k + 1);
    NewestIsFaithful(chain[..k + 1], sources[..k + 1], codec, i);
    ReadsWhatResolves(chain[..k + 1], codec, sources[0].chunkSize, Merged(Manifests(chain[..k + 1]), i));
  }

  /**
   Reading is honest: exactly the states whose payload is there, is no longer
   than allowed and has the recorded hash are read, and what is read is that
   payload.
   */
  lemma ReadsExactlyWhatResolves(chain: seq<Member>, codec: Codec, maxPlaintext: nat, state: ChunkState)
    ensures var read := ReadPayload(chain, codec, maxPlaintext, state);
            && (read.Success? <==> state.Stored? && Resolves(state, chain, codec, maxPlaintext))
            && (read.Success? ==> read.value == chain[state.member].records[state.offset])
  {
  }

  /** A state whose payload can be found is read without an error. */
  lemma ReadsWhatResolves(chain: seq<Member>, codec: Codec, maxPlaintext: nat, state: ChunkState)
    requires state.Stored? && Resolves(state, chain, codec, maxPlaintext)
    ensures var read := ReadPayload(chain, codec, maxPlaintext, state);
            read.Success? && codec.hash(read.value) == state.hash
  {
  }
}
