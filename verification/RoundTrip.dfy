/**
 The backup in terms of bytes: which chunks are in use, what a read of the
 device returns for them, and what a recovery point gives back.
 */
module RoundTrip {
  import opened Wrappers
  import opened Manifest
  import opened Chain
  import opened Superblocks
  import opened Backup
  import opened History
  import opened Arithmetic
  import U = UsedChunks

  // ------------------------------------------------------------- the device

  /** Chunk `i` begins on the device. */
  predicate OnDevice(src: Source, i: nat) {
    i * src.chunkSize < src.deviceSize
  }

  /** How much of chunk `i` the device holds, as far as a 32-bit length goes. */
  function LengthOf(src: Source, i: nat): nat
    requires OnDevice(src, i)
  {
    var left := src.deviceSize - i * src.chunkSize;
    var len := if left < src.chunkSize then left else src.chunkSize;
    if len <= 0xFFFF_FFFF then len else 0xFFFF_FFFF
  }

  /** Some extent of the used-block map overlaps chunk `i`. */
  ghost predicate InUse(src: Source, i: nat) {
    exists e :: e in src.extents && e.first < (i + 1) * src.chunkSize && i * src.chunkSize <= e.last
  }

  /** What the device returns for chunk `i`. */
  function Reading(src: Source, i: nat): Option<Bytes>
    requires OnDevice(src, i)
  {
    src.readAt(i * src.chunkSize, LengthOf(src, i))
  }

  /** Chunk `i` is in use and was read in full. */
  ghost predicate ReadInFull(src: Source, i: nat) {
    OnDevice(src, i) && InUse(src, i) && Reading(src, i).Some? && |Reading(src, i).value| == LengthOf(src, i)
  }

  /** Chunk `i` is in use and could not be read in full. */
  ghost predicate Unreadable(src: Source, i: nat) {
    OnDevice(src, i) && InUse(src, i) && !ReadInFull(src, i)
  }

  ghost predicate OnlyZeros(bytes: Bytes) {
    forall k :: 0 <= k < |bytes| ==> bytes[k] == 0
  }

  lemma OnDeviceIsCounted(src: Source, i: nat)
    requires src.Valid()
    ensures OnDevice(src, i) <==> i < src.ChunkCount()
  {
    U.BelowCount(i, src.chunkSize, src.deviceSize);
  }

  /** An extent touches a chunk exactly when it overlaps it. */
  lemma TouchIsOverlap(first: nat, last: nat, chunkSize: nat, i: nat)
    requires chunkSize > 0
    ensures first / chunkSize <= i <==> first < (i + 1) * chunkSize
    ensures i <= last / chunkSize <==> i * chunkSize <= last
  {
    var a, b := first / chunkSize, last / chunkSize;
    assert first == a * chunkSize + first % chunkSize && last == b * chunkSize + last % chunkSize;
    assert (a + 1) * chunkSize == a * chunkSize + chunkSize && (b + 1) * chunkSize == b * chunkSize + chunkSize;
    if a <= i { MulMonotone(a + 1, i + 1, chunkSize); } else { MulMonotone(i + 1, a, chunkSize); }
    if i <= b { MulMonotone(i, b, chunkSize); } else { MulMonotone(b + 1, i, chunkSize); }
  }

  lemma TouchedIsInUse(src: Source, i: nat)
    requires src.Valid()
    ensures U.Touched(src.extents, src.chunkSize, i * src.chunkSize) <==> InUse(src, i)
  {
    DivUnique(i * src.chunkSize, src.chunkSize, i, 0);
    if e :| e in src.extents && e.first / src.chunkSize <= i * src.chunkSize / src.chunkSize <= e.last / src.chunkSize {
      TouchIsOverlap(e.first, e.last, src.chunkSize, i);
    }
    if e :| e in src.extents && e.first < (i + 1) * src.chunkSize && i * src.chunkSize <= e.last {
      TouchIsOverlap(e.first, e.last, src.chunkSize, i);
    }
  }

  /** What a backup takes a chunk to hold, in terms of what the device returned. */
  lemma ContentIsReading(src: Source, i: nat)
    requires src.Valid() && OnDevice(src, i)
    ensures i < src.ChunkCount() && Contents(src)[i] == ContentAt(src, i)
    ensures ContentAt(src, i) == NoData <==> !InUse(src, i)
    ensures ContentAt(src, i) == Lost <==> Unreadable(src, i)
    ensures ContentAt(src, i) == AllZero <==> ReadInFull(src, i) && OnlyZeros(Reading(src, i).value)
    ensures ContentAt(src, i).Bytes? <==> ReadInFull(src, i) && !OnlyZeros(Reading(src, i).value)
    ensures ContentAt(src, i).Bytes? ==> ContentAt(src, i).bytes == Reading(src, i).value
  {
    OnDeviceIsCounted(src, i);
    TouchedIsInUse(src, i);
    U.ChunkAlignedCovers(src.extents, src.chunkSize, src.deviceSize, i * src.chunkSize);
    assert WholePlan(src, i) == U.ChunkPlan(i, i * src.chunkSize, LengthOf(src, i));
    if ReadInFull(src, i) {
      ZerosByByte(Reading(src, i).value);
    }
  }

  lemma ZerosByByte(bytes: Bytes)
    ensures IsAllZero(bytes) <==> OnlyZeros(bytes)
  {
    if OnlyZeros(bytes) {
      forall b | b in bytes ensures b == 0 {
        var k :| 0 <= k < |bytes| && bytes[k] == b;
      }
    } else {
      var k :| 0 <= k < |bytes| && bytes[k] != 0;
      assert bytes[k] in bytes;
    }
  }

  // ---------------------------------------------------------- the round trip

  /** What a reader puts in place of a chunk: a stored payload, zeros, or nothing. */
  function RestoredChunk(chain: seq<Member>, codec: Codec, maxPlaintext: nat, state: ChunkState,
                         len: nat): Option<Bytes>
  {
    match state
    case Stored(_, _, _, _) =>
      var read := ReadPayload(chain, codec, maxPlaintext, state);
      if read.Success? then Some(read.value) else None
    case Zero => Some(seq(len, i => 0))
    case _ => None
  }

  /**
   The chain gives chunk `i` of the device back: nothing where it was not in
   use, a bad sector where it could not be read, and where it was read bytes
   of the same length and hash, which without collisions are the very bytes.
   */
  ghost predicate GivesBack(chain: seq<Member>, src: Source, i: nat, codec: Codec)
    requires OnDevice(src, i)
  {
    var state := Merged(Manifests(chain), i);
    var back := RestoredChunk(chain, codec, src.chunkSize, state, LengthOf(src, i));
    && (state == Unused <==> !InUse(src, i))
    && (state == BadSector <==> Unreadable(src, i))
    && (state == Zero <==> ReadInFull(src, i) && OnlyZeros(Reading(src, i).value))
    && (ReadInFull(src, i) ==>
          && back.Some?
          && codec.hash(back.value) == codec.hash(Reading(src, i).value)
          && (CollisionFree(codec) ==> back.value == Reading(src, i).value))
  }

  /** A state that tells what the source held, with a payload that can be found, gives the chunk back. */
  lemma MatchesGivesBack(chain: seq<Member>, src: Source, i: nat, codec: Codec)
    requires src.Valid() && OnDevice(src, i)
    requires Matches(Merged(Manifests(chain), i), ContentAt(src, i), codec)
    requires Resolves(Merged(Manifests(chain), i), chain, codec, src.chunkSize)
    ensures GivesBack(chain, src, i, codec)
  {
    ContentIsReading(src, i);
    var state := Merged(Manifests(chain), i);
    if ContentAt(src, i).Bytes? {
      ReadsWhatResolves(chain, codec, src.chunkSize, state);
    }
    if ContentAt(src, i) == AllZero {
      assert Reading(src, i).value == seq(LengthOf(src, i), k => 0);
    }
  }

  /** Backup and restore compose to the identity: each recovery point of a grown chain gives the device back. */
  lemma BackedUpIsGivenBack(chain: seq<Member>, sources: seq<Source>, codec: Codec, k: nat, i: nat)
    requires Grown(chain, sources, codec) && k < |chain| && OnDevice(sources[k], i)
    ensures GivesBack(chain[..k + 1], sources[k], i, codec)
  {
    OnDeviceIsCounted(sources[k], i);
    assert Step(chain, sources, codec, 0) && Step(chain, sources, codec, k);
    GrownPrefix(chain, sources, codec, k + 1);
    NewestIsFaithful(chain[..k + 1], sources[..k + 1], codec, i);
    MatchesGivesBack(chain[..k + 1], sources[k], i, codec);
  }

  // -------------------------------------------------------- what ends a backup

  /**
   A member that can be named by an entry is refused exactly when sectors are
   not to be recorded as bad and some chunk in use could not be read in full.
   */
  lemma EndsIffUnreadable(src: Source, parents: seq<ChunkState>, member: nat, codec: Codec, policy: BadSectorPolicy)
    requires src.Valid() && |parents| == src.ChunkCount() && member <= 0x3FFF
    ensures Ends(Contents(src), parents, member, codec, policy) <==> policy.Abort? && exists i :: Unreadable(src, i)
  {
    forall i: nat | i < src.ChunkCount()
      ensures Refused(Contents(src)[i], parents[i], member, codec, policy) <==> policy.Abort? && Unreadable(src, i)
    {
      OnDeviceIsCounted(src, i);
      ContentIsReading(src, i);
    }
    forall i: nat | Unreadable(src, i) ensures i < src.ChunkCount() {
      OnDeviceIsCounted(src, i);
    }
  }

  // ------------------------------------------------------ unchanged sources

  /** Two sources return the same for every chunk, all of it readable. */
  ghost predicate SameReadings(a: Source, b: Source) {
    && a.chunkSize == b.chunkSize && a.deviceSize == b.deviceSize
    && forall i :: OnDevice(a, i) ==>
         && (InUse(a, i) <==> InUse(b, i))
         && !Unreadable(a, i) && !Unreadable(b, i)
         && (InUse(a, i) ==> Reading(a, i) == Reading(b, i))
  }

  lemma SameContent(a: Source, b: Source, i: nat)
    requires a.Valid() && b.Valid() && SameReadings(a, b) && OnDevice(a, i)
    ensures ContentAt(a, i) == ContentAt(b, i) && ContentAt(a, i) != Lost
  {
    ContentIsReading(a, i);
    ContentIsReading(b, i);
  }

  lemma {:induction false} NothingNew(out: seq<Outcome>)
    requires forall i :: 0 <= i < |out| ==> out[i].None?
    ensures Deltas(out) == [] && Kept(out) == |out|
    ensures forall kind :: New(out, kind) == 0
  {
    if out != [] {
      NothingNew(out[..|out| - 1]);
    }
  }

  lemma UnchangedIsKept(m: Member, out: seq<Outcome>, chain: seq<Member>, sources: seq<Source>, src: Source,
                        codec: Codec, i: nat)
    requires Grown(chain, sources, codec) && src.Valid() && SameReadings(sources[|chain| - 1], src)
    requires Wrote(m, out, chain, src, codec) && i < |out|
    ensures out[i].None?
  {
    var last := sources[|chain| - 1];
    assert Step(chain, sources, codec, |chain| - 1);
    OnDeviceIsCounted(last, i);
    OnDeviceIsCounted(src, i);
    SameContent(last, src, i);
    NewestIsFaithful(chain, sources, codec, i);
    OutcomeOfChunk(m, out, chain, src, codec, i);
    ChangeByContent(ContentAt(src, i), Merged(Manifests(chain), i), codec);
  }

  /**
   A source that returns what it returned at the last backup costs nothing: an
   incremental of it has no entries, stores no payload, and counts every chunk
   as inherited. A differential stores no payload either.
   */
  lemma UnchangedCostsNothing(m: Member, out: seq<Outcome>, counts: Counts, chain: seq<Member>, sources: seq<Source>,
                              src: Source, codec: Codec)
    requires Grown(chain, sources, codec) && src.Valid() && SameReadings(sources[|chain| - 1], src)
    requires Wrote(m, out, chain, src, codec) && Counted(counts, out)
    ensures m.records == map[]
    ensures KindOf(m.superblock).Incremental? ==> m.manifest.deltas == [] && m.manifest.entryCount == 0
    ensures counts == Counts(0, 0, 0, 0, |out|) && (forall i: nat :: i < |out| <==> OnDevice(src, i))
  {
    forall i | 0 <= i < |out| ensures out[i].None? {
      UnchangedIsKept(m, out, chain, sources, src, codec, i);
    }
    NothingNew(out);
    assert m.records.Keys == {};
    forall i: nat ensures i < |out| <==> OnDevice(src, i) {
      OnDeviceIsCounted(src, i);
    }
  }

  // ------------------------------------------------------------- the counters

  ghost function NewOnes(out: seq<Outcome>, kind: Kind): set<nat> {
    set i: nat | i < |out| && IsNew(out[i], kind)
  }

  ghost function KeptOnes(out: seq<Outcome>): set<nat> {
    set i: nat | i < |out| && out[i].None?
  }

  lemma NewOneMore(out: seq<Outcome>, kind: Kind)
    requires out != []
    ensures var n := |out| - 1;
            && NewOnes(out, kind) == NewOnes(out[..n], kind) + (if IsNew(out[n], kind) then {n} else {})
            && n !in NewOnes(out[..n], kind)
  {
  }

  lemma KeptOneMore(out: seq<Outcome>)
    requires out != []
    ensures var n := |out| - 1;
            && KeptOnes(out) == KeptOnes(out[..n]) + (if out[n].None? then {n} else {})
            && n !in KeptOnes(out[..n])
  {
  }

  /** The counters count chunks. */
  lemma {:induction false} CountersCount(out: seq<Outcome>, kind: Kind)
    ensures New(out, kind) == |NewOnes(out, kind)| && Kept(out) == |KeptOnes(out)|
  {
    if out != [] {
      CountersCount(out[..|out| - 1], kind);
      NewOneMore(out, kind);
      KeptOneMore(out);
    }
  }

  ghost function ChunksOf(src: Source, kind: Kind): set<nat>
    requires src.Valid()
  {
    set i: nat | i < src.ChunkCount() && IsOfKind(src, i, kind)
  }

  /** What the device returned for chunk `i`, by kind. */
  ghost predicate IsOfKind(src: Source, i: nat, kind: Kind) {
    match kind
    case AnyNew => InUse(src, i)
    case StoredNew => ReadInFull(src, i) && !OnlyZeros(Reading(src, i).value)
    case ZeroNew => ReadInFull(src, i) && OnlyZeros(Reading(src, i).value)
    case BadNew => Unreadable(src, i)
    case UnusedNew => false
  }

  lemma FullOutcome(m: Member, out: seq<Outcome>, src: Source, codec: Codec, i: nat, kind: Kind)
    requires src.Valid() && Wrote(m, out, [], src, codec) && i < src.ChunkCount()
    ensures IsNew(out[i], kind) <==> IsOfKind(src, i, kind)
  {
    OnDeviceIsCounted(src, i);
    ContentIsReading(src, i);
    OutcomeOfChunk(m, out, [], src, codec, i);
  }

  /** A full reports how many chunks of the device hold data, hold only zeros, and could not be read. */
  lemma FullCounts(m: Member, out: seq<Outcome>, counts: Counts, src: Source, codec: Codec)
    requires src.Valid() && Wrote(m, out, [], src, codec)
    requires Counted(counts.(changed := New(out, AnyNew), inherited := Kept(out)), out)
    ensures counts.stored == |ChunksOf(src, StoredNew)|
    ensures counts.zero == |ChunksOf(src, ZeroNew)|
    ensures counts.bad == |ChunksOf(src, BadNew)|
  {
    forall kind ensures New(out, kind) == |ChunksOf(src, kind)| {
      CountersCount(out, kind);
      forall i: nat | i < src.ChunkCount() ensures i in NewOnes(out, kind) <==> i in ChunksOf(src, kind) {
        FullOutcome(m, out, src, codec, i, kind);
      }
      assert NewOnes(out, kind) == ChunksOf(src, kind);
    }
  }
}
