/**
 One block backup: reading the used chunks in order, storing what differs from
 the parent chain, and writing a full or a delta manifest.
 */
module Backup {
  import opened Wrappers
  import opened Arithmetic
  import opened Manifest
  import opened Chain
  import opened Superblocks
  import U = UsedChunks
  import Sorting

  /** The content hash and codec of one chain; every member shares them. */
  datatype Codec = Codec(hash: Bytes -> Digest, storedLen: Bytes -> nat, encrypted: bool)

  datatype BadSectorPolicy = Abort | Record

  /** A frozen source: its used-block map and what a read of `(offset, len)` returns. */
  datatype Source = Source(
    chunkSize: nat,
    deviceSize: nat,
    extents: seq<U.Region>,
    readAt: (nat, nat) -> Option<Bytes>)
  {

    /** Nonempty, a real chunk size, and a map of well-formed extents. */
    ghost predicate Valid() {
      chunkSize > 0 && deviceSize > 0 && forall e :: e in extents ==> e.first <= e.last
    }

    ghost function Regions(): (rs: seq<U.Region>)
      requires Valid()
      ensures U.Planned(rs, chunkSize, deviceSize)
    {
      U.ChunkAlignedPlanned(extents, chunkSize, deviceSize);
      U.ChunkAligned(extents, chunkSize, deviceSize)
    }

    function ChunkCount(): nat
      requires chunkSize > 0
    {
      DivCeil(deviceSize, chunkSize)
    }
  }

  datatype ReadOutcome = Data(bytes: Bytes) | ReadFailed

  /** One planned read; a failed or short read is a bad sector. */
  function ReadChunk(src: Source, plan: U.ChunkPlan): (r: ReadOutcome)
    ensures r.Data? ==> |r.bytes| == plan.len
  {
    match src.readAt(plan.offset, plan.len)
    case None => ReadFailed
    case Some(bytes) => if |bytes| == plan.len then Data(bytes) else ReadFailed
  }

  predicate IsAllZero(bytes: Bytes) {
    forall b :: b in bytes ==> b == 0
  }

  /** Contents of a chunk, as far as a backup can tell them apart. */
  datatype Content = NoData | AllZero | Lost | Bytes(bytes: Bytes)

  function ContentOf(r: ReadOutcome): Content {
    match r
    case ReadFailed => Lost
    case Data(bytes) => if IsAllZero(bytes) then AllZero else Content.Bytes(bytes)
  }

  /** The read that covers chunk `i` whole. */
  function WholePlan(src: Source, i: nat): U.ChunkPlan
    requires src.chunkSize > 0
  {
    U.ChunkPlan(i, i * src.chunkSize, Max(0, Min(Min(src.chunkSize, src.deviceSize - i * src.chunkSize), U.U32_MAX)))
  }

  /** What the source holds in chunk `i`: nothing outside the used-block map. */
  ghost function ContentAt(src: Source, i: nat): Content
    requires src.Valid()
  {
    if U.Covers(src.Regions(), i * src.chunkSize) then ContentOf(ReadChunk(src, WholePlan(src, i))) else NoData
  }

  /** A content as a chunk state; only the kind and the hash matter to the change table. */
  function AsState(c: Content, codec: Codec): ChunkState {
    match c
    case NoData => Unused
    case AllZero => Zero
    case Lost => BadSector
    case Bytes(bytes) => Stored(0, codec.hash(bytes), 0, 0)
  }

  /** The recorded state tells what the source held, by hash where it held data. */
  predicate Matches(state: ChunkState, c: Content, codec: Codec) {
    match c
    case NoData => state == Unused
    case AllZero => state == Zero
    case Lost => state == BadSector
    case Bytes(bytes) => state.Stored? && state.hash == codec.hash(bytes)
  }

  // ------------------------------------------------------------ image writer

  const SB_SIZE: nat := 4096
  const CHUNK_HEADER_LEN: nat := 19
  const CHUNK_TAG_LEN: nat := 16

  /** The chunk region of the image being written. */
  class ImageWriter {
    const codec: Codec
    var records: map<nat, Bytes>
    var position: nat

    constructor (codec: Codec)
      ensures this.codec == codec && records == map[] && position == SB_SIZE && Valid()
    {
      this.codec := codec;
      this.records := map[];
      this.position := SB_SIZE;
    }

    /** The bytes a record takes up in the file: a header of 19, the stored payload, and a tag of 16 if encrypted. */
    ghost function Extent(bytes: Bytes): nat
      ensures Extent(bytes) > 0
    {
      19 + codec.storedLen(bytes) + if codec.encrypted then 16 else 0
    }

    /** Records lie apart, behind the superblock and before the write position, so a new one overwrites none. */
    ghost predicate Valid()
      reads this
    {
      && position >= SB_SIZE
      && (forall o :: o in records ==> SB_SIZE <= o && o + Extent(records[o]) <= position)
      && (forall o, p :: o in records && p in records && o < p ==> o + Extent(records[o]) <= p)
    }

    method AppendChunk(bytes: Bytes) returns (hash: Digest, offset: nat, storedLen: nat)
      requires Valid()
      modifies this
      ensures Valid() && offset == old(position) && offset !in old(records)
      ensures position == offset + Extent(bytes)
      ensures records == old(records)[offset := bytes]
      ensures hash == codec.hash(bytes) && storedLen == codec.storedLen(bytes)
    {
      hash, storedLen := codec.hash(bytes), codec.storedLen(bytes);
      offset := position;
      records := records[offset := bytes];
      position := position + CHUNK_HEADER_LEN + storedLen + if codec.encrypted then CHUNK_TAG_LEN else 0;
    }
  }

  // ---------------------------------------------------------------- outcomes

  /** What a backup decides for one chunk: keep the parent's state, or a new entry. */
  type Outcome = Option<BlockEntry>

  predicate IsStored(o: Outcome) {
    o.Some? && StateOf(o.value).Stored?
  }

  /** A new entry of member `member` for content `c`, with its payload among the records. */
  ghost predicate Recorded(e: BlockEntry, c: Content, member: nat, codec: Codec, records: map<nat, Bytes>) {
    var state := StateOf(e);
    && Matches(state, c, codec)
    && (c.Bytes? ==> state.member == member && state.offset in records && records[state.offset] == c.bytes)
  }

  /** The outcome follows the change table: an entry exactly for a change, and the right one. */
  ghost predicate Decided(o: Outcome, c: Content, parent: ChunkState, member: nat, codec: Codec,
                          records: map<nat, Bytes>)
  {
    && (o.Some? <==> IsChange(AsState(c, codec), parent))
    && (o.Some? ==> Recorded(o.value, c, member, codec, records))
  }

  /** The first `|out|` chunks are decided. */
  ghost predicate Decisions(out: seq<Outcome>, parents: seq<ChunkState>, contents: seq<Content>, member: nat,
                            codec: Codec, records: map<nat, Bytes>)
  {
    && |out| <= |parents| == |contents|
    && forall i :: 0 <= i < |out| ==> Decided(out[i], contents[i], parents[i], member, codec, records)
  }

  /** The offset of the payload that `o` stores. */
  ghost predicate StoresAt(o: Outcome, offset: nat) {
    IsStored(o) && o.value.offset == offset
  }

  /** The records are exactly the new payloads, each stored once. */
  ghost predicate Ledger(out: seq<Outcome>, records: map<nat, Bytes>) {
    && (forall r :: r in records ==> exists i :: 0 <= i < |out| && StoresAt(out[i], r))
    && (forall i, r :: 0 <= i < |out| && StoresAt(out[i], r) ==> r in records)
    && forall i, j, r :: 0 <= i < j < |out| && StoresAt(out[i], r) ==> !StoresAt(out[j], r)
  }

  ghost predicate Scanned(out: seq<Outcome>, parents: seq<ChunkState>, contents: seq<Content>, member: nat,
                          codec: Codec, records: map<nat, Bytes>)
  {
    Decisions(out, parents, contents, member, codec, records) && Ledger(out, records)
  }

  lemma DecisionsStep(out: seq<Outcome>, o: Outcome, parents: seq<ChunkState>, contents: seq<Content>, member: nat,
                      codec: Codec, before: map<nat, Bytes>, records: map<nat, Bytes>)
    requires Decisions(out, parents, contents, member, codec, before) && |out| < |parents|
    requires forall r :: r in before ==> r in records && records[r] == before[r]
    requires Decided(o, contents[|out|], parents[|out|], member, codec, records)
    ensures Decisions(out + [o], parents, contents, member, codec, records)
  {
    forall i | 0 <= i < |out + [o]| ensures Decided((out + [o])[i], contents[i], parents[i], member, codec, records) {
      if i < |out| {
        assert Decided(out[i], contents[i], parents[i], member, codec, before);
      }
    }
  }

  lemma LedgerStep(out: seq<Outcome>, o: Outcome, before: map<nat, Bytes>, records: map<nat, Bytes>)
    requires Ledger(out, before)
    requires IsStored(o) ==> o.value.offset !in before
    requires records.Keys == before.Keys + if IsStored(o) then {o.value.offset} else {}
    ensures Ledger(out + [o], records)
  {
    var all := out + [o];
    assert forall i :: 0 <= i < |out| ==> all[i] == out[i];
    forall r | r in records ensures exists i :: 0 <= i < |all| && StoresAt(all[i], r) {
      if r in before {
        var i :| 0 <= i < |out| && StoresAt(out[i], r);
        assert StoresAt(all[i], r);
      } else {
        assert StoresAt(all[|out|], r);
      }
    }
  }

  // ----------------------------------------------------- manifests of a scan

  /** The entries of a full manifest: kept states are copied from the parent. */
  ghost function FullEntries(out: seq<Outcome>, parents: seq<ChunkState>): (entries: seq<BlockEntry>)
    requires |out| <= |parents|
    ensures |entries| == |out|
  {
    seq(|out|, i requires 0 <= i < |out| => if out[i].Some? then out[i].value else EntryOf(parents[i]))
  }

  /** The entries of a delta manifest: changed chunks only. */
  ghost function Deltas(out: seq<Outcome>): seq<DeltaEntry> {
    if out == [] then []
    else Deltas(out[..|out| - 1])
         + if out[|out| - 1].Some? then [DeltaEntry(|out| - 1, out[|out| - 1].value)] else []
  }

  lemma {:induction false} DeltasOrdered(out: seq<Outcome>)
    ensures Ascending(Deltas(out))
    ensures forall j :: 0 <= j < |Deltas(out)| ==> Deltas(out)[j].chunkNo < |out|
  {
    if out != [] {
      DeltasOrdered(out[..|out| - 1]);
    }
  }

  lemma {:induction false} DeltasFind(out: seq<Outcome>, i: nat)
    ensures FindDelta(Deltas(out), i) == if i < |out| then out[i] else None
  {
    if out != [] {
      var n := |out| - 1;
      DeltasFind(out[..n], i);
      if out[n].Some? {
        assert Deltas(out)[..|Deltas(out)| - 1] == Deltas(out[..n]);
        DeltasOrdered(out[..n]);
        if i == n { assert FindDelta(Deltas(out), i) == Some(out[n].value); }
      } else {
        assert Deltas(out) == Deltas(out[..n]);
      }
      if i < n { assert out[..n][i] == out[i]; }
    }
  }

  // ------------------------------------------------------------ the plan

  /** What the source holds, chunk by chunk. */
  ghost function Contents(src: Source): (cs: seq<Content>)
    requires src.Valid()
    ensures |cs| == src.ChunkCount()
  {
    seq(src.ChunkCount(), i requires 0 <= i < src.ChunkCount() => ContentAt(src, i))
  }

  /** The reads of `plans` are those of the source's used chunks, in order; other chunks hold nothing. */
  ghost predicate ReadsAll(src: Source, plans: seq<U.ChunkPlan>, contents: seq<Content>) {
    && U.Ascending(plans)
    && (forall j :: 0 <= j < |plans| ==>
          plans[j].index < |contents| && contents[plans[j].index] == ContentOf(ReadChunk(src, plans[j])))
    && (forall i :: 0 <= i < |contents| && (forall j :: 0 <= j < |plans| ==> plans[j].index != i) ==>
                      contents[i] == NoData)
  }

  lemma PlanReadsAll(src: Source)
    requires src.Valid()
    ensures ReadsAll(src, U.PlansFrom(src.Regions(), 0, 0, src.chunkSize, src.deviceSize), Contents(src))
  {
    var rs, contents := src.Regions(), Contents(src);
    var plans := U.PlansFrom(rs, 0, 0, src.chunkSize, src.deviceSize);
    U.PlansExact(rs, src.chunkSize, src.deviceSize);
    forall j | 0 <= j < |plans|
      ensures contents[plans[j].index] == ContentOf(ReadChunk(src, plans[j]))
    {
      assert plans[j] == WholePlan(src, plans[j].index);
      assert U.Covers(rs, plans[j].index * src.chunkSize);
    }
  }

  // ------------------------------------------------------------ one chunk

  /** The finding for one chunk: how the source compares with the parent there, and the entry that calls for. */
  datatype SourceState =
    | Unchanged
    | NewStored(entry: BlockEntry)
    | NewZero
    | NewBad(entry: BlockEntry)
    | Missing

  function OutcomeOf(s: SourceState): Outcome {
    match s
    case Unchanged => None
    case NewStored(e) => Some(e)
    case NewZero => Some(ZeroEntry())
    case NewBad(e) => Some(e)
    case Missing => Some(UnusedEntry())
  }

  /** The records grew by exactly the payload `o` stores, if it stores one. */
  ghost predicate Grew(o: Outcome, before: map<nat, Bytes>, records: map<nat, Bytes>) {
    && (forall r :: r in before ==> r in records && records[r] == before[r])
    && (IsStored(o) ==> o.value.offset !in before)
    && records.Keys == before.Keys + if IsStored(o) then {o.value.offset} else {}
  }

  /**
   Whether a chunk ends the backup: an unreadable one under `Abort`, or a payload of a member too late to be
   named.
   */
  predicate Refused(c: Content, parent: ChunkState, member: nat, codec: Codec, policy: BadSectorPolicy) {
    || (c.Lost? && policy.Abort?)
    || (c.Bytes? && IsChange(AsState(c, codec), parent) && member > MAX_MEMBER)
  }

  /** A source state that was found honestly: its payload, if any, is fresh and it follows the change table. */
  ghost predicate Found(state: SourceState, c: Content, parent: ChunkState, member: nat, codec: Codec,
                        policy: BadSectorPolicy, before: map<nat, Bytes>, records: map<nat, Bytes>)
  {
    && Decided(OutcomeOf(state), c, parent, member, codec, records)
    && Grew(OutcomeOf(state), before, records)
    && !Refused(c, parent, member, codec, policy)
    && (state.NewStored? <==> IsStored(OutcomeOf(state)))
    && (state.NewBad? ==> StateOf(state.entry) == BadSector)
  }

  /** A chunk outside the used-block map is unchanged if it was unused before, and has left the map otherwise. */
  lemma FoundHole(parent: ChunkState, member: nat, codec: Codec, policy: BadSectorPolicy, records: map<nat, Bytes>)
    ensures Found(if parent.Unused? then Unchanged else Missing, NoData, parent, member, codec, policy, records,
                  records)
  {
  }

  /** Compare one chunk with its parent state; a payload is appended only for new data. */
  method StoreChunk(writer: ImageWriter, member: nat, src: Source, plan: U.ChunkPlan, parent: ChunkState,
                    policy: BadSectorPolicy)
    returns (r: Result<SourceState>)
    requires writer.Valid()
    modifies writer
    ensures writer.Valid()
    ensures var c := ContentOf(ReadChunk(src, plan));
            && (r.Failure? ==> Refused(c, parent, member, writer.codec, policy))
            && (r.Success? ==> r.value != Missing
                               && Found(r.value, c, parent, member, writer.codec, policy, old(writer.records),
                                        writer.records))
  {
    match ReadChunk(src, plan) {
      case Data(bytes) =>
        if IsAllZero(bytes) {
          return Success(if parent.Zero? then Unchanged else NewZero);
        }
        var hash := writer.codec.hash(bytes);
        if parent.Stored? && parent.hash == hash {
          return Success(Unchanged);
        }
        var h, offset, storedLen := writer.AppendChunk(bytes);
        var entry :- StoredEntry(member, h, offset, storedLen);
        return Success(NewStored(entry));
      case ReadFailed =>
        if policy.Abort? {
          return Failure(BadRead);
        }
        return Success(NewBad(BadSectorEntry(plan.offset, plan.len)));
    }
  }

  // ------------------------------------------------------------ counters

  datatype Counts = Counts(stored: nat, zero: nat, bad: nat, changed: nat, inherited: nat)

  const NO_COUNTS := Counts(0, 0, 0, 0, 0)

  function CountState(c: Counts, s: SourceState): Counts {
    match s
    case Unchanged => c.(inherited := c.inherited + 1)
    case NewStored(_) => c.(stored := c.stored + 1, changed := c.changed + 1)
    case NewZero => c.(zero := c.zero + 1, changed := c.changed + 1)
    case NewBad(_) => c.(bad := c.bad + 1, changed := c.changed + 1)
    case Missing => c.(changed := c.changed + 1)
  }

  datatype Kind = AnyNew | StoredNew | ZeroNew | BadNew | UnusedNew

  /** An outcome that adds an entry of the given kind. */
  predicate IsNew(o: Outcome, kind: Kind) {
    o.Some? &&
    match kind
    case AnyNew => true
    case StoredNew => StateOf(o.value).Stored?
    case ZeroNew => StateOf(o.value).Zero?
    case BadNew => StateOf(o.value).BadSector?
    case UnusedNew => StateOf(o.value).Unused?
  }

  /** How many chunks get a new entry of one kind. */
  ghost function New(out: seq<Outcome>, kind: Kind): nat {
    if out == [] then 0 else New(out[..|out| - 1], kind) + if IsNew(out[|out| - 1], kind) then 1 else 0
  }

  /** How many chunks keep their parent's state. */
  ghost function Kept(out: seq<Outcome>): nat {
    if out == [] then 0 else Kept(out[..|out| - 1]) + if out[|out| - 1].None? then 1 else 0
  }

  /** The counters say how many chunks of each kind `out` holds. */
  ghost predicate Counted(c: Counts, out: seq<Outcome>) {
    && c.stored == New(out, StoredNew)
    && c.zero == New(out, ZeroNew)
    && c.bad == New(out, BadNew)
    && c.changed == New(out, AnyNew)
    && c.inherited == Kept(out)
  }

  lemma CountedStep(c: Counts, out: seq<Outcome>, s: SourceState)
    requires Counted(c, out)
    requires s.NewStored? <==> IsStored(OutcomeOf(s))
    requires s.NewBad? ==> StateOf(s.entry) == BadSector
    ensures Counted(CountState(c, s), out + [OutcomeOf(s)])
  {
    assert (out + [OutcomeOf(s)])[..|out|] == out;
  }

  // ------------------------------------------------------------ the spool

  /** The manifest being written; its entry count is patched at the end. */
  class Spool {
    var manifest: Manifest

    constructor (manifest: Manifest)
      ensures this.manifest == manifest
    {
      this.manifest := manifest;
    }

    method WriteEntry(e: BlockEntry)
      requires manifest.FullManifest?
      modifies this
      ensures manifest == old(manifest).(entries := old(manifest).entries + [e])
    {
      manifest := manifest.(entries := manifest.entries + [e]);
    }

    method WriteDelta(d: DeltaEntry)
      requires manifest.DeltaManifest?
      modifies this
      ensures manifest == old(manifest).(deltas := old(manifest).deltas + [d])
    {
      manifest := manifest.(deltas := manifest.deltas + [d]);
    }

    method PatchEntryCount(entryCount: nat)
      modifies this
      ensures manifest == old(manifest).(entryCount := entryCount)
    {
      manifest := manifest.(entryCount := entryCount);
    }
  }

  // ------------------------------------------------------------ one pass

  /** Some chunk ends the backup. */
  ghost predicate Ends(contents: seq<Content>, parents: seq<ChunkState>, member: nat, codec: Codec,
                       policy: BadSectorPolicy)
    requires |contents| == |parents|
  {
    exists i :: 0 <= i < |contents| && Refused(contents[i], parents[i], member, codec, policy)
  }

  /** The manifest of a scan: the header as written, and the entries the outcomes call for. */
  ghost function SpoolOf(header: Manifest, out: seq<Outcome>, parents: seq<ChunkState>): Manifest
    requires |out| <= |parents|
  {
    if header.FullManifest? then header.(entries := FullEntries(out, parents)) else header.(deltas := Deltas(out))
  }

  /** The manifest after one more outcome. */
  function Extended(manifest: Manifest, index: nat, o: Outcome, parent: ChunkState): Manifest {
    match manifest
    case FullManifest(_, _, _, entries) =>
      manifest.(entries := entries + [if o.Some? then o.value else EntryOf(parent)])
    case DeltaManifest(_, _, _, deltas) =>
      manifest.(deltas := deltas + if o.Some? then [DeltaEntry(index, o.value)] else [])
  }

  /** One pass over a source: which member it writes, and what it does about bad sectors. */
  datatype Pass = Pass(src: Source, member: nat, policy: BadSectorPolicy)

  /** How far a pass got: an outcome for each chunk so far, and the counters. */
  datatype Progress = Progress(out: seq<Outcome>, counts: Counts) {
    function Next(state: SourceState): Progress {
      Progress(out + [OutcomeOf(state)], CountState(counts, state))
    }
  }

  /** What a pass is held against: its reads, the contents they find, the parent states and the spooled header. */
  datatype Task = Task(pass: Pass, codec: Codec, plans: seq<U.ChunkPlan>, contents: seq<Content>,
                       parents: seq<ChunkState>, header: Manifest)
  {
    ghost predicate Valid() {
      pass.src.Valid() && ReadsAll(pass.src, plans, contents) && |parents| == |contents| == pass.src.ChunkCount()
    }

    /** Chunk `i` ends the pass. */
    predicate Refuses(i: nat)
      requires i < |contents| == |parents|
    {
      Refused(contents[i], parents[i], pass.member, codec, pass.policy)
    }

    /** A full image has nothing to inherit. */
    ghost predicate IsFull() {
      header.FullManifest? && pass.member == 0 && parents == Blank(|contents|)
    }

    /** The state of a pass: what was decided, stored and spooled so far. */
    ghost predicate Spooled(out: seq<Outcome>, records: map<nat, Bytes>, manifest: Manifest) {
      && Scanned(out, parents, contents, pass.member, codec, records)
      && manifest == SpoolOf(header, out, parents)
    }

    /** Everything the loops of a pass keep. */
    ghost predicate InStep(p: Progress, records: map<nat, Bytes>, manifest: Manifest) {
      && Spooled(p.out, records, manifest)
      && Counted(p.counts, p.out)
      && forall i :: 0 <= i < |p.out| ==> !Refuses(i)
    }
  }

  ghost function Blank(n: nat): (parents: seq<ChunkState>)
    ensures |parents| == n
  {
    seq(n, i => Unused)
  }

  lemma PassStarts(t: Task)
    requires t.Valid()
    requires match t.header case FullManifest(_, _, _, es) => es == [] case DeltaManifest(_, _, _, ds) => ds == []
    ensures t.InStep(Progress([], NO_COUNTS), map[], t.header)
  {
  }

  lemma SpoolStep(t: Task, out: seq<Outcome>, o: Outcome, before: map<nat, Bytes>, records: map<nat, Bytes>,
                  manifest: Manifest)
    requires t.Valid() && t.Spooled(out, before, manifest) && |out| < |t.parents|
    requires Grew(o, before, records)
    requires Decided(o, t.contents[|out|], t.parents[|out|], t.pass.member, t.codec, records)
    ensures t.Spooled(out + [o], records, Extended(manifest, |out|, o, t.parents[|out|]))
  {
    DecisionsStep(out, o, t.parents, t.contents, t.pass.member, t.codec, before, records);
    LedgerStep(out, o, before, records);
    SpoolOfStep(t.header, out, o, t.parents);
  }

  lemma SpoolOfStep(header: Manifest, out: seq<Outcome>, o: Outcome, parents: seq<ChunkState>)
    requires |out| < |parents|
    ensures SpoolOf(header, out + [o], parents) == Extended(SpoolOf(header, out, parents), |out|, o, parents[|out|])
  {
    if header.FullManifest? {
      assert FullEntries(out + [o], parents) ==
             FullEntries(out, parents) + [if o.Some? then o.value else EntryOf(parents[|out|])];
    } else {
      assert (out + [o])[..|out|] == out;
    }
  }

  /** One more chunk found, counted and spooled. */
  lemma PassStep(t: Task, p: Progress, state: SourceState, before: map<nat, Bytes>, records: map<nat, Bytes>,
                 manifest: Manifest)
    requires t.Valid() && t.InStep(p, before, manifest) && |p.out| < |t.parents|
    requires Found(state, t.contents[|p.out|], t.parents[|p.out|], t.pass.member, t.codec, t.pass.policy, before,
                   records)
    ensures t.InStep(p.Next(state), records, Extended(manifest, |p.out|, OutcomeOf(state), t.parents[|p.out|]))
  {
    SpoolStep(t, p.out, OutcomeOf(state), before, records, manifest);
    CountedStep(p.counts, p.out, state);
  }

  lemma PassComplete(t: Task, p: Progress, records: map<nat, Bytes>, manifest: Manifest)
    requires t.Valid() && t.InStep(p, records, manifest) && |p.out| == |t.contents|
    ensures !Ends(t.contents, t.parents, t.pass.member, t.codec, t.pass.policy)
  {
    forall i | 0 <= i < |t.contents|
      ensures !Refused(t.contents[i], t.parents[i], t.pass.member, t.codec, t.pass.policy)
    {
      assert !t.Refuses(i);
    }
  }

  // ------------------------------------------------------------ full members

  /** Fill the chunks up to `end` with unused entries. */
  method FillUnused(spool: Spool, first: nat, end: nat, ghost t: Task, ghost p0: Progress,
                    ghost records: map<nat, Bytes>)
    returns (ghost p: Progress)
    requires t.Valid() && t.IsFull() && t.InStep(p0, records, spool.manifest)
    requires |p0.out| == first <= end <= |t.contents|
    requires forall i :: first <= i < end ==> t.contents[i] == NoData
    modifies spool
    ensures t.InStep(p, records, spool.manifest)
    ensures |p.out| == end && p.counts == p0.counts.(inherited := p.counts.inherited)
  {
    p := p0;
    for i := first to end
      invariant |p.out| == i && p.counts == p0.counts.(inherited := p.counts.inherited)
      invariant t.InStep(p, records, spool.manifest)
    {
      FoundHole(Unused, 0, t.codec, t.pass.policy, records);
      PassStep(t, p, Unchanged, records, records, spool.manifest);
      spool.WriteEntry(UnusedEntry());
      p := p.Next(Unchanged);
    }
  }

  /** The counters a full image reports: what is inherited or changed is not counted. */
  function Tally(all: Counts): Counts {
    all.(changed := 0, inherited := 0)
  }

  /** Count and spool what was found in one chunk of a full image. */
  method WriteFound(spool: Spool, counts0: Counts, state: SourceState, ghost all: Counts)
    returns (counts: Counts)
    requires spool.manifest.FullManifest? && state != Missing && counts0 == Tally(all)
    modifies spool
    ensures counts == Tally(CountState(all, state))
    ensures forall index :: spool.manifest == Extended(old(spool.manifest), index, OutcomeOf(state), Unused)
  {
    counts := counts0;
    if state.NewStored? {
      counts := counts.(stored := counts.stored + 1);
      spool.WriteEntry(state.entry);
    } else if state.NewZero? {
      counts := counts.(zero := counts.zero + 1);
      spool.WriteEntry(ZeroEntry());
    } else if state.NewBad? {
      counts := counts.(bad := counts.bad + 1);
      spool.WriteEntry(state.entry);
    } else {
      spool.WriteEntry(UnusedEntry());
    }
  }

  /** One planned chunk of a full image. */
  method WriteChunk(writer: ImageWriter, pass: Pass, chunk: U.ChunkPlan, spool: Spool, counts0: Counts,
                    ghost t: Task, ghost p0: Progress)
    returns (r: Result<Counts>, ghost p: Progress)
    requires writer.Valid() && t.Valid() && t.IsFull() && t.pass == pass && t.codec == writer.codec
    requires t.InStep(p0, writer.records, spool.manifest) && counts0 == Tally(p0.counts)
    requires |p0.out| == chunk.index < |t.contents| && t.contents[chunk.index] == ContentOf(ReadChunk(pass.src, chunk))
    modifies writer, spool
    ensures writer.Valid()
    ensures r.Failure? ==> t.Refuses(chunk.index)
    ensures r.Success? ==> t.InStep(p, writer.records, spool.manifest)
    ensures r.Success? ==> |p.out| == chunk.index + 1 && r.value == Tally(p.counts)
  {
    ghost var before := writer.records;
    var state := StoreChunk(writer, 0, pass.src, chunk, Unused, pass.policy);
    if state.Failure? {
      return Failure(state.error), p0;
    }
    PassStep(t, p0, state.value, before, writer.records, spool.manifest);
    var counts := WriteFound(spool, counts0, state.value, p0.counts);
    return Success(counts), p0.Next(state.value);
  }

  /** One round of a full manifest: the hole before the awaited chunk, then the chunk. */
  method WriteRound(writer: ImageWriter, pass: Pass, chunk: U.ChunkPlan, spool: Spool, nextIndex: nat, counts0: Counts,
                    ghost t: Task, ghost p0: Progress, ghost done: nat)
    returns (r: Result<Counts>, ghost p: Progress)
    requires writer.Valid() && t.Valid() && t.IsFull() && t.pass == pass && t.codec == writer.codec
    requires t.InStep(p0, writer.records, spool.manifest) && counts0 == Tally(p0.counts)
    requires done < |t.plans| && t.plans[done] == chunk && |p0.out| == nextIndex <= chunk.index
    requires forall j :: 0 <= j < done ==> t.plans[j].index < nextIndex
    modifies writer, spool
    ensures writer.Valid()
    ensures r.Failure? ==> t.Refuses(chunk.index)
    ensures r.Success? ==> t.InStep(p, writer.records, spool.manifest)
    ensures r.Success? ==> |p.out| == chunk.index + 1 && r.value == Tally(p.counts)
  {
    HoleBefore(pass.src, t.plans, t.contents, done, nextIndex);
    p := FillUnused(spool, nextIndex, chunk.index, t, p0, writer.records);
    r, p := WriteChunk(writer, pass, chunk, spool, counts0, t, p);
  }

  /** The manifest of a full: one entry per chunk of the device, used or not. */
  method WriteFullEntries(writer: ImageWriter, pass: Pass, plan: U.UsedChunks, spool: Spool, ghost t: Task)
    returns (r: Result<Counts>, ghost p: Progress)
    requires writer.Valid() && plan.Valid() && t.Valid() && t.IsFull()
    requires t == Task(pass, writer.codec, plan.Remaining(), t.contents, t.parents, spool.manifest)
    requires writer.records == map[] && spool.manifest.entries == []
    modifies writer, plan, spool
    ensures r.Failure? <==> Ends(t.contents, t.parents, 0, t.codec, pass.policy)
    ensures r.Success? ==> |p.out| == |t.contents| && t.Spooled(p.out, writer.records, spool.manifest)
    ensures r.Success? ==> Counted(p.counts, p.out) && r.value == Tally(p.counts)
  {
    PassStarts(t);
    p := Progress([], NO_COUNTS);
    ghost var done: nat := 0;
    var counts := NO_COUNTS;
    var nextIndex: nat := 0;
    var next := Await(plan, t.plans, 0, 0);
    while next.Some?
      invariant writer.Valid() && plan.Valid()
      invariant Awaiting(t.plans, done, next, plan.Remaining(), nextIndex)
      invariant |p.out| == nextIndex <= |t.contents| && counts == Tally(p.counts)
      invariant t.InStep(p, writer.records, spool.manifest)
      decreases |t.plans| - done
    {
      var chunk := next.value;
      var written;
      written, p := WriteRound(writer, pass, chunk, spool, nextIndex, counts, t, p, done);
      if written.Failure? {
        assert t.Refuses(chunk.index);
        return Failure(written.error), p;
      }
      counts := written.value;
      nextIndex, done := chunk.index + 1, done + 1;
      next := Await(plan, t.plans, done, nextIndex);
    }
    p := WriteTail(spool, pass, nextIndex, t, p, writer.records);
    PassComplete(t, p, writer.records, spool.manifest);
    return Success(counts), p;
  }

  /** The hole after the last planned chunk. */
  method WriteTail(spool: Spool, pass: Pass, nextIndex: nat, ghost t: Task, ghost p0: Progress,
                   ghost records: map<nat, Bytes>)
    returns (ghost p: Progress)
    requires t.Valid() && t.IsFull() && t.pass == pass && t.InStep(p0, records, spool.manifest)
    requires |p0.out| == nextIndex <= |t.contents|
    requires forall j :: 0 <= j < |t.plans| ==> t.plans[j].index < nextIndex
    modifies spool
    ensures t.InStep(p, records, spool.manifest)
    ensures |p.out| == |t.contents| && Tally(p.counts) == Tally(p0.counts)
  {
    HoleAfter(pass.src, t.plans, t.contents, nextIndex);
    p := FillUnused(spool, nextIndex, pass.src.ChunkCount(), t, p0, records);
  }

  // ------------------------------------------------------------ the plan, awaited

  /** `next` is plan number `done`, the rest follows, and chunk `index` has passed only the plans before it. */
  ghost predicate Awaiting(plans: seq<U.ChunkPlan>, done: nat, next: Option<U.ChunkPlan>, rest: seq<U.ChunkPlan>,
                           index: nat)
  {
    && done <= |plans|
    && (next.Some? ==>
          done < |plans| && next.value == plans[done] && rest == plans[done + 1..] && index <= plans[done].index)
    && (next.None? ==> done == |plans| && rest == [])
    && (forall j :: 0 <= j < done ==> plans[j].index < index)
  }

  /** Take the next plan, just after chunk `index - 1` was the one before it. */
  method Await(plan: U.UsedChunks, ghost plans: seq<U.ChunkPlan>, ghost done: nat, ghost index: nat)
    returns (next: Option<U.ChunkPlan>)
    requires plan.Valid() && U.Ascending(plans) && done <= |plans| && plan.Remaining() == plans[done..]
    requires index == if done == 0 then 0 else plans[done - 1].index + 1
    modifies plan
    ensures Awaiting(plans, done, next, plan.Remaining(), index)
  {
    next := plan.NextChunk();
    if done < |plans| {
      assert plans[done..][0] == plans[done] && plans[done..][1..] == plans[done + 1..];
    }
  }

  /** Between two plans the source holds nothing. */
  lemma HoleBefore(src: Source, plans: seq<U.ChunkPlan>, contents: seq<Content>, done: nat, index: nat)
    requires ReadsAll(src, plans, contents) && done < |plans|
    requires forall j :: 0 <= j < done ==> plans[j].index < index
    ensures forall i :: index <= i < plans[done].index ==> contents[i] == NoData
  {
    forall i | index <= i < plans[done].index ensures contents[i] == NoData {
      forall j | 0 <= j < |plans| ensures plans[j].index != i {
        if j > done { assert plans[done].index < plans[j].index; }
      }
    }
  }

  lemma HoleAfter(src: Source, plans: seq<U.ChunkPlan>, contents: seq<Content>, index: nat)
    requires ReadsAll(src, plans, contents)
    requires forall j :: 0 <= j < |plans| ==> plans[j].index < index
    ensures forall i :: index <= i < |contents| ==> contents[i] == NoData
  {
  }

  // ------------------------------------------------------- later members

  /** Count a finding and spool the entry it calls for, if it calls for one. */
  method WriteChange(spool: Spool, delta: bool, counts0: Counts, state: SourceState, parent: ChunkState, index: nat)
    returns (counts: Counts)
    requires spool.manifest.DeltaManifest? == delta
    modifies spool
    ensures counts == CountState(counts0, state)
    ensures spool.manifest == Extended(old(spool.manifest), index, OutcomeOf(state), parent)
  {
    counts := counts0;
    var entry;
    match state {
      case Unchanged =>
        counts := counts.(inherited := counts.inherited + 1);
        if !delta {
          spool.WriteEntry(EntryOf(parent));
        }
        return;
      case NewStored(e) =>
        counts := counts.(stored := counts.stored + 1);
        entry := e;
      case NewZero =>
        counts := counts.(zero := counts.zero + 1);
        entry := ZeroEntry();
      case NewBad(e) =>
        counts := counts.(bad := counts.bad + 1);
        entry := e;
      case Missing =>
        entry := UnusedEntry();
    }
    counts := counts.(changed := counts.changed + 1);
    if delta {
      spool.WriteDelta(DeltaEntry(index, entry));
    } else {
      spool.WriteEntry(entry);
    }
  }

  /** The merged states a parent walk handed over. */
  ghost function States(visits: seq<Visit>): (parents: seq<ChunkState>)
    ensures |parents| == |visits| && forall i :: 0 <= i < |visits| ==> parents[i] == visits[i].state
  {
    seq(|visits|, i requires 0 <= i < |visits| => visits[i].state)
  }

  /** The finding for chunk `index`: by a read if it is the one awaited, else as a hole. */
  method FindState(writer: ImageWriter, pass: Pass, plan: U.UsedChunks, next0: Option<U.ChunkPlan>, index: nat,
                   parent: ChunkState, ghost t: Task, ghost done0: nat)
    returns (r: Result<SourceState>, next: Option<U.ChunkPlan>, ghost done: nat)
    requires plan.Valid() && writer.Valid() && t.Valid() && t.pass == pass && index < |t.contents|
    requires Awaiting(t.plans, done0, next0, plan.Remaining(), index)
    modifies writer, plan
    ensures writer.Valid()
    ensures Awaiting(t.plans, done, next, plan.Remaining(), index + 1)
    ensures r.Failure? ==> Refused(t.contents[index], parent, pass.member, writer.codec, pass.policy)
    ensures r.Success? ==>
              Found(r.value, t.contents[index], parent, pass.member, writer.codec, pass.policy, old(writer.records),
                    writer.records)
  {
    next, done := next0, done0;
    if next.Some? && next.value.index == index {
      var chunk := next.value;
      done := done + 1;
      next := Await(plan, t.plans, done, index + 1);
      r := StoreChunk(writer, pass.member, pass.src, chunk, parent, pass.policy);
    } else {
      HoleAt(pass.src, t.plans, t.contents, done, index);
      FoundHole(parent, pass.member, writer.codec, pass.policy, writer.records);
      r := Success(if parent.Unused? then Unchanged else Missing);
    }
  }

  /** Compare the source with the parent chain, chunk by chunk, and write what changed. */
  method WriteChanges(writer: ImageWriter, pass: Pass, plan: U.UsedChunks, visits: seq<Visit>, delta: bool,
                      spool: Spool, ghost t: Task)
    returns (r: Result<Counts>, ghost out: seq<Outcome>)
    requires writer.Valid() && plan.Valid() && t.Valid()
    requires t == Task(pass, writer.codec, plan.Remaining(), t.contents, States(visits), spool.manifest)
    requires writer.records == map[] && spool.manifest.DeltaManifest? == delta
    requires if delta then spool.manifest.deltas == [] else spool.manifest.entries == []
    modifies writer, plan, spool
    ensures r.Failure? <==> Ends(t.contents, t.parents, pass.member, t.codec, pass.policy)
    ensures r.Success? ==> |out| == |t.contents| && Counted(r.value, out)
    ensures r.Success? ==> t.Spooled(out, writer.records, spool.manifest)
  {
    PassStarts(t);
    ghost var p, done: nat := Progress([], NO_COUNTS), 0;
    var counts := NO_COUNTS;
    var next := Await(plan, t.plans, 0, 0);
    for index := 0 to |visits|
      invariant writer.Valid() && plan.Valid()
      invariant Awaiting(t.plans, done, next, plan.Remaining(), index)
      invariant |p.out| == index && counts == p.counts && spool.manifest.DeltaManifest? == delta
      invariant t.InStep(p, writer.records, spool.manifest)
    {
      ghost var before := writer.records;
      var found;
      found, next, done := FindState(writer, pass, plan, next, index, visits[index].state, t, done);
      if found.Failure? {
        assert t.Refuses(index);
        return Failure(found.error), p.out;
      }
      PassStep(t, p, found.value, before, writer.records, spool.manifest);
      counts := WriteChange(spool, delta, counts, found.value, visits[index].state, index);
      p := p.Next(found.value);
    }
    PassComplete(t, p, writer.records, spool.manifest);
    return Success(counts), p.out;
  }

  /** A chunk that the next plan does not name holds nothing. */
  lemma HoleAt(src: Source, plans: seq<U.ChunkPlan>, contents: seq<Content>, done: nat, index: nat)
    requires ReadsAll(src, plans, contents) && done <= |plans| && index < |contents|
    requires forall j :: 0 <= j < done ==> plans[j].index < index
    requires done < |plans| ==> index < plans[done].index
    ensures contents[index] == NoData
  {
    forall j | 0 <= j < |plans| ensures plans[j].index != index {
      if j > done { assert plans[done].index < plans[j].index; }
    }
  }

  // ------------------------------------------------------------ accounting

  /**
   With a parent, every chunk is inherited or changed, and a change is a stored
   payload, a zero chunk, a bad sector, or a chunk that left the used-block map.
   */
  lemma {:induction false} Accounting(out: seq<Outcome>)
    ensures New(out, AnyNew) + Kept(out) == |out|
    ensures New(out, AnyNew) == New(out, StoredNew) + New(out, ZeroNew) + New(out, BadNew) + New(out, UnusedNew)
    ensures |Deltas(out)| == New(out, AnyNew)
  {
    if out != [] {
      Accounting(out[..|out| - 1]);
    }
  }

  /** An unused entry is written exactly for a chunk that was recorded before and holds no data now. */
  lemma LeftTheMap(o: Outcome, c: Content, parent: ChunkState, member: nat, codec: Codec, records: map<nat, Bytes>)
    requires Decided(o, c, parent, member, codec, records)
    ensures IsNew(o, UnusedNew) <==> c == NoData && parent != Unused
    ensures IsNew(o, BadNew) <==> c == Lost
    ensures o.None? ==> parent != BadSector
  {
  }

  // ------------------------------------------------------------ one member

  /** What a request adds to the identity its parent fixes. */
  datatype Request = Request(
    memberType: MemberKind,
    imageUuid: Id,
    chainId: Id,
    setId: Id,
    createdUnix: nat,
    consistency: nat,
    policy: BadSectorPolicy)

  /** The superblock of the member that follows `chain`. */
  function SuperblockFor(chain: seq<Member>, src: Source, req: Request, encrypted: bool): Superblock {
    if chain == [] then
      Superblock(false, encrypted, Block, req.imageUuid, req.chainId, req.setId, 0, 0, req.createdUnix, src.deviceSize,
                 src.chunkSize, req.consistency)
    else
      var parent := chain[|chain| - 1].superblock;
      Superblock(req.memberType.Incremental?, encrypted, Block, req.imageUuid, parent.chainId, parent.setId,
                 parent.imageUuid, parent.seqInChain + 1, req.createdUnix, src.deviceSize, src.chunkSize,
                 req.consistency)
  }

  /** The states a member is compared with: those of its ancestors, or nothing. */
  ghost function ParentStates(chain: seq<Member>, count: nat): (parents: seq<ChunkState>)
    ensures |parents| == count
  {
    seq(count, i requires 0 <= i < count => Merged(Manifests(chain), i))
  }

  /** `out` is what member `m` decided when it backed up `src` on top of `chain`. */
  ghost predicate Wrote(m: Member, out: seq<Outcome>, chain: seq<Member>, src: Source, codec: Codec)
    requires src.Valid()
  {
    var count := src.ChunkCount();
    && |out| == count
    && Scanned(out, ParentStates(chain, count), Contents(src), |chain|, codec, m.records)
    && m.manifest ==
       if KindOf(m.superblock).Incremental? then DeltaManifest(src.chunkSize, count, |Deltas(out)|, Deltas(out))
       else FullManifest(src.chunkSize, count, count, FullEntries(out, ParentStates(chain, count)))
  }

  /** A member that a successful backup of `src` on top of `chain` publishes. */
  ghost predicate IsBackup(m: Member, chain: seq<Member>, src: Source, codec: Codec)
    requires src.Valid()
  {
    && m.superblock.chunkSize == src.chunkSize
    && m.superblock.sourceSize == src.deviceSize
    && exists out :: Wrote(m, out, chain, src, codec)
  }

  /** Back up the source as a fresh full image. */
  method BackupFull(src: Source, req: Request, codec: Codec) returns (r: Result<(Member, Counts)>)
    requires src.Valid()
    ensures r.Failure? <==> Ends(Contents(src), Blank(src.ChunkCount()), 0, codec, req.policy)
    ensures r.Success? ==> IsBackup(r.value.0, [], src, codec)
    ensures r.Success? ==> r.value.0.superblock == SuperblockFor([], src, req, codec.encrypted)
    ensures r.Success? ==>
              exists out :: Wrote(r.value.0, out, [], src, codec)
                            && Counted(r.value.1.(changed := New(out, AnyNew), inherited := Kept(out)), out)
  {
    var plan := U.UsedChunks.New(src.extents, src.chunkSize, src.deviceSize);
    PlanReadsAll(src);
    var writer := new ImageWriter(codec);
    var spool := new Spool(FullManifest(src.chunkSize, src.ChunkCount(), 0, []));
    var pass := Pass(src, 0, req.policy);
    ghost var t := Task(pass, codec, plan.value.Remaining(), Contents(src), Blank(src.ChunkCount()), spool.manifest);
    var written, p := WriteFullEntries(writer, pass, plan.value, spool, t);
    if written.Failure? {
      return Failure(written.error);
    }
    spool.PatchEntryCount(src.ChunkCount());
    var m := Member(SuperblockFor([], src, req, codec.encrypted), spool.manifest, writer.records);
    assert ParentStates([], src.ChunkCount()) == Blank(src.ChunkCount());
    assert Wrote(m, p.out, [], src, codec);
    return Success((m, written.value));
  }

  /** Whether a backup on top of a linked chain is refused before its first chunk. */
  ghost predicate Unfit(chain: seq<Member>, src: Source)
    requires chain != [] && src.Valid()
  {
    var first := chain[0];
    || |chain| > 0xFFFF
    || first.manifest.chunkCount != src.ChunkCount()
    || !Walkable(chain, first.manifest.chunkCount, first.superblock.chunkSize)
  }

  /** Walk the parent chain for the states to compare with. */
  method WalkParent(chain: seq<Member>, src: Source) returns (r: Result<seq<Visit>>)
    requires src.Valid() && Sorting.SortedBy(SeqNo, chain)
    ensures r.Failure? <==> !Linked(chain) || Unfit(chain, src)
    ensures r.Success? ==> |r.value| == src.ChunkCount() && States(r.value) == ParentStates(chain, src.ChunkCount())
  {
    if |chain| > 0xFFFF {
      return Failure(Unsupported);
    }
    Sorting.SortByIdentity(SeqNo, chain);
    var walk :- ChainWalk.New(chain);
    if walk.chunkCount != src.ChunkCount() {
      return Failure(Unsupported);
    }
    r := walk.WalkWith(false);
  }

  /**
   Back up the source on top of the chain of its parent, as a delta or as a
   differential. The members come in sequence order, linked or not.
   */
  method BackupOnto(chain: seq<Member>, src: Source, req: Request, codec: Codec) returns (r: Result<(Member, Counts)>)
    requires src.Valid() && Sorting.SortedBy(SeqNo, chain) && !req.memberType.Full?
    ensures r.Failure? <==>
            || !Linked(chain)
            || Unfit(chain, src)
            || Ends(Contents(src), ParentStates(chain, src.ChunkCount()), |chain|, codec, req.policy)
    ensures r.Success? ==> IsBackup(r.value.0, chain, src, codec)
    ensures r.Success? ==> r.value.0.superblock == SuperblockFor(chain, src, req, codec.encrypted)
    ensures r.Success? ==> exists out :: Wrote(r.value.0, out, chain, src, codec) && Counted(r.value.1, out)
  {
    var visits :- WalkParent(chain, src);
    assert LinkedAt(chain, |chain| - 1);
    r := WriteMember(chain, visits, src, req, codec);
  }

  /** Scan the source against the walked parent states and assemble the member. */
  method WriteMember(chain: seq<Member>, visits: seq<Visit>, src: Source, req: Request, codec: Codec)
    returns (r: Result<(Member, Counts)>)
    requires src.Valid() && chain != [] && |visits| == src.ChunkCount() && !req.memberType.Full?
    requires States(visits) == ParentStates(chain, src.ChunkCount())
    requires chain[|chain| - 1].superblock.seqInChain == |chain| - 1
    ensures r.Failure? <==> Ends(Contents(src), ParentStates(chain, src.ChunkCount()), |chain|, codec, req.policy)
    ensures r.Success? ==> r.value.0.superblock == SuperblockFor(chain, src, req, codec.encrypted)
    ensures r.Success? ==> exists out :: Wrote(r.value.0, out, chain, src, codec) && Counted(r.value.1, out)
  {
    var delta := req.memberType.Incremental?;
    var plan := U.UsedChunks.New(src.extents, src.chunkSize, src.deviceSize);
    PlanReadsAll(src);
    var writer := new ImageWriter(codec);
    var spool := new Spool(if delta then DeltaManifest(src.chunkSize, src.ChunkCount(), 0, [])
                           else FullManifest(src.chunkSize, src.ChunkCount(), 0, []));
    var pass := Pass(src, |chain|, req.policy);
    ghost var t := Task(pass, codec, plan.value.Remaining(), Contents(src), States(visits), spool.manifest);
    var written, out := WriteChanges(writer, pass, plan.value, visits, delta, spool, t);
    if written.Failure? {
      return Failure(written.error);
    }
    Accounting(out);
    spool.PatchEntryCount(if delta then written.value.changed else src.ChunkCount());
    var m := Member(SuperblockFor(chain, src, req, codec.encrypted), spool.manifest, writer.records);
    assert Wrote(m, out, chain, src, codec);
    return Success((m, written.value));
  }
}
