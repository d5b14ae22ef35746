/**
 Verifying a block image: its chain is resolved, opened and walked, and every
 payload its recovery point refers to is read; on request also every payload
 any member stores.
 */
module Verification {
  import opened Wrappers
  import opened Superblocks
  import opened Manifest
  import opened Chain
  import opened Catalogs
  import opened EndToEnd
  import G = Growth
  import R = Resolution
  import S = SetRuns
  import B = Backup
  import H = History
  import T = RoundTrip
  import Coverage
  import Sorting

  /** What a verification read, and what it found recorded as unreadable. */
  datatype Report = Report(chunks: nat, bytesChecked: nat, recordedBad: nat, firstBad: Option<nat>)

  const NOTHING_READ := Report(0, 0, 0, None)

  /** The record a stored state names is there, is no longer than a chunk, and has the recorded hash. */
  ghost predicate HasRecord(chain: seq<Member>, codec: B.Codec, maxPlaintext: nat, v: Visit) {
    v.state.Stored? ==>
      && v.state.member < |chain|
      && v.state.offset in chain[v.state.member].records
      && var record := chain[v.state.member].records[v.state.offset];
         |record| <= maxPlaintext && codec.hash(record) == v.state.hash
  }

  ghost predicate AllIntact(chain: seq<Member>, codec: B.Codec, maxPlaintext: nat, visits: seq<Visit>) {
    forall v :: v in visits ==> HasRecord(chain, codec, maxPlaintext, v)
  }

  ghost function StoredCount(visits: seq<Visit>): nat {
    if visits == [] then 0
    else StoredCount(visits[..|visits| - 1]) + if visits[|visits| - 1].state.Stored? then 1 else 0
  }

  ghost function BadCount(visits: seq<Visit>): nat {
    if visits == [] then 0
    else BadCount(visits[..|visits| - 1]) + if visits[|visits| - 1].state.BadSector? then 1 else 0
  }

  ghost function FirstBad(visits: seq<Visit>): Option<nat> {
    if visits == [] then None
    else
      var before, last := FirstBad(visits[..|visits| - 1]), visits[|visits| - 1];
      if before.None? && last.state.BadSector? then Some(last.index) else before
  }

  /** How many bytes the records of the stored states hold. */
  ghost function BytesRead(chain: seq<Member>, visits: seq<Visit>): nat {
    if visits == [] then 0
    else
      var before, state := BytesRead(chain, visits[..|visits| - 1]), visits[|visits| - 1].state;
      if state.Stored? && state.member < |chain| && state.offset in chain[state.member].records then
        before + |chain[state.member].records[state.offset]|
      else before
  }

  /** A report after one more pass over `visits`. */
  ghost predicate Adds(r: Report, before: Report, chain: seq<Member>, visits: seq<Visit>) {
    && r.chunks == before.chunks + StoredCount(visits)
    && r.bytesChecked == before.bytesChecked + BytesRead(chain, visits)
    && r.recordedBad == before.recordedBad + BadCount(visits)
    && r.firstBad == if before.firstBad.Some? then before.firstBad else FirstBad(visits)
  }

  lemma AddsOne(r: Report, before: Report, chain: seq<Member>, visits: seq<Visit>, v: Visit)
    requires Adds(r, before, chain, visits)
    requires v.state.Stored? ==> v.state.member < |chain| && v.state.offset in chain[v.state.member].records
    ensures match v.state
            case Stored(member, _, offset, _) =>
              var len := |chain[member].records[offset]|;
              Adds(r.(chunks := r.chunks + 1, bytesChecked := r.bytesChecked + len), before, chain, visits + [v])
            case BadSector =>
              Adds(r.(recordedBad := r.recordedBad + 1,
                      firstBad := if r.firstBad.None? then Some(v.index) else r.firstBad),
                   before, chain, visits + [v])
            case _ => Adds(r, before, chain, visits + [v])
  {
    assert (visits + [v])[..|visits|] == visits;
  }

  /** Read every payload a walk handed over, counting as it goes. */
  method ReadVisits(chain: seq<Member>, codec: B.Codec, maxPlaintext: nat, visits: seq<Visit>, before: Report)
    returns (r: Result<Report>)
    ensures r.Success? <==> AllIntact(chain, codec, maxPlaintext, visits)
    ensures r.Success? ==> Adds(r.value, before, chain, visits)
  {
    var report := before;
    for k := 0 to |visits|
      invariant AllIntact(chain, codec, maxPlaintext, visits[..k])
      invariant Adds(report, before, chain, visits[..k])
    {
      var v := visits[k];
      assert visits[..k + 1] == visits[..k] + [v];
      H.ReadsExactlyWhatResolves(chain, codec, maxPlaintext, v.state);
      if v.state.Stored? {
        var payload := H.ReadPayload(chain, codec, maxPlaintext, v.state);
        if payload.Failure? {
          assert v in visits && !HasRecord(chain, codec, maxPlaintext, v);
          return Failure(payload.error);
        }
        AddsOne(report, before, chain, visits[..k], v);
        report := report.(chunks := report.chunks + 1, bytesChecked := report.bytesChecked + |payload.value|);
      } else {
        AddsOne(report, before, chain, visits[..k], v);
        if v.state.BadSector? {
          report := report.(recordedBad := report.recordedBad + 1,
                            firstBad := if report.firstBad.None? then Some(v.index) else report.firstBad);
        }
      }
    }
    assert visits[..|visits|] == visits;
    return Success(report);
  }

  /** The chains that verify: they link, walk, and hold every record that is to be read, undamaged. */
  ghost predicate Verifies(chain: seq<Member>, codec: B.Codec, everyMember: bool) {
    && Linked(chain)
    && var count, size := chain[0].manifest.chunkCount, chain[0].superblock.chunkSize;
       && Walkable(chain, count, size)
       && AllIntact(chain, codec, size, MergedVisits(Manifests(chain), count))
       && (everyMember ==> AllIntact(chain, codec, size, OwnVisits(Manifests(chain), count)))
  }

  /** What the report of a verified chain says. */
  ghost predicate Reports(r: Report, chain: seq<Member>, everyMember: bool)
    requires chain != []
  {
    var count := chain[0].manifest.chunkCount;
    exists first ::
      && Adds(first, NOTHING_READ, chain, MergedVisits(Manifests(chain), count))
      && if everyMember then Adds(r, first, chain, OwnVisits(Manifests(chain), count)) else r == first
  }

  /** Verify opened members as one chain. */
  method VerifyChain(members: seq<Member>, codec: B.Codec, everyMember: bool) returns (r: Result<Report>)
    ensures r.Success? <==> Verifies(Sorting.SortBy(SeqNo, members), codec, everyMember)
    ensures r.Success? ==> Reports(r.value, Sorting.SortBy(SeqNo, members), everyMember)
  {
    var walk :- ChainWalk.New(members);
    var visits :- walk.WalkWith(false);
    var first :- ReadVisits(walk.members, codec, walk.chunkSize, visits, NOTHING_READ);
    if !everyMember {
      return Success(first);
    }
    // A chain that walks in one mode walks in the other.
    var own := walk.WalkWith(true);
    r := ReadVisits(walk.members, codec, walk.chunkSize, own.value, first);
  }

  /** Verify the image of this name: resolve its chain, open it and read it. */
  method VerifyImage(w: World, scan: seq<ScannedMember>, fileName: string, codec: B.Codec, everyMember: bool)
    returns (r: Result<Report>)
    ensures var files := R.Resolved(scan, fileName);
            && (r.Success? <==>
                files.Success? && Verifies(Sorting.SortBy(SeqNo, OpenAll(w, files.value)), codec, everyMember))
            && (r.Success? ==> Reports(r.value, Sorting.SortBy(SeqNo, OpenAll(w, files.value)), everyMember))
  {
    var files :- R.ResolveChain(scan, fileName);
    r := VerifyChain(OpenAll(w, files), codec, everyMember);
  }

  // ------------------------------------------------------------ grown chains

  lemma MergedIsIntact(chain: seq<Member>, sources: seq<B.Source>, codec: B.Codec)
    requires H.Grown(chain, sources, codec)
    ensures AllIntact(chain, codec, sources[0].chunkSize, MergedVisits(Manifests(chain), sources[0].ChunkCount()))
  {
    var visits := MergedVisits(Manifests(chain), sources[0].ChunkCount());
    forall v | v in visits ensures HasRecord(chain, codec, sources[0].chunkSize, v) {
      var i :| 0 <= i < |visits| && visits[i] == v;
      H.NewestIsFaithful(chain, sources, codec, i);
    }
  }

  /** A payload recorded by a member is the merged state of the chain cut there, whatever came later. */
  lemma OwnIsMerged(chain: seq<Member>, p: nat, i: nat)
    requires p < |chain| && IsOwn(chain[p].manifest, p, i)
    ensures Merged(Manifests(chain[..p + 1]), i) == Overlay(chain[p].manifest, i, Unused)
  {
    H.MergedLast(chain[..p + 1], i);
    assert chain[..p + 1][p] == chain[p];
    assert EntryAt(chain[p].manifest, i).Some?;
  }

  lemma OwnResolves(chain: seq<Member>, sources: seq<B.Source>, codec: B.Codec, p: nat, i: nat)
    requires H.Grown(chain, sources, codec) && p < |chain| && i < sources[0].ChunkCount()
    requires IsOwn(chain[p].manifest, p, i)
    ensures H.Resolves(Overlay(chain[p].manifest, i, Unused), chain, codec, sources[0].chunkSize)
  {
    var cut := chain[..p + 1];
    H.GrownPrefix(chain, sources, codec, p + 1);
    H.NewestIsFaithful(cut, sources[..p + 1], codec, i);
    OwnIsMerged(chain, p, i);
    var state := Merged(Manifests(cut), i);
    assert cut[state.member] == chain[state.member];
  }

  lemma OwnIsIntact(chain: seq<Member>, sources: seq<B.Source>, codec: B.Codec)
    requires H.Grown(chain, sources, codec)
    ensures AllIntact(chain, codec, sources[0].chunkSize, OwnVisits(Manifests(chain), sources[0].ChunkCount()))
  {
    var ms, count := Manifests(chain), sources[0].ChunkCount();
    forall v | v in OwnVisits(ms, count) ensures HasRecord(chain, codec, sources[0].chunkSize, v) {
      VisitedIsOwn(ms, count, v);
      OwnResolves(chain, sources, codec, v.state.member, v.index);
    }
  }

  /** Every grown chain verifies, in either mode. */
  lemma GrownVerifies(chain: seq<Member>, sources: seq<B.Source>, codec: B.Codec, everyMember: bool)
    requires H.Grown(chain, sources, codec)
    ensures Verifies(chain, codec, everyMember)
    ensures chain[0].superblock.chunkSize == sources[0].chunkSize
    ensures chain[0].manifest.chunkCount == sources[0].ChunkCount()
  {
    H.GrownWalks(chain, sources, codec);
    FirstChunkSize(chain, sources, codec);
    MergedIsIntact(chain, sources, codec);
    OwnIsIntact(chain, sources, codec);
  }

  // ----------------------------------------------------- what is reported

  /** How many chunks the source could not read, chunk by chunk. */
  ghost function LostBelow(contents: seq<B.Content>): nat {
    if contents == [] then 0
    else LostBelow(contents[..|contents| - 1]) + if contents[|contents| - 1].Lost? then 1 else 0
  }

  ghost function FirstLost(contents: seq<B.Content>): Option<nat> {
    if contents == [] then None
    else
      var before := FirstLost(contents[..|contents| - 1]);
      if before.None? && contents[|contents| - 1].Lost? then Some(|contents| - 1) else before
  }

  ghost function DataBelow(contents: seq<B.Content>): nat {
    if contents == [] then 0
    else DataBelow(contents[..|contents| - 1]) + if contents[|contents| - 1].Bytes? then 1 else 0
  }

  lemma {:induction false} CountsAgree(visits: seq<Visit>, contents: seq<B.Content>, codec: B.Codec)
    requires |visits| == |contents|
    requires forall i :: 0 <= i < |visits| ==> visits[i].index == i && B.Matches(visits[i].state, contents[i], codec)
    ensures BadCount(visits) == LostBelow(contents) && FirstBad(visits) == FirstLost(contents)
    ensures StoredCount(visits) == DataBelow(contents)
  {
    if visits != [] {
      var n := |visits| - 1;
      CountsAgree(visits[..n], contents[..n], codec);
      assert B.Matches(visits[n].state, contents[n], codec);
    }
  }

  /** A report on the recovery point alone says how many chunks hold data and which the source could not read. */
  lemma GrownReports(chain: seq<Member>, sources: seq<B.Source>, codec: B.Codec, r: Report)
    requires H.Grown(chain, sources, codec) && Reports(r, chain, false)
    ensures Tells(r, sources[|chain| - 1])
  {
    var n := |chain| - 1;
    var src, visits := sources[n], MergedVisits(Manifests(chain), sources[0].ChunkCount());
    H.GrownWalks(chain, sources, codec);
    forall i | 0 <= i < |visits|
      ensures visits[i].index == i && B.Matches(visits[i].state, B.Contents(src)[i], codec)
    {
      H.NewestIsFaithful(chain, sources, codec, i);
    }
    CountsAgree(visits, B.Contents(src), codec);
    CountedAsSets(B.Contents(src));
    ContentsAsSets(src);
  }

  // ---------------------------------------------------------------- all runs

  /**
   In every run, at every later time, verifying an image succeeds exactly when
   the source kept its size and chunking up to that backup, whether or not the
   payloads of every member are read as well; and the report on the recovery
   point names the chunks the source could not read then.
   */
  lemma VerificationIsExact(w: World, states: seq<S.State>, actions: seq<S.Action>, j: nat, id: Id, k: nat,
                            everyMember: bool)
    requires S.IsRun(states, actions) && AllWrote(w, states, actions) && j < |states|
    requires k < |Ordered(states[j].scan, id)|
    ensures var cut := Ordered(states[j].scan, id)[..k + 1]; var files := R.Resolved(states[j].scan, cut[k].fileName);
            && files.Success?
            && var chain := Sorting.SortBy(SeqNo, OpenAll(w, files.value));
               && (Verifies(chain, w.codec(id), everyMember) <==> H.Steady(SourcesOf(w, cut)))
               && forall r :: Verifies(chain, w.codec(id), false) && Reports(r, chain, false) ==>
                                Tells(r, w.source(cut[k].fileName))
  {
    RunStacks(w, states, actions, j);
    var scan := states[j].scan;
    var cut := Ordered(scan, id)[..k + 1];
    S.HealthyResolves(scan, id, k);
    StackPrefix(w, Ordered(scan, id), k + 1);
    StackedInOrder(w, cut);
    if H.Steady(SourcesOf(w, cut)) {
      var chain, sources := NameOpensGrown(w, scan, id, k);
      GrownVerifies(chain, sources, w.codec(id), everyMember);
      forall r | Reports(r, chain, false) ensures Tells(r, w.source(cut[k].fileName)) {
        H.GrownWalks(chain, sources, w.codec(id));
        GrownReports(chain, sources, w.codec(id), r);
      }
    }
    if Linked(OpenImages(w, cut)) {
      LinkedIsSteady(w, cut);
    }
  }

  /** The chunks of the device that were read in full and hold something. */
  ghost function DataChunks(src: B.Source): set<nat>
    requires src.Valid()
  {
    set i: nat | i < src.ChunkCount() && T.ReadInFull(src, i) && !T.OnlyZeros(T.Reading(src, i).value)
  }

  /** The chunks of the device that are in use and could not be read in full. */
  ghost function LostChunks(src: B.Source): set<nat>
    requires src.Valid()
  {
    set i: nat | i < src.ChunkCount() && T.Unreadable(src, i)
  }

  /** The report counts the data and the unreadable chunks of the device, and names the first of the latter. */
  ghost predicate Tells(r: Report, src: B.Source) {
    && src.Valid()
    && r.chunks == |DataChunks(src)|
    && r.recordedBad == |LostChunks(src)|
    && (r.firstBad.None? <==> LostChunks(src) == {})
    && (r.firstBad.Some? ==>
          r.firstBad.value in LostChunks(src) && forall i :: i in LostChunks(src) ==> r.firstBad.value <= i)
  }

  ghost function LostIn(contents: seq<B.Content>): set<nat> {
    set i: nat | i < |contents| && contents[i].Lost?
  }

  ghost function DataIn(contents: seq<B.Content>): set<nat> {
    set i: nat | i < |contents| && contents[i].Bytes?
  }

  lemma LostOneMore(contents: seq<B.Content>)
    requires contents != []
    ensures var n := |contents| - 1;
            && LostIn(contents) == LostIn(contents[..n]) + (if contents[n].Lost? then {n} else {})
            && DataIn(contents) == DataIn(contents[..n]) + (if contents[n].Bytes? then {n} else {})
            && n !in LostIn(contents[..n]) && n !in DataIn(contents[..n])
  {
  }

  lemma {:induction false} LostAsSet(contents: seq<B.Content>)
    ensures LostBelow(contents) == |LostIn(contents)| && DataBelow(contents) == |DataIn(contents)|
  {
    if contents != [] {
      LostAsSet(contents[..|contents| - 1]);
      LostOneMore(contents);
    }
  }

  lemma {:induction false} FirstLostIsFirst(contents: seq<B.Content>)
    ensures FirstLost(contents).None? <==> forall i :: 0 <= i < |contents| ==> !contents[i].Lost?
    ensures FirstLost(contents).Some? ==>
              var first := FirstLost(contents).value;
              first < |contents| && contents[first].Lost? && forall i :: 0 <= i < first ==> !contents[i].Lost?
  {
    if contents != [] {
      var n := |contents| - 1;
      FirstLostIsFirst(contents[..n]);
      assert forall i :: 0 <= i < n ==> contents[..n][i] == contents[i];
    }
  }

  lemma CountedAsSets(contents: seq<B.Content>)
    ensures LostBelow(contents) == |LostIn(contents)| && DataBelow(contents) == |DataIn(contents)|
    ensures FirstLost(contents).None? <==> LostIn(contents) == {}
    ensures FirstLost(contents).Some? ==>
              && FirstLost(contents).value in LostIn(contents)
              && forall i :: i in LostIn(contents) ==> FirstLost(contents).value <= i
  {
    LostAsSet(contents);
    FirstLostIsFirst(contents);
    if LostIn(contents) != {} {
      var i :| i in LostIn(contents);
      assert contents[i].Lost?;
    } else {
      forall i | 0 <= i < |contents| ensures !contents[i].Lost? {
        assert i !in LostIn(contents);
      }
    }
  }

  lemma ContentsAsSets(src: B.Source)
    requires src.Valid()
    ensures LostIn(B.Contents(src)) == LostChunks(src) && DataIn(B.Contents(src)) == DataChunks(src)
  {
    forall i: nat | i < src.ChunkCount()
      ensures i in LostIn(B.Contents(src)) <==> i in LostChunks(src)
      ensures i in DataIn(B.Contents(src)) <==> i in DataChunks(src)
    {
      T.OnDeviceIsCounted(src, i);
      T.ContentIsReading(src, i);
    }
  }

  /** Images put on top of one another open in sequence order. */
  lemma StackedInOrder(w: World, ms: seq<ScannedMember>)
    requires G.HealthyChain(ms) && Stacked(w, ms)
    ensures Sorting.SortBy(SeqNo, OpenImages(w, ms)) == OpenImages(w, ms)
  {
    var chain := OpenImages(w, ms);
    forall k | 0 <= k < |ms| ensures SeqNo(chain[k]) == k {
      assert BackedUp(w, ms[k], OpenImages(w, ms[..k]));
    }
    Sorting.SortByIdentity(SeqNo, chain);
  }
}
