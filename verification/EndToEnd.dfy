/**
 Block images from request to restored bytes: the catalog picks the parent,
 the backup compares with it, the image is published, and a reader who knows
 only the file name gets back what the source held.
 */
module EndToEnd {
  import opened Wrappers
  import opened Superblocks
  import opened Manifest
  import opened Chain
  import opened Catalogs
  import P = Plans
  import G = Growth
  import R = Resolution
  import S = SetRuns
  import B = Backup
  import H = History
  import T = RoundTrip
  import K = Keys
  import Sorting

  /** What every image file holds, what its backup read, and the hash and codec of every chain. */
  datatype World = World(open: string -> Member, source: string -> B.Source, codec: Id -> B.Codec)

  function OpenAll(w: World, files: seq<P.ChainFile>): (members: seq<Member>)
    ensures |members| == |files| && forall k :: 0 <= k < |files| ==> members[k] == w.open(files[k].fileName)
  {
    seq(|files|, k requires 0 <= k < |files| => w.open(files[k].fileName))
  }

  /** The members a plan compares with: those its parent chain names. */
  function Opened(w: World, plan: P.Plan): seq<Member> {
    if plan.parent.Some? then OpenAll(w, plan.parent.value.files) else []
  }

  function OpenImages(w: World, ms: seq<ScannedMember>): seq<Member> {
    OpenAll(w, G.FilesOfImages(ms))
  }

  function SourcesOf(w: World, ms: seq<ScannedMember>): (sources: seq<B.Source>)
    ensures |sources| == |ms| && forall k :: 0 <= k < |ms| ==> sources[k] == w.source(ms[k].fileName)
  {
    seq(|ms|, k requires 0 <= k < |ms| => w.source(ms[k].fileName))
  }

  /** Image `m` is a block backup on top of the members `chain`. */
  ghost predicate BackedUp(w: World, m: ScannedMember, chain: seq<Member>) {
    && m.superblock.imageKind == Block
    && w.open(m.fileName).superblock == m.superblock
    && w.source(m.fileName).Valid()
    && B.IsBackup(w.open(m.fileName), chain, w.source(m.fileName), w.codec(m.superblock.chainId))
  }

  /** A published image was written by a block backup that opened the files its plan names. */
  ghost predicate Wrote(w: World, s: S.State, a: S.Action) {
    a.Publish? ==>
      var plan := P.PlanFor(a.req, S.Loads(s, a.built), s.scan);
      plan.Success? ==>
        BackedUp(w, P.ImageOf(plan.value, a.req, a.details), Opened(w, plan.value))
  }

  ghost predicate AllWrote(w: World, states: seq<S.State>, actions: seq<S.Action>) {
    |states| == |actions| + 1 && forall k :: 0 <= k < |actions| ==> Wrote(w, states[k], actions[k])
  }

  /** Every image of a chain is a backup on top of the images before it. */
  ghost predicate Stacked(w: World, ms: seq<ScannedMember>) {
    forall k :: 0 <= k < |ms| ==> BackedUp(w, ms[k], OpenImages(w, ms[..k]))
  }

  ghost predicate AllStacked(w: World, scan: seq<ScannedMember>) {
    forall id :: Stacked(w, Ordered(scan, id))
  }

  lemma StackedGrows(w: World, ms: seq<ScannedMember>, m: ScannedMember)
    requires Stacked(w, ms) && BackedUp(w, m, OpenImages(w, ms))
    ensures Stacked(w, ms + [m])
  {
    forall k | 0 <= k < |ms + [m]| ensures BackedUp(w, (ms + [m])[k], OpenImages(w, (ms + [m])[..k])) {
      assert (ms + [m])[..k] == ms[..k];
      assert k == |ms| ==> ms[..k] == ms;
    }
  }

  /** What a plan opens is the chain the new image joins. */
  lemma PlanOpensChain(w: World, req: P.Request, c: Catalog, scan: seq<ScannedMember>)
    requires G.Healthy(scan) && G.Agrees(c, scan) && P.PlanFor(req, c, scan).Success?
    requires var plan := P.PlanFor(req, c, scan).value; plan.parent.None? ==> !InScan(scan, plan.chainId)
    ensures var plan := P.PlanFor(req, c, scan).value;
            Opened(w, plan) == OpenImages(w, Ordered(scan, plan.chainId))
  {
    var plan := P.PlanFor(req, c, scan).value;
    G.OrderedIsWithin(scan, plan.chainId);
    if plan.parent.Some? {
      S.ExtensionEndsChain(req, c, scan);
    }
  }

  lemma StackStep(w: World, s: S.State, a: S.Action, t: S.State)
    requires S.Inv(s) && S.Step(s, a, t) && AllStacked(w, s.scan) && Wrote(w, s, a)
    ensures AllStacked(w, t.scan)
  {
    if a.Publish? {
      PublishStacks(w, s, a, t);
    }
  }

  lemma PublishStacks(w: World, s: S.State, a: S.Action, t: S.State)
    requires S.Inv(s) && S.Step(s, a, t) && AllStacked(w, s.scan) && Wrote(w, s, a) && a.Publish?
    ensures AllStacked(w, t.scan)
  {
    var c := S.Loads(s, a.built);
    G.LoadedAgrees(s.scan, a.built, s.cache);
    var plan := P.PlanFor(a.req, c, s.scan).value;
    var m := P.ImageOf(plan, a.req, a.details);
    PlanOpensChain(w, a.req, c, s.scan);
    S.PlannedContinues(a.req, c, s.scan, a.details);
    S.PublishedGrows(s.scan, a.at, m);
    StackedGrows(w, Ordered(s.scan, plan.chainId), m);
    forall id ensures Stacked(w, Ordered(t.scan, id)) {
      assert Stacked(w, Ordered(s.scan, id));
      assert id != plan.chainId ==> Ordered(t.scan, id) == Ordered(s.scan, id);
    }
  }

  lemma {:induction false} RunStacks(w: World, states: seq<S.State>, actions: seq<S.Action>, j: nat)
    requires S.IsRun(states, actions) && AllWrote(w, states, actions) && j < |states|
    ensures S.Inv(states[j]) && AllStacked(w, states[j].scan)
  {
    S.RunKeepsInv(states, actions);
    if j > 0 {
      RunStacks(w, states, actions, j - 1);
      StackStep(w, states[j - 1], actions[j - 1], states[j]);
    }
  }

  /** A healthy stack of backups of a steady source is a chain grown by the backup loop. */
  lemma StackIsGrown(w: World, ms: seq<ScannedMember>, codec: B.Codec)
    requires ms != [] && G.HealthyChain(ms) && Stacked(w, ms) && H.Steady(SourcesOf(w, ms))
    requires forall k :: 0 <= k < |ms| ==> w.codec(ms[k].superblock.chainId) == codec
    ensures H.Grown(OpenImages(w, ms), SourcesOf(w, ms), codec)
  {
    var chain, sources := OpenImages(w, ms), SourcesOf(w, ms);
    forall k | 0 <= k < |ms|
      ensures chain[k].superblock == ms[k].superblock
      ensures chain[k].superblock.chunkSize == sources[k].chunkSize
              && chain[k].superblock.sourceSize == sources[k].deviceSize
      ensures H.Step(chain, sources, codec, k)
    {
      assert BackedUp(w, ms[k], OpenImages(w, ms[..k]));
      assert OpenImages(w, ms[..k]) == chain[..k];
    }
    forall k | 0 <= k < |ms| ensures LinkedAt(chain, k) {
      assert BackedUp(w, ms[k], OpenImages(w, ms[..k])) && BackedUp(w, ms[0], OpenImages(w, ms[..0]));
    }
  }

  lemma StackPrefix(w: World, ms: seq<ScannedMember>, n: nat)
    requires n <= |ms| && G.HealthyChain(ms) && Stacked(w, ms)
    ensures G.HealthyChain(ms[..n]) && Stacked(w, ms[..n])
  {
    G.HealthyPrefix(ms, n);
    forall i | 0 <= i < n ensures BackedUp(w, ms[..n][i], OpenImages(w, ms[..n][..i])) {
      assert ms[..n][..i] == ms[..i];
    }
  }

  lemma SameChainIds(scan: seq<ScannedMember>, id: Id, n: nat)
    requires n <= |Ordered(scan, id)|
    ensures forall i :: 0 <= i < n ==> Ordered(scan, id)[i].superblock.chainId == id
  {
    G.OrderedIsWithin(scan, id);
    forall i | 0 <= i < n ensures Ordered(scan, id)[i].superblock.chainId == id {
      assert Ordered(scan, id)[i] in Ordered(scan, id);
    }
  }

  /** A name resolved in a set in good health opens the grown chain up to that image. */
  lemma NameOpensGrown(w: World, scan: seq<ScannedMember>, id: Id, k: nat)
    returns (chain: seq<Member>, sources: seq<B.Source>)
    requires G.Healthy(scan) && AllStacked(w, scan) && k < |Ordered(scan, id)|
    requires H.Steady(SourcesOf(w, Ordered(scan, id)[..k + 1]))
    ensures R.Resolved(scan, Ordered(scan, id)[k].fileName).Success?
    ensures chain == OpenAll(w, R.Resolved(scan, Ordered(scan, id)[k].fileName).value)
    ensures |chain| == k + 1 == |sources| && H.Grown(chain, sources, w.codec(id))
    ensures sources[k] == w.source(Ordered(scan, id)[k].fileName)
  {
    var ms := Ordered(scan, id)[..k + 1];
    S.HealthyResolves(scan, id, k);
    chain, sources := OpenImages(w, ms), SourcesOf(w, ms);
    StackPrefix(w, Ordered(scan, id), k + 1);
    SameChainIds(scan, id, k + 1);
    StackIsGrown(w, ms, w.codec(id));
  }

  /** Members that link agree on their sizes, and so did the sources they were read from. */
  lemma LinkedIsSteady(w: World, ms: seq<ScannedMember>)
    requires ms != [] && Stacked(w, ms) && Linked(OpenImages(w, ms))
    ensures H.Steady(SourcesOf(w, ms))
  {
    var chain, sources := OpenImages(w, ms), SourcesOf(w, ms);
    forall k | 0 <= k < |ms|
      ensures sources[k].Valid()
      ensures chain[k].superblock.chunkSize == sources[k].chunkSize
      ensures chain[k].superblock.sourceSize == sources[k].deviceSize
      ensures chain[k].superblock.chunkSize == chain[0].superblock.chunkSize
      ensures chain[k].superblock.sourceSize == chain[0].superblock.sourceSize
    {
      assert BackedUp(w, ms[k], OpenImages(w, ms[..k]));
      assert LinkedAt(chain, k);
    }
  }

  /**
   The whole way round. In every run, at every later time, the name of a block
   image resolves to the files of its chain. They restore the image exactly
   when the source kept its size and chunking from the full up to that backup:
   then they open as a chain the walk accepts and give back every chunk of the
   device, the very bytes that were read for it, up to collisions of the hash.
   */
  lemma PublishedIsRestored(w: World, states: seq<S.State>, actions: seq<S.Action>, j: nat, id: Id, k: nat)
    requires S.IsRun(states, actions) && AllWrote(w, states, actions) && j < |states|
    requires k < |Ordered(states[j].scan, id)|
    ensures var cut := Ordered(states[j].scan, id)[..k + 1]; var files := R.Resolved(states[j].scan, cut[k].fileName);
            && files.Success?
            && (Restores(w, OpenAll(w, files.value), cut[k].fileName, w.codec(id)) <==> H.Steady(SourcesOf(w, cut)))
  {
    RunStacks(w, states, actions, j);
    var scan := states[j].scan;
    var cut := Ordered(scan, id)[..k + 1];
    S.HealthyResolves(scan, id, k);
    if H.Steady(SourcesOf(w, cut)) {
      var chain, sources := NameOpensGrown(w, scan, id, k);
      GrownRestores(w, chain, sources, cut[k].fileName, w.codec(id));
    }
    if Linked(OpenImages(w, cut)) {
      StackPrefix(w, Ordered(scan, id), k + 1);
      LinkedIsSteady(w, cut);
    }
  }

  /** The opened chain links and walks, and gives back every chunk of the named image's device. */
  ghost predicate Restores(w: World, chain: seq<Member>, fileName: string, codec: B.Codec) {
    var src := w.source(fileName);
    && src.Valid() && Linked(chain)
    && Walkable(chain, src.ChunkCount(), src.chunkSize)
    && forall i: nat :: T.OnDevice(src, i) ==> T.GivesBack(chain, src, i, codec)
  }

  lemma GrownRestores(w: World, chain: seq<Member>, sources: seq<B.Source>, fileName: string, codec: B.Codec)
    requires H.Grown(chain, sources, codec) && sources[|chain| - 1] == w.source(fileName)
    ensures Restores(w, chain, fileName, codec)
  {
    var n := |chain| - 1;
    H.GrownWalks(chain, sources, codec);
    assert H.Step(chain, sources, codec, 0);
    assert chain[..n + 1] == chain;
    var src := sources[n];
    forall i: nat | T.OnDevice(src, i) ensures T.GivesBack(chain, src, i, codec) {
      T.BackedUpIsGivenBack(chain, sources, codec, n, i);
    }
  }

  // ------------------------------------------------ from a request to an image

  /** Opening the files of the set gives the superblocks its scan gave. */
  ghost predicate OpensAsScanned(w: World, scan: seq<ScannedMember>) {
    forall m :: m in scan ==> w.open(m.fileName).superblock == m.superblock
  }

  lemma StackedOpens(w: World, scan: seq<ScannedMember>)
    requires AllStacked(w, scan)
    ensures OpensAsScanned(w, scan)
  {
    forall m | m in scan ensures w.open(m.fileName).superblock == m.superblock {
      var ordered := Ordered(scan, m.superblock.chainId);
      G.OrderedIsWithin(scan, m.superblock.chainId);
      var k :| 0 <= k < |ordered| && ordered[k] == m;
      assert Stacked(w, ordered);
      assert BackedUp(w, ordered[k], OpenImages(w, ordered[..k]));
    }
  }

  /** The chain of a plan opens in sequence order, the parent last. */
  lemma OpenedInOrder(w: World, req: P.Request, c: Catalog, scan: seq<ScannedMember>)
    requires G.Healthy(scan) && G.Agrees(c, scan) && OpensAsScanned(w, scan) && P.PlanFor(req, c, scan).Success?
    ensures var plan := P.PlanFor(req, c, scan).value; var chain := Opened(w, plan);
            && Sorting.SortedBy(SeqNo, chain)
            && (plan.parent.Some? ==>
                  && |chain| == plan.seqInChain > 0
                  && var last := chain[|chain| - 1].superblock;
                     && last.seqInChain + 1 == plan.seqInChain && last.imageUuid == plan.parentUuid
                     && last.chainId == plan.chainId && last.setId == plan.setId)
  {
    var plan := P.PlanFor(req, c, scan).value;
    if plan.parent.Some? {
      S.PlannedParent(req, c, scan);
      S.ExtensionEndsChain(req, c, scan);
      OpenedChain(w, scan, plan.chainId, plan.parent.value);
    }
  }

  lemma OpenedChain(w: World, scan: seq<ScannedMember>, id: Id, p: P.ParentChain)
    requires G.Healthy(scan) && OpensAsScanned(w, scan) && G.ExtendsEnd(p, Ordered(scan, id))
    ensures var chain := OpenAll(w, p.files);
            && |chain| == |Ordered(scan, id)| > 0
            && (forall k :: 0 <= k < |chain| ==> chain[k].superblock == Ordered(scan, id)[k].superblock)
            && Sorting.SortedBy(SeqNo, chain)
            && chain[|chain| - 1].superblock.chainId == id && chain[|chain| - 1].superblock.setId == p.setId
  {
    var ordered, chain := Ordered(scan, id), OpenAll(w, p.files);
    G.OrderedIsWithin(scan, id);
    forall k | 0 <= k < |chain|
      ensures chain[k].superblock == ordered[k].superblock
      ensures SeqNo(chain[k]) == k && ordered[k].superblock.chainId == id
    {
      assert ordered[k] in ordered;
    }
    assert G.HealthyChain(ordered);
  }

  /** The part of a plan the block backup is given. */
  function BackupRequest(req: P.Request, plan: P.Plan, d: P.Details, policy: B.BadSectorPolicy): B.Request {
    B.Request(plan.memberType, req.imageUuid, req.chainId, req.setId, req.createdUnix, d.consistency, policy)
  }

  /** What the backup writes into the superblock is what the plan says of the image. */
  lemma PlannedSuperblock(w: World, req: P.Request, c: Catalog, scan: seq<ScannedMember>, d: P.Details, src: B.Source,
                          policy: B.BadSectorPolicy)
    requires G.Healthy(scan) && G.Agrees(c, scan) && OpensAsScanned(w, scan) && P.PlanFor(req, c, scan).Success?
    requires req.mode.Block? && d.sourceSize == src.deviceSize && d.chunkSize == src.chunkSize
    ensures var plan := P.PlanFor(req, c, scan).value;
            B.SuperblockFor(Opened(w, plan), src, BackupRequest(req, plan, d, policy), d.encrypted)
            == P.ImageOf(plan, req, d).superblock
  {
    S.PlannedParent(req, c, scan);
    OpenedInOrder(w, req, c, scan);
    var plan := P.PlanFor(req, c, scan).value;
    PlannedEncoding(req, c, scan);
  }

  lemma PlannedEncoding(req: P.Request, c: Catalog, scan: seq<ScannedMember>)
    requires P.PlanFor(req, c, scan).Success?
    ensures P.PlanFor(req, c, scan).value.encoding == P.EncodingFor(req.mode, P.PlanFor(req, c, scan).value.memberType)
  {
  }

  /**
   A block backup from request to image: plan it from the loaded catalog, open
   the files the plan names, compare and write. It is refused exactly when the
   plan is, when the named files do not make a chain that fits the source, or
   when a chunk ends it; what it returns otherwise is a backup on top of those
   files and carries the superblock the plan says.
   */
  method BackUp(w: World, req: P.Request, d: P.Details, src: B.Source, codec: B.Codec, policy: B.BadSectorPolicy,
                scan: seq<ScannedMember>, cache: Cache, now: nat)
    returns (r: Result<(Member, B.Counts)>)
    requires req.mode.Block? && src.Valid()
    requires d.sourceSize == src.deviceSize && d.chunkSize == src.chunkSize && d.encrypted == codec.encrypted
    requires G.Healthy(scan) && G.CanonicalCache(cache) && OpensAsScanned(w, scan)
    ensures exists loaded :: LoadedFrom(loaded, scan, cache, now)
                             && (r.Failure? <==> Refuses(w, req, loaded.catalog, scan, src, codec, policy))
                             && (r.Success? ==>
                                   IsPlannedBackup(w, r.value.0, req, loaded.catalog, d, src, codec, scan))
  {
    var resolved := P.Resolve(req, scan, cache, now);
    ghost var loaded :| LoadedFrom(loaded, scan, cache, now) && resolved == P.PlanFor(req, loaded.catalog, scan);
    if resolved.Failure? {
      assert Refuses(w, req, loaded.catalog, scan, src, codec, policy);
      return Failure(resolved.error);
    }
    var plan := resolved.value;
    LoadedFromAgrees(loaded, scan, cache, now);
    PlannedSuperblock(w, req, loaded.catalog, scan, d, src, policy);
    OpenedInOrder(w, req, loaded.catalog, scan);
    S.PlannedParent(req, loaded.catalog, scan);
    P.PlanPlaces(req, loaded.catalog, scan);
    r := BackUpPlanned(w, plan, BackupRequest(req, plan, d, policy), src, codec);
    assert r.Failure? <==> Refuses(w, req, loaded.catalog, scan, src, codec, policy);
    assert r.Success? ==> IsPlannedBackup(w, r.value.0, req, loaded.catalog, d, src, codec, scan);
  }

  /** Write the member a plan calls for on top of the files it names. */
  method BackUpPlanned(w: World, plan: P.Plan, breq: B.Request, src: B.Source, codec: B.Codec)
    returns (r: Result<(Member, B.Counts)>)
    requires src.Valid() && Sorting.SortedBy(SeqNo, Opened(w, plan))
    requires plan.parent.Some? ==> !breq.memberType.Full?
    ensures r.Failure? <==> ChainRefuses(plan, Opened(w, plan), src, codec, breq.policy)
    ensures r.Success? ==>
              && B.IsBackup(r.value.0, Opened(w, plan), src, codec)
              && r.value.0.superblock == B.SuperblockFor(Opened(w, plan), src, breq, codec.encrypted)
  {
    if plan.parent.None? {
      assert B.ParentStates([], src.ChunkCount()) == B.Blank(src.ChunkCount());
      r := B.BackupFull(src, breq, codec);
    } else {
      r := B.BackupOnto(OpenAll(w, plan.parent.value.files), src, breq, codec);
    }
  }

  /** Some chunk ends a backup of `src` on top of `chain`. */
  ghost predicate ChunkEnds(chain: seq<Member>, src: B.Source, codec: B.Codec, policy: B.BadSectorPolicy)
    requires src.Valid()
  {
    B.Ends(B.Contents(src), B.ParentStates(chain, src.ChunkCount()), |chain|, codec, policy)
  }

  /** Why a backup is refused: the plan, the chain it would extend, or a chunk of the source. */
  ghost predicate Refuses(w: World, req: P.Request, c: Catalog, scan: seq<ScannedMember>, src: B.Source,
                          codec: B.Codec, policy: B.BadSectorPolicy)
    requires src.Valid()
  {
    var plan := P.PlanFor(req, c, scan);
    plan.Success? ==> ChainRefuses(plan.value, Opened(w, plan.value), src, codec, policy)
  }

  ghost predicate ChainRefuses(plan: P.Plan, chain: seq<Member>, src: B.Source, codec: B.Codec,
                               policy: B.BadSectorPolicy)
    requires src.Valid()
  {
    || (plan.parent.Some? && (!Linked(chain) || B.Unfit(chain, src)))
    || ChunkEnds(chain, src, codec, policy)
  }

  /** The chain that a steady source would extend opens, links and fits. */
  lemma SteadyChainFits(w: World, plan: P.Plan, scan: seq<ScannedMember>, src: B.Source)
    requires G.Healthy(scan) && AllStacked(w, scan) && src.Valid()
    requires plan.parent.Some? && G.ExtendsEnd(plan.parent.value, Ordered(scan, plan.chainId))
    requires |Ordered(scan, plan.chainId)| <= P.MAX_INDEX + 1
    requires H.Steady(SourcesOf(w, Ordered(scan, plan.chainId)) + [src])
    ensures Linked(Opened(w, plan)) && !B.Unfit(Opened(w, plan), src)
  {
    var ms := Ordered(scan, plan.chainId);
    SameChainIds(scan, plan.chainId, |ms|);
    assert G.HealthyChain(ms) && Stacked(w, ms);
    SteadyStackFits(w, ms, w.codec(plan.chainId), src);
  }

  lemma SteadyStackFits(w: World, ms: seq<ScannedMember>, codec: B.Codec, src: B.Source)
    requires ms != [] && |ms| <= P.MAX_INDEX + 1 && G.HealthyChain(ms) && Stacked(w, ms)
    requires forall k :: 0 <= k < |ms| ==> w.codec(ms[k].superblock.chainId) == codec
    requires src.Valid() && H.Steady(SourcesOf(w, ms) + [src])
    ensures Linked(OpenImages(w, ms)) && !B.Unfit(OpenImages(w, ms), src)
  {
    var sources := SourcesOf(w, ms);
    SteadyPrefix(sources, src);
    StackIsGrown(w, ms, codec);
    H.GrownWalks(OpenImages(w, ms), sources, codec);
    FirstChunkSize(OpenImages(w, ms), sources, codec);
  }

  lemma SteadyPrefix(sources: seq<B.Source>, src: B.Source)
    requires sources != [] && H.Steady(sources + [src])
    ensures H.Steady(sources) && src.Valid()
    ensures src.chunkSize == sources[0].chunkSize && src.deviceSize == sources[0].deviceSize
  {
    var all := sources + [src];
    assert all[|sources|] == src && all[0] == sources[0];
    assert forall k :: 0 <= k < |sources| ==> all[k] == sources[k];
  }

  lemma FirstChunkSize(chain: seq<Member>, sources: seq<B.Source>, codec: B.Codec)
    requires H.Grown(chain, sources, codec)
    ensures chain[0].superblock.chunkSize == sources[0].chunkSize
  {
    assert H.Step(chain, sources, codec, 0);
  }

  /** The request's parent resolves, and its chain has room or has reached its limit. */
  ghost predicate CanExtend(req: P.Request, c: Catalog, scan: seq<ScannedMember>) {
    && P.ResolveParent(c, P.RefOf(req)).Success?
    && G.ParentChainId(req, c).Some?
    && S.HasRoom(scan, G.ParentChainId(req, c).value, req.limit)
  }

  /**
   In every run the files of the set open as scanned, so a backup can be
   attempted at any time. A block source that kept its size and chunking is
   refused exactly when its parent does not resolve, when the chain has neither
   room nor reached its limit, or when one of its chunks ends the backup.
   */
  lemma SteadyIsBackedUp(w: World, states: seq<S.State>, actions: seq<S.Action>, j: nat, loaded: Loaded, now: nat,
                         req: P.Request, src: B.Source, codec: B.Codec, policy: B.BadSectorPolicy)
    requires S.IsRun(states, actions) && AllWrote(w, states, actions) && j < |states|
    requires LoadedFrom(loaded, states[j].scan, states[j].cache, now)
    requires req.mode.Block? && !req.memberType.Full? && src.Valid()
    requires var id := G.ParentChainId(req, loaded.catalog);
             id.Some? ==> H.Steady(SourcesOf(w, Ordered(states[j].scan, id.value)) + [src])
    ensures G.Healthy(states[j].scan) && G.CanonicalCache(states[j].cache) && OpensAsScanned(w, states[j].scan)
    ensures var c, scan := loaded.catalog, states[j].scan; var plan := P.PlanFor(req, c, scan);
            && (plan.Success? <==> CanExtend(req, c, scan))
            && (Refuses(w, req, c, scan, src, codec, policy) <==>
                CanExtend(req, c, scan) ==> plan.Success? && ChunkEnds(Opened(w, plan.value), src, codec, policy))
  {
    var c, scan := loaded.catalog, states[j].scan;
    RunStacks(w, states, actions, j);
    StackedOpens(w, scan);
    LoadedFromAgrees(loaded, scan, states[j].cache, now);
    S.PlannedIff(req, c, scan);
    var plan := P.PlanFor(req, c, scan);
    if plan.Success? && plan.value.parent.Some? {
      PlannedInItsChain(req, c, scan);
      S.ExtensionEndsChain(req, c, scan);
      SteadyChainFits(w, plan.value, scan, src);
    }
  }

  lemma PlannedInItsChain(req: P.Request, c: Catalog, scan: seq<ScannedMember>)
    requires G.Healthy(scan) && G.Agrees(c, scan)
    requires P.PlanFor(req, c, scan).Success? && P.PlanFor(req, c, scan).value.parent.Some?
    ensures G.ParentChainId(req, c) == Some(P.PlanFor(req, c, scan).value.chainId)
  {
    S.PlannedParent(req, c, scan);
    S.ParentMeansResolved(req, c, scan);
    var id := G.ResolvedChain(req, c, scan);
  }

  /** `m` is a backup of `src` on top of the files the plan names, with the superblock the plan says. */
  ghost predicate IsPlannedBackup(w: World, m: Member, req: P.Request, c: Catalog, d: P.Details, src: B.Source,
                                  codec: B.Codec, scan: seq<ScannedMember>)
    requires src.Valid()
  {
    var plan := P.PlanFor(req, c, scan);
    && plan.Success?
    && m.superblock == P.ImageOf(plan.value, req, d).superblock
    && B.IsBackup(m, Opened(w, plan.value), src, codec)
  }

  lemma LoadedFromAgrees(loaded: Loaded, scan: seq<ScannedMember>, cache: Cache, now: nat)
    requires G.Healthy(scan) && G.CanonicalCache(cache) && LoadedFrom(loaded, scan, cache, now)
    ensures G.Agrees(loaded.catalog, scan)
  {
    var built :| IsBuilt(built, scan) && built.updatedUnix == now && loaded == LoadFrom(built, cache);
    G.LoadedAgrees(scan, built, cache);
  }

  // ------------------------------------------------ one hash for a chain

  /** Of the codec only the hash decides what counts as a backup. */
  lemma OnlyTheHashCounts(m: Member, chain: seq<Member>, src: B.Source, a: B.Codec, b: B.Codec)
    requires src.Valid() && B.IsBackup(m, chain, src, a) && a.hash == b.hash
    ensures B.IsBackup(m, chain, src, b)
  {
    var out :| B.Wrote(m, out, chain, src, a);
    forall i | 0 <= i < |out|
      ensures B.Decided(out[i], B.Contents(src)[i], B.ParentStates(chain, src.ChunkCount())[i], |chain|, b, m.records)
    {
      assert B.Decided(out[i], B.Contents(src)[i], B.ParentStates(chain, src.ChunkCount())[i], |chain|, a, m.records);
    }
    assert B.Wrote(m, out, chain, src, b);
  }

  /**
   The members of a keyed chain hash with one dedup key, so each is a backup
   under the hash of the full, whatever keys, nonces and compression its own
   request brought.
   */
  lemma BackedUpUnderItsKeys(w: World, m: ScannedMember, chain: seq<Member>, codec: B.Codec,
                             hashWith: Bytes -> (Bytes -> Digest), c: K.Crypto, headers: seq<K.Header>,
                             requests: seq<K.Encryption>, draws: seq<K.Draws>, k: nat)
    requires K.Authentic(c) && K.KeyedChain(c, headers, requests, draws) && k < |headers|
    requires K.KeyedAt(c, headers, requests, draws, 0) && K.KeyedAt(c, headers, requests, draws, k)
    requires w.codec(m.superblock.chainId).hash ==
             hashWith(K.KeysAt(c, headers, requests, draws, 0).value.keys.dedupKey)
    requires codec.hash == hashWith(K.KeysAt(c, headers, requests, draws, k).value.keys.dedupKey)
    requires m.superblock.imageKind == Block && w.open(m.fileName).superblock == m.superblock
    requires w.source(m.fileName).Valid() && B.IsBackup(w.open(m.fileName), chain, w.source(m.fileName), codec)
    ensures BackedUp(w, m, chain)
  {
    K.OneRegime(c, headers, requests, draws, 0, k);
    OnlyTheHashCounts(w.open(m.fileName), chain, w.source(m.fileName), codec, w.codec(m.superblock.chainId));
  }

  /** A planned backup, once its file is in place, is what a publication of the run needs. */
  lemma PlannedIsBackedUp(w: World, req: P.Request, c: Catalog, d: P.Details, codec: B.Codec, scan: seq<ScannedMember>)
    requires req.mode.Block? && w.source(d.fileName).Valid()
    requires IsPlannedBackup(w, w.open(d.fileName), req, c, d, w.source(d.fileName), codec, scan)
    requires w.codec(P.PlanFor(req, c, scan).value.chainId).hash == codec.hash
    ensures var plan := P.PlanFor(req, c, scan).value; BackedUp(w, P.ImageOf(plan, req, d), Opened(w, plan))
  {
    var plan := P.PlanFor(req, c, scan).value;
    OnlyTheHashCounts(w.open(d.fileName), Opened(w, plan), w.source(d.fileName), codec, w.codec(plan.chainId));
  }
}
