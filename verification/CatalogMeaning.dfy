/** What catalogs, their warnings and "latest" mean in terms of the scanned superblocks. */
module CatalogMeaning {
  import opened Wrappers
  import opened Superblocks
  import opened Catalogs
  import opened CacheTruth
  import opened Plans
  import opened Growth
  import opened Resolution
  import Sorting

  // ------------------------------------------------------------- the records

  /** Field by field, `r` is what the superblock and the file of `m` say. */
  ghost predicate Describes(r: MemberRecord, m: ScannedMember) {
    var sb := m.superblock;
    && r.imageUuid == sb.imageUuid && r.parentUuid == sb.parentUuid && r.seqInChain == sb.seqInChain
    && r.imageKind == sb.imageKind && r.consistency == sb.consistency && r.createdUnix == sb.createdUnix
    && r.sizeBytes == m.sizeBytes && r.fileName == m.fileName
    && (r.kind == MemberKind.Full <==> sb.seqInChain == 0)
    && (r.kind == Incremental <==> sb.seqInChain > 0 && (sb.imageKind == Stream || sb.deltaFlag))
  }

  lemma RecordDescribes(m: ScannedMember)
    ensures Describes(RecordOf(m), m) && RecordOf(m).verifiedUnix.None?
  {
  }

  lemma StripKeepsTheRest(m: MemberRecord, image: ScannedMember)
    ensures Strip(m) == RecordOf(image) <==> Describes(m, image)
  {
  }

  /** Equal up to verification times is equal in every other field. */
  lemma StripForgetsOnlyTheTime(a: MemberRecord, b: MemberRecord)
    ensures Strip(a) == Strip(b) <==>
            && a.imageUuid == b.imageUuid && a.parentUuid == b.parentUuid && a.kind == b.kind
            && a.seqInChain == b.seqInChain && a.imageKind == b.imageKind && a.consistency == b.consistency
            && a.createdUnix == b.createdUnix && a.sizeBytes == b.sizeBytes && a.fileName == b.fileName
  {
  }

  ghost predicate OfChain(scan: seq<ScannedMember>, id: Id, m: ScannedMember) {
    m in scan && m.superblock.chainId == id
  }

  /** The first member of a chain was created at `t`. */
  ghost predicate StartedAt(scan: seq<ScannedMember>, id: Id, t: nat) {
    && (exists m :: OfChain(scan, id, m) && m.superblock.createdUnix == t)
    && forall m :: OfChain(scan, id, m) ==> t <= m.superblock.createdUnix
  }

  /** How many listed images belong to a chain. */
  ghost function PositionsOf(scan: seq<ScannedMember>, id: Id): set<nat> {
    set k: nat | k < |scan| && scan[k].superblock.chainId == id
  }

  lemma {:induction false} OfCounts(scan: seq<ScannedMember>, id: Id)
    ensures |Of(scan, id)| == |PositionsOf(scan, id)|
  {
    if scan != [] {
      var n := |scan| - 1;
      OfCounts(scan[..n], id);
      assert PositionsOf(scan, id) ==
             PositionsOf(scan[..n], id) + if scan[n].superblock.chainId == id then {n} else {};
    }
  }

  /** Some image of the chain says what `r` says. */
  ghost predicate IsTold(scan: seq<ScannedMember>, id: Id, r: MemberRecord) {
    exists m :: OfChain(scan, id, m) && Describes(r, m)
  }

  /** Some record says what the image says. */
  ghost predicate IsListed(rs: seq<MemberRecord>, m: ScannedMember) {
    exists r :: r in rs && Describes(r, m)
  }

  /** Records that tell exactly what the superblocks of a chain tell. */
  ghost predicate TellsChain(scan: seq<ScannedMember>, id: Id, rs: seq<MemberRecord>) {
    && rs != [] && |rs| == |PositionsOf(scan, id)|
    && (forall r :: r in rs ==> r.verifiedUnix.None? && IsTold(scan, id, r))
    && (forall m :: OfChain(scan, id, m) ==> IsListed(rs, m))
    && (forall i, j :: 0 <= i < j < |rs| ==> rs[i].seqInChain <= rs[j].seqInChain)
  }

  /**
   The rebuilt catalog tells exactly what the superblocks tell: a chain for
   every chain id, dated by its first member, with one record for every listed
   image of the chain, by ascending sequence number and without verification
   times.
   */
  lemma BuiltTellsTheScan(c: Catalog, scan: seq<ScannedMember>, chain: ChainRecord)
    requires IsBuilt(c, scan) && chain in c.chains
    ensures StartedAt(scan, chain.chainId, chain.createdUnix)
    ensures TellsChain(scan, chain.chainId, chain.members)
  {
    assert IsChain(chain, scan);
    Dated(scan, chain.chainId);
    ChainTells(scan, chain.chainId);
  }

  lemma ChainTells(scan: seq<ScannedMember>, id: Id)
    requires InScan(scan, id)
    ensures TellsChain(scan, id, RecordsOf(Ordered(scan, id)))
  {
    var ordered := Ordered(scan, id);
    OrderedIsWithin(scan, id);
    OfCounts(scan, id);
    OrderedAscends(scan, id);
    RecordsDescribe(ordered);
    forall r | r in RecordsOf(ordered) ensures r.verifiedUnix.None? && IsTold(scan, id, r) {
      var k :| 0 <= k < |ordered| && RecordsOf(ordered)[k] == r;
      assert ordered[k] in ordered && OfChain(scan, id, ordered[k]);
    }
    forall m | OfChain(scan, id, m) ensures IsListed(RecordsOf(ordered), m) {
      var k :| 0 <= k < |ordered| && ordered[k] == m;
      assert RecordsOf(ordered)[k] in RecordsOf(ordered);
    }
  }

  lemma OrderedAscends(scan: seq<ScannedMember>, id: Id)
    ensures var rs := RecordsOf(Ordered(scan, id));
            forall i, j :: 0 <= i < j < |rs| ==> rs[i].seqInChain <= rs[j].seqInChain
  {
    var ordered := Ordered(scan, id);
    Sorting.SortByCorrect(ScannedSeq, Of(scan, id));
    forall i, j | 0 <= i < j < |ordered| ensures RecordOf(ordered[i]).seqInChain <= RecordOf(ordered[j]).seqInChain {
      assert ScannedSeq(ordered[i]) <= ScannedSeq(ordered[j]);
    }
  }

  lemma RecordsDescribe(ms: seq<ScannedMember>)
    ensures forall k :: 0 <= k < |ms| ==> Describes(RecordsOf(ms)[k], ms[k]) && RecordsOf(ms)[k].verifiedUnix.None?
  {
    forall k | 0 <= k < |ms| ensures Describes(RecordsOf(ms)[k], ms[k]) && RecordsOf(ms)[k].verifiedUnix.None? {
      RecordDescribes(ms[k]);
    }
  }

  lemma Dated(scan: seq<ScannedMember>, id: Id)
    requires InScan(scan, id)
    ensures StartedAt(scan, id, EarliestOf(Ordered(scan, id)))
  {
    OrderedIsWithin(scan, id);
    var m :| m in Ordered(scan, id) && m.superblock.createdUnix == EarliestOf(Ordered(scan, id));
    assert OfChain(scan, id, m);
    forall x | OfChain(scan, id, x) ensures EarliestOf(Ordered(scan, id)) <= x.superblock.createdUnix {
      assert x in Ordered(scan, id);
    }
  }

  lemma StartIsUnique(scan: seq<ScannedMember>, id: Id, t: nat, u: nat)
    requires StartedAt(scan, id, t) && StartedAt(scan, id, u)
    ensures t == u
  {
  }

  // --------------------------------------------------------------- "latest"

  /** A chain of the scan whose members are numbered 0, 1, 2 and so on. */
  ghost predicate WholeChain(scan: seq<ScannedMember>, id: Id) {
    InScan(scan, id) && Numbered(Ordered(scan, id))
  }

  /** A whole chain that was started after every other whole chain. */
  ghost predicate StartedLast(scan: seq<ScannedMember>, id: Id) {
    && WholeChain(scan, id)
    && forall other, t, u ::
         other != id && WholeChain(scan, other) && StartedAt(scan, other, t) && StartedAt(scan, id, u) ==> t < u
  }

  lemma {:induction false} FindSeqAlike(a: seq<MemberRecord>, b: seq<MemberRecord>, n: nat)
    requires |a| == |b| && forall k :: 0 <= k < |a| ==> Strip(a[k]) == Strip(b[k])
    ensures FindSeq(a, n).Some? <==> FindSeq(b, n).Some?
    ensures FindSeq(a, n).Some? ==> Strip(FindSeq(a, n).value) == Strip(FindSeq(b, n).value)
  {
    if a != [] {
      assert Strip(a[0]) == Strip(b[0]);
      FindSeqAlike(a[1..], b[1..], n);
    }
  }

  /** A recorded chain is complete exactly when the scanned chain is whole. */
  lemma CompleteIffWhole(chain: ChainRecord, scan: seq<ScannedMember>)
    requires Records(chain, scan)
    ensures IsComplete(chain) <==> WholeChain(scan, chain.chainId)
  {
    var ordered := Ordered(scan, chain.chainId);
    var plain := chain.(members := RecordsOf(ordered));
    OrderedIsWithin(scan, chain.chainId);
    Sorting.SortByCorrect(ScannedSeq, Of(scan, chain.chainId));
    CompleteIffNumbered(plain, ordered);
    forall k | 0 <= k < |ordered| ensures Strip(chain.members[k]) == Strip(plain.members[k]) {
      assert Strip(RecordOf(ordered[k])) == RecordOf(ordered[k]);
    }
    CompleteAlike(chain, plain);
  }

  lemma CompleteAlike(a: ChainRecord, b: ChainRecord)
    requires |a.members| == |b.members|
    requires forall k :: 0 <= k < |a.members| ==> Strip(a.members[k]) == Strip(b.members[k])
    ensures IsComplete(a) <==> IsComplete(b)
  {
    forall k | 0 <= k < |a.members| ensures SeqsOf(a.members)[k] == SeqsOf(b.members)[k] {
      assert Strip(a.members[k]).seqInChain == Strip(b.members[k]).seqInChain;
    }
    assert SeqsOf(a.members) == SeqsOf(b.members);
    FindSeqAlike(a.members, b.members, 0);
  }

  lemma ChainAt(c: Catalog, scan: seq<ScannedMember>, id: Id) returns (k: nat)
    requires Agrees(c, scan) && InScan(scan, id)
    ensures k < |c.chains| && c.chains[k].chainId == id && Records(c.chains[k], scan)
  {
    assert HasChain(c.chains, id);
    k :| 0 <= k < |c.chains| && c.chains[k].chainId == id;
  }

  lemma NewestStartedLast(c: Catalog, scan: seq<ScannedMember>, k: nat)
    requires Agrees(c, scan) && StrictlyNewest(c.chains, k)
    ensures StartedLast(scan, c.chains[k].chainId)
  {
    var id := c.chains[k].chainId;
    assert Records(c.chains[k], scan);
    CompleteIffWhole(c.chains[k], scan);
    Dated(scan, id);
    forall other, t, u | other != id && WholeChain(scan, other) && StartedAt(scan, other, t) && StartedAt(scan, id, u)
      ensures t < u
    {
      var j := ChainAt(c, scan, other);
      CompleteIffWhole(c.chains[j], scan);
      Dated(scan, other);
      StartIsUnique(scan, other, t, c.chains[j].createdUnix);
      StartIsUnique(scan, id, u, c.chains[k].createdUnix);
    }
  }

  lemma StartedLastIsNewest(c: Catalog, scan: seq<ScannedMember>, id: Id) returns (k: nat)
    requires Agrees(c, scan) && StartedLast(scan, id)
    ensures StrictlyNewest(c.chains, k) && c.chains[k].chainId == id && Records(c.chains[k], scan)
  {
    k := ChainAt(c, scan, id);
    CompleteIffWhole(c.chains[k], scan);
    Dated(scan, id);
    forall j | 0 <= j < |c.chains| && j != k && IsComplete(c.chains[j])
      ensures c.chains[j].createdUnix < c.chains[k].createdUnix
    {
      assert Records(c.chains[j], scan);
      CompleteIffWhole(c.chains[j], scan);
      Dated(scan, c.chains[j].chainId);
    }
  }

  /** The image with the largest sequence number of its chain. */
  ghost predicate IsLastOf(scan: seq<ScannedMember>, id: Id, m: ScannedMember) {
    OfChain(scan, id, m) && forall x :: OfChain(scan, id, x) ==> x.superblock.seqInChain <= m.superblock.seqInChain
  }

  lemma LatestRecordIsLast(chain: ChainRecord, scan: seq<ScannedMember>) returns (m: ScannedMember)
    requires Records(chain, scan)
    ensures LatestMember(chain.members).Some? && Describes(LatestMember(chain.members).value, m)
    ensures IsLastOf(scan, chain.chainId, m)
  {
    OrderedIsWithin(scan, chain.chainId);
    m := LatestLine(chain.members, Ordered(scan, chain.chainId));
  }

  lemma LatestLine(members: seq<MemberRecord>, ordered: seq<ScannedMember>) returns (m: ScannedMember)
    requires Lines(members, ordered) && members != []
    ensures m in ordered && Describes(LatestMember(members).value, m)
    ensures forall x :: x in ordered ==> x.superblock.seqInChain <= m.superblock.seqInChain
  {
    var latest := LatestMember(members).value;
    var k :| 0 <= k < |members| && members[k] == latest;
    m := ordered[k];
    StripKeepsTheRest(latest, m);
    LinesBound(members, ordered, latest.seqInChain);
  }

  lemma LinesBound(members: seq<MemberRecord>, ordered: seq<ScannedMember>, n: nat)
    requires Lines(members, ordered) && forall r :: r in members ==> r.seqInChain <= n
    ensures forall x :: x in ordered ==> x.superblock.seqInChain <= n
  {
    forall x | x in ordered ensures x.superblock.seqInChain <= n {
      var j :| 0 <= j < |ordered| && ordered[j] == x;
      StripKeepsTheRest(members[j], x);
      assert members[j] in members;
    }
  }

  /**
   "latest", over the superblocks: it resolves exactly when one whole chain was
   started after every other whole chain, and then to the image of that chain
   with the largest sequence number. This holds of the rebuilt catalog and of
   every cache that agrees with the scan.
   */
  lemma LatestOverTheScan(c: Catalog, scan: seq<ScannedMember>)
    requires Agrees(c, scan)
    ensures ResolveParent(c, Latest).Success? <==> exists id :: StartedLast(scan, id)
    ensures forall id :: StartedLast(scan, id) ==>
                           ResolveParent(c, Latest).Success?
                           && exists m :: IsLastOf(scan, id, m) && Describes(ResolveParent(c, Latest).value, m)
  {
    LatestIsDecided(c);
    if k :| StrictlyNewest(c.chains, k) {
      NewestStartedLast(c, scan, k);
    }
    forall id | StartedLast(scan, id)
      ensures ResolveParent(c, Latest).Success?
      ensures exists m :: IsLastOf(scan, id, m) && Describes(ResolveParent(c, Latest).value, m)
    {
      var k := StartedLastIsNewest(c, scan, id);
      var m := LatestRecordIsLast(c.chains[k], scan);
    }
  }

  // --------------------------------------------------------------- warnings

  /** Two neighbours of a chain share a sequence number, or the later does not link to the earlier. */
  ghost predicate Warrants(chain: ChainRecord, k: int, w: Warning) {
    && 0 < k < |chain.members|
    && var previous, next := chain.members[k - 1], chain.members[k];
       || (w == TwoMembersAtSeq(chain.chainId, next.seqInChain) && previous.seqInChain == next.seqInChain)
       || (w == BrokenLink(chain.chainId, next.imageUuid, previous.imageUuid)
           && next.parentUuid != previous.imageUuid)
  }

  lemma {:induction false} WarningsOfExact(chain: ChainRecord, n: nat, w: Warning)
    requires n <= |chain.members|
    ensures w in WarningsOf(chain.chainId, chain.members[..n]) <==> exists k :: k < n && Warrants(chain, k, w)
  {
    var members := chain.members[..n];
    if n >= 2 {
      WarningsOfExact(chain, n - 1, w);
      assert members[..n - 1] == chain.members[..n - 1];
      var previous, next := chain.members[n - 2], chain.members[n - 1];
      assert members[n - 2] == previous && members[n - 1] == next;
      assert w in PairWarnings(chain.chainId, previous, next) <==> Warrants(chain, n - 1, w);
    }
  }

  /** A warning is raised exactly for an equal sequence number or a broken link between neighbours of a chain. */
  lemma {:induction false} WarningsAreExact(chains: seq<ChainRecord>, w: Warning)
    ensures w in ChainWarnings(chains) <==> exists chain, k :: chain in chains && Warrants(chain, k, w)
  {
    if chains != [] {
      var front, last := chains[..|chains| - 1], chains[|chains| - 1];
      WarningsAreExact(front, w);
      WarningsOfExact(last, |last.members|, w);
      assert last.members[..|last.members|] == last.members;
      assert chains == front + [last];
    }
  }

  // ------------------------------------------------- verification times kept

  /** The record at `(i, j)` is the first of this image id, chain by chain and member by member. */
  ghost predicate FirstAt(cached: seq<ChainRecord>, i: nat, j: nat, imageUuid: Id) {
    && i < |cached| && j < |cached[i].members| && cached[i].members[j].imageUuid == imageUuid
    && (forall k :: 0 <= k < j ==> cached[i].members[k].imageUuid != imageUuid)
    && (forall k, r :: 0 <= k < i && r in cached[k].members ==> r.imageUuid != imageUuid)
  }

  lemma {:induction false} MemberFirst(members: seq<MemberRecord>, imageUuid: Id, j: nat)
    requires j < |members| && members[j].imageUuid == imageUuid
    requires forall k :: 0 <= k < j ==> members[k].imageUuid != imageUuid
    ensures FindMember(members, imageUuid) == Some(members[j])
  {
    if j > 0 {
      assert members[0].imageUuid != imageUuid;
      MemberFirst(members[1..], imageUuid, j - 1);
    }
  }

  lemma {:induction false} AcrossFirst(cached: seq<ChainRecord>, i: nat, j: nat, imageUuid: Id)
    requires FirstAt(cached, i, j, imageUuid)
    ensures FindAcross(cached, imageUuid) == Some(cached[i].members[j])
  {
    if i == 0 {
      MemberFirst(cached[0].members, imageUuid, j);
    } else {
      assert cached[0].Member(imageUuid).None?;
      var rest := cached[1..];
      assert forall k :: 0 <= k < |rest| ==> rest[k] == cached[k + 1];
      AcrossFirst(rest, i - 1, j, imageUuid);
    }
  }

  lemma {:induction false} AcrossNone(cached: seq<ChainRecord>, imageUuid: Id)
    requires forall chain, r :: chain in cached && r in chain.members ==> r.imageUuid != imageUuid
    ensures FindAcross(cached, imageUuid).None?
  {
    if cached != [] {
      assert cached[0] in cached && cached[0].Member(imageUuid).None?;
      AcrossNone(cached[1..], imageUuid);
    }
  }

  /**
   The first cached record of an image id decides: its time is kept if it also
   has the file name and size of the image. Where there is none, or it names
   another file, no time is kept.
   */
  lemma TimesAreKept(cached: seq<ChainRecord>, m: MemberRecord)
    ensures forall i: nat, j: nat :: FirstAt(cached, i, j, m.imageUuid) ==>
                             var known := cached[i].members[j];
                             CarryMember(cached, m) == if known.fileName == m.fileName && known.sizeBytes == m.sizeBytes
                                                       then m.(verifiedUnix := known.verifiedUnix) else m
    ensures (forall chain, r :: chain in cached && r in chain.members ==> r.imageUuid != m.imageUuid) ==>
              CarryMember(cached, m) == m
  {
    forall i: nat, j: nat | FirstAt(cached, i, j, m.imageUuid)
      ensures FindAcross(cached, m.imageUuid) == Some(cached[i].members[j])
    {
      AcrossFirst(cached, i, j, m.imageUuid);
    }
    if forall chain, r :: chain in cached && r in chain.members ==> r.imageUuid != m.imageUuid {
      AcrossNone(cached, m.imageUuid);
    }
  }

  /** The same for a load that rebuilds: every record of the scan gets the time the cache holds for it. */
  lemma RebuildKeepsTimes(built: Catalog, cached: Catalog, j: nat, k: nat, p: nat, q: nat)
    requires !SameRecords(cached, built) && j < |built.chains| && k < |built.chains[j].members|
    requires FirstAt(cached.chains, p, q, built.chains[j].members[k].imageUuid)
    ensures var loaded, m, known := LoadFrom(built, Cached(cached)).catalog, built.chains[j].members[k],
                                    cached.chains[p].members[q];
            && |loaded.chains| == |built.chains| && |loaded.chains[j].members| == |built.chains[j].members|
            && loaded.chains[j].members[k] == if known.fileName == m.fileName && known.sizeBytes == m.sizeBytes
                                              then m.(verifiedUnix := known.verifiedUnix) else m
  {
    TimesAreKept(cached.chains, built.chains[j].members[k]);
  }

  // ------------------------------------------------------ which one of several

  /** Of members that share the largest sequence number the last listed is the latest. */
  lemma {:induction false} LatestIsLastOfLargest(members: seq<MemberRecord>, i: nat)
    requires i < |members|
    requires forall j :: 0 <= j < i ==> members[j].seqInChain <= members[i].seqInChain
    requires forall j :: i < j < |members| ==> members[j].seqInChain < members[i].seqInChain
    ensures LatestMember(members) == Some(members[i])
  {
    var front := members[..|members| - 1];
    if i < |front| {
      LatestIsLastOfLargest(front, i);
    } else if front != [] {
      var best := LatestMember(front).value;
      var j :| 0 <= j < |front| && front[j] == best;
      assert members[j] == best;
    }
  }

  /** Of several chains that list an image the first is its holder. */
  lemma {:induction false} HolderIsFirst(chains: seq<ChainRecord>, imageUuid: Id, i: nat)
    requires i < |chains| && chains[i].Member(imageUuid).Some?
    requires forall j :: 0 <= j < i ==> chains[j].Member(imageUuid).None?
    ensures Holder(chains, imageUuid) == Some(chains[i])
  {
    if i > 0 {
      var rest := chains[1..];
      assert forall j :: 0 <= j < |rest| ==> rest[j] == chains[j + 1];
      HolderIsFirst(rest, imageUuid, i - 1);
    }
  }
}
