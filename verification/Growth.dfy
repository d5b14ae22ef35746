/**
 How a backup set grows: every run of backups, verifications and cache losses
 keeps every chain complete and linked, and every recovery point resolvable.
 */
module Growth {
  import opened Wrappers
  import opened Superblocks
  import opened Catalogs
  import opened Plans
  import Sorting
  import opened CacheTruth

  // ----------------------------------------------------------- the listing

  /** The listing after a publication: a directory may list the new image anywhere. */
  function Listed(scan: seq<ScannedMember>, at: nat, m: ScannedMember): (r: seq<ScannedMember>)
    requires at <= |scan|
    ensures |r| == |scan| + 1
    ensures forall x :: x in r <==> x in scan || x == m
  {
    assert scan == scan[..at] + scan[at..];
    scan[..at] + [m] + scan[at..]
  }

  lemma {:induction false} OfConcat(a: seq<ScannedMember>, b: seq<ScannedMember>, id: Id)
    ensures Of(a + b, id) == Of(a, id) + Of(b, id)
  {
    if b == [] {
      assert a + b == a;
    } else {
      OfConcat(a, b[..|b| - 1], id);
      assert (a + b)[..|a + b| - 1] == a + b[..|b| - 1];
    }
  }

  /** Inserting below a last element leaves it last. */
  lemma InsertBelow(sorted: seq<ScannedMember>, x: ScannedMember, m: ScannedMember)
    requires ScannedSeq(x) < ScannedSeq(m)
    ensures Sorting.Insert(ScannedSeq, x, sorted + [m]) == Sorting.Insert(ScannedSeq, x, sorted) + [m]
  {
    assert (sorted + [m])[..|sorted|] == sorted;
  }

  lemma SortLast(xs: seq<ScannedMember>, x: ScannedMember)
    ensures Sorting.SortBy(ScannedSeq, xs + [x]) == Sorting.Insert(ScannedSeq, x, Sorting.SortBy(ScannedSeq, xs))
  {
    assert (xs + [x])[..|xs|] == xs;
  }

  lemma InsertLargest(xs: seq<ScannedMember>, m: ScannedMember)
    requires forall x :: x in xs ==> ScannedSeq(x) < ScannedSeq(m)
    ensures Sorting.SortBy(ScannedSeq, xs + [m]) == Sorting.SortBy(ScannedSeq, xs) + [m]
  {
    SortLast(xs, m);
    Sorting.SortByMembers(ScannedSeq, xs);
    var sorted := Sorting.SortBy(ScannedSeq, xs);
    assert sorted != [] ==> sorted[|sorted| - 1] in xs;
  }

  /** Sorting places an element with the largest key last, wherever it was listed. */
  lemma {:induction false} LargestSortsLast(xs: seq<ScannedMember>, at: nat, m: ScannedMember)
    requires at <= |xs|
    requires forall x :: x in xs ==> ScannedSeq(x) < ScannedSeq(m)
    ensures Sorting.SortBy(ScannedSeq, xs[..at] + [m] + xs[at..]) == Sorting.SortBy(ScannedSeq, xs) + [m]
  {
    if at == |xs| {
      assert xs[..at] + [m] + xs[at..] == xs + [m];
      InsertLargest(xs, m);
    } else {
      var front, last := xs[..|xs| - 1], xs[|xs| - 1];
      var all := front[..at] + [m] + front[at..];
      assert xs == front + [last];
      assert xs[..at] == front[..at] && xs[at..] == front[at..] + [last];
      assert xs[..at] + [m] + xs[at..] == all + [last];
      LargestSortsLast(front, at, m);
      SortLast(all, last);
      SortLast(front, last);
      InsertBelow(Sorting.SortBy(ScannedSeq, front), last, m);
    }
  }

  lemma OfListed(scan: seq<ScannedMember>, at: nat, m: ScannedMember, id: Id) returns (k: nat)
    requires at <= |scan|
    ensures k <= |Of(scan, id)|
    ensures m.superblock.chainId == id ==> Of(Listed(scan, at, m), id) == Of(scan, id)[..k] + [m] + Of(scan, id)[k..]
    ensures m.superblock.chainId != id ==> Of(Listed(scan, at, m), id) == Of(scan, id)
  {
    k := |Of(scan[..at], id)|;
    OfConcat(scan[..at], scan[at..], id);
    assert scan == scan[..at] + scan[at..];
    OfConcat(scan[..at] + [m], scan[at..], id);
    OfConcat(scan[..at], [m], id);
  }

  /** A publication appends to one chain and leaves the others as they were. */
  lemma OrderedListed(scan: seq<ScannedMember>, at: nat, m: ScannedMember, id: Id)
    requires at <= |scan|
    requires forall x :: x in Of(scan, m.superblock.chainId) ==> ScannedSeq(x) < ScannedSeq(m)
    ensures m.superblock.chainId == id ==> Ordered(Listed(scan, at, m), id) == Ordered(scan, id) + [m]
    ensures m.superblock.chainId != id ==> Ordered(Listed(scan, at, m), id) == Ordered(scan, id)
  {
    var k := OfListed(scan, at, m, id);
    if m.superblock.chainId == id {
      LargestSortsLast(Of(scan, id), k, m);
    }
  }

  lemma OrderedIsWithin(scan: seq<ScannedMember>, id: Id)
    ensures forall m :: m in Ordered(scan, id) <==> m in scan && m.superblock.chainId == id
    ensures Ordered(scan, id) != [] <==> InScan(scan, id)
  {
    Sorting.SortByMembers(ScannedSeq, Of(scan, id));
    OfIsWithin(scan, id);
    OfNonempty(scan, id);
  }

  // -------------------------------------------------------------- healthy

  /** One unbroken chain: numbered from zero, each member linked to the one before it, one set id. */
  ghost predicate HealthyChain(ms: seq<ScannedMember>) {
    && (forall k :: 0 <= k < |ms| ==>
                      ms[k].superblock.seqInChain == k && ms[k].superblock.setId == ms[0].superblock.setId)
    && (forall k :: 0 < k < |ms| ==> ms[k].superblock.parentUuid == ms[k - 1].superblock.imageUuid)
    && (ms != [] ==> ms[0].superblock.parentUuid == 0)
  }

  lemma HealthyPrefix(ms: seq<ScannedMember>, n: nat)
    requires n <= |ms| && HealthyChain(ms)
    ensures HealthyChain(ms[..n])
  {
  }

  ghost predicate ImageIdsDiffer(scan: seq<ScannedMember>) {
    forall a, b :: a in scan && b in scan && a.superblock.imageUuid == b.superblock.imageUuid ==> a == b
  }

  ghost predicate FileNamesDiffer(scan: seq<ScannedMember>) {
    forall a, b :: a in scan && b in scan && a.fileName == b.fileName ==> a == b
  }

  ghost predicate Healthy(scan: seq<ScannedMember>) {
    && (forall id :: HealthyChain(Ordered(scan, id)))
    && ImageIdsDiffer(scan) && FileNamesDiffer(scan)
  }

  /** A catalog that records, up to verification times, exactly the chains of a scan. */
  ghost predicate Agrees(c: Catalog, scan: seq<ScannedMember>) {
    && IdsAscend(c.chains)
    && (forall k :: 0 <= k < |c.chains| ==> Records(c.chains[k], scan))
    && forall id :: InScan(scan, id) ==> HasChain(c.chains, id)
  }

  ghost predicate Records(chain: ChainRecord, scan: seq<ScannedMember>) {
    && InScan(scan, chain.chainId)
    && chain.createdUnix == EarliestOf(Ordered(scan, chain.chainId))
    && Lines(chain.members, Ordered(scan, chain.chainId))
  }

  ghost predicate Lines(members: seq<MemberRecord>, ordered: seq<ScannedMember>) {
    |members| == |ordered| && forall k :: 0 <= k < |members| ==> Strip(members[k]) == RecordOf(ordered[k])
  }

  /** The order every catalog the engine writes has. */
  ghost predicate Canonical(c: Catalog) {
    IdsAscend(c.chains) && forall k :: 0 <= k < |c.chains| ==> SeqsAscend(c.chains[k].members)
  }

  ghost predicate SeqsAscend(members: seq<MemberRecord>) {
    forall i, j :: 0 <= i < j < |members| ==> members[i].seqInChain < members[j].seqInChain
  }

  lemma BuiltAgrees(c: Catalog, scan: seq<ScannedMember>)
    requires IsBuilt(c, scan)
    ensures Agrees(c, scan)
  {
    forall k | 0 <= k < |c.chains| ensures Records(c.chains[k], scan) {
      assert IsChain(c.chains[k], scan);
    }
  }

  lemma LinesAscend(members: seq<MemberRecord>, ordered: seq<ScannedMember>)
    requires Lines(members, ordered) && HealthyChain(ordered)
    ensures SeqsAscend(members)
    ensures forall k :: 0 <= k < |members| ==> members[k].seqInChain == k
  {
    forall k | 0 <= k < |members| ensures members[k].seqInChain == k {
      assert Strip(members[k]).seqInChain == RecordOf(ordered[k]).seqInChain;
    }
  }

  lemma AgreesIsCanonical(c: Catalog, scan: seq<ScannedMember>)
    requires Agrees(c, scan) && Healthy(scan)
    ensures Canonical(c)
  {
    forall k | 0 <= k < |c.chains| ensures SeqsAscend(c.chains[k].members) {
      assert Records(c.chains[k], scan);
      LinesAscend(c.chains[k].members, Ordered(scan, c.chains[k].chainId));
    }
  }

  /** Two strictly ascending lists of one length, one made of the other's elements, are the same list. */
  lemma SameAscendingList(a: seq<int>, b: seq<int>)
    requires forall i, j :: 0 <= i < j < |a| ==> a[i] < a[j]
    requires forall i, j :: 0 <= i < j < |b| ==> b[i] < b[j]
    requires |a| == |b| && forall i :: 0 <= i < |a| ==> a[i] in b
    ensures a == b
  {
    var place := seq(|a|, i requires 0 <= i < |a| => Place(b, a[i]));
    forall i, j | 0 <= i < j < |a| ensures place[i] < place[j] {
      assert b[place[i]] < b[place[j]];
    }
    Sorting.AscendingIsIdentity(place);
    forall i | 0 <= i < |a| ensures a[i] == b[i] {
      assert place[i] == i;
    }
  }

  ghost function Place(b: seq<int>, x: int): (k: int)
    requires x in b
    ensures 0 <= k < |b| && b[k] == x
  {
    var k :| 0 <= k < |b| && b[k] == x;
    k
  }

  lemma SameChainLines(chain: ChainRecord, other: ChainRecord, ordered: seq<ScannedMember>)
    requires SameChain(chain, other) && SeqsAscend(chain.members)
    requires Lines(other.members, ordered) && HealthyChain(ordered)
    ensures Lines(chain.members, ordered)
  {
    LinesAscend(other.members, ordered);
    var mine, theirs: seq<int> := SeqsOf(chain.members), SeqsOf(other.members);
    forall i | 0 <= i < |chain.members|
      ensures mine[i] in theirs
      ensures chain.members[i].seqInChain < |other.members|
      ensures Strip(chain.members[i]) == Strip(other.members[chain.members[i].seqInChain])
    {
      var mate := other.Member(chain.members[i].imageUuid).value;
      var j :| 0 <= j < |other.members| && other.members[j] == mate;
      assert Strip(mate) == Strip(chain.members[i]);
      assert theirs[j] == mine[i] == j;
    }
    SameAscendingList(mine, theirs);
    forall i | 0 <= i < |chain.members| ensures Strip(chain.members[i]) == RecordOf(ordered[i]) {
      assert mine[i] == theirs[i] == i;
    }
  }

  lemma SameRecordsSameIds(cached: Catalog, built: Catalog)
    requires SameRecords(cached, built) && IdsAscend(cached.chains) && IdsAscend(built.chains)
    ensures ChainIds(cached.chains) == ChainIds(built.chains)
    ensures forall k :: 0 <= k < |cached.chains| ==> SameChain(cached.chains[k], built.chains[k])
  {
    var mine, theirs := ChainIds(cached.chains), ChainIds(built.chains);
    forall k | 0 <= k < |cached.chains|
      ensures mine[k] in theirs
    {
      var mate := built.Chain(cached.chains[k].chainId).value;
      var j :| 0 <= j < |built.chains| && built.chains[j] == mate;
      assert theirs[j] == mine[k];
    }
    SameAscendingList(mine, theirs);
    forall k | 0 <= k < |cached.chains| ensures SameChain(cached.chains[k], built.chains[k]) {
      var mate := built.Chain(cached.chains[k].chainId).value;
      var j :| 0 <= j < |built.chains| && built.chains[j] == mate;
      assert theirs[j] == mine[k] == theirs[k];
      assert j == k;
    }
  }

  /** A cache in written order that passes the agreement test agrees with the scan, position by position. */
  lemma CachedAgrees(cached: Catalog, built: Catalog, scan: seq<ScannedMember>)
    requires Healthy(scan) && IsBuilt(built, scan) && Canonical(cached) && SameRecords(cached, built)
    ensures Agrees(cached, scan)
  {
    BuiltAgrees(built, scan);
    SameRecordsSameIds(cached, built);
    forall k | 0 <= k < |cached.chains| ensures Records(cached.chains[k], scan) {
      assert ChainIds(cached.chains)[k] == ChainIds(built.chains)[k];
      assert Records(built.chains[k], scan);
      SameChainLines(cached.chains[k], built.chains[k], Ordered(scan, built.chains[k].chainId));
    }
    forall id | InScan(scan, id) ensures HasChain(cached.chains, id) {
      var k :| 0 <= k < |built.chains| && built.chains[k].chainId == id;
      assert ChainIds(cached.chains)[k] == ChainIds(built.chains)[k];
    }
  }

  lemma BuiltListsScan(c: Catalog, scan: seq<ScannedMember>, id: Id)
    requires IsBuilt(c, scan)
    ensures id in ChainIds(c.chains) <==> InScan(scan, id)
  {
    if id in ChainIds(c.chains) {
      var k :| 0 <= k < |c.chains| && ChainIds(c.chains)[k] == id;
      assert IsChain(c.chains[k], scan);
    }
    if InScan(scan, id) {
      assert HasChain(c.chains, id);
      var k :| 0 <= k < |c.chains| && c.chains[k].chainId == id;
      assert ChainIds(c.chains)[k] == id;
    }
  }

  lemma BuiltSameIds(c: Catalog, d: Catalog, scan: seq<ScannedMember>)
    requires IsBuilt(c, scan) && IsBuilt(d, scan)
    ensures ChainIds(c.chains) == ChainIds(d.chains)
  {
    var mine, theirs := ChainIds(c.chains), ChainIds(d.chains);
    forall id ensures id in mine <==> id in theirs {
      BuiltListsScan(c, scan, id);
      BuiltListsScan(d, scan, id);
    }
    assert Elements(mine) == Elements(theirs);
    CardinalityIsDistinctness(mine);
    CardinalityIsDistinctness(theirs);
    SameAscendingList(mine, theirs);
  }

  /** A scan and a time leave only one catalog that is built from them, so what a load returns is determined. */
  lemma BuiltIsUnique(c: Catalog, d: Catalog, scan: seq<ScannedMember>)
    requires IsBuilt(c, scan) && IsBuilt(d, scan) && c.updatedUnix == d.updatedUnix
    ensures c == d
  {
    BuiltSameIds(c, d, scan);
    assert |ChainIds(c.chains)| == |ChainIds(d.chains)|;
    forall k | 0 <= k < |c.chains| ensures c.chains[k] == d.chains[k] {
      assert ChainIds(c.chains)[k] == ChainIds(d.chains)[k];
      assert IsChain(c.chains[k], scan) && IsChain(d.chains[k], scan);
    }
  }

  /** Position by position the same chains and the same members up to verification times. */
  ghost predicate SameLines(c: Catalog, d: Catalog) {
    && |c.chains| == |d.chains|
    && forall k :: 0 <= k < |c.chains| ==>
         && c.chains[k].chainId == d.chains[k].chainId && c.chains[k].createdUnix == d.chains[k].createdUnix
         && |c.chains[k].members| == |d.chains[k].members|
         && forall i :: 0 <= i < |c.chains[k].members| ==>
                          Strip(c.chains[k].members[i]) == Strip(d.chains[k].members[i])
  }

  lemma SameLinesAgree(c: Catalog, d: Catalog, scan: seq<ScannedMember>)
    requires SameLines(c, d) && Agrees(d, scan)
    ensures Agrees(c, scan)
  {
    forall k | 0 <= k < |c.chains| ensures Records(c.chains[k], scan) {
      assert Records(d.chains[k], scan);
    }
    forall id | InScan(scan, id) ensures HasChain(c.chains, id) {
      var k :| 0 <= k < |d.chains| && d.chains[k].chainId == id;
      assert c.chains[k].chainId == id;
    }
  }

  ghost predicate CanonicalCache(cache: Cache) {
    cache.Cached? ==> Canonical(cache.catalog)
  }

  /**
   The catalog a backup works from agrees with the images of the set, position
   by position, exactly unless a cache that is out of order passed the
   agreement test.
   */
  lemma LoadedAgreesExactly(scan: seq<ScannedMember>, built: Catalog, cache: Cache)
    requires Healthy(scan) && IsBuilt(built, scan)
    ensures Agrees(LoadFrom(built, cache).catalog, scan) <==>
            (cache.Cached? && SameRecords(cache.catalog, built) ==> Canonical(cache.catalog))
  {
    BuiltAgrees(built, scan);
    if cache.Cached? {
      if !SameRecords(cache.catalog, built) {
        SameLinesAgree(LoadFrom(built, cache).catalog, built, scan);
      } else if Canonical(cache.catalog) {
        CachedAgrees(cache.catalog, built, scan);
      } else if Agrees(cache.catalog, scan) {
        AgreesIsCanonical(cache.catalog, scan);
      }
    }
  }

  /** In particular it agrees whenever the cache, if there is one, is in the order the engine writes. */
  lemma LoadedAgrees(scan: seq<ScannedMember>, built: Catalog, cache: Cache)
    requires Healthy(scan) && IsBuilt(built, scan) && CanonicalCache(cache)
    ensures Agrees(LoadFrom(built, cache).catalog, scan)
  {
    LoadedAgreesExactly(scan, built, cache);
  }

  // ------------------------------------------------ catalogs that agree

  lemma LatestOfAscending(members: seq<MemberRecord>)
    requires members != [] && SeqsAscend(members)
    ensures LatestMember(members) == Some(members[|members| - 1])
  {
    var front := members[..|members| - 1];
    var best := LatestMember(front);
    if best.Some? {
      var k :| 0 <= k < |front| && front[k] == best.value;
      assert members[k].seqInChain < members[|members| - 1].seqInChain;
    }
  }

  lemma FindSeqFirst(members: seq<MemberRecord>)
    requires members != [] && members[0].seqInChain == 0
    ensures FindSeq(members, 0) == Some(members[0])
  {
  }

  lemma NumberedIsComplete(chain: ChainRecord)
    requires chain.members != [] && chain.members[0].kind == MemberKind.Full
    requires forall k :: 0 <= k < |chain.members| ==> chain.members[k].seqInChain == k
    ensures IsComplete(chain)
  {
    var seqs := SeqsOf(chain.members);
    Sorting.SortByIdentity(Itself, seqs);
    FindSeqFirst(chain.members);
  }

  lemma {:induction false} CountNumbered(members: seq<MemberRecord>)
    requires members != [] && forall k :: 0 <= k < |members| ==> members[k].seqInChain == k
    ensures CountIncrementals(members) == |members| - 1
  {
    if |members| > 1 {
      CountNumbered(members[..|members| - 1]);
    } else {
      assert members[..0] == [];
    }
  }

  /** A recorded chain is complete, its newest member is its last, and it counts all members but the full. */
  lemma RecordedChain(chain: ChainRecord, scan: seq<ScannedMember>)
    requires Healthy(scan) && Records(chain, scan)
    ensures IsComplete(chain) && chain.members != []
    ensures LatestMember(chain.members) == Some(chain.members[|chain.members| - 1])
    ensures CountIncrementals(chain.members) == |chain.members| - 1
  {
    var ordered := Ordered(scan, chain.chainId);
    OrderedIsWithin(scan, chain.chainId);
    LinesAscend(chain.members, ordered);
    assert Strip(chain.members[0]) == RecordOf(ordered[0]);
    NumberedIsComplete(chain);
    LatestOfAscending(chain.members);
    CountNumbered(chain.members);
  }

  lemma UpToLast(chain: ChainRecord)
    requires chain.members != [] && forall k :: 0 <= k < |chain.members| ==> chain.members[k].seqInChain == k
    ensures RecordsUpTo(chain, |chain.members| - 1) == chain.members
  {
    FilterAll(m => NotAfter(|chain.members| - 1, m), chain.members);
    Sorting.SortByIdentity(RecordSeq, chain.members);
  }

  /** A member of a chain that agrees with the scan is a scanned image. */
  lemma RecordedImage(chain: ChainRecord, scan: seq<ScannedMember>, m: MemberRecord) returns (image: ScannedMember)
    requires Records(chain, scan) && m in chain.members
    ensures image in scan && image.superblock.chainId == chain.chainId && Strip(m) == RecordOf(image)
  {
    var ordered := Ordered(scan, chain.chainId);
    OrderedIsWithin(scan, chain.chainId);
    var k :| 0 <= k < |chain.members| && chain.members[k] == m;
    image := ordered[k];
    assert image in ordered;
  }

  lemma HolderIsUnique(c: Catalog, scan: seq<ScannedMember>, chain: ChainRecord, m: MemberRecord)
    requires Healthy(scan) && Agrees(c, scan) && chain in c.chains && m in chain.members
    ensures Holder(c.chains, m.imageUuid) == Some(chain)
  {
    assert chain.Member(m.imageUuid).Some?;
    var other := Holder(c.chains, m.imageUuid).value;
    var mate := other.Member(m.imageUuid).value;
    var i :| 0 <= i < |c.chains| && c.chains[i] == chain;
    var j :| 0 <= j < |c.chains| && c.chains[j] == other;
    assert Records(c.chains[i], scan) && Records(c.chains[j], scan);
    OneChainPerImage(chain, other, scan, m, mate);
    assert i == j;
  }

  /** Records of one image id are in records of one chain. */
  lemma OneChainPerImage(chain: ChainRecord, other: ChainRecord, scan: seq<ScannedMember>, m: MemberRecord,
                         mate: MemberRecord)
    requires ImageIdsDiffer(scan) && Records(chain, scan) && Records(other, scan)
    requires m in chain.members && mate in other.members && m.imageUuid == mate.imageUuid
    ensures chain.chainId == other.chainId
  {
    var a := RecordedImage(chain, scan, m);
    var b := RecordedImage(other, scan, mate);
    assert a.superblock.imageUuid == Strip(m).imageUuid && b.superblock.imageUuid == Strip(mate).imageUuid;
  }

  /** The files of scanned images, as a chain lists them. */
  function FilesOfImages(ms: seq<ScannedMember>): (files: seq<ChainFile>)
    ensures |files| == |ms|
    ensures forall k :: 0 <= k < |ms| ==>
              files[k] == ChainFile(ms[k].fileName, ms[k].superblock.seqInChain, ms[k].superblock.imageUuid)
  {
    seq(|ms|, k requires 0 <= k < |ms| =>
          ChainFile(ms[k].fileName, ms[k].superblock.seqInChain, ms[k].superblock.imageUuid))
  }

  /** The member list of a chain: each image under its own position. */
  function MembersOfImages(ms: seq<ScannedMember>): (members: seq<ChainMember>)
    ensures |members| == |ms|
    ensures forall k :: 0 <= k < |ms| ==> members[k] == ChainMember(k, ms[k].superblock.imageUuid)
  {
    seq(|ms|, k requires 0 <= k < |ms| => ChainMember(k, ms[k].superblock.imageUuid))
  }

  /** `p` extends the chain `ordered` at its end. */
  ghost predicate ExtendsEnd(p: ParentChain, ordered: seq<ScannedMember>) {
    && ordered != []
    && p.superblock == ordered[|ordered| - 1].superblock
    && p.member.imageUuid == p.superblock.imageUuid
    && p.member.fileName == ordered[|ordered| - 1].fileName
    && p.member.seqInChain == |ordered| - 1
    && p.setId == ordered[0].superblock.setId
    && p.files == FilesOfImages(ordered)
    && p.prefix == MembersOfImages(ordered)
  }

  lemma NewestRecord(scan: seq<ScannedMember>, chain: ChainRecord, m: MemberRecord)
    requires Healthy(scan) && Records(chain, scan) && m in chain.members
    requires LatestMember(chain.members).Some? && LatestMember(chain.members).value.imageUuid == m.imageUuid
    ensures |chain.members| == |Ordered(scan, chain.chainId)| > 0
    ensures m == chain.members[|chain.members| - 1]
    ensures m.seqInChain == |chain.members| - 1
    ensures forall k :: 0 <= k < |chain.members| ==> chain.members[k].seqInChain == k
  {
    RecordedChain(chain, scan);
    LinesAscend(chain.members, Ordered(scan, chain.chainId));
    var last := chain.members[|chain.members| - 1];
    var a := RecordedImage(chain, scan, m);
    var b := RecordedImage(chain, scan, last);
    assert a.superblock.imageUuid == Strip(m).imageUuid && b.superblock.imageUuid == Strip(last).imageUuid;
    assert Strip(m).seqInChain == Strip(last).seqInChain;
    var k :| 0 <= k < |chain.members| && chain.members[k] == m;
    assert k == |chain.members| - 1;
  }

  lemma FindFileUnique(scan: seq<ScannedMember>, m: ScannedMember)
    requires FileNamesDiffer(scan) && m in scan
    ensures FindFile(scan, m.fileName) == Some(m)
  {
  }

  lemma ListedAlike(chain: ChainRecord, ordered: seq<ScannedMember>)
    requires Lines(chain.members, ordered)
    ensures PrefixOf(chain.members) == MembersOfImages(ordered)
    ensures FilesOf(chain.members) == FilesOfImages(ordered)
  {
    forall k | 0 <= k < |ordered|
      ensures PrefixOf(chain.members)[k] == MembersOfImages(ordered)[k]
      ensures FilesOf(chain.members)[k] == FilesOfImages(ordered)[k]
    {
      assert Strip(chain.members[k]) == RecordOf(ordered[k]);
    }
  }

  /** The catalog entry a request resolves to, in a set in good health: the last member of its chain. */
  lemma ResolvedRecord(req: Request, c: Catalog, scan: seq<ScannedMember>) returns (chain: ChainRecord)
    requires Healthy(scan) && Agrees(c, scan)
    requires ResolveParent(c, RefOf(req)).Success?
    ensures chain in c.chains && Records(chain, scan)
    ensures chain.members != [] && ResolveParent(c, RefOf(req)) == Success(chain.members[|chain.members| - 1])
    ensures Holder(c.chains, ResolveParent(c, RefOf(req)).value.imageUuid) == Some(chain)
  {
    chain := ResolvedIn(c, RefOf(req));
    var parent := ResolveParent(c, RefOf(req)).value;
    var k :| 0 <= k < |c.chains| && c.chains[k] == chain;
    assert Records(c.chains[k], scan);
    NewestRecord(scan, chain, parent);
    HolderIsUnique(c, scan, chain, parent);
  }

  /** The chain that the catalog puts a request's parent in. */
  function ParentChainId(req: Request, c: Catalog): Option<Id> {
    match ResolveParent(c, RefOf(req))
    case Failure(_) => None
    case Success(parent) =>
      match Holder(c.chains, parent.imageUuid)
      case None => None
      case Some(chain) => Some(chain.chainId)
  }

  /** What extending a recorded chain at its last member gives. */
  ghost predicate ExtensionIs(r: Result<Option<ParentChain>>, limit: Option<nat>, id: Id, ordered: seq<ScannedMember>) {
    var n := |ordered|;
    if limit.Some? && 0 < limit.value < n then r == Success(None)
    else if n > 256 then r == Failure(Unsupported)
    else r.Success? && r.value.Some? && r.value.value.chainId == id && ExtendsEnd(r.value.value, ordered)
  }

  lemma ExtendRecorded(limit: Option<nat>, chain: ChainRecord, scan: seq<ScannedMember>)
    requires Healthy(scan) && Records(chain, scan) && chain.members != []
    ensures ExtensionIs(ExtensionOf(limit, chain, chain.members[|chain.members| - 1], scan), limit, chain.chainId,
                        Ordered(scan, chain.chainId))
  {
    var ordered := Ordered(scan, chain.chainId);
    RecordedChain(chain, scan);
    LinesAscend(chain.members, ordered);
    UpToLast(chain);
    ListedAlike(chain, ordered);
    var last := ordered[|ordered| - 1];
    OrderedIsWithin(scan, chain.chainId);
    assert last in ordered;
    assert Strip(chain.members[|ordered| - 1]) == RecordOf(last);
    FindFileUnique(scan, last);
    assert HealthyChain(ordered);
  }

  /**
   What a request that resolves a parent gets: a rollover, a refusal when the chain has over 256 members, or
   the chain's end.
   */
  lemma ResolvedChain(req: Request, c: Catalog, scan: seq<ScannedMember>) returns (id: Id)
    requires Healthy(scan) && Agrees(c, scan)
    requires !req.memberType.Full? && ResolveParent(c, RefOf(req)).Success?
    ensures InScan(scan, id) && ParentChainId(req, c) == Some(id)
    ensures ExtensionIs(ParentChainFor(req, c, scan), req.limit, id, Ordered(scan, id))
  {
    var chain := ResolvedRecord(req, c, scan);
    id := chain.chainId;
    ExtendRecorded(req.limit, chain, scan);
    var parent := chain.members[|chain.members| - 1];
    assert ParentChainFor(req, c, scan) == ExtensionOf(req.limit, chain, parent, scan);
  }
}
