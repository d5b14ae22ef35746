/** When a loaded catalog tells what the superblocks tell, and where its verification times come from. */
module CacheTruth {
  import opened Wrappers
  import opened Superblocks
  import opened Catalogs
  import Sorting

  /** One fact of a catalog: a member, stripped of its verification time, in a chain. */
  ghost predicate Tells(c: Catalog, chainId: Id, createdUnix: nat, m: MemberRecord) {
    exists chain :: chain in c.chains && chain.chainId == chainId && chain.createdUnix == createdUnix && Lists(chain, m)
  }

  ghost predicate Lists(chain: ChainRecord, m: MemberRecord) {
    exists k :: 0 <= k < |chain.members| && Strip(chain.members[k]) == m
  }

  /** Two catalogs tell the same facts. */
  ghost predicate SameFacts(a: Catalog, b: Catalog) {
    forall id, created, m :: Tells(a, id, created, m) <==> Tells(b, id, created, m)
  }

  function ChainIds(chains: seq<ChainRecord>): (ids: seq<Id>)
    ensures |ids| == |chains| && forall k :: 0 <= k < |chains| ==> ids[k] == chains[k].chainId
  {
    seq(|chains|, k requires 0 <= k < |chains| => chains[k].chainId)
  }

  function MemberIds(members: seq<MemberRecord>): (ids: seq<Id>)
    ensures |ids| == |members| && forall k :: 0 <= k < |members| ==> ids[k] == members[k].imageUuid
  {
    seq(|members|, k requires 0 <= k < |members| => members[k].imageUuid)
  }

  /** No chain id occurs twice, and no image id twice in one chain. */
  ghost predicate NoRepeats(c: Catalog) {
    && Sorting.Distinct(ChainIds(c.chains))
    && forall chain :: chain in c.chains ==> Sorting.Distinct(MemberIds(chain.members))
  }

  ghost function Elements(xs: seq<Id>): set<Id> {
    set x | x in xs
  }

  /** A list has as many elements as positions exactly when it repeats none. */
  lemma {:induction false} CardinalityIsDistinctness(xs: seq<Id>)
    ensures |Elements(xs)| <= |xs|
    ensures |Elements(xs)| == |xs| <==> Sorting.Distinct(xs)
  {
    if xs != [] {
      var front, last := xs[..|xs| - 1], xs[|xs| - 1];
      CardinalityIsDistinctness(front);
      assert xs == front + [last];
      assert Elements(xs) == Elements(front) + {last};
      if last in front {
        var k :| 0 <= k < |front| && front[k] == last;
        assert xs[k] == xs[|xs| - 1];
      } else if Sorting.Distinct(front) {
        forall i, j | 0 <= i < j < |xs| ensures xs[i] != xs[j] {
          if j < |front| { assert front[i] != front[j]; }
        }
      } else {
        var i, j :| 0 <= i < j < |front| && front[i] == front[j];
        assert xs[i] == xs[j];
      }
    }
  }

  lemma SubsetOfSameSize(a: set<Id>, b: set<Id>)
    requires a <= b && |a| == |b|
    ensures a == b
  {
    assert b == a + (b - a);
    assert |b - a| == 0;
  }

  lemma FoundMember(chain: ChainRecord, m: MemberRecord)
    requires Sorting.Distinct(MemberIds(chain.members)) && m in chain.members
    ensures chain.Member(m.imageUuid) == Some(m)
  {
    var found := chain.Member(m.imageUuid).value;
    var i :| 0 <= i < |chain.members| && chain.members[i] == m;
    var j :| 0 <= j < |chain.members| && chain.members[j] == found;
    assert MemberIds(chain.members)[i] == MemberIds(chain.members)[j];
  }

  lemma FoundChain(c: Catalog, chain: ChainRecord)
    requires Sorting.Distinct(ChainIds(c.chains)) && chain in c.chains
    ensures c.Chain(chain.chainId) == Some(chain)
  {
    var found := c.Chain(chain.chainId).value;
    var i :| 0 <= i < |c.chains| && c.chains[i] == chain;
    var j :| 0 <= j < |c.chains| && c.chains[j] == found;
    assert ChainIds(c.chains)[i] == ChainIds(c.chains)[j];
  }

  /** A cached chain that passes the test lists nothing but members of its mate. */
  lemma SameChainSound(chain: ChainRecord, other: ChainRecord, m: MemberRecord)
    requires SameChain(chain, other) && Lists(chain, m)
    ensures Lists(other, m)
  {
    var k :| 0 <= k < |chain.members| && Strip(chain.members[k]) == m;
    var mate := other.Member(chain.members[k].imageUuid).value;
    var j :| 0 <= j < |other.members| && other.members[j] == mate;
    assert Strip(other.members[j]) == m;
  }

  lemma SameMemberIds(chain: ChainRecord, other: ChainRecord)
    requires SameChain(chain, other)
    requires Sorting.Distinct(MemberIds(chain.members)) && Sorting.Distinct(MemberIds(other.members))
    ensures Elements(MemberIds(chain.members)) == Elements(MemberIds(other.members))
  {
    var mine, theirs := Elements(MemberIds(chain.members)), Elements(MemberIds(other.members));
    forall x | x in mine ensures x in theirs {
      var k :| 0 <= k < |chain.members| && chain.members[k].imageUuid == x;
      var mate := other.Member(chain.members[k].imageUuid).value;
      var j :| 0 <= j < |other.members| && other.members[j] == mate;
      assert MemberIds(other.members)[j] == x;
    }
    CardinalityIsDistinctness(MemberIds(chain.members));
    CardinalityIsDistinctness(MemberIds(other.members));
    SubsetOfSameSize(mine, theirs);
  }

  /** Without repeats it lists all of them. */
  lemma SameChainComplete(chain: ChainRecord, other: ChainRecord, m: MemberRecord)
    requires SameChain(chain, other) && Lists(other, m)
    requires Sorting.Distinct(MemberIds(chain.members)) && Sorting.Distinct(MemberIds(other.members))
    ensures Lists(chain, m)
  {
    SameMemberIds(chain, other);
    var j :| 0 <= j < |other.members| && Strip(other.members[j]) == m;
    assert MemberIds(other.members)[j] in Elements(MemberIds(chain.members));
    var k :| 0 <= k < |chain.members| && chain.members[k].imageUuid == m.imageUuid;
    FoundMember(other, other.members[j]);
    assert Strip(chain.members[k]) == m;
  }

  /** A cache that passes the agreement test tells no fact the superblocks do not tell. */
  lemma AgreementIsSound(cached: Catalog, built: Catalog, id: Id, created: nat, m: MemberRecord)
    requires SameRecords(cached, built) && Tells(cached, id, created, m)
    ensures Tells(built, id, created, m)
  {
    var chain :| chain in cached.chains && chain.chainId == id && chain.createdUnix == created && Lists(chain, m);
    SameChainSound(chain, built.Chain(id).value, m);
  }

  lemma SameChainIds(cached: Catalog, built: Catalog)
    requires SameRecords(cached, built) && Sorting.Distinct(ChainIds(cached.chains))
             && Sorting.Distinct(ChainIds(built.chains))
    ensures Elements(ChainIds(cached.chains)) == Elements(ChainIds(built.chains))
  {
    var mine, theirs := Elements(ChainIds(cached.chains)), Elements(ChainIds(built.chains));
    forall x | x in mine ensures x in theirs {
      var k :| 0 <= k < |cached.chains| && cached.chains[k].chainId == x;
      var mate := built.Chain(cached.chains[k].chainId).value;
      var j :| 0 <= j < |built.chains| && built.chains[j] == mate;
      assert ChainIds(built.chains)[j] == x;
    }
    CardinalityIsDistinctness(ChainIds(cached.chains));
    CardinalityIsDistinctness(ChainIds(built.chains));
    SubsetOfSameSize(mine, theirs);
  }

  /** Without repeats it tells all of them. */
  lemma AgreementIsComplete(cached: Catalog, built: Catalog, id: Id, created: nat, m: MemberRecord)
    requires SameRecords(cached, built) && NoRepeats(cached) && NoRepeats(built) && Tells(built, id, created, m)
    ensures Tells(cached, id, created, m)
  {
    var other :| other in built.chains && other.chainId == id && other.createdUnix == created && Lists(other, m);
    SameChainIds(cached, built);
    var j :| 0 <= j < |built.chains| && built.chains[j] == other;
    assert ChainIds(built.chains)[j] in Elements(ChainIds(cached.chains));
    var k :| 0 <= k < |cached.chains| && cached.chains[k].chainId == id;
    FoundChain(built, other);
    SameChainComplete(cached.chains[k], other, m);
  }

  ghost predicate NoEmptyChains(c: Catalog) {
    forall chain :: chain in c.chains ==> chain.members != []
  }

  lemma TellsFirst(c: Catalog, chain: ChainRecord)
    requires chain in c.chains && chain.members != []
    ensures Tells(c, chain.chainId, chain.createdUnix, Strip(chain.members[0]))
  {
    assert Lists(chain, Strip(chain.members[0]));
  }

  /** A catalog that tells every fact of an equally long one without repeats repeats no chain. */
  lemma AllFactsMeanDistinctChains(cached: Catalog, built: Catalog)
    requires NoEmptyChains(built) && NoRepeats(built) && |cached.chains| == |built.chains|
    requires forall id, created, m :: Tells(built, id, created, m) ==> Tells(cached, id, created, m)
    ensures Sorting.Distinct(ChainIds(cached.chains))
  {
    var mine, theirs := Elements(ChainIds(cached.chains)), Elements(ChainIds(built.chains));
    forall x | x in theirs ensures x in mine {
      var j :| 0 <= j < |built.chains| && built.chains[j].chainId == x;
      var chain := built.chains[j];
      TellsFirst(built, chain);
      assert Tells(cached, x, chain.createdUnix, Strip(chain.members[0]));
      var other :| other in cached.chains && other.chainId == x;
      var k :| 0 <= k < |cached.chains| && cached.chains[k] == other;
      assert ChainIds(cached.chains)[k] == x;
    }
    CardinalityIsDistinctness(ChainIds(cached.chains));
    CardinalityIsDistinctness(ChainIds(built.chains));
    NotLarger(theirs, mine);
  }

  lemma NotLarger(a: set<Id>, b: set<Id>)
    requires a <= b
    ensures |a| <= |b|
  {
    assert b == a + (b - a);
  }

  /** The same for the members of one chain. */
  lemma AllFactsMeanDistinctMembers(chain: ChainRecord, other: ChainRecord)
    requires |chain.members| == |other.members| && Sorting.Distinct(MemberIds(other.members))
    requires forall m :: Lists(other, m) ==> Lists(chain, m)
    ensures Sorting.Distinct(MemberIds(chain.members))
  {
    var mine, theirs := Elements(MemberIds(chain.members)), Elements(MemberIds(other.members));
    forall x | x in theirs ensures x in mine {
      var j :| 0 <= j < |other.members| && other.members[j].imageUuid == x;
      assert Lists(other, Strip(other.members[j]));
      var k :| 0 <= k < |chain.members| && Strip(chain.members[k]) == Strip(other.members[j]);
      assert MemberIds(chain.members)[k] == x;
    }
    CardinalityIsDistinctness(MemberIds(chain.members));
    CardinalityIsDistinctness(MemberIds(other.members));
    NotLarger(theirs, mine);
  }

  /** Telling all facts leaves a cache that passed the test no room to repeat anything. */
  lemma AllFactsMeanNoRepeats(cached: Catalog, built: Catalog)
    requires SameRecords(cached, built) && NoEmptyChains(built) && NoRepeats(built)
    requires forall id, created, m :: Tells(built, id, created, m) ==> Tells(cached, id, created, m)
    ensures NoRepeats(cached)
  {
    AllFactsMeanDistinctChains(cached, built);
    forall chain | chain in cached.chains ensures Sorting.Distinct(MemberIds(chain.members)) {
      var other := built.Chain(chain.chainId).value;
      forall m | Lists(other, m) ensures Lists(chain, m) {
        assert Tells(built, other.chainId, other.createdUnix, m);
        assert Tells(cached, other.chainId, other.createdUnix, m);
        var mine :| mine in cached.chains && mine.chainId == other.chainId && Lists(mine, m);
        FoundChain(cached, chain);
        FoundChain(cached, mine);
      }
      AllFactsMeanDistinctMembers(chain, other);
    }
  }

  lemma ListsByPosition(chain: ChainRecord, other: ChainRecord, m: MemberRecord)
    requires |chain.members| == |other.members|
    requires forall i :: 0 <= i < |chain.members| ==> Strip(chain.members[i]) == Strip(other.members[i])
    requires Lists(chain, m)
    ensures Lists(other, m)
  {
    var i :| 0 <= i < |chain.members| && Strip(chain.members[i]) == m;
    assert Strip(other.members[i]) == m;
  }

  lemma TellsByPosition(c: Catalog, d: Catalog, id: Id, created: nat, m: MemberRecord)
    requires |c.chains| == |d.chains|
    requires forall k :: 0 <= k < |c.chains| ==>
               c.chains[k].chainId == d.chains[k].chainId && c.chains[k].createdUnix == d.chains[k].createdUnix
               && (Lists(c.chains[k], m) ==> Lists(d.chains[k], m))
    requires Tells(c, id, created, m)
    ensures Tells(d, id, created, m)
  {
    var chain :| chain in c.chains && chain.chainId == id && chain.createdUnix == created && Lists(chain, m);
    var k :| 0 <= k < |c.chains| && c.chains[k] == chain;
    assert d.chains[k] in d.chains && Lists(d.chains[k], m);
  }

  /** Carrying verification times over tells the same facts. */
  lemma CarriedTellsTheSame(cached: seq<ChainRecord>, built: Catalog)
    ensures SameFacts(built.(chains := CarriedChains(cached, built.chains)), built)
  {
    var carried := built.(chains := CarriedChains(cached, built.chains));
    forall k, m | 0 <= k < |built.chains| ensures Lists(carried.chains[k], m) <==> Lists(built.chains[k], m) {
      if Lists(carried.chains[k], m) { ListsByPosition(carried.chains[k], built.chains[k], m); }
      if Lists(built.chains[k], m) { ListsByPosition(built.chains[k], carried.chains[k], m); }
    }
    forall id, created, m ensures Tells(carried, id, created, m) <==> Tells(built, id, created, m) {
      if Tells(carried, id, created, m) { TellsByPosition(carried, built, id, created, m); }
      if Tells(built, id, created, m) { TellsByPosition(built, carried, id, created, m); }
    }
  }

  lemma CountMembers(chain: ChainRecord, other: ChainRecord)
    requires Sorting.Distinct(MemberIds(chain.members)) && Sorting.Distinct(MemberIds(other.members))
    requires forall m :: Lists(chain, m) <==> Lists(other, m)
    ensures |chain.members| == |other.members|
  {
    var mine, theirs := Elements(MemberIds(chain.members)), Elements(MemberIds(other.members));
    ListedIds(chain, other);
    ListedIds(other, chain);
    CardinalityIsDistinctness(MemberIds(chain.members));
    CardinalityIsDistinctness(MemberIds(other.members));
    assert mine == theirs;
  }

  lemma ListedIds(chain: ChainRecord, other: ChainRecord)
    requires forall m :: Lists(chain, m) ==> Lists(other, m)
    ensures Elements(MemberIds(chain.members)) <= Elements(MemberIds(other.members))
  {
    forall x | x in MemberIds(chain.members) ensures x in MemberIds(other.members) {
      var k :| 0 <= k < |chain.members| && chain.members[k].imageUuid == x;
      assert Lists(chain, Strip(chain.members[k]));
      var j :| 0 <= j < |other.members| && Strip(other.members[j]) == Strip(chain.members[k]);
      assert MemberIds(other.members)[j] == x;
    }
  }

  /** Two chains that list the same members pass the test. */
  lemma SameListsPass(chain: ChainRecord, other: ChainRecord)
    requires Sorting.Distinct(MemberIds(chain.members)) && Sorting.Distinct(MemberIds(other.members))
    requires chain.createdUnix == other.createdUnix && forall m :: Lists(chain, m) <==> Lists(other, m)
    ensures SameChain(chain, other)
  {
    CountMembers(chain, other);
    forall m | m in chain.members
      ensures other.Member(m.imageUuid).Some? && Strip(other.Member(m.imageUuid).value) == Strip(m)
    {
      var k :| 0 <= k < |chain.members| && chain.members[k] == m;
      assert Lists(chain, Strip(m));
      var j :| 0 <= j < |other.members| && Strip(other.members[j]) == Strip(m);
      FoundMember(other, other.members[j]);
      assert other.members[j].imageUuid == m.imageUuid;
    }
  }

  /** With the same facts and no repeats, the chain of an id lists the same members in both catalogs. */
  lemma SameFactsSameChain(a: Catalog, b: Catalog, chain: ChainRecord) returns (other: ChainRecord)
    requires SameFacts(a, b) && NoRepeats(a) && NoRepeats(b) && chain in a.chains && chain.members != []
    ensures other in b.chains && other.chainId == chain.chainId && other.createdUnix == chain.createdUnix
    ensures b.Chain(chain.chainId) == Some(other)
    ensures forall m :: Lists(chain, m) <==> Lists(other, m)
  {
    var id := chain.chainId;
    TellsFirst(a, chain);
    assert Tells(b, id, chain.createdUnix, Strip(chain.members[0]));
    other :| other in b.chains && other.chainId == id && other.createdUnix == chain.createdUnix
             && Lists(other, Strip(chain.members[0]));
    FoundChain(b, other);
    forall m ensures Lists(chain, m) <==> Lists(other, m) {
      if Lists(chain, m) {
        assert Tells(a, id, chain.createdUnix, m);
        OnlyChain(b, other, chain.createdUnix, m);
      }
      if Lists(other, m) {
        assert Tells(b, id, other.createdUnix, m);
        OnlyChain(a, chain, other.createdUnix, m);
      }
    }
  }

  lemma OnlyChain(c: Catalog, chain: ChainRecord, created: nat, m: MemberRecord)
    requires Sorting.Distinct(ChainIds(c.chains)) && chain in c.chains && Tells(c, chain.chainId, created, m)
    ensures Lists(chain, m)
  {
    var found :| found in c.chains && found.chainId == chain.chainId && found.createdUnix == created && Lists(found, m);
    FoundChain(c, found);
    FoundChain(c, chain);
  }

  lemma CountChains(a: Catalog, b: Catalog)
    requires SameFacts(a, b) && NoRepeats(a) && NoRepeats(b) && NoEmptyChains(a) && NoEmptyChains(b)
    ensures |a.chains| == |b.chains|
  {
    FactIds(a, b);
    FactIds(b, a);
    CardinalityIsDistinctness(ChainIds(a.chains));
    CardinalityIsDistinctness(ChainIds(b.chains));
    assert Elements(ChainIds(a.chains)) == Elements(ChainIds(b.chains));
  }

  lemma FactIds(a: Catalog, b: Catalog)
    requires SameFacts(a, b) && NoEmptyChains(a)
    ensures Elements(ChainIds(a.chains)) <= Elements(ChainIds(b.chains))
  {
    forall x | x in ChainIds(a.chains) ensures x in ChainIds(b.chains) {
      var k :| 0 <= k < |a.chains| && a.chains[k].chainId == x;
      TellsFirst(a, a.chains[k]);
      assert Tells(b, x, a.chains[k].createdUnix, Strip(a.chains[k].members[0]));
      var other :| other in b.chains && other.chainId == x;
      var j :| 0 <= j < |b.chains| && b.chains[j] == other;
      assert ChainIds(b.chains)[j] == x;
    }
  }

  /**
   Between catalogs without repeats and without empty chains the agreement test
   is exact: it passes exactly for the same version, the same set id and the
   same facts.
   */
  lemma AgreementIsExact(cached: Catalog, built: Catalog)
    requires NoRepeats(cached) && NoRepeats(built) && NoEmptyChains(cached) && NoEmptyChains(built)
    ensures SameRecords(cached, built) <==>
            cached.version == built.version && cached.setId == built.setId && SameFacts(cached, built)
  {
    if SameRecords(cached, built) {
      forall id, created, m ensures Tells(cached, id, created, m) <==> Tells(built, id, created, m) {
        if Tells(cached, id, created, m) { AgreementIsSound(cached, built, id, created, m); }
        if Tells(built, id, created, m) { AgreementIsComplete(cached, built, id, created, m); }
      }
    }
    if cached.version == built.version && cached.setId == built.setId && SameFacts(cached, built) {
      CountChains(cached, built);
      forall chain | chain in cached.chains
        ensures built.Chain(chain.chainId).Some? && SameChain(chain, built.Chain(chain.chainId).value)
      {
        var other := SameFactsSameChain(cached, built, chain);
        SameListsPass(chain, other);
      }
    }
  }

  /** A cache without repeats and empty chains is used exactly if it has the version, the set id and the facts. */
  lemma GoodCacheIsUsed(built: Catalog, cached: Catalog)
    requires NoRepeats(cached) && NoRepeats(built) && NoEmptyChains(cached) && NoEmptyChains(built)
    ensures var r := LoadFrom(built, Cached(cached));
            && (!r.rebuilt <==>
                cached.version == built.version && cached.setId == built.setId && SameFacts(cached, built))
            && (!r.rebuilt ==> r.catalog == cached)
            && (r.disagrees <==> r.rebuilt)
            && r.catalog.version == built.version && r.catalog.setId == built.setId
  {
    AgreementIsExact(cached, built);
  }

  /**
   Exactly when a loaded catalog tells what the superblocks tell: unless the
   cache passed the agreement test while repeating a chain or a member.
   */
  lemma LoadTellsTheTruth(built: Catalog, cache: Cache)
    requires NoRepeats(built) && NoEmptyChains(built)
    ensures SameFacts(LoadFrom(built, cache).catalog, built) <==>
            (cache.Cached? && SameRecords(cache.catalog, built) ==> NoRepeats(cache.catalog))
  {
    if cache.Cached? {
      var cached := cache.catalog;
      if !SameRecords(cached, built) {
        CarriedTellsTheSame(cached.chains, built);
      } else if NoRepeats(cached) {
        forall id, created, m ensures Tells(cached, id, created, m) <==> Tells(built, id, created, m) {
          if Tells(cached, id, created, m) { AgreementIsSound(cached, built, id, created, m); }
          if Tells(built, id, created, m) { AgreementIsComplete(cached, built, id, created, m); }
        }
      } else if SameFacts(cached, built) {
        AllFactsMeanNoRepeats(cached, built);
      }
    }
  }

  /** A verification time that the cache holds for this very image, going by id, file name and length. */
  ghost predicate VerifiedInCache(cached: Catalog, m: MemberRecord) {
    exists chain, known :: chain in cached.chains && known in chain.members
                           && known.imageUuid == m.imageUuid && known.fileName == m.fileName
                           && known.sizeBytes == m.sizeBytes
                           && known.verifiedUnix == m.verifiedUnix
  }

  /** A verification time never appears on a member the cache did not hold it for. */
  lemma VerificationComesFromTheCache(built: Catalog, cache: Cache, chain: ChainRecord, m: MemberRecord)
    requires forall c, r :: c in built.chains && r in c.members ==> r.verifiedUnix.None?
    requires chain in LoadFrom(built, cache).catalog.chains && m in chain.members && m.verifiedUnix.Some?
    ensures cache.Cached? && VerifiedInCache(cache.catalog, m)
  {
    if cache.Cached? && !SameRecords(cache.catalog, built) {
      var cached := cache.catalog.chains;
      var k :| 0 <= k < |built.chains| && CarriedChains(cached, built.chains)[k] == chain;
      var i :| 0 <= i < |chain.members| && chain.members[i] == m;
      var before := built.chains[k].members[i];
      assert before in built.chains[k].members && built.chains[k] in built.chains;
      assert m == CarryMember(cached, before);
      var known := FindAcross(cached, before.imageUuid).value;
      var c :| c in cached && known in c.members;
    }
  }

  // ------------------------------------------------- what every scan gives

  /** No image id occurs twice in one chain of the scan. */
  ghost predicate IdsDifferWithinChains(scan: seq<ScannedMember>) {
    forall i, j :: 0 <= i < j < |scan| && scan[i].superblock.chainId == scan[j].superblock.chainId ==>
                     scan[i].superblock.imageUuid != scan[j].superblock.imageUuid
  }

  lemma {:induction false} OfIsWithin(scan: seq<ScannedMember>, chainId: Id)
    ensures forall m :: m in Of(scan, chainId) <==> m in scan && m.superblock.chainId == chainId
  {
    if scan != [] {
      var front, last := scan[..|scan| - 1], scan[|scan| - 1];
      assert scan == front + [last];
      OfIsWithin(front, chainId);
    }
  }

  lemma {:induction false} OfRepeatsNothing(scan: seq<ScannedMember>, chainId: Id)
    requires IdsDifferWithinChains(scan)
    ensures Sorting.Distinct(Of(scan, chainId))
  {
    if scan != [] {
      var front, last := scan[..|scan| - 1], scan[|scan| - 1];
      assert scan == front + [last];
      OfRepeatsNothing(front, chainId);
      OfIsWithin(front, chainId);
    }
  }

  lemma OrderedIdsDiffer(scan: seq<ScannedMember>, chainId: Id)
    requires IdsDifferWithinChains(scan)
    ensures Sorting.Distinct(MemberIds(RecordsOf(Ordered(scan, chainId))))
  {
    var group, ordered := Of(scan, chainId), Ordered(scan, chainId);
    OfRepeatsNothing(scan, chainId);
    Sorting.SortByCorrect(ScannedSeq, group);
    Sorting.DistinctMultiset(group);
    Sorting.DistinctMultiset(ordered);
    Sorting.SortByMembers(ScannedSeq, group);
    OfIsWithin(scan, chainId);
    forall i, j | 0 <= i < j < |ordered| ensures ordered[i].superblock.imageUuid != ordered[j].superblock.imageUuid {
      assert ordered[i] in group && ordered[j] in group && ordered[i] != ordered[j];
      IdsTellApart(scan, ordered[i], ordered[j]);
    }
  }

  lemma IdsTellApart(scan: seq<ScannedMember>, m: ScannedMember, n: ScannedMember)
    requires IdsDifferWithinChains(scan) && m in scan && n in scan && m != n
    requires m.superblock.chainId == n.superblock.chainId
    ensures m.superblock.imageUuid != n.superblock.imageUuid
  {
    var a :| 0 <= a < |scan| && scan[a] == m;
    var b :| 0 <= b < |scan| && scan[b] == n;
  }

  /** A catalog built from a scan repeats nothing, has no empty chain and carries no verification time. */
  lemma BuiltIsPlain(c: Catalog, scan: seq<ScannedMember>)
    requires IsBuilt(c, scan) && IdsDifferWithinChains(scan)
    ensures NoRepeats(c) && NoEmptyChains(c)
    ensures forall chain, m :: chain in c.chains && m in chain.members ==> m.verifiedUnix.None?
  {
    forall chain | chain in c.chains
      ensures Sorting.Distinct(MemberIds(chain.members)) && chain.members != []
      ensures forall m :: m in chain.members ==> m.verifiedUnix.None?
    {
      assert IsChain(chain, scan);
      OrderedIdsDiffer(scan, chain.chainId);
      OfNonempty(scan, chain.chainId);
    }
  }

  /**
   Loading a set whose chains repeat no image id: the catalog used tells what
   the superblocks tell unless the cache passed the agreement test while
   repeating something, and a verification time is one the cache held for the
   very same image.
   */
  lemma LoadedFromScan(scan: seq<ScannedMember>, built: Catalog, cache: Cache)
    requires IsBuilt(built, scan) && IdsDifferWithinChains(scan)
    ensures SameFacts(LoadFrom(built, cache).catalog, built) <==>
            (cache.Cached? && SameRecords(cache.catalog, built) ==> NoRepeats(cache.catalog))
    ensures forall chain, m ::
              chain in LoadFrom(built, cache).catalog.chains && m in chain.members && m.verifiedUnix.Some? ==>
                                 cache.Cached? && VerifiedInCache(cache.catalog, m)
  {
    BuiltIsPlain(built, scan);
    LoadTellsTheTruth(built, cache);
    forall chain, m | chain in LoadFrom(built, cache).catalog.chains && m in chain.members && m.verifiedUnix.Some?
      ensures cache.Cached? && VerifiedInCache(cache.catalog, m)
    {
      VerificationComesFromTheCache(built, cache, chain, m);
    }
  }

  /** A cache that lists its first chain twice passes for a set of two chains, and hides the second. */
  lemma RepeatedChainHidesAnother(first: ChainRecord, second: ChainRecord, setId: Id, m: MemberRecord)
    requires first.chainId != second.chainId && Lists(second, m)
    requires Sorting.Distinct(MemberIds(first.members))
    ensures var built := Catalog(CATALOG_VERSION, setId, 0, [first, second]);
            var cached := Catalog(CATALOG_VERSION, setId, 0, [first, first]);
            && SameRecords(cached, built)
            && Tells(built, second.chainId, second.createdUnix, m)
            && !Tells(LoadFrom(built, Cached(cached)).catalog, second.chainId, second.createdUnix, m)
  {
    var built := Catalog(CATALOG_VERSION, setId, 0, [first, second]);
    var cached := Catalog(CATALOG_VERSION, setId, 0, [first, first]);
    forall r | r in first.members ensures first.Member(r.imageUuid) == Some(r) {
      FoundMember(first, r);
    }
    assert SameChain(first, first);
    assert built.Chain(first.chainId) == Some(first);
    assert SameRecords(cached, built);
    assert second == built.chains[1] && second in built.chains;
  }
}
