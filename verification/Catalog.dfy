/**
 The set catalog: rebuilt from the members' superblocks, and a cache that is
 used only when it agrees with them.
 */
module Catalogs {
  import opened Wrappers
  import opened Superblocks
  import Sorting

  datatype MemberRecord = MemberRecord(
    imageUuid: Id,
    parentUuid: Id,
    kind: MemberKind,
    seqInChain: nat,
    imageKind: ImageKind,
    consistency: nat,
    createdUnix: nat,
    sizeBytes: nat,
    fileName: string,
    verifiedUnix: Option<nat>)

  datatype ChainRecord = ChainRecord(chainId: Id, createdUnix: nat, members: seq<MemberRecord>) {

    /** The first member with this image id. */
    function Member(imageUuid: Id): Option<MemberRecord> {
      FindMember(members, imageUuid)
    }
  }

  datatype Catalog = Catalog(version: nat, setId: Id, updatedUnix: nat, chains: seq<ChainRecord>) {

    function Chain(chainId: Id): Option<ChainRecord> {
      FindChain(chains, chainId)
    }
  }

  const CATALOG_VERSION: nat := 1

  function FindMember(members: seq<MemberRecord>, imageUuid: Id): (r: Option<MemberRecord>)
    ensures r.Some? ==> r.value in members && r.value.imageUuid == imageUuid
    ensures r.None? ==> forall m :: m in members ==> m.imageUuid != imageUuid
  {
    if members == [] then None
    else if members[0].imageUuid == imageUuid then Some(members[0])
    else FindMember(members[1..], imageUuid)
  }

  function FindChain(chains: seq<ChainRecord>, chainId: Id): (r: Option<ChainRecord>)
    ensures r.Some? ==> r.value in chains && r.value.chainId == chainId
    ensures r.None? ==> forall c :: c in chains ==> c.chainId != chainId
  {
    if chains == [] then None
    else if chains[0].chainId == chainId then Some(chains[0])
    else FindChain(chains[1..], chainId)
  }

  // ------------------------------------------------------------- rebuilding

  /** A readable image file with the superblock it starts with. */
  datatype ScannedMember = ScannedMember(fileName: string, superblock: Superblock, sizeBytes: nat)

  function ScannedSeq(m: ScannedMember): int {
    m.superblock.seqInChain
  }

  /** The scanned members of one chain, in listing order. */
  function Of(scan: seq<ScannedMember>, chainId: Id): seq<ScannedMember> {
    if scan == [] then []
    else
      var last := scan[|scan| - 1];
      Of(scan[..|scan| - 1], chainId) + if last.superblock.chainId == chainId then [last] else []
  }

  /** That group, sorted by sequence number. */
  function Ordered(scan: seq<ScannedMember>, chainId: Id): seq<ScannedMember> {
    Sorting.SortBy(ScannedSeq, Of(scan, chainId))
  }

  function RecordOf(m: ScannedMember): MemberRecord {
    var sb := m.superblock;
    MemberRecord(sb.imageUuid, sb.parentUuid, KindOf(sb), sb.seqInChain, sb.imageKind, sb.consistency, sb.createdUnix,
                 m.sizeBytes, m.fileName, None)
  }

  function RecordsOf(ms: seq<ScannedMember>): (rs: seq<MemberRecord>)
    ensures |rs| == |ms| && forall k :: 0 <= k < |ms| ==> rs[k] == RecordOf(ms[k])
  {
    seq(|ms|, k requires 0 <= k < |ms| => RecordOf(ms[k]))
  }

  /** The creation time of the member created first. */
  function EarliestOf(ms: seq<ScannedMember>): (t: nat)
    ensures ms != [] ==> exists m :: m in ms && m.superblock.createdUnix == t
    ensures forall m :: m in ms ==> t <= m.superblock.createdUnix
  {
    if ms == [] then 0
    else if |ms| == 1 then ms[0].superblock.createdUnix
    else
      var rest := EarliestOf(ms[1..]);
      if ms[0].superblock.createdUnix < rest then ms[0].superblock.createdUnix else rest
  }

  /** The chain record the superblocks of one chain give. */
  function ChainOf(scan: seq<ScannedMember>, chainId: Id): ChainRecord {
    var ordered := Ordered(scan, chainId);
    ChainRecord(chainId, EarliestOf(ordered), RecordsOf(ordered))
  }

  /** Chain ids strictly ascend. */
  ghost predicate IdsAscend(chains: seq<ChainRecord>) {
    forall j, k :: 0 <= j < k < |chains| ==> chains[j].chainId < chains[k].chainId
  }

  ghost predicate InScan(scan: seq<ScannedMember>, chainId: Id) {
    exists k :: 0 <= k < |scan| && scan[k].superblock.chainId == chainId
  }

  /** The catalog a scan gives: one record per chain, by ascending chain id. */
  ghost predicate IsBuilt(c: Catalog, scan: seq<ScannedMember>) {
    && c.version == CATALOG_VERSION
    && c.setId == (if scan == [] then 0 else scan[0].superblock.setId)
    && IdsAscend(c.chains)
    && (forall k :: 0 <= k < |c.chains| ==> IsChain(c.chains[k], scan))
    && forall id :: InScan(scan, id) ==> HasChain(c.chains, id)
  }

  /** A chain record as the superblocks of that chain give it. */
  ghost predicate IsChain(chain: ChainRecord, scan: seq<ScannedMember>) {
    chain == ChainOf(scan, chain.chainId) && InScan(scan, chain.chainId)
  }

  ghost predicate HasChain(chains: seq<ChainRecord>, id: Id) {
    exists k :: 0 <= k < |chains| && chains[k].chainId == id
  }

  /** Put a chain record where one of its id is, or at the end. */
  function Upsert(chains: seq<ChainRecord>, chain: ChainRecord): seq<ChainRecord> {
    if chains == [] then [chain]
    else if chains[0].chainId == chain.chainId then [chain] + chains[1..]
    else [chains[0]] + Upsert(chains[1..], chain)
  }

  lemma {:induction false} UpsertNew(chains: seq<ChainRecord>, chain: ChainRecord)
    requires forall c :: c in chains ==> c.chainId != chain.chainId
    ensures Upsert(chains, chain) == chains + [chain]
  {
    if chains != [] {
      UpsertNew(chains[1..], chain);
    }
  }

  ghost predicate IsSmallest(ids: set<Id>, id: Id) {
    id in ids && forall other :: other in ids ==> id <= other
  }

  /** The smallest id of a group of chains, found by elimination. */
  method Smallest(ids: set<Id>) returns (low: Id)
    requires ids != {}
    ensures IsSmallest(ids, low)
  {
    low :| low in ids;
    var rest := ids - {low};
    while rest != {}
      invariant rest <= ids && low in ids
      invariant forall other :: other in ids && other !in rest ==> low <= other
      decreases |rest|
    {
      var id :| id in rest;
      rest := rest - {id};
      if id < low { low := id; }
    }
  }

  lemma {:induction false} OfNonempty(scan: seq<ScannedMember>, chainId: Id)
    ensures Of(scan, chainId) != [] <==> InScan(scan, chainId)
  {
    if scan != [] {
      OfNonempty(scan[..|scan| - 1], chainId);
      if InScan(scan, chainId) {
        var k :| 0 <= k < |scan| && scan[k].superblock.chainId == chainId;
        assert k < |scan| - 1 ==> scan[..|scan| - 1][k] == scan[k];
      }
      var front := scan[..|scan| - 1];
      if k :| 0 <= k < |front| && front[k].superblock.chainId == chainId {
        assert scan[k].superblock.chainId == chainId;
      }
    }
  }

  /** The catalog's chains with ids below every id in `left`, and all other chains of the scan. */
  ghost predicate BuiltUpTo(chains: seq<ChainRecord>, scan: seq<ScannedMember>, left: set<Id>) {
    && IdsAscend(chains)
    && (forall j, id :: 0 <= j < |chains| && id in left ==> chains[j].chainId < id)
    && (forall j :: 0 <= j < |chains| ==> IsChain(chains[j], scan))
    && forall id :: InScan(scan, id) && id !in left ==> HasChain(chains, id)
  }

  lemma AppendKeepsChains(chains: seq<ChainRecord>, chain: ChainRecord)
    ensures forall id :: HasChain(chains + [chain], id) <==> HasChain(chains, id) || id == chain.chainId
  {
    var all := chains + [chain];
    forall id | HasChain(chains, id) || id == chain.chainId ensures HasChain(all, id) {
      if id == chain.chainId {
        assert all[|chains|].chainId == id;
      } else {
        var j :| 0 <= j < |chains| && chains[j].chainId == id;
        assert all[j].chainId == id;
      }
    }
  }

  lemma AppendKeepsOrder(chains: seq<ChainRecord>, chain: ChainRecord, left: set<Id>)
    requires IdsAscend(chains) && IsSmallest(left, chain.chainId)
    requires forall j, id :: 0 <= j < |chains| && id in left ==> chains[j].chainId < id
    ensures IdsAscend(chains + [chain])
    ensures forall j, id :: 0 <= j < |chains + [chain]| && id in left - {chain.chainId} ==>
              (chains + [chain])[j].chainId < id
    ensures Upsert(chains, chain) == chains + [chain]
  {
    var all := chains + [chain];
    forall j, k | 0 <= j < k < |all| ensures all[j].chainId < all[k].chainId {
      if k == |chains| { assert all[k] == chain && chain.chainId in left; }
    }
    forall c | c in chains ensures c.chainId != chain.chainId {
      var j :| 0 <= j < |chains| && chains[j] == c;
    }
    UpsertNew(chains, chain);
  }

  lemma AppendBuilt(chains: seq<ChainRecord>, chain: ChainRecord, scan: seq<ScannedMember>, left: set<Id>)
    requires BuiltUpTo(chains, scan, left) && IsSmallest(left, chain.chainId) && IsChain(chain, scan)
    ensures Upsert(chains, chain) == chains + [chain]
    ensures BuiltUpTo(chains + [chain], scan, left - {chain.chainId})
  {
    AppendKeepsOrder(chains, chain, left);
    AppendKeepsChains(chains, chain);
    forall j | 0 <= j < |chains + [chain]| ensures IsChain((chains + [chain])[j], scan) {
      assert j < |chains| ==> IsChain(chains[j], scan);
    }
  }

  lemma BuiltStep(chains: seq<ChainRecord>, scan: seq<ScannedMember>, left: set<Id>, id: Id)
    requires BuiltUpTo(chains, scan, left) && IsSmallest(left, id) && InScan(scan, id)
    ensures Upsert(chains, ChainOf(scan, id)) == chains + [ChainOf(scan, id)]
    ensures BuiltUpTo(chains + [ChainOf(scan, id)], scan, left - {id})
  {
    AppendBuilt(chains, ChainOf(scan, id), scan, left);
  }

  /** Group the scanned members by chain. */
  method Group(scan: seq<ScannedMember>) returns (groups: map<Id, seq<ScannedMember>>)
    ensures forall id :: id in groups <==> InScan(scan, id)
    ensures forall id :: id in groups ==> groups[id] == Of(scan, id)
  {
    groups := map[];
    for k := 0 to |scan|
      invariant forall id :: id in groups <==> InScan(scan[..k], id)
      invariant forall id :: id in groups ==> groups[id] == Of(scan[..k], id)
    {
      var id := scan[k].superblock.chainId;
      OfNonempty(scan[..k], id);
      ScanStep(scan, k);
      groups := groups[id := (if id in groups then groups[id] else []) + [scan[k]]];
    }
    assert scan[..|scan|] == scan;
  }

  /** Group what was scanned, then emit the groups by ascending chain id. */
  method BuildCatalog(scan: seq<ScannedMember>, now: nat) returns (c: Catalog)
    ensures IsBuilt(c, scan) && c.updatedUnix == now
  {
    var groups := Group(scan);
    var chains: seq<ChainRecord> := [];
    var left := groups.Keys;
    while left != {}
      invariant left <= groups.Keys
      invariant BuiltUpTo(chains, scan, left)
      decreases |left|
    {
      var id := Smallest(left);
      var members := Sorting.SortBy(ScannedSeq, groups[id]);
      BuiltStep(chains, scan, left, id);
      chains := Upsert(chains, ChainRecord(id, EarliestOf(members), RecordsOf(members)));
      left := left - {id};
    }
    return Catalog(CATALOG_VERSION, if scan == [] then 0 else scan[0].superblock.setId, now, chains);
  }

  lemma ScanStep(scan: seq<ScannedMember>, k: nat)
    requires k < |scan|
    ensures forall id :: InScan(scan[..k + 1], id) <==> InScan(scan[..k], id) || scan[k].superblock.chainId == id
    ensures forall id ::
              Of(scan[..k + 1], id) == Of(scan[..k], id) + if scan[k].superblock.chainId == id then [scan[k]] else []
  {
    assert scan[..k + 1][..k] == scan[..k];
    forall id ensures InScan(scan[..k + 1], id) <==> InScan(scan[..k], id) || scan[k].superblock.chainId == id {
      if InScan(scan[..k], id) {
        var j :| 0 <= j < k && scan[..k][j].superblock.chainId == id;
        assert scan[..k + 1][j].superblock.chainId == id;
      }
      if scan[k].superblock.chainId == id { assert scan[..k + 1][k].superblock.chainId == id; }
      if InScan(scan[..k + 1], id) {
        var j :| 0 <= j < k + 1 && scan[..k + 1][j].superblock.chainId == id;
        assert j < k ==> scan[..k][j].superblock.chainId == id;
      }
    }
  }

  // ------------------------------------------------------------- structure

  function SeqsOf(members: seq<MemberRecord>): (seqs: seq<nat>)
    ensures |seqs| == |members| && forall k :: 0 <= k < |members| ==> seqs[k] == members[k].seqInChain
  {
    seq(|members|, k requires 0 <= k < |members| => members[k].seqInChain)
  }

  function Itself(n: nat): int {
    n
  }

  function FindSeq(members: seq<MemberRecord>, n: nat): (r: Option<MemberRecord>)
    ensures r.Some? ==> r.value in members && r.value.seqInChain == n
  {
    if members == [] then None
    else if members[0].seqInChain == n then Some(members[0])
    else FindSeq(members[1..], n)
  }

  /** The sequence numbers are 0, 1, 2 and so on, and number 0 is a full. */
  predicate IsComplete(chain: ChainRecord) {
    var seqs := Sorting.SortBy(Itself, SeqsOf(chain.members));
    && seqs != [] && seqs[0] == 0
    && (forall k :: 0 <= k < |seqs| ==> seqs[k] == k)
    && FindSeq(chain.members, 0).Some? && FindSeq(chain.members, 0).value.kind == MemberKind.Full
  }

  /** Of the members with the largest sequence number, the one listed last. */
  function LatestMember(members: seq<MemberRecord>): (r: Option<MemberRecord>)
    ensures r.None? <==> members == []
    ensures r.Some? ==> r.value in members && forall m :: m in members ==> m.seqInChain <= r.value.seqInChain
  {
    if members == [] then None
    else
      assert members == members[..|members| - 1] + [members[|members| - 1]];
      var front, last := members[..|members| - 1], members[|members| - 1];
      match LatestMember(front)
      case None => Some(last)
      case Some(m) => if m.seqInChain <= last.seqInChain then Some(last) else Some(m)
  }

  function CountIncrementals(members: seq<MemberRecord>): nat {
    if members == [] then 0
    else CountIncrementals(members[..|members| - 1]) + if members[|members| - 1].seqInChain > 0 then 1 else 0
  }

  datatype Warning =
    | TwoMembersAtSeq(chainId: Id, seqInChain: nat)
    | BrokenLink(chainId: Id, imageUuid: Id, previous: Id)

  function PairWarnings(chainId: Id, previous: MemberRecord, next: MemberRecord): seq<Warning> {
    (if previous.seqInChain == next.seqInChain then [TwoMembersAtSeq(chainId, next.seqInChain)] else [])
    + if next.parentUuid != previous.imageUuid then [BrokenLink(chainId, next.imageUuid, previous.imageUuid)] else []
  }

  function WarningsOf(chainId: Id, members: seq<MemberRecord>): seq<Warning> {
    if |members| < 2 then []
    else
      WarningsOf(chainId, members[..|members| - 1])
      + PairWarnings(chainId, members[|members| - 2], members[|members| - 1])
  }

  /** The structural problems of a catalog's chains. */
  function ChainWarnings(chains: seq<ChainRecord>): seq<Warning> {
    if chains == [] then []
    else
      ChainWarnings(chains[..|chains| - 1]) + WarningsOf(chains[|chains| - 1].chainId, chains[|chains| - 1].members)
  }

  // ----------------------------------------------------- cache against scan

  /** All that a superblock scan can confirm of a member. */
  function Strip(m: MemberRecord): MemberRecord {
    m.(verifiedUnix := None)
  }

  predicate SameChain(chain: ChainRecord, other: ChainRecord) {
    && chain.createdUnix == other.createdUnix
    && |chain.members| == |other.members|
    && forall m :: m in chain.members ==>
         other.Member(m.imageUuid).Some? && Strip(other.Member(m.imageUuid).value) == Strip(m)
  }

  /** The agreement test of the cache with the scanned catalog. */
  predicate SameRecords(left: Catalog, right: Catalog) {
    && left.version == right.version
    && left.setId == right.setId
    && |left.chains| == |right.chains|
    && forall chain :: chain in left.chains ==>
         right.Chain(chain.chainId).Some? && SameChain(chain, right.Chain(chain.chainId).value)
  }

  function CarryMember(cached: seq<ChainRecord>, m: MemberRecord): MemberRecord {
    match FindAcross(cached, m.imageUuid)
    case None => m
    case Some(known) =>
      if known.fileName == m.fileName && known.sizeBytes == m.sizeBytes then m.(verifiedUnix := known.verifiedUnix)
      else m
  }

  /** The first cached member with this image id, chain by chain. */
  function FindAcross(cached: seq<ChainRecord>, imageUuid: Id): (r: Option<MemberRecord>)
    ensures r.Some? ==> r.value.imageUuid == imageUuid && exists c :: c in cached && r.value in c.members
  {
    if cached == [] then None
    else
      match cached[0].Member(imageUuid)
      case Some(m) => Some(m)
      case None => FindAcross(cached[1..], imageUuid)
  }

  function CarriedMembers(cached: seq<ChainRecord>, members: seq<MemberRecord>): (ms: seq<MemberRecord>)
    ensures |ms| == |members| && forall k :: 0 <= k < |ms| ==> ms[k] == CarryMember(cached, members[k])
  {
    seq(|members|, k requires 0 <= k < |members| => CarryMember(cached, members[k]))
  }

  function CarriedChains(cached: seq<ChainRecord>, chains: seq<ChainRecord>): (cs: seq<ChainRecord>)
    ensures |cs| == |chains|
    ensures forall k :: 0 <= k < |cs| ==> cs[k] == chains[k].(members := CarriedMembers(cached, chains[k].members))
  {
    seq(|chains|, k requires 0 <= k < |chains| => chains[k].(members := CarriedMembers(cached, chains[k].members)))
  }

  /** Copy verification times from the cache to the same immutable images, member by member. */
  method CarryVerification(cached: Catalog, built: Catalog) returns (c: Catalog)
    ensures c == built.(chains := CarriedChains(cached.chains, built.chains))
  {
    var chains := built.chains;
    for k := 0 to |chains|
      invariant |chains| == |built.chains|
      invariant forall j :: 0 <= j < k ==> chains[j] == CarriedChains(cached.chains, built.chains)[j]
      invariant forall j :: k <= j < |chains| ==> chains[j] == built.chains[j]
    {
      var members := chains[k].members;
      for i := 0 to |members|
        invariant |members| == |built.chains[k].members|
        invariant forall j :: 0 <= j < i ==> members[j] == CarriedMembers(cached.chains, built.chains[k].members)[j]
        invariant forall j :: i <= j < |members| ==> members[j] == built.chains[k].members[j]
      {
        members := members[i := CarryMember(cached.chains, members[i])];
      }
      assert members == CarriedMembers(cached.chains, built.chains[k].members);
      chains := chains[k := chains[k].(members := members)];
    }
    return built.(chains := chains);
  }

  datatype Cache = Missing | Unreadable | Cached(catalog: Catalog)

  datatype Loaded = Loaded(catalog: Catalog, rebuilt: bool, disagrees: bool)

  /** What a load returns, given the rebuilt catalog. */
  function LoadFrom(built: Catalog, cache: Cache): Loaded {
    match cache
    case Missing => Loaded(built, true, false)
    case Unreadable => Loaded(built, true, false)
    case Cached(cached) =>
      if SameRecords(cached, built) then Loaded(cached, false, false)
      else Loaded(built.(chains := CarriedChains(cached.chains, built.chains)), true, true)
  }

  /** The cache if the scan bears it out, otherwise what the scan gives. */
  method Load(scan: seq<ScannedMember>, cache: Cache, now: nat) returns (r: Loaded)
    ensures LoadedFrom(r, scan, cache, now)
  {
    var built := BuildCatalog(scan, now);
    if cache.Unreadable? || cache.Missing? {
      r := Loaded(built, true, false);
    } else if SameRecords(cache.catalog, built) {
      r := Loaded(cache.catalog, false, false);
    } else {
      var carried := CarryVerification(cache.catalog, built);
      CarryingChangesNoRecord(cache.catalog, built);
      r := Loaded(carried, true, !SameRecords(cache.catalog, carried));
    }
    assert r == LoadFrom(built, cache);
  }

  /** `r` is what a load at time `now` returns for this scan and this cache. */
  ghost predicate LoadedFrom(r: Loaded, scan: seq<ScannedMember>, cache: Cache, now: nat) {
    exists built :: IsBuilt(built, scan) && built.updatedUnix == now && r == LoadFrom(built, cache)
  }

  lemma {:induction false} FindMemberCarried(cached: seq<ChainRecord>, members: seq<MemberRecord>, id: Id)
    ensures FindMember(CarriedMembers(cached, members), id) ==
            match FindMember(members, id) case None => None case Some(m) => Some(CarryMember(cached, m))
  {
    if members != [] {
      assert CarriedMembers(cached, members)[1..] == CarriedMembers(cached, members[1..]);
      FindMemberCarried(cached, members[1..], id);
    }
  }

  lemma {:induction false} FindChainCarried(cached: seq<ChainRecord>, chains: seq<ChainRecord>, id: Id)
    ensures FindChain(CarriedChains(cached, chains), id) ==
            match FindChain(chains, id)
            case None => None
            case Some(c) => Some(c.(members := CarriedMembers(cached, c.members)))
  {
    if chains != [] {
      assert CarriedChains(cached, chains)[1..] == CarriedChains(cached, chains[1..]);
      FindChainCarried(cached, chains[1..], id);
    }
  }

  /** Carrying verification times over changes no record, so a cache that disagreed still disagrees. */
  lemma CarryingChangesNoRecord(cached: Catalog, built: Catalog)
    ensures SameRecords(cached, built.(chains := CarriedChains(cached.chains, built.chains))) <==>
              SameRecords(cached, built)
  {
    var carried := built.(chains := CarriedChains(cached.chains, built.chains));
    forall chain | chain in cached.chains
      ensures carried.Chain(chain.chainId).Some? <==> built.Chain(chain.chainId).Some?
      ensures built.Chain(chain.chainId).Some? ==>
                (SameChain(chain, carried.Chain(chain.chainId).value)
                 <==> SameChain(chain, built.Chain(chain.chainId).value))
    {
      FindChainCarried(cached.chains, built.chains, chain.chainId);
      if built.Chain(chain.chainId).Some? {
        forall m | m in chain.members
          ensures var a := carried.Chain(chain.chainId).value.Member(m.imageUuid);
                  var b := built.Chain(chain.chainId).value.Member(m.imageUuid);
                  (a.Some? <==> b.Some?) && (a.Some? ==> Strip(a.value) == Strip(b.value))
        {
          FindMemberCarried(cached.chains, built.Chain(chain.chainId).value.members, m.imageUuid);
        }
      }
    }
  }
}
