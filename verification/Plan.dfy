/**
 Choosing the parent of a new member and planning the member, under the set
 lock: from the validated catalog to the member's place in its chain.
 */
module Plans {
  import opened Wrappers
  import opened Superblocks
  import opened Catalogs
  import Sorting

  function Filter<T(!new)>(keep: T -> bool, xs: seq<T>): (r: seq<T>)
    ensures forall x :: x in r <==> x in xs && keep(x)
    ensures |r| <= |xs|
  {
    if xs == [] then []
    else
      var front := Filter(keep, xs[..|xs| - 1]);
      assert xs == xs[..|xs| - 1] + [xs[|xs| - 1]];
      if keep(xs[|xs| - 1]) then front + [xs[|xs| - 1]] else front
  }

  lemma {:induction false} FilterAll<T(!new)>(keep: T -> bool, xs: seq<T>)
    requires forall x :: x in xs ==> keep(x)
    ensures Filter(keep, xs) == xs
  {
    if xs != [] {
      FilterAll(keep, xs[..|xs| - 1]);
    }
  }

  lemma FilterAppend<T(!new)>(keep: T -> bool, xs: seq<T>, x: T)
    ensures Filter(keep, xs + [x]) == Filter(keep, xs) + if keep(x) then [x] else []
  {
    assert (xs + [x])[..|xs|] == xs;
  }

  // ------------------------------------------------------------ the parent

  datatype ParentRef = Latest | Named(imageUuid: Id) | Malformed

  predicate CreatedAt(t: nat, chain: ChainRecord) {
    chain.createdUnix == t
  }

  function NewestCreated(chains: seq<ChainRecord>): (t: nat)
    requires chains != []
    ensures forall c :: c in chains ==> c.createdUnix <= t
    ensures exists c :: c in chains && c.createdUnix == t
  {
    if |chains| == 1 then chains[0].createdUnix
    else
      var rest := NewestCreated(chains[1..]);
      if chains[0].createdUnix < rest then rest else chains[0].createdUnix
  }

  /** The complete chains that share the newest creation second. */
  function NewestChains(chains: seq<ChainRecord>): seq<ChainRecord> {
    var complete := Filter(IsComplete, chains);
    if complete == [] then [] else Filter(c => CreatedAt(NewestCreated(complete), c), complete)
  }

  /** "latest" among the newest chains: none to choose from, exactly one, or a tie nobody can break. */
  function LatestOf(c: Catalog): Result<Option<MemberRecord>> {
    var tied := NewestChains(c.chains);
    if tied == [] then Success(None)
    else if |tied| == 1 then Success(LatestMember(tied[0].members))
    else Failure(Unsupported)
  }

  /** The first chain that lists this image. */
  function Holder(chains: seq<ChainRecord>, imageUuid: Id): (r: Option<ChainRecord>)
    ensures r.Some? ==> r.value in chains && r.value.Member(imageUuid).Some?
    ensures r.None? ==> forall c :: c in chains ==> c.Member(imageUuid).None?
  {
    if chains == [] then None
    else if chains[0].Member(imageUuid).Some? then Some(chains[0])
    else Holder(chains[1..], imageUuid)
  }

  /** The catalog entry that a reference means. */
  function ResolveParent(c: Catalog, ref: ParentRef): Result<MemberRecord> {
    match ref
    case Latest =>
      (match LatestOf(c)
       case Failure(e) => Failure(e)
       case Success(None) => Failure(Unsupported)
       case Success(Some(m)) => Success(m))
    case Malformed => Failure(Unsupported)
    case Named(wanted) =>
      match Holder(c.chains, wanted)
      case None => Failure(Unsupported)
      case Some(chain) =>
        if !IsComplete(chain) then Failure(Unsupported)
        else if LatestMember(chain.members).Some? && LatestMember(chain.members).value.imageUuid != wanted then
          Failure(Unsupported)
        else Success(chain.Member(wanted).value)
  }

  /** `m` is, by image id, the newest member of a complete chain of the catalog. */
  ghost predicate IsNewestOf(c: Catalog, chain: ChainRecord, m: MemberRecord) {
    && chain in c.chains && IsComplete(chain) && m in chain.members
    && LatestMember(chain.members).Some? && LatestMember(chain.members).value.imageUuid == m.imageUuid
  }

  lemma ResolvedIn(c: Catalog, ref: ParentRef) returns (chain: ChainRecord)
    requires ResolveParent(c, ref).Success?
    ensures IsNewestOf(c, chain, ResolveParent(c, ref).value)
    ensures ref.Named? ==> ResolveParent(c, ref).value.imageUuid == ref.imageUuid
    ensures ref.Latest? ==> NewestChains(c.chains) == [chain]
  {
    if ref.Latest? {
      chain := NewestChains(c.chains)[0];
      assert chain in Filter(IsComplete, c.chains);
    } else {
      chain := Holder(c.chains, ref.imageUuid).value;
    }
  }

  /** A parent is the newest member of a complete chain, whatever catalog and reference it came from. */
  lemma ParentIsNewest(c: Catalog, ref: ParentRef)
    ensures ResolveParent(c, ref).Success? ==> exists chain :: IsNewestOf(c, chain, ResolveParent(c, ref).value)
  {
    if ResolveParent(c, ref).Success? {
      var chain := ResolvedIn(c, ref);
    }
  }

  /** A position holding a complete chain that no complete chain elsewhere is as new as. */
  ghost predicate StrictlyNewest(chains: seq<ChainRecord>, k: int) {
    && 0 <= k < |chains| && IsComplete(chains[k])
    && forall j :: 0 <= j < |chains| && j != k && IsComplete(chains[j]) ==>
                     chains[j].createdUnix < chains[k].createdUnix
  }

  /** Both filters at once. */
  predicate CompleteAt(t: nat, chain: ChainRecord) {
    IsComplete(chain) && chain.createdUnix == t
  }

  lemma {:induction false} FilterTwice(chains: seq<ChainRecord>, t: nat)
    ensures Filter(c => CreatedAt(t, c), Filter(IsComplete, chains)) == Filter(c => CompleteAt(t, c), chains)
  {
    if chains != [] {
      var front, last := chains[..|chains| - 1], chains[|chains| - 1];
      FilterTwice(front, t);
      var some := Filter(IsComplete, front);
      if IsComplete(last) {
        assert (some + [last])[..|some|] == some;
      }
    }
  }

  /** One element is kept exactly when one position holds a kept element. */
  lemma {:induction false} FilterOne<T(!new)>(keep: T -> bool, xs: seq<T>, k: nat)
    requires k < |xs| && keep(xs[k])
    ensures |Filter(keep, xs)| == 1 <==> forall j :: 0 <= j < |xs| && keep(xs[j]) ==> j == k
    ensures |Filter(keep, xs)| == 1 ==> Filter(keep, xs) == [xs[k]]
  {
    var front, last := xs[..|xs| - 1], xs[|xs| - 1];
    assert xs == front + [last];
    if k < |front| {
      FilterOne(keep, front, k);
      assert xs[k] in front;
      assert forall j :: 0 <= j < |front| ==> front[j] == xs[j];
    } else {
      var kept := Filter(keep, front);
      if kept != [] {
        assert kept[0] in front;
        var j :| 0 <= j < |front| && front[j] == kept[0];
        assert keep(xs[j]);
      } else {
        forall j | 0 <= j < |front| ensures !keep(xs[j]) {
          assert front[j] in front;
        }
      }
    }
  }

  /**
   "latest" is decided exactly when one complete chain is strictly newer than all others; it names that
   chain's newest member.
   */
  lemma LatestIsDecided(c: Catalog)
    ensures ResolveParent(c, Latest).Success? <==> exists k :: StrictlyNewest(c.chains, k)
    ensures forall k :: StrictlyNewest(c.chains, k) ==>
                          ResolveParent(c, Latest) == Success(LatestMember(c.chains[k].members).value)
  {
    var chains := c.chains;
    forall k | StrictlyNewest(chains, k)
      ensures NewestChains(chains) == [chains[k]]
    {
      NewestAlone(chains, k);
    }
    if ResolveParent(c, Latest).Success? {
      var k := NewestPosition(chains);
    }
  }

  lemma NewestAlone(chains: seq<ChainRecord>, k: int)
    requires StrictlyNewest(chains, k)
    ensures NewestChains(chains) == [chains[k]]
  {
    var complete := Filter(IsComplete, chains);
    assert chains[k] in complete;
    NewestTime(chains, complete, k);
    FilterTwice(chains, chains[k].createdUnix);
    FilterOne(c => CompleteAt(chains[k].createdUnix, c), chains, k);
  }

  lemma NewestTime(chains: seq<ChainRecord>, complete: seq<ChainRecord>, k: int)
    requires StrictlyNewest(chains, k) && chains[k] in complete
    requires forall c :: c in complete ==> c in chains && IsComplete(c)
    ensures NewestCreated(complete) == chains[k].createdUnix
  {
    var top :| top in complete && top.createdUnix == NewestCreated(complete);
    var j :| 0 <= j < |chains| && chains[j] == top;
  }

  lemma NewestPosition(chains: seq<ChainRecord>) returns (k: int)
    requires |NewestChains(chains)| == 1
    ensures StrictlyNewest(chains, k)
  {
    var complete := Filter(IsComplete, chains);
    var t := NewestCreated(complete);
    var top := NewestChains(chains)[0];
    FilterTwice(chains, t);
    assert top in Filter(c => CompleteAt(t, c), chains);
    k :| 0 <= k < |chains| && chains[k] == top;
    FilterOne(c => CompleteAt(t, c), chains, k);
    OnlyNewest(chains, complete, t, k);
  }

  lemma OnlyNewest(chains: seq<ChainRecord>, complete: seq<ChainRecord>, t: nat, k: int)
    requires 0 <= k < |chains| && CompleteAt(t, chains[k])
    requires forall c :: c in complete <==> c in chains && IsComplete(c)
    requires forall c :: c in complete ==> c.createdUnix <= t
    requires forall j :: 0 <= j < |chains| && CompleteAt(t, chains[j]) ==> j == k
    ensures StrictlyNewest(chains, k)
  {
  }

  // ------------------------------------------------------- the parent chain

  datatype ChainFile = ChainFile(fileName: string, seqInChain: nat, imageUuid: Id)

  datatype ChainMember = ChainMember(index: nat, imageUuid: Id)

  datatype ParentChain = ParentChain(
    member: MemberRecord,
    chainId: Id,
    setId: Id,
    prefix: seq<ChainMember>,
    files: seq<ChainFile>,
    superblock: Superblock)

  datatype Request = Request(
    mode: ImageKind,
    memberType: MemberKind,
    parent: Option<ParentRef>,
    limit: Option<nat>,
    chainId: Id,
    setId: Id,
    imageUuid: Id,
    createdUnix: nat)

  /** The latest member is the default parent. */
  function RefOf(req: Request): ParentRef {
    if req.parent.Some? then req.parent.value else Latest
  }

  /** Member indices are one byte. */
  const MAX_INDEX: nat := 255

  predicate HasName(fileName: string, m: ScannedMember) {
    m.fileName == fileName
  }

  /** The image of this name among the readable images of the set. */
  function FindFile(scan: seq<ScannedMember>, fileName: string): (r: Option<ScannedMember>)
    ensures r.Some? ==> r.value in scan && r.value.fileName == fileName
    ensures r.None? ==> forall m :: m in scan ==> m.fileName != fileName
  {
    var named := Filter(m => HasName(fileName, m), scan);
    if named == [] then None else Some(named[0])
  }

  function RecordSeq(m: MemberRecord): int {
    m.seqInChain
  }

  predicate NotAfter(n: nat, m: MemberRecord) {
    m.seqInChain <= n
  }

  /** The members up to and including the parent, in sequence order. */
  function RecordsUpTo(chain: ChainRecord, n: nat): seq<MemberRecord> {
    Sorting.SortBy(RecordSeq, Filter(m => NotAfter(n, m), chain.members))
  }

  function FileOf(m: MemberRecord): ChainFile {
    ChainFile(m.fileName, m.seqInChain, m.imageUuid)
  }

  function PrefixOf(records: seq<MemberRecord>): (prefix: seq<ChainMember>)
    ensures |prefix| == |records|
    ensures forall k :: 0 <= k < |records| ==> prefix[k] == ChainMember(k, records[k].imageUuid)
  {
    seq(|records|, k requires 0 <= k < |records| => ChainMember(k, records[k].imageUuid))
  }

  function FilesOf(records: seq<MemberRecord>): (files: seq<ChainFile>)
    ensures |files| == |records|
    ensures forall k :: 0 <= k < |records| ==> files[k] == FileOf(records[k])
  {
    seq(|records|, k requires 0 <= k < |records| => FileOf(records[k]))
  }

  predicate ChainIsFull(limit: Option<nat>, chain: ChainRecord) {
    limit.Some? && limit.value > 0 && CountIncrementals(chain.members) >= limit.value
  }

  /** The chain a member extends; none for a full, and none when the chain is full. */
  function ParentChainFor(req: Request, c: Catalog, scan: seq<ScannedMember>): Result<Option<ParentChain>> {
    if req.memberType.Full? then
      if req.parent.Some? then Failure(Unsupported) else Success(None)
    else
      match ResolveParent(c, RefOf(req))
      case Failure(e) => Failure(e)
      case Success(parent) =>
        match Holder(c.chains, parent.imageUuid)
        case None => Failure(Corrupt)
        case Some(chain) => ExtensionOf(req.limit, chain, parent, scan)
  }

  /** Extend this chain at this parent, unless it is full or too long. */
  function ExtensionOf(limit: Option<nat>, chain: ChainRecord, parent: MemberRecord,
                       scan: seq<ScannedMember>): Result<Option<ParentChain>>
  {
    if ChainIsFull(limit, chain) then Success(None)
    else
      var records := RecordsUpTo(chain, parent.seqInChain);
      if |records| > MAX_INDEX + 1 then Failure(Unsupported)
      else
        match FindFile(scan, parent.fileName)
        case None => Failure(BadRead)
        case Some(found) =>
          Success(Some(ParentChain(parent, chain.chainId, found.superblock.setId, PrefixOf(records), FilesOf(records),
                                   found.superblock)))
  }

  /** `p` is the end of a chain the catalog lists: its newest member, its files up to there, its superblock on disk. */
  ghost predicate Extends(p: ParentChain, req: Request, c: Catalog, scan: seq<ScannedMember>) {
    && !req.memberType.Full?
    && (exists chain :: IsNewestOf(c, chain, p.member))
    && (RefOf(req).Named? ==> p.member.imageUuid == RefOf(req).imageUuid)
    && (exists holder :: IsAncestry(p, req.limit, holder, c))
    && (exists image :: IsParentImage(p, image, scan))
  }

  /** `p` lists, in sequence order and numbered from zero, the members of `holder` up to its own. */
  ghost predicate IsAncestry(p: ParentChain, limit: Option<nat>, holder: ChainRecord, c: Catalog) {
    && holder in c.chains && holder.chainId == p.chainId && !ChainIsFull(limit, holder)
    && holder.Member(p.member.imageUuid).Some?
    && |p.files| == |p.prefix| <= MAX_INDEX + 1
    && (forall i, j :: 0 <= i < j < |p.files| ==> p.files[i].seqInChain <= p.files[j].seqInChain)
    && (forall k :: 0 <= k < |p.files| ==> IsLine(p.files[k], holder, p.member.seqInChain))
    && (forall m :: m in holder.members && m.seqInChain <= p.member.seqInChain ==> FileOf(m) in p.files)
    && (forall k :: 0 <= k < |p.prefix| ==> p.prefix[k] == ChainMember(k, p.files[k].imageUuid))
  }

  ghost predicate IsLine(file: ChainFile, holder: ChainRecord, n: nat) {
    exists m :: m in holder.members && m.seqInChain <= n && file == FileOf(m)
  }

  ghost predicate IsParentImage(p: ParentChain, image: ScannedMember, scan: seq<ScannedMember>) {
    && image in scan && image.fileName == p.member.fileName
    && p.superblock == image.superblock && p.setId == p.superblock.setId
  }

  /** A request that gets a chain of its own: a full, or one whose parent's chain has reached the limit. */
  ghost predicate StartsChain(req: Request, c: Catalog) {
    if req.memberType.Full? then req.parent.None?
    else
      && ResolveParent(c, RefOf(req)).Success?
      && Holder(c.chains, ResolveParent(c, RefOf(req)).value.imageUuid).Some?
      && ChainIsFull(req.limit, Holder(c.chains, ResolveParent(c, RefOf(req)).value.imageUuid).value)
  }

  lemma RecordsAre(chain: ChainRecord, n: nat)
    ensures Sorting.SortedBy(RecordSeq, RecordsUpTo(chain, n))
    ensures forall m :: m in RecordsUpTo(chain, n) <==> m in chain.members && m.seqInChain <= n
  {
    Sorting.SortByCorrect(RecordSeq, Filter(m => NotAfter(n, m), chain.members));
    Sorting.SortByMembers(RecordSeq, Filter(m => NotAfter(n, m), chain.members));
  }

  lemma AncestryOf(p: ParentChain, limit: Option<nat>, holder: ChainRecord, c: Catalog)
    requires holder in c.chains && holder.chainId == p.chainId && !ChainIsFull(limit, holder)
    requires holder.Member(p.member.imageUuid).Some?
    requires var records := RecordsUpTo(holder, p.member.seqInChain);
             |records| <= MAX_INDEX + 1 && p.files == FilesOf(records) && p.prefix == PrefixOf(records)
    ensures IsAncestry(p, limit, holder, c)
  {
    var n := p.member.seqInChain;
    var records := RecordsUpTo(holder, n);
    RecordsAre(holder, n);
    forall i, j | 0 <= i < j < |p.files| ensures p.files[i].seqInChain <= p.files[j].seqInChain {
      assert RecordSeq(records[i]) <= RecordSeq(records[j]);
    }
    forall k | 0 <= k < |p.files| ensures IsLine(p.files[k], holder, n) {
      assert records[k] in records;
    }
    forall m | m in holder.members && m.seqInChain <= n ensures FileOf(m) in p.files {
      var k :| 0 <= k < |records| && records[k] == m;
      assert p.files[k] == FileOf(m);
    }
  }

  /** A resolved parent chain is the end of a chain the catalog lists. */
  lemma ExtensionMeans(req: Request, c: Catalog, scan: seq<ScannedMember>)
    requires ParentChainFor(req, c, scan).Success? && ParentChainFor(req, c, scan).value.Some?
    ensures Extends(ParentChainFor(req, c, scan).value.value, req, c, scan)
  {
    var p := ParentChainFor(req, c, scan).value.value;
    var chain := ResolvedIn(c, RefOf(req));
    ExtensionParts(req, c, scan);
    assert IsNewestOf(c, chain, p.member);
    AncestryOf(p, req.limit, Holder(c.chains, p.member.imageUuid).value, c);
    assert IsParentImage(p, FindFile(scan, p.member.fileName).value, scan);
  }

  lemma ExtensionParts(req: Request, c: Catalog, scan: seq<ScannedMember>)
    requires ParentChainFor(req, c, scan).Success? && ParentChainFor(req, c, scan).value.Some?
    ensures var p := ParentChainFor(req, c, scan).value.value;
            && !req.memberType.Full? && ResolveParent(c, RefOf(req)) == Success(p.member)
            && Holder(c.chains, p.member.imageUuid).Some?
            && HoldsParent(p, req, Holder(c.chains, p.member.imageUuid).value)
            && FindFile(scan, p.member.fileName).Some?
            && HasSuperblock(p, FindFile(scan, p.member.fileName).value)
  {
    var parent := ResolveParent(c, RefOf(req)).value;
    var chain := Holder(c.chains, parent.imageUuid).value;
    assert ParentChainFor(req, c, scan) == ExtensionOf(req.limit, chain, parent, scan);
    PartsOf(req, chain, parent, scan);
  }

  lemma PartsOf(req: Request, chain: ChainRecord, parent: MemberRecord, scan: seq<ScannedMember>)
    requires ExtensionOf(req.limit, chain, parent, scan).Success?
             && ExtensionOf(req.limit, chain, parent, scan).value.Some?
    ensures var p := ExtensionOf(req.limit, chain, parent, scan).value.value;
            && p.member == parent && HoldsParent(p, req, chain)
            && FindFile(scan, parent.fileName).Some?
            && HasSuperblock(p, FindFile(scan, parent.fileName).value)
  {
  }

  ghost predicate HoldsParent(p: ParentChain, req: Request, holder: ChainRecord) {
    var records := RecordsUpTo(holder, p.member.seqInChain);
    && holder.chainId == p.chainId && !ChainIsFull(req.limit, holder)
    && |records| <= MAX_INDEX + 1 && p.files == FilesOf(records) && p.prefix == PrefixOf(records)
  }

  ghost predicate HasSuperblock(p: ParentChain, image: ScannedMember) {
    p.superblock == image.superblock && p.setId == image.superblock.setId
  }

  lemma StartMeans(req: Request, c: Catalog, scan: seq<ScannedMember>)
    ensures ParentChainFor(req, c, scan) == Success(None) <==> StartsChain(req, c)
  {
  }

  /** What a resolved parent chain means for the backup that uses it. */
  lemma ParentChainMeans(req: Request, c: Catalog, scan: seq<ScannedMember>)
    ensures ParentChainFor(req, c, scan) == Success(None) <==> StartsChain(req, c)
    ensures var r := ParentChainFor(req, c, scan); r.Success? && r.value.Some? ==> Extends(r.value.value, req, c, scan)
  {
    StartMeans(req, c, scan);
    if ParentChainFor(req, c, scan).Success? && ParentChainFor(req, c, scan).value.Some? {
      ExtensionMeans(req, c, scan);
    }
  }

  /** The member list and the files of a chain, unless it is too long for one-byte indices. */
  method ListRecords(records: seq<MemberRecord>) returns (r: Result<(seq<ChainMember>, seq<ChainFile>)>)
    ensures r == if |records| > MAX_INDEX + 1 then Failure(Unsupported)
                 else Success((PrefixOf(records), FilesOf(records)))
  {
    var files: seq<ChainFile> := [];
    var prefix: seq<ChainMember> := [];
    for index := 0 to |records|
      invariant index <= MAX_INDEX + 1
      invariant files == FilesOf(records)[..index]
      invariant prefix == PrefixOf(records)[..index]
    {
      if index > MAX_INDEX {
        return Failure(Unsupported);
      }
      files := files + [FileOf(records[index])];
      prefix := prefix + [ChainMember(index, records[index].imageUuid)];
    }
    assert FilesOf(records)[..|records|] == FilesOf(records) && PrefixOf(records)[..|records|] == PrefixOf(records);
    return Success((prefix, files));
  }

  /** The chain to extend, if any, for a request. */
  method ResolveParentChain(req: Request, c: Catalog, scan: seq<ScannedMember>) returns (r: Result<Option<ParentChain>>)
    ensures r == ParentChainFor(req, c, scan)
    ensures r == Success(None) <==> StartsChain(req, c)
    ensures r.Success? && r.value.Some? ==> Extends(r.value.value, req, c, scan)
  {
    ParentChainMeans(req, c, scan);
    if req.memberType.Full? {
      if req.parent.Some? {
        return Failure(Unsupported);
      }
      return Success(None);
    }
    var resolved := ResolveParent(c, RefOf(req));
    if resolved.Failure? {
      return Failure(resolved.error);
    }
    var parent := resolved.value;
    var holder := Holder(c.chains, parent.imageUuid);
    if holder.None? {
      return Failure(Corrupt);
    }
    var chain := holder.value;
    if ChainIsFull(req.limit, chain) {
      return Success(None);
    }
    var records := RecordsUpTo(chain, parent.seqInChain);
    var listed := ListRecords(records);
    if listed.Failure? {
      return Failure(listed.error);
    }
    var found := FindFile(scan, parent.fileName);
    if found.None? {
      return Failure(BadRead);
    }
    return Success(Some(ParentChain(parent, chain.chainId, found.value.superblock.setId, listed.value.0, listed.value.1,
                                    found.value.superblock)));
  }

  // --------------------------------------------------------------- the plan

  datatype Encoding = BlockFull | BlockDelta | FileTree | BtrfsSend

  datatype Plan = Plan(
    parent: Option<ParentChain>,
    memberType: MemberKind,
    encoding: Encoding,
    setId: Id,
    chainId: Id,
    seqInChain: nat,
    parentUuid: Id)

  const MAX_SEQ: nat := 0xFFFF_FFFF

  predicate ModeAllows(mode: ImageKind, memberType: MemberKind) {
    !(mode == Stream && memberType == Differential)
  }

  function EncodingFor(mode: ImageKind, memberType: MemberKind): Encoding {
    match mode
    case Block => if memberType.Incremental? then BlockDelta else BlockFull
    case File => FileTree
    case Stream => BtrfsSend
  }

  function FromParent(mode: ImageKind, requested: MemberKind, chainId: Id, setId: Id,
                      parent: Option<ParentChain>): Result<Plan>
  {
    if !ModeAllows(mode, requested) then Failure(Unsupported)
    else if requested.Full? && parent.Some? then Failure(Unsupported)
    else if parent.None? then
      Success(Plan(None, MemberKind.Full, EncodingFor(mode, MemberKind.Full), setId, chainId, 0, 0))
    else if parent.value.member.seqInChain >= MAX_SEQ then Failure(Unsupported)
    else
      Success(Plan(parent, requested, EncodingFor(mode, requested), parent.value.setId, parent.value.chainId,
                   parent.value.member.seqInChain + 1, parent.value.member.imageUuid))
  }

  /** The encoding follows mode and role. */
  ghost predicate EncodesFor(plan: Plan, mode: ImageKind) {
    && (plan.encoding == BlockDelta <==> mode == Block && plan.memberType == Incremental)
    && (plan.encoding == BlockFull <==> mode == Block && plan.memberType != Incremental)
    && (plan.encoding == FileTree <==> mode == File)
    && (plan.encoding == BtrfsSend <==> mode == Stream)
  }

  lemma EncodingFollows(mode: ImageKind, requested: MemberKind, chainId: Id, setId: Id, parent: Option<ParentChain>)
    ensures FromParent(mode, requested, chainId, setId, parent).Success? ==>
              EncodesFor(FromParent(mode, requested, chainId, setId, parent).value, mode)
    ensures mode == Stream && requested == Differential ==>
              FromParent(mode, requested, chainId, setId, parent) == Failure(Unsupported)
    ensures !(mode == Stream && requested == Differential) && parent.None? ==>
              FromParent(mode, requested, chainId, setId, parent).Success?
  {
  }

  /** Only a differential of a stream is refused for its mode, and a plan's encoding follows mode and role. */
  lemma ModesAndEncodings(req: Request, c: Catalog, scan: seq<ScannedMember>)
    ensures req.mode == Stream && req.memberType == Differential ==> PlanFor(req, c, scan) == Failure(Unsupported)
    ensures !(req.mode == Stream && req.memberType == Differential) && ParentChainFor(req, c, scan) == Success(None) ==>
              PlanFor(req, c, scan).Success?
    ensures PlanFor(req, c, scan).Success? ==> EncodesFor(PlanFor(req, c, scan).value, req.mode)
  {
    if ParentChainFor(req, c, scan).Success? {
      EncodingFollows(req.mode, req.memberType, req.chainId, req.setId, ParentChainFor(req, c, scan).value);
    }
  }

  /** The plan made from a loaded catalog. */
  function PlanFor(req: Request, c: Catalog, scan: seq<ScannedMember>): Result<Plan> {
    if !ModeAllows(req.mode, req.memberType) then Failure(Unsupported)
    else
      match ParentChainFor(req, c, scan)
      case Failure(e) => Failure(e)
      case Success(parent) => FromParent(req.mode, req.memberType, req.chainId, req.setId, parent)
  }

  /** A plan gives its member a place: at the start of a chain of its own, or right after its parent. */
  ghost predicate Places(plan: Plan, req: Request, c: Catalog, scan: seq<ScannedMember>) {
    match plan.parent
    case None =>
      && StartsChain(req, c) && plan.memberType.Full?
      && plan.chainId == req.chainId && plan.setId == req.setId && plan.seqInChain == 0 && plan.parentUuid == 0
    case Some(p) =>
      && Extends(p, req, c, scan) && plan.memberType == req.memberType
      && plan.chainId == p.chainId && plan.setId == p.setId
      && plan.seqInChain == p.member.seqInChain + 1 <= MAX_SEQ && plan.parentUuid == p.member.imageUuid
  }

  lemma PlanPlaces(req: Request, c: Catalog, scan: seq<ScannedMember>)
    requires PlanFor(req, c, scan).Success?
    ensures Places(PlanFor(req, c, scan).value, req, c, scan)
  {
    ParentChainMeans(req, c, scan);
    var r := ParentChainFor(req, c, scan);
    assert r.value == PlanFor(req, c, scan).value.parent;
  }

  /** Under the set lock: load the catalog, find the parent, and give the new member its place. */
  method Resolve(req: Request, scan: seq<ScannedMember>, cache: Cache, now: nat) returns (r: Result<Plan>)
    ensures !ModeAllows(req.mode, req.memberType) ==> r == Failure(Unsupported)
    ensures ModeAllows(req.mode, req.memberType) ==>
              exists loaded :: LoadedFrom(loaded, scan, cache, now)
                               && r == PlanFor(req, loaded.catalog, scan)
                               && (r.Success? ==> Places(r.value, req, loaded.catalog, scan))
  {
    if !ModeAllows(req.mode, req.memberType) {
      return Failure(Unsupported);
    }
    var loaded := Load(scan, cache, now);
    var parent := ResolveParentChain(req, loaded.catalog, scan);
    if parent.Failure? {
      r := Failure(parent.error);
    } else {
      r := FromParent(req.mode, req.memberType, req.chainId, req.setId, parent.value);
    }
    assert r == PlanFor(req, loaded.catalog, scan);
    if r.Success? {
      PlanPlaces(req, loaded.catalog, scan);
    }
  }

  /** What the plan does not decide of a new image. */
  datatype Details = Details(
    fileName: string,
    sizeBytes: nat,
    encrypted: bool,
    sourceSize: nat,
    chunkSize: nat,
    consistency: nat)

  /** The image a plan publishes. */
  function ImageOf(plan: Plan, req: Request, d: Details): ScannedMember {
    ScannedMember(
      d.fileName,
      Superblock(plan.encoding.BlockDelta?, d.encrypted, req.mode, req.imageUuid, plan.chainId, plan.setId,
                 plan.parentUuid, plan.seqInChain, req.createdUnix, d.sourceSize, d.chunkSize, d.consistency),
      d.sizeBytes)
  }

  /** The published superblock says what was planned, asked for and measured, field by field. */
  lemma ImageSays(req: Request, parent: Option<ParentChain>, d: Details)
    requires FromParent(req.mode, req.memberType, req.chainId, req.setId, parent).Success?
    ensures var plan := FromParent(req.mode, req.memberType, req.chainId, req.setId, parent).value;
            var m := ImageOf(plan, req, d); var sb := m.superblock;
            && m.fileName == d.fileName && m.sizeBytes == d.sizeBytes
            && sb.chainId == plan.chainId && sb.setId == plan.setId && sb.parentUuid == plan.parentUuid
            && sb.seqInChain == plan.seqInChain && sb.imageUuid == req.imageUuid && sb.createdUnix == req.createdUnix
            && sb.imageKind == req.mode && sb.encrypted == d.encrypted && sb.consistency == d.consistency
            && sb.sourceSize == d.sourceSize && sb.chunkSize == d.chunkSize
            && (sb.deltaFlag <==> req.mode == Block && plan.memberType == Incremental)
  {
  }

  /** The member list a new image carries in its extras. */
  function MemberList(plan: Plan, imageUuid: Id): seq<ChainMember> {
    (if plan.parent.Some? then plan.parent.value.prefix else [])
    + [ChainMember(if plan.seqInChain <= MAX_INDEX then plan.seqInChain else MAX_INDEX, imageUuid)]
  }

  /** The superblock gives a planned member's role back exactly when it is not an incremental file tree. */
  lemma RoleIsRecoverable(req: Request, parent: Option<ParentChain>, d: Details)
    requires FromParent(req.mode, req.memberType, req.chainId, req.setId, parent).Success?
    ensures var plan := FromParent(req.mode, req.memberType, req.chainId, req.setId, parent).value;
            KindOf(ImageOf(plan, req, d).superblock) == plan.memberType <==>
            !(req.mode == File && plan.memberType == Incremental)
  {
  }
}
