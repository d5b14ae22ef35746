/** Runs of a set under its lock: backups, recorded verifications and lost caches in any order. */
module SetRuns {
  import opened Wrappers
  import opened Superblocks
  import opened Catalogs
  import opened Plans
  import opened Growth
  import opened Resolution
  import Sorting

  datatype State = State(scan: seq<ScannedMember>, cache: Cache)

  datatype Action =
    | Publish(req: Request, details: Details, at: nat, built: Catalog, update: Option<Catalog>, now: nat)
    | Record(built: Catalog, catalog: Catalog)
    | LoseCache(left: Cache)

  const EMPTY := State([], Missing)

  /** Identifiers and names of a new image are new to the set. */
  ghost predicate IsNew(scan: seq<ScannedMember>, plan: Plan, m: ScannedMember) {
    && (forall x :: x in scan ==> x.superblock.imageUuid != m.superblock.imageUuid && x.fileName != m.fileName)
    && (plan.parent.None? ==> !InScan(scan, plan.chainId))
  }

  function Loads(s: State, built: Catalog): Catalog {
    LoadFrom(built, s.cache).catalog
  }

  /** One step: publish a planned image (the cache may miss it), record verification times, or lose the cache. */
  ghost predicate Step(s: State, a: Action, t: State) {
    match a
    case Publish(req, d, at, built, update, now) =>
      && IsBuilt(built, s.scan) && at <= |s.scan|
      && PlanFor(req, Loads(s, built), s.scan).Success?
      && Published(s, PlanFor(req, Loads(s, built), s.scan).value, req, d, at, t)
      && (update.None? ==> t.cache == s.cache)
      && (update.Some? ==> IsBuilt(update.value, t.scan)
                           && t.cache == Cached(LoadFrom(update.value, s.cache).catalog.(updatedUnix := now)))
    case Record(built, catalog) =>
      && IsBuilt(built, s.scan) && SameLines(catalog, Loads(s, built))
      && t == State(s.scan, Cached(catalog))
    case LoseCache(left) =>
      !left.Cached? && t == State(s.scan, left)
  }

  ghost predicate Published(s: State, plan: Plan, req: Request, d: Details, at: nat, t: State)
    requires at <= |s.scan|
  {
    var m := ImageOf(plan, req, d);
    IsNew(s.scan, plan, m) && t.scan == Listed(s.scan, at, m)
  }

  ghost predicate IsRun(states: seq<State>, actions: seq<Action>) {
    && |states| == |actions| + 1
    && states[0] == EMPTY
    && forall k :: 0 <= k < |actions| ==> Step(states[k], actions[k], states[k + 1])
  }

  ghost predicate Inv(s: State) {
    Healthy(s.scan) && CanonicalCache(s.cache)
  }

  // ------------------------------------------------------------- one step

  /** `m` continues the chain `ordered`, or starts it. */
  ghost predicate Continues(m: ScannedMember, ordered: seq<ScannedMember>) {
    && m.superblock.seqInChain == |ordered|
    && m.superblock.parentUuid == (if ordered == [] then 0 else ordered[|ordered| - 1].superblock.imageUuid)
    && (ordered != [] ==> m.superblock.setId == ordered[0].superblock.setId)
  }

  lemma PlannedParent(req: Request, c: Catalog, scan: seq<ScannedMember>)
    requires PlanFor(req, c, scan).Success?
    ensures ParentChainFor(req, c, scan) == Success(PlanFor(req, c, scan).value.parent)
    ensures var plan := PlanFor(req, c, scan).value;
            && ModeAllows(req.mode, req.memberType)
            && plan.memberType == (if plan.parent.Some? then req.memberType else MemberKind.Full)
            && (plan.parent.None? ==> plan.chainId == req.chainId && plan.setId == req.setId
                                      && plan.seqInChain == 0 && plan.parentUuid == 0)
            && (plan.parent.Some? ==> plan.chainId == plan.parent.value.chainId && plan.setId == plan.parent.value.setId
                                      && plan.seqInChain == plan.parent.value.member.seqInChain + 1
                                      && plan.parentUuid == plan.parent.value.member.imageUuid)
  {
  }

  lemma ParentMeansResolved(req: Request, c: Catalog, scan: seq<ScannedMember>)
    requires ParentChainFor(req, c, scan).Success? && ParentChainFor(req, c, scan).value.Some?
    ensures !req.memberType.Full? && ResolveParent(c, RefOf(req)).Success?
  {
  }

  /** A plan with a parent continues the parent's chain within the limit; its view of the chain is the chain. */
  lemma ExtensionEndsChain(req: Request, c: Catalog, scan: seq<ScannedMember>)
    requires Healthy(scan) && Agrees(c, scan)
    requires PlanFor(req, c, scan).Success? && PlanFor(req, c, scan).value.parent.Some?
    ensures var plan := PlanFor(req, c, scan).value; var n := |Ordered(scan, plan.chainId)|;
            && ExtendsEnd(plan.parent.value, Ordered(scan, plan.chainId))
            && n <= MAX_INDEX + 1
            && (req.limit.Some? && req.limit.value > 0 ==> n <= req.limit.value)
  {
    PlannedParent(req, c, scan);
    ParentMeansResolved(req, c, scan);
    var id := ResolvedChain(req, c, scan);
  }

  lemma PlannedContinues(req: Request, c: Catalog, scan: seq<ScannedMember>, d: Details)
    requires Healthy(scan) && Agrees(c, scan) && PlanFor(req, c, scan).Success?
    requires IsNew(scan, PlanFor(req, c, scan).value, ImageOf(PlanFor(req, c, scan).value, req, d))
    ensures var plan := PlanFor(req, c, scan).value; Continues(ImageOf(plan, req, d), Ordered(scan, plan.chainId))
  {
    var plan := PlanFor(req, c, scan).value;
    PlannedParent(req, c, scan);
    OrderedIsWithin(scan, plan.chainId);
    if plan.parent.Some? {
      ExtensionEndsChain(req, c, scan);
    }
  }

  lemma ContinuedIsHealthy(ordered: seq<ScannedMember>, m: ScannedMember)
    requires HealthyChain(ordered) && Continues(m, ordered)
    ensures HealthyChain(ordered + [m])
  {
  }

  lemma BelowEnd(scan: seq<ScannedMember>, id: Id, n: nat)
    requires HealthyChain(Ordered(scan, id)) && n == |Ordered(scan, id)|
    ensures forall x :: x in Of(scan, id) ==> ScannedSeq(x) < n
  {
    CatalogMembers(scan, id);
    forall x | x in Of(scan, id) ensures ScannedSeq(x) < n {
      BelowLength(Ordered(scan, id), x);
    }
  }

  lemma BelowLength(ordered: seq<ScannedMember>, x: ScannedMember)
    requires HealthyChain(ordered) && x in ordered
    ensures ScannedSeq(x) < |ordered|
  {
    var k :| 0 <= k < |ordered| && ordered[k] == x;
  }

  lemma CatalogMembers(scan: seq<ScannedMember>, id: Id)
    ensures forall x :: x in Of(scan, id) <==> x in Ordered(scan, id)
  {
    Sorting.SortByMembers(ScannedSeq, Of(scan, id));
  }

  lemma PublishedGrows(scan: seq<ScannedMember>, at: nat, m: ScannedMember)
    requires Healthy(scan) && at <= |scan| && Continues(m, Ordered(scan, m.superblock.chainId))
    requires forall x :: x in scan ==> x.superblock.imageUuid != m.superblock.imageUuid && x.fileName != m.fileName
    ensures Healthy(Listed(scan, at, m))
    ensures forall id ::
              Ordered(Listed(scan, at, m), id) == Ordered(scan, id) + if m.superblock.chainId == id then [m] else []
  {
    BelowEnd(scan, m.superblock.chainId, m.superblock.seqInChain);
    forall id
      ensures Ordered(Listed(scan, at, m), id) == Ordered(scan, id) + if m.superblock.chainId == id then [m] else []
      ensures HealthyChain(Ordered(Listed(scan, at, m), id))
    {
      OrderedListed(scan, at, m, id);
      if m.superblock.chainId == id {
        ContinuedIsHealthy(Ordered(scan, id), m);
      }
    }
  }

  /** A step appends to at most one chain, within the limit of its request. */
  lemma StepAppends(s: State, a: Action, t: State) returns (grown: Id)
    requires Inv(s) && Step(s, a, t)
    ensures Healthy(t.scan)
    ensures forall x :: x in s.scan ==> x in t.scan
    ensures forall id :: Ordered(s.scan, id) <= Ordered(t.scan, id)
    ensures forall id :: id != grown ==> Ordered(t.scan, id) == Ordered(s.scan, id)
    ensures |Ordered(t.scan, grown)| <= |Ordered(s.scan, grown)| + 1
    ensures Ordered(t.scan, grown) != Ordered(s.scan, grown) && Ordered(s.scan, grown) != [] ==>
              && a.Publish? && |Ordered(s.scan, grown)| <= MAX_INDEX + 1
              && (a.req.limit.Some? && a.req.limit.value > 0 ==> |Ordered(s.scan, grown)| <= a.req.limit.value)
  {
    grown := 0;
    if a.Publish? {
      var c := Loads(s, a.built);
      LoadedAgrees(s.scan, a.built, s.cache);
      var plan := PlanFor(a.req, c, s.scan).value;
      var m := ImageOf(plan, a.req, a.details);
      grown := plan.chainId;
      PlannedContinues(a.req, c, s.scan, a.details);
      PublishedGrows(s.scan, a.at, m);
      OrderedIsWithin(s.scan, grown);
      if plan.parent.Some? {
        ExtensionEndsChain(a.req, c, s.scan);
      }
    }
  }

  lemma RetimedIsCanonical(c: Catalog, now: nat)
    requires Canonical(c)
    ensures Canonical(c.(updatedUnix := now))
  {
  }

  lemma InvKept(s: State, a: Action, t: State)
    requires Inv(s) && Step(s, a, t)
    ensures Inv(t)
  {
    var grown := StepAppends(s, a, t);
    match a
    case Publish(_, _, _, _, update, now) =>
      if update.Some? {
        LoadedAgrees(t.scan, update.value, s.cache);
        AgreesIsCanonical(LoadFrom(update.value, s.cache).catalog, t.scan);
        RetimedIsCanonical(LoadFrom(update.value, s.cache).catalog, now);
      }
    case Record(built, catalog) =>
      LoadedAgrees(s.scan, built, s.cache);
      SameLinesAgree(catalog, Loads(s, built), s.scan);
      AgreesIsCanonical(catalog, s.scan);
    case LoseCache(_) =>
  }

  // ------------------------------------------------------------- all runs

  lemma EmptyIsHealthy()
    ensures Inv(EMPTY)
  {
  }

  lemma {:induction false} RunKeepsInv(states: seq<State>, actions: seq<Action>)
    requires IsRun(states, actions)
    ensures forall k :: 0 <= k < |states| ==> Inv(states[k])
  {
    if actions == [] {
      EmptyIsHealthy();
    } else {
      var n := |actions| - 1;
      RunKeepsInv(states[..n + 1], actions[..n]);
      assert states[..n + 1][n] == states[n];
      InvKept(states[n], actions[n], states[n + 1]);
      forall k | 0 <= k < |states| ensures Inv(states[k]) {
        if k <= n { assert states[..n + 1][k] == states[k]; }
      }
    }
  }

  lemma {:induction false} NoWarnings(chainId: Id, members: seq<MemberRecord>)
    requires forall k :: 0 < k < |members| ==>
                           members[k].seqInChain != members[k - 1].seqInChain
                           && members[k].parentUuid == members[k - 1].imageUuid
    ensures WarningsOf(chainId, members) == []
  {
    if |members| >= 2 {
      NoWarnings(chainId, members[..|members| - 1]);
    }
  }

  lemma {:induction false} NoChainWarnings(chains: seq<ChainRecord>)
    requires forall k :: 0 <= k < |chains| ==> WarningsOf(chains[k].chainId, chains[k].members) == []
    ensures ChainWarnings(chains) == []
  {
    if chains != [] {
      NoChainWarnings(chains[..|chains| - 1]);
    }
  }

  lemma RecordedHasNoWarnings(chain: ChainRecord, scan: seq<ScannedMember>)
    requires Healthy(scan) && Records(chain, scan)
    ensures WarningsOf(chain.chainId, chain.members) == []
  {
    var ordered := Ordered(scan, chain.chainId);
    LinesAscend(chain.members, ordered);
    forall k | 0 < k < |chain.members|
      ensures chain.members[k].seqInChain != chain.members[k - 1].seqInChain
              && chain.members[k].parentUuid == chain.members[k - 1].imageUuid
    {
      assert Strip(chain.members[k]) == RecordOf(ordered[k]) && Strip(chain.members[k - 1]) == RecordOf(ordered[k - 1]);
    }
    NoWarnings(chain.chainId, chain.members);
  }

  lemma AgreeingIsSound(c: Catalog, scan: seq<ScannedMember>)
    requires Healthy(scan) && Agrees(c, scan)
    ensures forall chain :: chain in c.chains ==> IsComplete(chain)
    ensures ChainWarnings(c.chains) == []
  {
    forall k | 0 <= k < |c.chains|
      ensures IsComplete(c.chains[k]) && WarningsOf(c.chains[k].chainId, c.chains[k].members) == []
    {
      assert Records(c.chains[k], scan);
      RecordedChain(c.chains[k], scan);
      RecordedHasNoWarnings(c.chains[k], scan);
    }
    NoChainWarnings(c.chains);
  }

  /**
   In every run, after every step: each chain of the rebuilt catalog and of the
   loaded catalog is complete and raises no warning, and the members of a chain
   carry one set id.
   */
  lemma ChainsStaySound(states: seq<State>, actions: seq<Action>, k: nat, built: Catalog)
    requires IsRun(states, actions) && k < |states| && IsBuilt(built, states[k].scan)
    ensures forall chain :: chain in built.chains ==> IsComplete(chain)
    ensures forall chain :: chain in Loads(states[k], built).chains ==> IsComplete(chain)
    ensures ChainWarnings(built.chains) == [] && ChainWarnings(Loads(states[k], built).chains) == []
    ensures forall a, b ::
              a in states[k].scan && b in states[k].scan && a.superblock.chainId == b.superblock.chainId ==>
                             a.superblock.setId == b.superblock.setId
  {
    RunKeepsInv(states, actions);
    var scan := states[k].scan;
    BuiltAgrees(built, scan);
    AgreeingIsSound(built, scan);
    LoadedAgrees(scan, built, states[k].cache);
    AgreeingIsSound(Loads(states[k], built), scan);
    forall a, b | a in scan && b in scan && a.superblock.chainId == b.superblock.chainId
      ensures a.superblock.setId == b.superblock.setId
    {
      OneSetId(scan, a, b);
    }
  }

  lemma OneSetId(scan: seq<ScannedMember>, a: ScannedMember, b: ScannedMember)
    requires Healthy(scan) && a in scan && b in scan && a.superblock.chainId == b.superblock.chainId
    ensures a.superblock.setId == b.superblock.setId
  {
    var ordered := Ordered(scan, a.superblock.chainId);
    OrderedIsWithin(scan, a.superblock.chainId);
    var i :| 0 <= i < |ordered| && ordered[i] == a;
    var j :| 0 <= j < |ordered| && ordered[j] == b;
    assert HealthyChain(ordered);
  }

  /** Every backup of the run rolls over at some nonzero limit of at most `limit` members after the full. */
  ghost predicate Limited(actions: seq<Action>, limit: nat) {
    forall k :: 0 <= k < |actions| && actions[k].Publish? ==>
                  actions[k].req.limit.Some? && 0 < actions[k].req.limit.value <= limit
  }

  /** Under a limit no chain ever holds more members after its full. */
  lemma {:induction false} LimitHolds(states: seq<State>, actions: seq<Action>, limit: nat, id: Id)
    requires IsRun(states, actions) && Limited(actions, limit)
    ensures |Ordered(states[|actions|].scan, id)| <= limit + 1
  {
    if actions != [] {
      var n := |actions| - 1;
      LimitHolds(states[..n + 1], actions[..n], limit, id);
      RunKeepsInv(states, actions);
      var grown := StepAppends(states[n], actions[n], states[n + 1]);
    }
  }

  lemma StepGrows(s: State, a: Action, t: State, id: Id)
    requires Inv(s) && Step(s, a, t)
    ensures Ordered(s.scan, id) <= Ordered(t.scan, id)
  {
    var grown := StepAppends(s, a, t);
  }

  lemma RunGrows(states: seq<State>, actions: seq<Action>, k: nat, id: Id)
    requires IsRun(states, actions) && k < |actions|
    ensures Ordered(states[k].scan, id) <= Ordered(states[k + 1].scan, id)
  {
    RunKeepsInv(states, actions);
    StepGrows(states[k], actions[k], states[k + 1], id);
  }

  ghost predicate Grows(a: State, b: State, id: Id) {
    Ordered(a.scan, id) <= Ordered(b.scan, id)
  }

  lemma {:induction false} GrowthAddsUp(states: seq<State>, i: nat, j: nat, id: Id)
    requires i <= j < |states| && forall k :: 0 <= k < |states| - 1 ==> Grows(states[k], states[k + 1], id)
    ensures Grows(states[i], states[j], id)
    decreases j
  {
    if i < j {
      GrowthAddsUp(states, i, j - 1, id);
      assert Grows(states[j - 1], states[j - 1 + 1], id);
    }
  }

  lemma OnlyGrows(states: seq<State>, actions: seq<Action>, i: nat, j: nat, id: Id)
    requires IsRun(states, actions) && i <= j < |states|
    ensures Ordered(states[i].scan, id) <= Ordered(states[j].scan, id)
  {
    forall k | 0 <= k < |actions| ensures Grows(states[k], states[k + 1], id) {
      RunGrows(states, actions, k, id);
    }
    GrowthAddsUp(states, i, j, id);
  }

  lemma HealthyResolves(scan: seq<ScannedMember>, id: Id, k: nat)
    requires Healthy(scan) && k < |Ordered(scan, id)|
    ensures Resolved(scan, Ordered(scan, id)[k].fileName) == Success(FilesOfImages(Ordered(scan, id)[..k + 1]))
  {
    OrderedIsWithin(scan, id);
    assert Numbered(Ordered(scan, id));
    NumberedIffComplete(scan, id);
    EveryMemberResolves(scan, id, k);
  }

  /**
   Every recovery point ever published resolves at every later time, to the very files it had when it was
   published.
   */
  lemma RecoveryPointsStay(states: seq<State>, actions: seq<Action>, i: nat, j: nat, id: Id, k: nat)
    requires IsRun(states, actions) && i <= j < |states| && k < |Ordered(states[i].scan, id)|
    ensures var image := Ordered(states[i].scan, id)[k];
            Resolved(states[j].scan, image.fileName) == Resolved(states[i].scan, image.fileName)
            == Success(FilesOfImages(Ordered(states[i].scan, id)[..k + 1]))
  {
    RunKeepsInv(states, actions);
    OnlyGrows(states, actions, i, j, id);
    HealthyResolves(states[i].scan, id, k);
    HealthyResolves(states[j].scan, id, k);
    assert Ordered(states[j].scan, id)[..k + 1] == Ordered(states[i].scan, id)[..k + 1];
  }

  lemma ExtensionResolves(p: ParentChain, scan: seq<ScannedMember>, id: Id)
    requires Healthy(scan) && ExtendsEnd(p, Ordered(scan, id))
    ensures p.files != [] && p.files[|p.files| - 1].imageUuid == p.member.imageUuid
    ensures Resolved(scan, p.files[|p.files| - 1].fileName) == Success(p.files)
  {
    var ordered := Ordered(scan, id);
    var n := |ordered|;
    assert p.files[n - 1].fileName == ordered[n - 1].fileName && ordered[..n] == ordered;
    HealthyResolves(scan, id, n - 1);
  }

  lemma PlannedAncestry(req: Request, c: Catalog, scan: seq<ScannedMember>)
    requires Healthy(scan) && Agrees(c, scan)
    requires PlanFor(req, c, scan).Success? && PlanFor(req, c, scan).value.parent.Some?
    ensures AncestryIsResolved(PlanFor(req, c, scan).value.parent.value, scan)
  {
    ExtensionEndsChain(req, c, scan);
    var plan := PlanFor(req, c, scan).value;
    ExtensionResolves(plan.parent.value, scan, plan.chainId);
  }

  /** Resolving the parent's file name from the superblocks gives the very files the plan names. */
  ghost predicate AncestryIsResolved(parent: ParentChain, scan: seq<ScannedMember>) {
    && parent.files != []
    && parent.files[|parent.files| - 1].imageUuid == parent.member.imageUuid
    && Resolved(scan, parent.files[|parent.files| - 1].fileName) == Success(parent.files)
  }

  /** The ancestry a backup compares with, taken from the catalog, is the one a reader resolves from the superblocks. */
  lemma WriterAndReaderAgree(states: seq<State>, actions: seq<Action>, k: nat, built: Catalog, req: Request)
    requires IsRun(states, actions) && k < |states| && IsBuilt(built, states[k].scan)
    requires PlanFor(req, Loads(states[k], built), states[k].scan).Success?
    requires PlanFor(req, Loads(states[k], built), states[k].scan).value.parent.Some?
    ensures AncestryIsResolved(PlanFor(req, Loads(states[k], built), states[k].scan).value.parent.value, states[k].scan)
  {
    RunKeepsInv(states, actions);
    LoadedAgrees(states[k].scan, built, states[k].cache);
    PlannedAncestry(req, Loads(states[k], built), states[k].scan);
  }

  /** The parent part of a member list is the chain's. */
  lemma PrefixExact(req: Request, c: Catalog, scan: seq<ScannedMember>)
    requires Healthy(scan) && Agrees(c, scan) && PlanFor(req, c, scan).Success?
    requires PlanFor(req, c, scan).value.parent.None? ==> !InScan(scan, PlanFor(req, c, scan).value.chainId)
    ensures var plan := PlanFor(req, c, scan).value; var ordered := Ordered(scan, plan.chainId);
            && plan.seqInChain == |ordered|
            && (if plan.parent.Some? then plan.parent.value.prefix else []) == MembersOfImages(ordered)
  {
    var plan := PlanFor(req, c, scan).value;
    PlannedParent(req, c, scan);
    OrderedIsWithin(scan, plan.chainId);
    if plan.parent.Some? {
      ExtensionEndsChain(req, c, scan);
    }
  }

  lemma MembersOfOneMore(ordered: seq<ScannedMember>, m: ScannedMember)
    ensures MembersOfImages(ordered + [m]) ==
            MembersOfImages(ordered) + [ChainMember(|ordered|, m.superblock.imageUuid)]
  {
  }

  lemma LastMember(front: seq<ChainMember>, a: ChainMember, b: ChainMember)
    ensures front + [a] == front + [b] <==> a == b
  {
    assert (front + [a])[|front|] == a && (front + [b])[|front|] == b;
  }

  /**
   The member list a new image carries names every image of its chain under
   its own position exactly when the new image's sequence fits one byte.
   */
  lemma MemberListExact(states: seq<State>, actions: seq<Action>, k: nat, built: Catalog, req: Request, d: Details)
    requires IsRun(states, actions) && k < |states| && IsBuilt(built, states[k].scan)
    requires PlanFor(req, Loads(states[k], built), states[k].scan).Success?
    requires var plan := PlanFor(req, Loads(states[k], built), states[k].scan).value;
             plan.parent.None? ==> !InScan(states[k].scan, plan.chainId)
    ensures var plan := PlanFor(req, Loads(states[k], built), states[k].scan).value;
            MemberList(plan, req.imageUuid) ==
            MembersOfImages(Ordered(states[k].scan, plan.chainId) + [ImageOf(plan, req, d)])
            <==> plan.seqInChain <= 255
  {
    RunKeepsInv(states, actions);
    var scan, c := states[k].scan, Loads(states[k], built);
    LoadedAgrees(scan, built, states[k].cache);
    PrefixExact(req, c, scan);
    var plan := PlanFor(req, c, scan).value;
    var ordered, m := Ordered(scan, plan.chainId), ImageOf(plan, req, d);
    MembersOfOneMore(ordered, m);
    LastMember(MembersOfImages(ordered),
               ChainMember(if plan.seqInChain <= MAX_INDEX then plan.seqInChain else MAX_INDEX, req.imageUuid),
               ChainMember(|ordered|, req.imageUuid));
  }

  // ------------------------------------------------------ which are planned

  ghost predicate LastOf(scan: seq<ScannedMember>, id: Id, imageUuid: Id) {
    Ordered(scan, id) != [] && Ordered(scan, id)[|Ordered(scan, id)| - 1].superblock.imageUuid == imageUuid
  }

  lemma NamedIsLast(c: Catalog, scan: seq<ScannedMember>, imageUuid: Id) returns (id: Id)
    requires Healthy(scan) && Agrees(c, scan) && ResolveParent(c, Named(imageUuid)).Success?
    ensures LastOf(scan, id, imageUuid)
  {
    var chain := ResolvedIn(c, Named(imageUuid));
    var m := ResolveParent(c, Named(imageUuid)).value;
    var k :| 0 <= k < |c.chains| && c.chains[k] == chain;
    assert Records(c.chains[k], scan);
    NewestRecord(scan, chain, m);
    id := chain.chainId;
    assert Strip(m) == RecordOf(Ordered(scan, id)[|chain.members| - 1]);
  }

  lemma NamedResolves(c: Catalog, chain: ChainRecord, last: MemberRecord)
    requires Holder(c.chains, last.imageUuid) == Some(chain) && IsComplete(chain)
             && LatestMember(chain.members) == Some(last)
    ensures ResolveParent(c, Named(last.imageUuid)).Success?
  {
  }

  lemma ChainRecorded(c: Catalog, scan: seq<ScannedMember>, id: Id) returns (chain: ChainRecord)
    requires Agrees(c, scan) && InScan(scan, id)
    ensures chain in c.chains && chain.chainId == id && Records(chain, scan)
  {
    assert HasChain(c.chains, id);
    var k :| 0 <= k < |c.chains| && c.chains[k].chainId == id;
    chain := c.chains[k];
  }

  lemma LastIsNamed(c: Catalog, scan: seq<ScannedMember>, id: Id, imageUuid: Id)
    requires Healthy(scan) && Agrees(c, scan) && LastOf(scan, id, imageUuid)
    ensures ResolveParent(c, Named(imageUuid)).Success?
  {
    var ordered := Ordered(scan, id);
    OrderedIsWithin(scan, id);
    var chain := ChainRecorded(c, scan, id);
    RecordedChain(chain, scan);
    var last := chain.members[|ordered| - 1];
    assert Strip(last) == RecordOf(ordered[|ordered| - 1]);
    HolderIsUnique(c, scan, chain, last);
    NamedResolves(c, chain, last);
  }

  /** In a set in good health a named parent resolves exactly when it is the last image of a chain. */
  lemma NamedIsDecided(c: Catalog, scan: seq<ScannedMember>, imageUuid: Id)
    requires Healthy(scan) && Agrees(c, scan)
    ensures ResolveParent(c, Named(imageUuid)).Success? <==> exists id :: LastOf(scan, id, imageUuid)
  {
    if ResolveParent(c, Named(imageUuid)).Success? {
      var id := NamedIsLast(c, scan, imageUuid);
    }
    if id :| LastOf(scan, id, imageUuid) {
      LastIsNamed(c, scan, id, imageUuid);
    }
  }

  /** The chain a resolved request would extend has room: it is rolled over, or it has at most 256 members. */
  ghost predicate HasRoom(scan: seq<ScannedMember>, id: Id, limit: Option<nat>) {
    var n := |Ordered(scan, id)|;
    (limit.Some? && 0 < limit.value < n) || n <= 256
  }

  lemma PlanFollowsParent(req: Request, c: Catalog, scan: seq<ScannedMember>)
    requires !req.memberType.Full? && ModeAllows(req.mode, req.memberType)
    requires var p := ParentChainFor(req, c, scan); p.Success? && p.value.Some? ==>
               p.value.value.member.seqInChain < MAX_SEQ
    ensures PlanFor(req, c, scan).Success? <==> ParentChainFor(req, c, scan).Success?
  {
  }

  lemma UnresolvedFails(req: Request, c: Catalog, scan: seq<ScannedMember>)
    requires !req.memberType.Full? && ResolveParent(c, RefOf(req)).Failure?
    ensures ParentChainFor(req, c, scan).Failure?
  {
  }

  lemma PlannedWhenResolved(req: Request, c: Catalog, scan: seq<ScannedMember>)
    requires Healthy(scan) && Agrees(c, scan) && !req.memberType.Full? && ModeAllows(req.mode, req.memberType)
    requires ResolveParent(c, RefOf(req)).Success?
    ensures ParentChainId(req, c).Some?
    ensures PlanFor(req, c, scan).Success? <==> HasRoom(scan, ParentChainId(req, c).value, req.limit)
  {
    var id := ResolvedChain(req, c, scan);
    PlanFollowsParent(req, c, scan);
  }

  lemma PlannedNeedsParent(req: Request, c: Catalog, scan: seq<ScannedMember>)
    requires !req.memberType.Full?
    ensures PlanFor(req, c, scan).Success? ==>
              ModeAllows(req.mode, req.memberType) && ResolveParent(c, RefOf(req)).Success?
  {
    if ResolveParent(c, RefOf(req)).Failure? {
      UnresolvedFails(req, c, scan);
    }
  }

  /**
   In a set in good health, a request that extends is planned exactly when it is no differential of a stream,
   its parent resolves and the chain has room.
   */
  lemma PlannedIff(req: Request, c: Catalog, scan: seq<ScannedMember>)
    requires Healthy(scan) && Agrees(c, scan) && !req.memberType.Full?
    ensures PlanFor(req, c, scan).Success? <==>
            && !(req.mode == Stream && req.memberType == Differential)
            && ResolveParent(c, RefOf(req)).Success?
            && ParentChainId(req, c).Some? && HasRoom(scan, ParentChainId(req, c).value, req.limit)
  {
    PlannedNeedsParent(req, c, scan);
    if ModeAllows(req.mode, req.memberType) && ResolveParent(c, RefOf(req)).Success? {
      PlannedWhenResolved(req, c, scan);
    }
  }

  // --------------------------------------------- the list that does not fit

  /**
   The 257th member is planned, and its member list is wrong: its own line
   repeats the index of the line before it.
   */
  lemma MemberListSaturates(req: Request, c: Catalog, scan: seq<ScannedMember>, d: Details)
    requires Healthy(scan) && Agrees(c, scan)
    requires !req.memberType.Full? && ModeAllows(req.mode, req.memberType) && ResolveParent(c, RefOf(req)).Success?
    requires ParentChainId(req, c).Some? && |Ordered(scan, ParentChainId(req, c).value)| == MAX_INDEX + 1
    requires req.limit.Some? ==> req.limit.value == 0 || req.limit.value > MAX_INDEX
    ensures PlanFor(req, c, scan).Success?
    ensures var plan := PlanFor(req, c, scan).value; var list := MemberList(plan, req.imageUuid);
            && plan.seqInChain == 256 == |list| - 1
            && list[255].index == list[256].index == 255
            && list != MembersOfImages(Ordered(scan, plan.chainId) + [ImageOf(plan, req, d)])
  {
    SaturatedPlan(req, c, scan);
    var plan := PlanFor(req, c, scan).value;
    ListOverflows(plan, Ordered(scan, plan.chainId), req.imageUuid, ImageOf(plan, req, d));
  }

  lemma SaturatedPlan(req: Request, c: Catalog, scan: seq<ScannedMember>)
    requires Healthy(scan) && Agrees(c, scan)
    requires !req.memberType.Full? && ModeAllows(req.mode, req.memberType) && ResolveParent(c, RefOf(req)).Success?
    requires ParentChainId(req, c).Some? && |Ordered(scan, ParentChainId(req, c).value)| == MAX_INDEX + 1
    requires req.limit.Some? ==> req.limit.value == 0 || req.limit.value > MAX_INDEX
    ensures PlanFor(req, c, scan).Success?
    ensures var plan := PlanFor(req, c, scan).value; var ordered := Ordered(scan, plan.chainId);
            && plan.parent.Some? && plan.parent.value.prefix == MembersOfImages(ordered)
            && plan.seqInChain == |ordered| == MAX_INDEX + 1
  {
    var id := ResolvedChain(req, c, scan);
    PlannedIff(req, c, scan);
    PlannedParent(req, c, scan);
  }

  lemma ListOverflows(plan: Plan, ordered: seq<ScannedMember>, imageUuid: Id, m: ScannedMember)
    requires plan.parent.Some? && plan.parent.value.prefix == MembersOfImages(ordered)
    requires plan.seqInChain == |ordered| == MAX_INDEX + 1
    ensures var list := MemberList(plan, imageUuid);
            && |list| == MAX_INDEX + 2 && list[MAX_INDEX].index == list[MAX_INDEX + 1].index == MAX_INDEX
            && list != MembersOfImages(ordered + [m])
  {
    assert MembersOfImages(ordered + [m])[|ordered|].index == |ordered|;
  }

  /** Image `k` of a chain of incrementals with id 1. */
  function LineImage(k: nat): (m: ScannedMember)
    ensures m.superblock.seqInChain == k && m.superblock.chainId == 1
  {
    ScannedMember(seq(k, i => 'x'), Superblock(k > 0, false, Block, k + 1, 1, 1, k, k, 0, 1, 1, 0), 1)
  }

  /** A set that holds one chain of `n` images. */
  function Line(n: nat): (scan: seq<ScannedMember>)
    ensures |scan| == n && forall k :: 0 <= k < n ==> scan[k] == LineImage(k)
  {
    seq(n, k requires 0 <= k < n => LineImage(k))
  }

  lemma {:induction false} LineOf(scan: seq<ScannedMember>, id: Id)
    requires forall m :: m in scan ==> m.superblock.chainId == 1
    ensures Of(scan, id) == if id == 1 then scan else []
  {
    if scan != [] {
      var front := scan[..|scan| - 1];
      LineOf(front, id);
      assert scan == front + [scan[|scan| - 1]];
      assert scan[|scan| - 1] in scan;
    }
  }

  lemma LineOrdered(n: nat, id: Id)
    ensures Ordered(Line(n), id) == if id == 1 then Line(n) else []
  {
    LineOf(Line(n), id);
    Sorting.SortByIdentity(ScannedSeq, Line(n));
  }

  lemma LineIsHealthy(n: nat)
    ensures Healthy(Line(n))
  {
    forall id ensures HealthyChain(Ordered(Line(n), id)) {
      LineOrdered(n, id);
    }
    forall a, b | a in Line(n) && b in Line(n) && a.fileName == b.fileName ensures a == b {
      assert |a.fileName| == a.superblock.seqInChain && |b.fileName| == b.superblock.seqInChain;
    }
  }

  function LineCatalog(n: nat): Catalog {
    Catalog(CATALOG_VERSION, 1, 0, [ChainOf(Line(n), 1)])
  }

  lemma LineIsBuilt(n: nat)
    requires n > 0
    ensures IsBuilt(LineCatalog(n), Line(n))
  {
    var c, scan := LineCatalog(n), Line(n);
    assert scan[0].superblock.chainId == 1;
    assert IsChain(c.chains[0], scan);
    forall id | InScan(scan, id) ensures HasChain(c.chains, id) {
      assert c.chains[0].chainId == 1;
    }
  }

  lemma LineAgrees(n: nat)
    requires n > 0
    ensures Healthy(Line(n)) && Agrees(LineCatalog(n), Line(n))
    ensures ResolveParent(LineCatalog(n), Latest).Success?
  {
    LineIsHealthy(n);
    LineIsBuilt(n);
    BuiltAgrees(LineCatalog(n), Line(n));
    AgreeingIsSound(LineCatalog(n), Line(n));
    assert StrictlyNewest(LineCatalog(n).chains, 0);
    LatestIsDecided(LineCatalog(n));
  }

  lemma LineIsExtended(req: Request, n: nat)
    requires n > 0 && !req.memberType.Full? && req.parent.None?
    ensures ResolveParent(LineCatalog(n), RefOf(req)).Success? && ParentChainId(req, LineCatalog(n)) == Some(1)
    ensures |Ordered(Line(n), 1)| == n
  {
    LineAgrees(n);
    var id := ResolvedChain(req, LineCatalog(n), Line(n));
    LineOrdered(n, id);
    OrderedIsWithin(Line(n), id);
  }

  /** Such an input: an incremental of the latest image of a chain of 256, with no limit. */
  lemma LineSaturates(req: Request, d: Details)
    requires req.mode.Block? && req.memberType.Incremental? && req.parent.None? && req.limit.None?
    ensures var scan, c := Line(256), LineCatalog(256);
            && Healthy(scan) && IsBuilt(c, scan)
            && PlanFor(req, c, scan).Success?
            && var plan := PlanFor(req, c, scan).value;
               MemberList(plan, req.imageUuid) != MembersOfImages(Ordered(scan, plan.chainId) + [ImageOf(plan, req, d)])
  {
    var n := MAX_INDEX + 1;
    LineIsBuilt(n);
    LineAgrees(n);
    LineIsExtended(req, n);
    MemberListSaturates(req, LineCatalog(n), Line(n), d);
  }
}
