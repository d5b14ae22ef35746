/**
 Runs of a set with their keys: every backup takes its chain key from its
 parent's superblock, so every chain the set ever holds has one key regime, and
 one hash, that of its full.
 */
module KeyedRuns {
  import opened Wrappers
  import opened Superblocks
  import opened Catalogs
  import opened Keys
  import opened EndToEnd
  import P = Plans
  import G = Growth
  import R = Resolution
  import S = SetRuns
  import B = Backup
  import H = History

  /** What each image file records of its keys, who asked for it and what it drew, and the hash a dedup key gives. */
  datatype KeyWorld = KeyWorld(
    crypto: Crypto,
    header: string -> Header,
    request: string -> Encryption,
    draws: string -> Draws,
    hashWith: Bytes -> (Bytes -> Digest))

  function HeadersOf(kw: KeyWorld, ms: seq<ScannedMember>): (hs: seq<Header>)
    ensures |hs| == |ms| && forall k :: 0 <= k < |ms| ==> hs[k] == kw.header(ms[k].fileName)
  {
    seq(|ms|, k requires 0 <= k < |ms| => kw.header(ms[k].fileName))
  }

  function RequestsOf(kw: KeyWorld, ms: seq<ScannedMember>): (rs: seq<Encryption>)
    ensures |rs| == |ms| && forall k :: 0 <= k < |ms| ==> rs[k] == kw.request(ms[k].fileName)
  {
    seq(|ms|, k requires 0 <= k < |ms| => kw.request(ms[k].fileName))
  }

  function DrawsOf(kw: KeyWorld, ms: seq<ScannedMember>): (ds: seq<Draws>)
    ensures |ds| == |ms| && forall k :: 0 <= k < |ms| ==> ds[k] == kw.draws(ms[k].fileName)
  {
    seq(|ms|, k requires 0 <= k < |ms| => kw.draws(ms[k].fileName))
  }

  /** The keys a planned image is written with: fresh ones for a full, the parent's chain key otherwise. */
  function KeysFor(kw: KeyWorld, m: ScannedMember, parent: Option<string>): Result<NewChainKeys> {
    var sb := m.superblock;
    match parent
    case None => NewKeys(kw.crypto, kw.request(m.fileName), sb.chainId, sb.imageUuid, kw.draws(m.fileName))
    case Some(file) =>
      MemberKeys(kw.crypto, kw.request(m.fileName), kw.header(file), sb.chainId, sb.imageUuid, kw.draws(m.fileName))
  }

  /** The header of `m` carries its superblock and records the keys it was given. */
  ghost predicate RecordsKeys(kw: KeyWorld, m: ScannedMember, parent: Option<string>) {
    && kw.header(m.fileName).superblock == m.superblock
    && KeysFor(kw, m, parent).Success?
    && Records(kw.header(m.fileName), KeysFor(kw, m, parent).value)
  }

  function ParentFile(plan: P.Plan): Option<string> {
    if plan.parent.Some? then Some(plan.parent.value.member.fileName) else None
  }

  /** The image before position `k`, if there is one. */
  function FileBefore(ms: seq<ScannedMember>, k: nat): Option<string>
    requires k <= |ms|
  {
    if k == 0 then None else Some(ms[k - 1].fileName)
  }

  /** Every image of a chain records the keys it was given on top of the one before it. */
  ghost predicate Keyed(kw: KeyWorld, ms: seq<ScannedMember>) {
    forall k :: 0 <= k < |ms| ==> RecordsKeys(kw, ms[k], FileBefore(ms, k))
  }

  ghost predicate AllKeyed(kw: KeyWorld, scan: seq<ScannedMember>) {
    forall id :: Keyed(kw, Ordered(scan, id))
  }

  /** A published image records the keys its plan's parent gives it. */
  ghost predicate DrawsKeys(kw: KeyWorld, s: S.State, a: S.Action) {
    a.Publish? ==>
      var plan := P.PlanFor(a.req, S.Loads(s, a.built), s.scan);
      plan.Success? ==> RecordsKeys(kw, P.ImageOf(plan.value, a.req, a.details), ParentFile(plan.value))
  }

  ghost predicate AllDrewKeys(kw: KeyWorld, states: seq<S.State>, actions: seq<S.Action>) {
    |states| == |actions| + 1 && forall k :: 0 <= k < |actions| ==> DrawsKeys(kw, states[k], actions[k])
  }

  // ------------------------------------------------------------- one chain

  lemma KeyedGrows(kw: KeyWorld, ms: seq<ScannedMember>, m: ScannedMember)
    requires Keyed(kw, ms) && RecordsKeys(kw, m, FileBefore(ms, |ms|))
    ensures Keyed(kw, ms + [m])
  {
    forall k | 0 <= k < |ms + [m]| ensures RecordsKeys(kw, (ms + [m])[k], FileBefore(ms + [m], k)) {
      assert k > 0 ==> (ms + [m])[k - 1] == ms[k - 1];
      if k < |ms| {
        assert RecordsKeys(kw, ms[k], FileBefore(ms, k));
      }
    }
  }

  /** A chain of images keyed one on top of the other is a keyed chain of headers. */
  lemma KeyedIsKeyedChain(kw: KeyWorld, ms: seq<ScannedMember>)
    requires ms != [] && Keyed(kw, ms)
    ensures KeyedChain(kw.crypto, HeadersOf(kw, ms), RequestsOf(kw, ms), DrawsOf(kw, ms))
    ensures forall k :: 0 <= k < |ms| ==> KeysAt(kw.crypto, HeadersOf(kw, ms), RequestsOf(kw, ms), DrawsOf(kw, ms), k)
                                          == KeysFor(kw, ms[k], FileBefore(ms, k))
  {
    forall k | 0 <= k < |ms|
      ensures KeyedAt(kw.crypto, HeadersOf(kw, ms), RequestsOf(kw, ms), DrawsOf(kw, ms), k)
      ensures KeysAt(kw.crypto, HeadersOf(kw, ms), RequestsOf(kw, ms), DrawsOf(kw, ms), k)
              == KeysFor(kw, ms[k], FileBefore(ms, k))
    {
      assert RecordsKeys(kw, ms[k], FileBefore(ms, k));
    }
  }

  /** Within a keyed chain every image was written with the dedup key of the full. */
  lemma OneDedupKey(kw: KeyWorld, ms: seq<ScannedMember>, k: nat)
    requires Authentic(kw.crypto) && Keyed(kw, ms) && k < |ms|
    ensures KeysFor(kw, ms[0], None).Success? && KeysFor(kw, ms[k], FileBefore(ms, k)).Success?
    ensures KeysFor(kw, ms[k], FileBefore(ms, k)).value.keys.dedupKey == KeysFor(kw, ms[0], None).value.keys.dedupKey
    ensures ms[k].superblock.encrypted == ms[0].superblock.encrypted
    ensures kw.request(ms[k].fileName).Passphrase? <==> ms[0].superblock.encrypted
  {
    assert RecordsKeys(kw, ms[0], FileBefore(ms, 0)) && RecordsKeys(kw, ms[k], FileBefore(ms, k));
    KeyedIsKeyedChain(kw, ms);
    OneRegime(kw.crypto, HeadersOf(kw, ms), RequestsOf(kw, ms), DrawsOf(kw, ms), 0, k);
    RequestsMatchTheChain(kw.crypto, HeadersOf(kw, ms), RequestsOf(kw, ms), DrawsOf(kw, ms), k);
  }

  // --------------------------------------------------------------- all runs

  /** The file a plan takes the parent's keys from is the last of the chain the image joins. */
  lemma ParentIsBefore(req: P.Request, c: Catalog, scan: seq<ScannedMember>)
    requires G.Healthy(scan) && G.Agrees(c, scan) && P.PlanFor(req, c, scan).Success?
    requires var plan := P.PlanFor(req, c, scan).value; plan.parent.None? ==> !InScan(scan, plan.chainId)
    ensures var plan := P.PlanFor(req, c, scan).value; var ordered := Ordered(scan, plan.chainId);
            ParentFile(plan) == FileBefore(ordered, |ordered|)
  {
    var plan := P.PlanFor(req, c, scan).value;
    G.OrderedIsWithin(scan, plan.chainId);
    if plan.parent.Some? {
      S.ExtensionEndsChain(req, c, scan);
    }
  }

  /** What a publication of a run does to the chains. */
  lemma PublishedOnTop(s: S.State, a: S.Action, t: S.State)
    requires S.Inv(s) && S.Step(s, a, t) && a.Publish?
    ensures var plan := P.PlanFor(a.req, S.Loads(s, a.built), s.scan);
            && plan.Success?
            && var m := P.ImageOf(plan.value, a.req, a.details); var ordered := Ordered(s.scan, plan.value.chainId);
               && m.superblock.chainId == plan.value.chainId
               && ParentFile(plan.value) == FileBefore(ordered, |ordered|)
               && Ordered(t.scan, plan.value.chainId) == ordered + [m]
               && forall id :: id != plan.value.chainId ==> Ordered(t.scan, id) == Ordered(s.scan, id)
  {
    var c := S.Loads(s, a.built);
    G.LoadedAgrees(s.scan, a.built, s.cache);
    var plan := P.PlanFor(a.req, c, s.scan).value;
    ParentIsBefore(a.req, c, s.scan);
    S.PlannedContinues(a.req, c, s.scan, a.details);
    S.PublishedGrows(s.scan, a.at, P.ImageOf(plan, a.req, a.details));
  }

  lemma KeyStep(kw: KeyWorld, s: S.State, a: S.Action, t: S.State)
    requires S.Inv(s) && S.Step(s, a, t) && AllKeyed(kw, s.scan) && DrawsKeys(kw, s, a)
    ensures AllKeyed(kw, t.scan)
  {
    if a.Publish? {
      PublishedOnTop(s, a, t);
      var plan := P.PlanFor(a.req, S.Loads(s, a.built), s.scan).value;
      KeyedGrows(kw, Ordered(s.scan, plan.chainId), P.ImageOf(plan, a.req, a.details));
      forall id ensures Keyed(kw, Ordered(t.scan, id)) {
        assert Keyed(kw, Ordered(s.scan, id));
      }
    }
  }

  lemma {:induction false} RunKeyed(kw: KeyWorld, states: seq<S.State>, actions: seq<S.Action>, j: nat)
    requires S.IsRun(states, actions) && AllDrewKeys(kw, states, actions) && j < |states|
    ensures AllKeyed(kw, states[j].scan)
  {
    if j > 0 {
      RunKeyed(kw, states, actions, j - 1);
      S.RunKeepsInv(states, actions);
      KeyStep(kw, states[j - 1], actions[j - 1], states[j]);
    }
  }

  /**
   Over every run of a set, at every time, each chain is a keyed chain: all its
   images are encrypted or none is, all were written with one dedup key, and
   each was asked for with a passphrase exactly if the chain is encrypted.
   */
  lemma ChainsKeepTheirRegime(kw: KeyWorld, states: seq<S.State>, actions: seq<S.Action>, j: nat, id: Id, k: nat)
    requires Authentic(kw.crypto) && S.IsRun(states, actions) && AllDrewKeys(kw, states, actions)
    requires j < |states| && k < |Ordered(states[j].scan, id)|
    ensures var ms := Ordered(states[j].scan, id);
            && KeyedChain(kw.crypto, HeadersOf(kw, ms), RequestsOf(kw, ms), DrawsOf(kw, ms))
            && KeysFor(kw, ms[0], None).Success? && KeysFor(kw, ms[k], FileBefore(ms, k)).Success?
            && KeysFor(kw, ms[k], FileBefore(ms, k)).value.keys.dedupKey
               == KeysFor(kw, ms[0], None).value.keys.dedupKey
            && ms[k].superblock.encrypted == ms[0].superblock.encrypted
            && (kw.request(ms[k].fileName).Passphrase? <==> ms[0].superblock.encrypted)
  {
    RunKeyed(kw, states, actions, j);
    assert Keyed(kw, Ordered(states[j].scan, id));
    KeyedIsKeyedChain(kw, Ordered(states[j].scan, id));
    OneDedupKey(kw, Ordered(states[j].scan, id), k);
  }

  // ------------------------------------------------ and their backups

  /** A published image is a block backup under the hash of its own dedup key. */
  ghost predicate WroteUnderItsKeys(kw: KeyWorld, w: World, s: S.State, a: S.Action) {
    a.Publish? ==>
      var plan := P.PlanFor(a.req, S.Loads(s, a.built), s.scan);
      plan.Success? ==>
        var m := P.ImageOf(plan.value, a.req, a.details);
        && RecordsKeys(kw, m, ParentFile(plan.value))
        && m.superblock.imageKind == Block && w.open(m.fileName).superblock == m.superblock
        && w.source(m.fileName).Valid()
        && exists codec: B.Codec ::
             && codec.hash == kw.hashWith(KeysFor(kw, m, ParentFile(plan.value)).value.keys.dedupKey)
             && B.IsBackup(w.open(m.fileName), Opened(w, plan.value), w.source(m.fileName), codec)
  }

  ghost predicate AllWroteUnderTheirKeys(kw: KeyWorld, w: World, states: seq<S.State>, actions: seq<S.Action>) {
    |states| == |actions| + 1 && forall k :: 0 <= k < |actions| ==> WroteUnderItsKeys(kw, w, states[k], actions[k])
  }

  /** The hash a reader uses for a chain is that of the dedup key of its full. */
  ghost predicate HashesWithFulls(kw: KeyWorld, w: World, scan: seq<ScannedMember>) {
    forall id :: Ordered(scan, id) != [] ==>
                   && KeysFor(kw, Ordered(scan, id)[0], None).Success?
                   && w.codec(id).hash == kw.hashWith(KeysFor(kw, Ordered(scan, id)[0], None).value.keys.dedupKey)
  }

  lemma DrewKeys(kw: KeyWorld, w: World, states: seq<S.State>, actions: seq<S.Action>)
    requires AllWroteUnderTheirKeys(kw, w, states, actions)
    ensures AllDrewKeys(kw, states, actions)
  {
    forall k | 0 <= k < |actions| ensures DrawsKeys(kw, states[k], actions[k]) {
      assert WroteUnderItsKeys(kw, w, states[k], actions[k]);
    }
  }

  lemma HashOfFull(kw: KeyWorld, w: World, now: S.State, last: S.State, id: Id)
    requires HashesWithFulls(kw, w, last.scan)
    requires Ordered(now.scan, id) <= Ordered(last.scan, id) && Ordered(now.scan, id) != []
    ensures KeysFor(kw, Ordered(now.scan, id)[0], None).Success?
    ensures w.codec(id).hash == kw.hashWith(KeysFor(kw, Ordered(now.scan, id)[0], None).value.keys.dedupKey)
  {
    assert Ordered(now.scan, id)[0] == Ordered(last.scan, id)[0];
  }

  lemma WroteStep(kw: KeyWorld, w: World, s: S.State, a: S.Action, t: S.State, last: S.State)
    requires Authentic(kw.crypto) && S.Inv(s) && S.Step(s, a, t) && AllKeyed(kw, t.scan)
    requires WroteUnderItsKeys(kw, w, s, a) && HashesWithFulls(kw, w, last.scan)
    requires forall id :: Ordered(t.scan, id) <= Ordered(last.scan, id)
    ensures EndToEnd.Wrote(w, s, a)
  {
    if a.Publish? {
      PublishedOnTop(s, a, t);
      var plan := P.PlanFor(a.req, S.Loads(s, a.built), s.scan).value;
      var m, ordered := P.ImageOf(plan, a.req, a.details), Ordered(s.scan, plan.chainId);
      var all := ordered + [m];
      assert FileBefore(all, |ordered|) == FileBefore(ordered, |ordered|);
      assert all[|ordered|] == m && Keyed(kw, Ordered(t.scan, plan.chainId));
      OneDedupKey(kw, all, |ordered|);
      HashOfFull(kw, w, t, last, plan.chainId);
      var codec: B.Codec :|
        && codec.hash == kw.hashWith(KeysFor(kw, m, ParentFile(plan)).value.keys.dedupKey)
        && B.IsBackup(w.open(m.fileName), Opened(w, plan), w.source(m.fileName), codec);
      OnlyTheHashCounts(w.open(m.fileName), Opened(w, plan), w.source(m.fileName), codec, w.codec(plan.chainId));
    }
  }

  lemma KeysMakeRunsWritten(kw: KeyWorld, w: World, states: seq<S.State>, actions: seq<S.Action>)
    requires Authentic(kw.crypto) && S.IsRun(states, actions) && AllWroteUnderTheirKeys(kw, w, states, actions)
    requires HashesWithFulls(kw, w, states[|actions|].scan)
    ensures AllWrote(w, states, actions)
  {
    DrewKeys(kw, w, states, actions);
    S.RunKeepsInv(states, actions);
    forall k | 0 <= k < |actions| ensures EndToEnd.Wrote(w, states[k], actions[k]) {
      RunKeyed(kw, states, actions, k + 1);
      forall id ensures Ordered(states[k + 1].scan, id) <= Ordered(states[|actions|].scan, id) {
        S.OnlyGrows(states, actions, k + 1, |actions|, id);
      }
      assert WroteUnderItsKeys(kw, w, states[k], actions[k]);
      WroteStep(kw, w, states[k], actions[k], states[k + 1], states[|actions|]);
    }
  }

  /**
   The whole way round with keys: when every image was written under its own
   keys, each taken from its parent's superblock, a reader who hashes with the
   dedup key of the chain's full restores it exactly when the source kept its
   size and chunking.
   */
  lemma KeyedIsRestored(kw: KeyWorld, w: World, states: seq<S.State>, actions: seq<S.Action>, j: nat, id: Id, k: nat)
    requires Authentic(kw.crypto) && S.IsRun(states, actions) && AllWroteUnderTheirKeys(kw, w, states, actions)
    requires HashesWithFulls(kw, w, states[|actions|].scan)
    requires j < |states| && k < |Ordered(states[j].scan, id)|
    ensures var cut := Ordered(states[j].scan, id)[..k + 1]; var files := R.Resolved(states[j].scan, cut[k].fileName);
            && files.Success?
            && (Restores(w, OpenAll(w, files.value), cut[k].fileName, w.codec(id)) <==> H.Steady(SourcesOf(w, cut)))
  {
    KeysMakeRunsWritten(kw, w, states, actions);
    PublishedIsRestored(w, states, actions, j, id, k);
  }
}
