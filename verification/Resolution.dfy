/** Resolving the chain of one image from the superblocks of its set. */
module Resolution {
  import opened Wrappers
  import opened Superblocks
  import opened Catalogs
  import opened Plans
  import opened Growth
  import Sorting
  import opened CacheTruth

  predicate UpTo(n: nat, m: ScannedMember) {
    m.superblock.seqInChain <= n
  }

  function Keep(n: nat): ScannedMember -> bool {
    m => UpTo(n, m)
  }

  /** The target's chain cut at the target, in sequence order. */
  function Cut(scan: seq<ScannedMember>, target: ScannedMember): seq<ScannedMember> {
    Sorting.SortBy(ScannedSeq, Filter(Keep(target.superblock.seqInChain), Of(scan, target.superblock.chainId)))
  }

  predicate Numbered(ms: seq<ScannedMember>) {
    forall k :: 0 <= k < |ms| ==> ms[k].superblock.seqInChain == k
  }

  /** The chain of `fileName` up to and including it, or why there is none. */
  function Resolved(scan: seq<ScannedMember>, fileName: string): Result<seq<ChainFile>> {
    match FindFile(scan, fileName)
    case None => Failure(BadRead)
    case Some(target) =>
      var cut := Cut(scan, target);
      if Numbered(cut) && cut != [] then Success(FilesOfImages(cut)) else Failure(Corrupt)
  }

  /** Collect the candidates, order them and refuse a gap. */
  method ResolveChain(scan: seq<ScannedMember>, fileName: string) returns (r: Result<seq<ChainFile>>)
    ensures r == Resolved(scan, fileName)
  {
    var target := FindFile(scan, fileName);
    if target.None? {
      return Failure(BadRead);
    }
    var candidates := Candidates(scan, target.value);
    candidates := Sorting.SortBy(ScannedSeq, candidates);
    for index := 0 to |candidates|
      invariant forall k :: 0 <= k < index ==> candidates[k].superblock.seqInChain == k
    {
      if candidates[index].superblock.seqInChain != index {
        return Failure(Corrupt);
      }
    }
    if candidates == [] {
      return Failure(Corrupt);
    }
    return Success(FilesOfImages(candidates));
  }

  method Candidates(scan: seq<ScannedMember>, target: ScannedMember) returns (candidates: seq<ScannedMember>)
    ensures candidates == Filter(Keep(target.superblock.seqInChain), Of(scan, target.superblock.chainId))
  {
    candidates := [];
    for k := 0 to |scan|
      invariant candidates == Below(scan[..k], target)
    {
      var candidate := scan[k];
      BelowStep(scan, k, target);
      if candidate.superblock.chainId == target.superblock.chainId
         && candidate.superblock.seqInChain <= target.superblock.seqInChain
      {
        candidates := candidates + [candidate];
      }
    }
    assert scan[..|scan|] == scan;
  }

  ghost function Below(scan: seq<ScannedMember>, target: ScannedMember): seq<ScannedMember> {
    Filter(Keep(target.superblock.seqInChain), Of(scan, target.superblock.chainId))
  }

  lemma BelowStep(scan: seq<ScannedMember>, k: nat, target: ScannedMember)
    requires k < |scan|
    ensures Below(scan[..k + 1], target) == Below(scan[..k], target) +
            if scan[k].superblock.chainId == target.superblock.chainId
               && scan[k].superblock.seqInChain <= target.superblock.seqInChain
            then [scan[k]] else []
  {
    var id := target.superblock.chainId;
    ScanStep(scan, k);
    if scan[k].superblock.chainId == id {
      assert Of(scan[..k + 1], id) == Of(scan[..k], id) + [scan[k]];
      FilterAppend(Keep(target.superblock.seqInChain), Of(scan[..k], id), scan[k]);
    } else {
      assert Of(scan[..k + 1], id) == Of(scan[..k], id);
    }
  }

  // ------------------------------------------- sorting and cutting commute

  lemma {:induction false} FilterInsert(n: nat, x: ScannedMember, sorted: seq<ScannedMember>)
    requires Sorting.SortedBy(ScannedSeq, sorted)
    ensures var keep := Keep(n);
            Filter(keep, Sorting.Insert(ScannedSeq, x, sorted)) ==
            if UpTo(n, x) then Sorting.Insert(ScannedSeq, x, Filter(keep, sorted)) else Filter(keep, sorted)
  {
    var keep := Keep(n);
    var all := Sorting.Insert(ScannedSeq, x, sorted);
    if sorted != [] && ScannedSeq(x) < ScannedSeq(sorted[|sorted| - 1]) {
      var front, last := sorted[..|sorted| - 1], sorted[|sorted| - 1];
      FilterInsert(n, x, front);
      var inner := Sorting.Insert(ScannedSeq, x, front);
      assert all == inner + [last] && all[..|inner|] == inner;
      var kept := Filter(keep, front);
      assert (kept + [last])[..|kept|] == kept;
    } else {
      assert all[..|sorted|] == sorted;
      var kept := Filter(keep, sorted);
      if kept != [] {
        assert kept[|kept| - 1] in sorted;
      }
    }
  }

  /** Cutting before sorting is cutting after sorting. */
  lemma {:induction false} FilterSort(n: nat, xs: seq<ScannedMember>)
    ensures var keep := Keep(n);
            Sorting.SortBy(ScannedSeq, Filter(keep, xs)) == Filter(keep, Sorting.SortBy(ScannedSeq, xs))
  {
    if xs != [] {
      var keep := Keep(n);
      var front, last := xs[..|xs| - 1], xs[|xs| - 1];
      FilterSort(n, front);
      Sorting.SortByCorrect(ScannedSeq, front);
      FilterInsert(n, last, Sorting.SortBy(ScannedSeq, front));
      var kept := Filter(keep, front);
      assert (kept + [last])[..|kept|] == kept;
    }
  }

  lemma {:induction false} FilterPrefix(n: nat, ms: seq<ScannedMember>)
    requires Numbered(ms)
    ensures Filter(Keep(n), ms) == if n < |ms| then ms[..n + 1] else ms
  {
    if |ms| <= n + 1 {
      FilterAll(Keep(n), ms);
      assert n + 1 == |ms| ==> ms[..n + 1] == ms;
    } else {
      var front := ms[..|ms| - 1];
      FilterPrefix(n, front);
      assert front[..n + 1] == ms[..n + 1];
    }
  }

  /** In a numbered chain the cut at a member is the chain up to that member. */
  lemma CutIsPrefix(scan: seq<ScannedMember>, target: ScannedMember)
    requires Numbered(Ordered(scan, target.superblock.chainId))
    ensures var ordered, n := Ordered(scan, target.superblock.chainId), target.superblock.seqInChain;
            Cut(scan, target) == if n < |ordered| then ordered[..n + 1] else ordered
  {
    FilterSort(target.superblock.seqInChain, Of(scan, target.superblock.chainId));
    FilterPrefix(target.superblock.seqInChain, Ordered(scan, target.superblock.chainId));
  }

  lemma NumberedIffComplete(scan: seq<ScannedMember>, id: Id)
    requires InScan(scan, id)
    ensures IsComplete(ChainOf(scan, id)) <==> Numbered(Ordered(scan, id))
  {
    OrderedIsWithin(scan, id);
    Sorting.SortByCorrect(ScannedSeq, Of(scan, id));
    CompleteIffNumbered(ChainOf(scan, id), Ordered(scan, id));
  }

  lemma CompleteIffNumbered(chain: ChainRecord, ordered: seq<ScannedMember>)
    requires ordered != [] && Sorting.SortedBy(ScannedSeq, ordered) && chain.members == RecordsOf(ordered)
    ensures IsComplete(chain) <==> Numbered(ordered)
  {
    var seqs := SeqsOf(chain.members);
    assert forall k :: 0 <= k < |seqs| ==> seqs[k] == ScannedSeq(ordered[k]);
    Sorting.SortByIdentity(Itself, seqs);
    if Numbered(ordered) {
      NumberedIsComplete(chain);
    }
    if IsComplete(chain) {
      forall k | 0 <= k < |ordered| ensures ordered[k].superblock.seqInChain == k {
        assert seqs[k] == k;
      }
    }
  }

  lemma MemberAt(scan: seq<ScannedMember>, id: Id, k: nat)
    requires k < |Ordered(scan, id)|
    ensures Ordered(scan, id)[k] in scan && Ordered(scan, id)[k].superblock.chainId == id
  {
    OrderedIsWithin(scan, id);
    assert Ordered(scan, id)[k] in Ordered(scan, id);
  }

  lemma NumberedResolves(scan: seq<ScannedMember>, target: ScannedMember)
    requires FileNamesDiffer(scan) && target in scan && Numbered(Ordered(scan, target.superblock.chainId))
    requires target.superblock.seqInChain < |Ordered(scan, target.superblock.chainId)|
    ensures Resolved(scan, target.fileName) ==
            Success(FilesOfImages(Ordered(scan, target.superblock.chainId)[..target.superblock.seqInChain + 1]))
  {
    FindFileUnique(scan, target);
    CutIsPrefix(scan, target);
  }

  /** In a complete chain every member resolves, to the chain up to it. */
  lemma EveryMemberResolves(scan: seq<ScannedMember>, id: Id, k: nat)
    requires FileNamesDiffer(scan) && InScan(scan, id) && IsComplete(ChainOf(scan, id)) && k < |Ordered(scan, id)|
    ensures Resolved(scan, Ordered(scan, id)[k].fileName) == Success(FilesOfImages(Ordered(scan, id)[..k + 1]))
  {
    NumberedIffComplete(scan, id);
    MemberAt(scan, id, k);
    NumberedResolves(scan, Ordered(scan, id)[k]);
  }

  /** A chain is complete exactly when its newest image resolves; readers and the catalog agree on every scan. */
  lemma CompleteIffNewestResolves(scan: seq<ScannedMember>, newest: ScannedMember)
    requires FileNamesDiffer(scan) && newest in scan
    requires forall m :: m in scan && m.superblock.chainId == newest.superblock.chainId ==>
               m.superblock.seqInChain <= newest.superblock.seqInChain
    ensures IsComplete(ChainOf(scan, newest.superblock.chainId)) <==> Resolved(scan, newest.fileName).Success?
  {
    var id := newest.superblock.chainId;
    FindFileUnique(scan, newest);
    OrderedIsWithin(scan, id);
    assert newest in Ordered(scan, id);
    NumberedIffComplete(scan, id);
    OfIsWithin(scan, id);
    FilterAll(Keep(newest.superblock.seqInChain), Of(scan, id));
  }
}
