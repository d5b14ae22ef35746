/**
 The two-stage size check of a captured verification: the observation first,
 then the largest report that still fits beside it, then the whole message.
 */
module Budget {
  import opened Wrappers

  const USIZE: nat := 0x1_0000_0000_0000_0000

  /** The largest response limit a policy may configure. */
  const MAX_RESULT_BYTES: nat := 1024 * 1024

  /** The bytes of a base-128 varint. */
  function VarintLen(n: nat): (len: nat)
    ensures len >= 1
    decreases n
  {
    if n < 128 then 1 else 1 + VarintLen(n / 128)
  }

  function Pow128(e: nat): nat {
    if e == 0 then 1 else 128 * Pow128(e - 1)
  }

  /** A varint is as short as its value allows: seven bits of it in each byte. */
  lemma {:induction false} VarintExact(n: nat)
    ensures n < Pow128(VarintLen(n))
    ensures VarintLen(n) > 1 ==> Pow128(VarintLen(n) - 1) <= n
    decreases n
  {
    if n >= 128 {
      VarintExact(n / 128);
      assert Pow128(VarintLen(n)) == 128 * Pow128(VarintLen(n / 128));
      assert VarintLen(n / 128) > 1 ==> Pow128(VarintLen(n) - 1) == 128 * Pow128(VarintLen(n / 128) - 1);
    }
  }

  /** A length-delimited field with a one-byte tag. */
  function Framed(n: nat): nat {
    n + 1 + VarintLen(n)
  }

  /** The same, or an error when the size does not fit the machine word. */
  function FramedLength(bytes: nat): Result<nat> {
    if Framed(bytes) >= USIZE then Failure(Unsupported) else Success(Framed(bytes))
  }

  lemma {:induction false} VarintMonotone(a: nat, b: nat)
    requires a <= b
    ensures VarintLen(a) <= VarintLen(b)
    decreases b
  {
    if a >= 128 {
      VarintMonotone(a / 128, b / 128);
    }
  }

  /** A longer field has a longer frame. */
  lemma FramedMonotone(a: nat, b: nat)
    requires a <= b
    ensures Framed(a) + (b - a) <= Framed(b)
  {
    VarintMonotone(a, b);
  }

  lemma {:induction false} FramedBound(n: nat)
    ensures Framed(n) <= 2 * n + 2
    decreases n
  {
    if n >= 128 { FramedBound(n / 128); }
  }

  /** The fixed parts of a result: the encoded header of the observation and the encoded recording outcome. */
  datatype Parts = Parts(observationHeader: nat, members: seq<nat>, skeleton: nat)

  /** The encoded observation: its header and one framed field per member. */
  function ObservationLen(header: nat, members: seq<nat>): nat {
    if members == [] then header else ObservationLen(header, members[..|members| - 1]) + Framed(members[|members| - 1])
  }

  /** The encoded result: skeleton, observation, and the report if there is one. */
  function ResultLen(p: Parts, report: Option<nat>): nat {
    p.skeleton + Framed(ObservationLen(p.observationHeader, p.members))
    + match report case None => 0 case Some(n) => Framed(n)
  }

  /** The encoded progress message that carries the result. */
  function MessageLen(p: Parts, report: Option<nat>): nat {
    Framed(ResultLen(p, report))
  }

  lemma {:induction false} ObservationGrows(header: nat, members: seq<nat>, k: nat)
    requires k <= |members|
    ensures ObservationLen(header, members[..k]) <= ObservationLen(header, members)
    decreases |members|
  {
    if k < |members| {
      assert members[..|members| - 1][..k] == members[..k];
      ObservationGrows(header, members[..|members| - 1], k);
    } else {
      assert members[..k] == members;
    }
  }

  /** Add up the observation member by member, stopping at the first that exceeds the limit. */
  method CheckObservationSize(header: nat, members: seq<nat>, limit: nat) returns (r: Result<nat>)
    requires limit <= MAX_RESULT_BYTES
    ensures r == if ObservationLen(header, members) <= limit then Success(ObservationLen(header, members))
                 else Failure(Unsupported)
  {
    var length := header;
    for k := 0 to |members|
      invariant length == ObservationLen(header, members[..k])
      invariant k > 0 ==> length <= limit
    {
      assert members[..k + 1][..k] == members[..k];
      ObservationGrows(header, members, k + 1);
      length := length + Framed(members[k]);
      if length >= USIZE || length > limit {
        return Failure(Unsupported);
      }
    }
    assert members[..|members|] == members;
    if length > limit {
      return Failure(Unsupported);
    }
    return Success(length);
  }

  /** Whether a report of `n` bytes fits beside `base` bytes of result. */
  predicate Fits(base: nat, n: nat, limit: nat) {
    Framed(base + Framed(n)) <= limit
  }

  lemma FitsMonotone(base: nat, a: nat, b: nat, limit: nat)
    requires a <= b && Fits(base, b, limit)
    ensures Fits(base, a, limit)
  {
    FramedMonotone(a, b);
    FramedMonotone(base + Framed(a), base + Framed(b));
  }

  /**
   The longest report that still fits, by binary search: nothing longer fits,
   and the length found fits whenever an empty report does.
   */
  method ReportCapacity(observationBytes: nat, skeleton: nat, limit: nat) returns (r: Result<nat>)
    requires limit <= MAX_RESULT_BYTES
    ensures var base := skeleton + Framed(observationBytes);
            && (r.Failure? <==> Framed(base) > limit)
            && (r.Success? ==> forall n: nat :: Fits(base, n, limit) ==> n <= r.value)
            && (r.Success? && Fits(base, 0, limit) ==> Fits(base, r.value, limit))
            && (r.Success? && !Fits(base, 0, limit) ==> r.value == 0)
  {
    var base := skeleton + Framed(observationBytes);
    FramedMonotone(0, base);
    if Framed(observationBytes) >= USIZE || base >= USIZE || Framed(base) >= USIZE || Framed(base) > limit {
      return Failure(Unsupported);
    }
    var low, high := 0, limit;
    forall n: nat | Fits(base, n, limit) ensures n <= limit {
      FramedMonotone(0, base + Framed(n));
    }
    while low < high
      invariant 0 <= low <= high <= limit
      invariant low == 0 || Fits(base, low, limit)
      invariant forall n: nat :: Fits(base, n, limit) ==> n <= high
    {
      var mid := low + (high - low + 1) / 2;
      FramedBound(mid);
      FramedBound(base + Framed(mid));
      var fits := TryFits(base, mid, limit);
      if fits.value {
        low := mid;
      } else {
        forall n: nat | Fits(base, n, limit) ensures n <= mid - 1 {
          if n >= mid { FitsMonotone(base, mid, n, limit); }
        }
        high := mid - 1;
      }
    }
    if low > 0 { FitsMonotone(base, 0, low, limit); }
    return Success(low);
  }

  /** The `fits` closure with its overflow checks. */
  function TryFits(base: nat, n: nat, limit: nat): Result<bool> {
    var framed :- FramedLength(n);
    if base + framed >= USIZE then Failure(Unsupported)
    else
      var whole :- FramedLength(base + framed);
      Success(whole <= limit)
  }

  function Sum(pieces: seq<nat>): nat {
    if pieces == [] then 0 else Sum(pieces[..|pieces| - 1]) + pieces[|pieces| - 1]
  }

  lemma {:induction false} SumGrows(pieces: seq<nat>, k: nat)
    requires k <= |pieces|
    ensures Sum(pieces[..k]) <= Sum(pieces)
    decreases |pieces|
  {
    if k < |pieces| {
      assert pieces[..|pieces| - 1][..k] == pieces[..k];
      SumGrows(pieces[..|pieces| - 1], k);
    } else {
      assert pieces[..k] == pieces;
    }
  }

  /** Serialize a report piece by piece into a writer that refuses to exceed its limit. */
  method WriteBounded(pieces: seq<nat>, limit: nat) returns (r: Result<nat>)
    ensures r == if Sum(pieces) <= limit then Success(Sum(pieces)) else Failure(Unsupported)
  {
    var length := 0;
    for k := 0 to |pieces|
      invariant length == Sum(pieces[..k]) <= limit
    {
      assert pieces[..k + 1][..k] == pieces[..k];
      SumGrows(pieces, k + 1);
      if length + pieces[k] > limit {
        return Failure(Unsupported);
      }
      length := length + pieces[k];
    }
    assert pieces[..|pieces|] == pieces;
    return Success(length);
  }

  /**
   Admit a captured verification: the staged checks let it in exactly when it
   has no more members than allowed and the whole encoded message fits.
   */
  method FromAttempt(p: Parts, report: Option<seq<nat>>, maxMembers: nat, limit: nat) returns (r: Result<Option<nat>>)
    requires limit <= MAX_RESULT_BYTES
    ensures var length := match report case None => None case Some(pieces) => Some(Sum(pieces));
            && (r.Success? <==> |p.members| <= maxMembers && MessageLen(p, length) <= limit)
            && (r.Success? ==> r.value == length)
  {
    if |p.members| > maxMembers {
      return Failure(Unsupported);
    }
    ghost var length := match report case None => None case Some(pieces) => Some(Sum(pieces));
    MessageBounds(p, length);
    var observationBytes :- CheckObservationSize(p.observationHeader, p.members, limit);
    var capacity :- ReportCapacity(observationBytes, p.skeleton, limit);
    var json: Option<nat> := None;
    if report.Some? {
      ReportFits(p, Sum(report.value), limit);
      var written :- WriteBounded(report.value, capacity);
      json := Some(written);
    }
    if MessageLen(p, json) > limit {
      return Failure(Unsupported);
    }
    return Success(json);
  }

  /** The whole message is at least as long as each part that is checked before it. */
  lemma MessageBounds(p: Parts, report: Option<nat>)
    ensures var observation := ObservationLen(p.observationHeader, p.members);
            observation <= MessageLen(p, report) && Framed(p.skeleton + Framed(observation)) <= MessageLen(p, report)
  {
    var base, result := p.skeleton + Framed(ObservationLen(p.observationHeader, p.members)), ResultLen(p, report);
    assert base <= result;
    FramedMonotone(base, result);
  }

  /** A message with a report fits exactly when the report fits beside the rest. */
  lemma ReportFits(p: Parts, n: nat, limit: nat)
    ensures MessageLen(p, Some(n)) <= limit <==>
            Fits(p.skeleton + Framed(ObservationLen(p.observationHeader, p.members)), n, limit)
  {
  }

  // ------------------------------------------------------ the bytes themselves

  /** A varint: seven bits to a byte, lowest first, the top bit set on all but the last. */
  function Varint(n: nat): (bytes: Bytes)
    decreases n
  {
    if n < 128 then [n as Byte] else [(128 + n % 128) as Byte] + Varint(n / 128)
  }

  /** The number that the varint at the front of `bytes` stands for, and how many bytes it takes. */
  function ReadVarint(bytes: Bytes): Option<(nat, nat)> {
    if bytes == [] then None
    else if bytes[0] < 128 then Some((bytes[0] as nat, 1))
    else
      match ReadVarint(bytes[1..])
      case None => None
      case Some((high, len)) => Some((bytes[0] as nat - 128 + 128 * high, len + 1))
  }

  lemma ReadOneByte(low: Byte, tail: Bytes, high: nat, len: nat)
    requires low >= 128 && ReadVarint(tail) == Some((high, len))
    ensures ReadVarint([low] + tail) == Some((low as nat - 128 + 128 * high, len + 1))
  {
    assert ([low] + tail)[1..] == tail;
  }

  /** A varint has the computed length and reads back, whatever follows it. */
  lemma {:induction false} VarintIsRead(n: nat, rest: Bytes)
    ensures |Varint(n)| == VarintLen(n)
    ensures ReadVarint(Varint(n) + rest) == Some((n, VarintLen(n)))
    decreases n
  {
    if n >= 128 {
      var low, tail := (128 + n % 128) as Byte, Varint(n / 128) + rest;
      VarintIsRead(n / 128, rest);
      assert Varint(n) + rest == [low] + tail;
      ReadOneByte(low, tail, n / 128, VarintLen(n / 128));
    }
  }

  /** A length-delimited field: its tag, the length of its body, its body. */
  function Field(tag: Byte, body: Bytes): Bytes {
    [tag] + Varint(|body|) + body
  }

  function Fields(tag: Byte, bodies: seq<Bytes>): Bytes {
    if bodies == [] then [] else Fields(tag, bodies[..|bodies| - 1]) + Field(tag, bodies[|bodies| - 1])
  }

  /** The encoded pieces of a captured result. */
  datatype Wire = Wire(observationHeader: Bytes, members: seq<Bytes>, skeleton: Bytes, report: Option<Bytes>)

  /** One-byte tags of the fields that are framed. */
  datatype Tags = Tags(progress: Byte, observation: Byte, member: Byte, report: Byte)

  /** The progress message that carries the result, byte for byte. */
  function Message(tags: Tags, w: Wire): Bytes {
    var observation := w.observationHeader + Fields(tags.member, w.members);
    var report := match w.report case None => [] case Some(bytes) => Field(tags.report, bytes);
    Field(tags.progress, w.skeleton + Field(tags.observation, observation) + report)
  }

  function LengthsOf(bodies: seq<Bytes>): (ns: seq<nat>)
    ensures |ns| == |bodies| && forall k :: 0 <= k < |ns| ==> ns[k] == |bodies[k]|
  {
    seq(|bodies|, k requires 0 <= k < |bodies| => |bodies[k]|)
  }

  lemma FieldLength(tag: Byte, body: Bytes)
    ensures |Field(tag, body)| == Framed(|body|)
  {
    VarintIsRead(|body|, []);
  }

  lemma {:induction false} FieldsLength(header: nat, tag: Byte, bodies: seq<Bytes>)
    ensures header + |Fields(tag, bodies)| == ObservationLen(header, LengthsOf(bodies))
  {
    if bodies != [] {
      var n := |bodies| - 1;
      FieldsLength(header, tag, bodies[..n]);
      FieldLength(tag, bodies[n]);
      assert LengthsOf(bodies)[..n] == LengthsOf(bodies[..n]);
    }
  }

  /** The length the checks work with is the number of bytes of the whole message. */
  lemma MessageLength(tags: Tags, w: Wire)
    ensures var report := match w.report case None => None case Some(bytes) => Some(|bytes|);
            |Message(tags, w)| == MessageLen(Parts(|w.observationHeader|, LengthsOf(w.members), |w.skeleton|), report)
  {
    var observation := w.observationHeader + Fields(tags.member, w.members);
    FieldsLength(|w.observationHeader|, tags.member, w.members);
    FieldLength(tags.observation, observation);
    var report := match w.report case None => [] case Some(bytes) => Field(tags.report, bytes);
    if w.report.Some? {
      FieldLength(tags.report, w.report.value);
    }
    FieldLength(tags.progress, w.skeleton + Field(tags.observation, observation) + report);
  }
}
