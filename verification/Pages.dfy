/** Nonce counters and the metadata-page codec. */
module Pages {
  import opened Wrappers

  // ------------------------------------------------------------ byte orders

  function Pow256(k: nat): nat {
    if k == 0 then 1 else 256 * Pow256(k - 1)
  }

  function LittleEndian(n: nat, k: nat): (bytes: Bytes)
    ensures |bytes| == k
  {
    if k == 0 then [] else [(n % 256) as Byte] + LittleEndian(n / 256, k - 1)
  }

  function FromLittleEndian(bytes: Bytes): nat {
    if bytes == [] then 0 else bytes[0] as nat + 256 * FromLittleEndian(bytes[1..])
  }

  function BigEndian(n: nat, k: nat): (bytes: Bytes)
    ensures |bytes| == k
  {
    if k == 0 then [] else BigEndian(n / 256, k - 1) + [(n % 256) as Byte]
  }

  lemma {:induction false} LittleEndianRoundTrip(n: nat, k: nat)
    requires n < Pow256(k)
    ensures FromLittleEndian(LittleEndian(n, k)) == n
  {
    if k > 0 {
      LittleEndianRoundTrip(n / 256, k - 1);
    }
  }

  lemma LittleEndianInjective(m: nat, n: nat, k: nat)
    requires m < Pow256(k) && n < Pow256(k) && LittleEndian(m, k) == LittleEndian(n, k)
    ensures m == n
  {
    LittleEndianRoundTrip(m, k);
    LittleEndianRoundTrip(n, k);
  }

  /** The low `j` bytes of a big-endian number tell apart numbers below `256^j`. */
  lemma {:induction false} BigEndianTailInjective(m: nat, n: nat, k: nat, j: nat)
    requires j <= k && m < Pow256(j) && n < Pow256(j)
    requires BigEndian(m, k)[k - j..] == BigEndian(n, k)[k - j..]
    ensures m == n
  {
    if j > 0 {
      var a, b := BigEndian(m, k), BigEndian(n, k);
      assert a[k - j..][j - 1] == b[k - j..][j - 1];
      assert a[k - j..][..j - 1] == BigEndian(m / 256, k - 1)[k - j..];
      assert b[k - j..][..j - 1] == BigEndian(n / 256, k - 1)[k - j..];
      BigEndianTailInjective(m / 256, n / 256, k - 1, j - 1);
    }
  }

  // ----------------------------------------------------------------- nonces

  const NONCE_LEN: nat := 12
  const MAX_COUNTER: nat := 0xFFFF_FFFF_FFFF_FFFF_FFFF_FFFF

  /** The nonce of a 128-bit counter: its low three words, big-endian. */
  function NonceOf(counter: nat): (nonce: Bytes)
    ensures |nonce| == NONCE_LEN
  {
    BigEndian(counter, 16)[4..16]
  }

  lemma Pow256Nonce()
    ensures Pow256(12) == MAX_COUNTER + 1
  {
    assert Pow256(4) == 0x1_0000_0000;
    assert Pow256(8) == 256 * 256 * 256 * 256 * Pow256(4);
    assert Pow256(12) == 256 * 256 * 256 * 256 * Pow256(8);
  }

  function FromBigEndian(bytes: Bytes): nat {
    if bytes == [] then 0 else 256 * FromBigEndian(bytes[..|bytes| - 1]) + bytes[|bytes| - 1] as nat
  }

  lemma {:induction false} BigEndianTail(n: nat, k: nat, j: nat)
    requires j <= k && n < Pow256(j)
    ensures FromBigEndian(BigEndian(n, k)[k - j..]) == n
  {
    if j > 0 {
      BigEndianTail(n / 256, k - 1, j - 1);
      assert BigEndian(n, k)[k - j..][..j - 1] == BigEndian(n / 256, k - 1)[k - j..];
    }
  }

  /** A nonce is its counter, highest byte first. */
  lemma NonceIsCounter(counter: nat)
    requires counter <= MAX_COUNTER
    ensures FromBigEndian(NonceOf(counter)) == counter
  {
    Pow256Nonce();
    BigEndianTail(counter, 16, 12);
    assert BigEndian(counter, 16)[16 - 12..] == BigEndian(counter, 16)[4..16];
  }

  /** Counters in range have different nonces. */
  lemma NonceInjective(m: nat, n: nat)
    requires m <= MAX_COUNTER && n <= MAX_COUNTER && NonceOf(m) == NonceOf(n)
    ensures m == n
  {
    Pow256Nonce();
    var wide, other := BigEndian(m, 16), BigEndian(n, 16);
    assert wide[16 - 12..] == wide[4..16] && other[16 - 12..] == other[4..16];
    BigEndianTailInjective(m, n, 16, 12);
  }

  /** Hands out the nonces of one key, in counter order. */
  class NonceSeq {
    var counter: nat
    ghost var issued: seq<Bytes>  // every nonce handed out so far

    constructor ()
      ensures Valid() && issued == []
    {
      counter, issued := 0, [];
    }

    ghost predicate Valid()
      reads this
    {
      && counter == |issued| <= MAX_COUNTER + 1
      && forall i :: 0 <= i < |issued| ==> issued[i] == NonceOf(i)
    }

    /** The next nonce, or an error once all of them are used. */
    method NextNonce() returns (r: Result<Bytes>)
      requires Valid()
      modifies this
      ensures Valid()
      ensures r.Success? <==> |old(issued)| <= MAX_COUNTER
      ensures r.Success? ==> issued == old(issued) + [r.value] && r.value !in old(issued) && |r.value| == NONCE_LEN
      ensures r.Failure? ==> issued == old(issued)
    {
      if counter > MAX_COUNTER {
        return Failure(Corrupt);
      }
      var nonce := NonceOf(counter);
      forall i | 0 <= i < |issued| ensures issued[i] != nonce {
        if issued[i] == nonce { NonceInjective(i, counter); }
      }
      counter := counter + 1;
      issued := issued + [nonce];
      return Success(nonce);
    }
  }

  /** However many nonces one sequence has handed out, they are pairwise different. */
  lemma NoncesNeverRepeat(nonces: NonceSeq, i: nat, j: nat)
    requires nonces.Valid() && i < j < |nonces.issued|
    ensures nonces.issued[i] != nonces.issued[j]
  {
    if nonces.issued[i] == nonces.issued[j] { NonceInjective(i, j); }
  }

  // ------------------------------------------------------------------ pages

  const PAGE_MAGIC: nat := 0x9A6E
  const TAG_LEN: nat := 16
  const PAGE_HEADER_LEN: nat := 2 + 4 + NONCE_LEN
  const PAGE_OVERHEAD: nat := PAGE_HEADER_LEN + TAG_LEN
  const MAX_PAGE_LEN: nat := 4 * 1024 * 1024

  datatype StreamId = Manifest | HashIndex | Extras | PageTable

  function StreamByte(s: StreamId): Byte {
    match s
    case Manifest => 1
    case HashIndex => 2
    case Extras => 3
    case PageTable => 4
  }

  /** A cipher under one key: `(nonce, ad, text)`, with the tag apart. */
  datatype Aead = Aead(
    seal: (Bytes, Bytes, Bytes) -> Option<(Bytes, Bytes)>,
    open: (Bytes, Bytes, Bytes, Bytes) -> Option<Bytes>)

  /** What is sealed opens under the same nonce and associated data; lengths are kept. */
  ghost predicate Correct(aead: Aead) {
    forall nonce, ad, text :: aead.seal(nonce, ad, text).Some? ==>
      var (cipher, tag) := aead.seal(nonce, ad, text).value;
      |cipher| == |text| && |tag| == TAG_LEN && aead.open(nonce, ad, cipher, tag) == Some(text)
  }

  ghost predicate BindsAt(aead: Aead, nonce: Bytes, ad: Bytes, text: Bytes, other: Bytes) {
    aead.seal(nonce, ad, text).Some? && other != ad ==>
      var (cipher, tag) := aead.seal(nonce, ad, text).value;
      aead.open(nonce, other, cipher, tag).None?
  }

  /** What is sealed under one associated data does not open under another. */
  ghost predicate Binding(aead: Aead) {
    forall nonce, ad, text, other :: BindsAt(aead, nonce, ad, text, other)
  }

  /** The associated data of a page: its stream and its number. */
  function PageAd(stream: StreamId, pageNo: nat): Bytes {
    [StreamByte(stream)] + LittleEndian(pageNo, 8)
  }

  lemma PageAdInjective(s: StreamId, m: nat, t: StreamId, n: nat)
    requires m < Pow256(8) && n < Pow256(8) && PageAd(s, m) == PageAd(t, n)
    ensures s == t && m == n
  {
    assert PageAd(s, m)[0] == PageAd(t, n)[0];
    assert PageAd(s, m)[1..] == LittleEndian(m, 8) && PageAd(t, n)[1..] == LittleEndian(n, 8);
    LittleEndianInjective(m, n, 8);
  }

  /** The bytes of one page record. */
  function Record(nonce: Bytes, cipher: Bytes, tag: Bytes): Bytes {
    LittleEndian(PAGE_MAGIC, 2) + LittleEndian(|cipher|, 4) + nonce + cipher + tag
  }

  /** A growing output. */
  class Output {
    var bytes: Bytes

    constructor ()
      ensures bytes == []
    {
      bytes := [];
    }
  }

  /** `page` is the record of `plaintext` sealed under `nonce`. */
  ghost predicate SealedAs(aead: Aead, stream: StreamId, pageNo: nat, plaintext: Bytes, nonce: Bytes, page: Bytes) {
    && |plaintext| <= MAX_PAGE_LEN && |nonce| == NONCE_LEN
    && aead.seal(nonce, PageAd(stream, pageNo), plaintext).Some?
    && var (cipher, tag) := aead.seal(nonce, PageAd(stream, pageNo), plaintext).value;
       page == Record(nonce, cipher, tag)
  }

  /** Seal a payload under the next nonce; the record goes to the end of `out`. */
  method SealPage(aead: Aead, stream: StreamId, pageNo: nat, plaintext: Bytes, nonces: NonceSeq, out: Output)
    returns (r: Result<()>)
    requires nonces.Valid()
    modifies nonces, out
    ensures nonces.Valid()
    ensures |plaintext| > MAX_PAGE_LEN || |old(nonces.issued)| > MAX_COUNTER ==>
              r.Failure? && nonces.issued == old(nonces.issued)
    ensures r.Success? <==>
            && |plaintext| <= 4 * 1024 * 1024 && |old(nonces.issued)| <= MAX_COUNTER
            && aead.seal(NonceOf(|old(nonces.issued)|), PageAd(stream, pageNo), plaintext).Some?
    ensures r.Failure? ==> out.bytes == old(out.bytes) && old(nonces.issued) <= nonces.issued
    ensures r.Success? ==>
              exists nonce, page :: nonces.issued == old(nonces.issued) + [nonce] && nonce !in old(nonces.issued)
                                    && out.bytes == old(out.bytes) + page
                                    && SealedAs(aead, stream, pageNo, plaintext, nonce, page)
  {
    if |plaintext| > MAX_PAGE_LEN {
      return Failure(Unsupported);
    }
    ghost var counter := |nonces.issued|;
    var nonce :- nonces.NextNonce();
    assert nonces.issued[counter] == nonce == NonceOf(counter);
    var sealed := aead.seal(nonce, PageAd(stream, pageNo), plaintext);
    if sealed.None? {
      return Failure(Error.Aead);
    }
    var (cipher, tag) := sealed.value;
    out.bytes := out.bytes + Record(nonce, cipher, tag);
    assert SealedAs(aead, stream, pageNo, plaintext, nonce, Record(nonce, cipher, tag));
    return Success(());
  }

  /** Decode one page record. */
  function OpenPage(aead: Aead, stream: StreamId, pageNo: nat, record: Bytes): Result<Bytes> {
    if |record| < PAGE_OVERHEAD then Failure(Corrupt)
    else if FromLittleEndian(record[..2]) != PAGE_MAGIC then Failure(Corrupt)
    else
      var len := FromLittleEndian(record[2..6]);
      if len > MAX_PAGE_LEN then Failure(Corrupt)
      else if |record| != PAGE_OVERHEAD + len then Failure(Corrupt)
      else
        match aead.open(record[6..PAGE_HEADER_LEN], PageAd(stream, pageNo),
                        record[PAGE_HEADER_LEN..PAGE_HEADER_LEN + len], record[PAGE_HEADER_LEN + len..])
        case Some(plaintext) => Success(plaintext)
        case None => Failure(Error.Aead)
  }

  /**
   What opens, byte for byte: a record of at least 34 bytes with the magic, a
   header length of at most 4 MiB that accounts for all the other bytes, and
   parts the cipher accepts under this stream and number.
   */
  lemma OpensExactly(aead: Aead, stream: StreamId, pageNo: nat, record: Bytes)
    ensures OpenPage(aead, stream, pageNo, record).Success? <==>
            && |record| >= 34 && record[0] == 0x6E && record[1] == 0x9A
            && FromLittleEndian(record[2..6]) == |record| - 34 <= 4 * 1024 * 1024
            && aead.open(record[6..18], PageAd(stream, pageNo), record[18..|record| - 16],
                         record[|record| - 16..]).Some?
    ensures OpenPage(aead, stream, pageNo, record).Success? ==>
              Some(OpenPage(aead, stream, pageNo, record).value) ==
              aead.open(record[6..18], PageAd(stream, pageNo), record[18..|record| - 16], record[|record| - 16..])
  {
    if |record| >= 34 {
      var magic := record[..2];
      assert magic[1..] == [record[1]];
      assert FromLittleEndian([record[1]]) == record[1] as nat;
      assert FromLittleEndian(magic) == record[0] as nat + 256 * record[1] as nat;
      var len := FromLittleEndian(record[2..6]);
      if |record| == 34 + len {
        assert record[18..18 + len] == record[18..|record| - 16] && record[18 + len..] == record[|record| - 16..];
      }
    }
  }

  /** The parts of a record lie where the decoder looks for them. */
  lemma RecordParts(nonce: Bytes, cipher: Bytes, tag: Bytes)
    requires |nonce| == NONCE_LEN && |cipher| <= MAX_PAGE_LEN && |tag| == TAG_LEN
    ensures var record := Record(nonce, cipher, tag);
            && |record| == PAGE_OVERHEAD + |cipher|
            && FromLittleEndian(record[..2]) == PAGE_MAGIC
            && FromLittleEndian(record[2..6]) == |cipher|
            && record[6..PAGE_HEADER_LEN] == nonce
            && record[PAGE_HEADER_LEN..PAGE_HEADER_LEN + |cipher|] == cipher
            && record[PAGE_HEADER_LEN + |cipher|..] == tag
  {
    var record := Record(nonce, cipher, tag);
    assert record[..2] == LittleEndian(PAGE_MAGIC, 2);
    assert record[2..6] == LittleEndian(|cipher|, 4);
    assert Pow256(2) == 0x1_0000;
    assert Pow256(4) == 256 * 256 * Pow256(2);
    LittleEndianRoundTrip(PAGE_MAGIC, 2);
    LittleEndianRoundTrip(|cipher|, 4);
  }

  /** Where the parts of a record lie: two bytes of magic, four of length, the nonce, the ciphertext, the tag. */
  lemma RecordLayout(nonce: Bytes, cipher: Bytes, tag: Bytes)
    requires |nonce| == 12 && |cipher| <= MAX_PAGE_LEN && |tag| == 16
    ensures var record := Record(nonce, cipher, tag); var n := |cipher|;
            && |record| == 2 + 4 + 12 + n + 16
            && record[0] == 0x6E && record[1] == 0x9A
            && n == record[2] as nat + 256 * record[3] as nat + 65536 * record[4] as nat + 16777216 * record[5] as nat
            && record[6..18] == nonce && record[18..18 + n] == cipher && record[18 + n..] == tag
  {
    RecordParts(nonce, cipher, tag);
    var record := Record(nonce, cipher, tag);
    assert LittleEndian(PAGE_MAGIC, 2) == [0x6E, 0x9A] by {
      assert LittleEndian(0x9A, 1) == [0x9A];
    }
    assert record[0] == LittleEndian(PAGE_MAGIC, 2)[0] && record[1] == LittleEndian(PAGE_MAGIC, 2)[1];
    FourBytes(record[2..6]);
  }

  lemma FourBytes(bytes: Bytes)
    requires |bytes| == 4
    ensures FromLittleEndian(bytes) ==
            bytes[0] as nat + 256 * bytes[1] as nat + 65536 * bytes[2] as nat + 16777216 * bytes[3] as nat
  {
    var b1, b2, b3 := bytes[1..], bytes[2..], bytes[3..];
    assert b1[1..] == b2 && b2[1..] == b3 && b3[1..] == [];
    assert FromLittleEndian(b3) == bytes[3] as nat;
    assert FromLittleEndian(b2) == bytes[2] as nat + 256 * FromLittleEndian(b3);
    assert FromLittleEndian(b1) == bytes[1] as nat + 256 * FromLittleEndian(b2);
  }

  /** The associated data of a page: the number of its stream, then the page number, lowest byte first. */
  lemma AdLayout(stream: StreamId, pageNo: nat)
    requires pageNo < Pow256(8)
    ensures var ad := PageAd(stream, pageNo);
            && |ad| == 9 && FromLittleEndian(ad[1..]) == pageNo
            && ad[0] == (match stream case Manifest => 1 case HashIndex => 2 case Extras => 3 case PageTable => 4)
  {
    LittleEndianRoundTrip(pageNo, 8);
    assert PageAd(stream, pageNo)[1..] == LittleEndian(pageNo, 8);
  }

  /** A sealed page opens under its own stream and number, to the payload that was sealed. */
  lemma SealedPageOpens(aead: Aead, stream: StreamId, pageNo: nat, plaintext: Bytes, nonce: Bytes)
    requires Correct(aead) && |nonce| == NONCE_LEN && |plaintext| <= MAX_PAGE_LEN
    requires aead.seal(nonce, PageAd(stream, pageNo), plaintext).Some?
    ensures var (cipher, tag) := aead.seal(nonce, PageAd(stream, pageNo), plaintext).value;
            OpenPage(aead, stream, pageNo, Record(nonce, cipher, tag)) == Success(plaintext)
  {
    var (cipher, tag) := aead.seal(nonce, PageAd(stream, pageNo), plaintext).value;
    RecordParts(nonce, cipher, tag);
  }

  /** A page moved to another stream or renumbered does not open. */
  lemma MovedPageIsRejected(aead: Aead, stream: StreamId, pageNo: nat, plaintext: Bytes, nonce: Bytes,
                            toStream: StreamId, toNo: nat)
    requires Correct(aead) && Binding(aead) && |nonce| == NONCE_LEN && |plaintext| <= MAX_PAGE_LEN
    requires pageNo < Pow256(8) && toNo < Pow256(8) && (toStream, toNo) != (stream, pageNo)
    requires aead.seal(nonce, PageAd(stream, pageNo), plaintext).Some?
    ensures var (cipher, tag) := aead.seal(nonce, PageAd(stream, pageNo), plaintext).value;
            OpenPage(aead, toStream, toNo, Record(nonce, cipher, tag)) == Failure(Error.Aead)
  {
    var (cipher, tag) := aead.seal(nonce, PageAd(stream, pageNo), plaintext).value;
    RecordParts(nonce, cipher, tag);
    if PageAd(toStream, toNo) == PageAd(stream, pageNo) { PageAdInjective(stream, pageNo, toStream, toNo); }
    assert BindsAt(aead, nonce, PageAd(stream, pageNo), plaintext, PageAd(toStream, toNo));
  }

  /** A record that was cut or padded does not open: its length must be what its header declares. */
  lemma ResizedPageIsRejected(aead: Aead, stream: StreamId, pageNo: nat, nonce: Bytes, cipher: Bytes, tag: Bytes,
                              record: Bytes)
    requires |nonce| == NONCE_LEN && |cipher| <= MAX_PAGE_LEN && |tag| == TAG_LEN
    requires |record| != |Record(nonce, cipher, tag)|
    requires record <= Record(nonce, cipher, tag) || Record(nonce, cipher, tag) <= record
    ensures OpenPage(aead, stream, pageNo, record) == Failure(Corrupt)
  {
    RecordParts(nonce, cipher, tag);
    if |record| >= PAGE_OVERHEAD {
      assert record[2..6] == Record(nonce, cipher, tag)[2..6];
    }
  }
}
