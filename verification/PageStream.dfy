/** Streams of sealed pages: bytes written in any portions come back when the pages are opened in order. */
module PageStreams {
  import opened Wrappers
  import opened Pages
  import opened Arithmetic

  /** The nonce a page record carries. */
  function NonceIn(record: Bytes): (nonce: Bytes)
    requires |record| >= PAGE_HEADER_LEN
  {
    record[6..PAGE_HEADER_LEN]
  }

  /** Open the pages of a stream in order, numbering from zero. */
  function ReadPages(aead: Aead, stream: StreamId, pages: seq<Bytes>): Result<Bytes> {
    if pages == [] then Success([])
    else
      match ReadPages(aead, stream, pages[..|pages| - 1])
      case Failure(e) => Failure(e)
      case Success(before) =>
        match OpenPage(aead, stream, |pages| - 1, pages[|pages| - 1])
        case Failure(e) => Failure(e)
        case Success(last) => Success(before + last)
  }

  /** Every page carries a nonce, and no two pages the same one. */
  ghost predicate NoncesDiffer(pages: seq<Bytes>) {
    && (forall i :: 0 <= i < |pages| ==> |pages[i]| >= PAGE_HEADER_LEN)
    && forall i, j :: 0 <= i < j < |pages| ==> NonceIn(pages[i]) != NonceIn(pages[j])
  }

  /** The nonces of the pages are among those handed out. */
  ghost predicate Issued(pages: seq<Bytes>, issued: seq<Bytes>) {
    forall i :: 0 <= i < |pages| ==> |pages[i]| >= PAGE_HEADER_LEN && NonceIn(pages[i]) in issued
  }

  /** Pages and nonces were only added, and the nonces of the new pages are new. */
  ghost predicate Extended(before: seq<Bytes>, after: seq<Bytes>, issued: seq<Bytes>, later: seq<Bytes>) {
    && before <= after && issued <= later
    && forall i :: |before| <= i < |after| ==>
                     |after[i]| >= PAGE_HEADER_LEN && NonceIn(after[i]) in later && NonceIn(after[i]) !in issued
  }

  lemma NothingAdded(pages: seq<Bytes>, issued: seq<Bytes>)
    ensures forall later :: issued <= later ==> Extended(pages, pages, issued, later)
  {
  }

  lemma ExtendedTwice(a: seq<Bytes>, b: seq<Bytes>, c: seq<Bytes>, first: seq<Bytes>, second: seq<Bytes>,
                      third: seq<Bytes>)
    requires Extended(a, b, first, second) && Extended(b, c, second, third)
    ensures Extended(a, c, first, third)
  {
    forall i | |a| <= i < |c| ensures |c[i]| >= PAGE_HEADER_LEN && NonceIn(c[i]) in third && NonceIn(c[i]) !in first {
      if i < |b| {
        assert c[i] == b[i];
      }
    }
  }

  lemma ReadOneMore(aead: Aead, stream: StreamId, pages: seq<Bytes>, page: Bytes, text: Bytes)
    requires ReadPages(aead, stream, pages).Success?
    requires OpenPage(aead, stream, |pages|, page) == Success(text)
    ensures ReadPages(aead, stream, pages + [page]) == Success(ReadPages(aead, stream, pages).value + text)
  {
    assert (pages + [page])[..|pages|] == pages;
  }

  lemma OneMoreNonce(pages: seq<Bytes>, page: Bytes, issued: seq<Bytes>)
    requires NoncesDiffer(pages) && Issued(pages, issued)
    requires |page| >= PAGE_HEADER_LEN && NonceIn(page) !in issued
    ensures NoncesDiffer(pages + [page]) && Issued(pages + [page], issued + [NonceIn(page)])
  {
    forall i | 0 <= i < |pages| ensures NonceIn((pages + [page])[i]) != NonceIn(page) {
      assert NonceIn(pages[i]) in issued;
    }
  }

  /** Seal one page by itself: it opens to its payload and carries the nonce handed out for it. */
  method SealOne(aead: Aead, stream: StreamId, pageNo: nat, text: Bytes, nonces: NonceSeq) returns (r: Result<Bytes>)
    requires nonces.Valid() && Correct(aead)
    modifies nonces
    ensures nonces.Valid() && old(nonces.issued) <= nonces.issued
    ensures r.Success? ==>
              && OpenPage(aead, stream, pageNo, r.value) == Success(text)
              && |r.value| >= PAGE_HEADER_LEN && NonceIn(r.value) !in old(nonces.issued)
              && nonces.issued == old(nonces.issued) + [NonceIn(r.value)]
  {
    ghost var issued := nonces.issued;
    var page := new Output();
    var sealed := SealPage(aead, stream, pageNo, text, nonces, page);
    if sealed.Failure? {
      return Failure(sealed.error);
    }
    SealedIsPage(aead, stream, pageNo, text, page.bytes, issued, nonces.issued);
    return Success(page.bytes);
  }

  /** Cuts what is written into pages of one length and hands each, sealed, to the sink. */
  class PageStream {
    const aead: Aead
    const stream: StreamId
    const pageLen: nat
    const nonces: NonceSeq
    var pages: seq<Bytes>
    var buf: Bytes
    var pageNo: nat
    ghost var written: Bytes  // everything accepted so far

    constructor (aead: Aead, stream: StreamId, pageLen: nat, nonces: NonceSeq)
      requires 0 < pageLen <= MAX_PAGE_LEN && nonces.Valid() && Correct(aead)
      ensures Valid() && written == [] && pages == []
      ensures this.aead == aead && this.stream == stream && this.pageLen == pageLen && this.nonces == nonces
    {
      this.aead, this.stream, this.pageLen, this.nonces := aead, stream, pageLen, nonces;
      pages, buf, pageNo, written := [], [], 0, [];
    }

    /** The pages, opened in order, and the buffer make up what was written; no nonce was used twice. */
    ghost predicate Valid()
      reads this, nonces
    {
      && 0 < pageLen <= MAX_PAGE_LEN && |buf| <= pageLen && pageNo == |pages|
      && nonces.Valid() && Correct(aead)
      && NoncesDiffer(pages) && Issued(pages, nonces.issued)
      && ReadPages(aead, stream, pages).Success?
      && ReadPages(aead, stream, pages).value + buf == written
    }

    /** Seal what is buffered, if anything. */
    method FlushPage() returns (r: Result<()>)
      requires Valid()
      modifies this, nonces
      ensures Valid() && written == old(written)
      ensures Extended(old(pages), pages, old(nonces.issued), nonces.issued)
      ensures r.Success? ==> buf == []
      ensures r.Failure? ==> buf == old(buf) && pages == old(pages)
    {
      ghost var pages0 := pages;
      if buf == [] {
        NothingAdded(pages, nonces.issued);
        return Success(());
      }
      ghost var issued := nonces.issued;
      var sealed := SealOne(aead, stream, pageNo, buf, nonces);
      if sealed.Failure? {
        IssuedGrows(pages, issued, nonces.issued);
        NothingAdded(pages, issued);
        return Failure(sealed.error);
      }
      ReadOneMore(aead, stream, pages, sealed.value, buf);
      OneMoreNonce(pages, sealed.value, issued);
      pages := pages + [sealed.value];
      assert Extended(pages0, pages, issued, nonces.issued);
      pageNo := pageNo + 1;
      buf := [];
      return Success(());
    }

    /** Accept bytes, sealing every page that fills up. */
    method Write(bytes: Bytes) returns (r: Result<()>)
      requires Valid()
      modifies this, nonces
      ensures Valid()
      ensures r.Success? ==> written == old(written) + bytes
      ensures r.Failure? ==> exists k :: 0 <= k <= |bytes| && written == old(written) + bytes[..k]
      ensures Extended(old(pages), pages, old(nonces.issued), nonces.issued)
    {
      ghost var pages0, issued0 := pages, nonces.issued;
      NothingAdded(pages, nonces.issued);
      var rest := bytes;
      ghost var k: nat := 0;
      while rest != []
        invariant Valid() && k <= |bytes| && rest == bytes[k..]
        invariant written == old(written) + bytes[..k]
        invariant Extended(pages0, pages, issued0, nonces.issued)
        decreases |rest|, |buf|
      {
        ghost var pages1, issued1 := pages, nonces.issued;
        var take := Min(pageLen - |buf|, |rest|);
        PrefixStep(old(written), bytes, k, take);
        k := k + take;
        var filled := Fill(rest[..take]);
        rest := rest[take..];
        ExtendedTwice(pages0, pages1, pages, issued0, issued1, nonces.issued);
        if filled.Failure? {
          return filled;
        }
      }
      return Success(());
    }

    /** Buffer bytes there is room for, and seal the page if that fills it. */
    method Fill(bytes: Bytes) returns (r: Result<()>)
      requires Valid() && |buf| + |bytes| <= pageLen
      modifies this, nonces
      ensures Valid() && written == old(written) + bytes
      ensures r.Success? ==> buf == if |old(buf)| + |bytes| == pageLen then [] else old(buf) + bytes
      ensures Extended(old(pages), pages, old(nonces.issued), nonces.issued)
    {
      NothingAdded(pages, nonces.issued);
      Accept(bytes);
      if |buf| == pageLen {
        r := FlushPage();
      } else {
        r := Success(());
      }
    }

    /** Buffer bytes there is room for. */
    method Accept(bytes: Bytes)
      requires Valid() && |buf| + |bytes| <= pageLen
      modifies this
      ensures Valid() && buf == old(buf) + bytes && written == old(written) + bytes && pages == old(pages)
    {
      ghost var sealed := ReadPages(aead, stream, pages).value;
      assert sealed + (buf + bytes) == (sealed + buf) + bytes;
      buf := buf + bytes;
      written := written + bytes;
    }

    /**
     Seal the trailing page. The pages of a finished stream, opened in order,
     give back all that was written, and no two carry the same nonce.
     */
    method Finish() returns (r: Result<()>)
      requires Valid()
      modifies this, nonces
      ensures Valid() && written == old(written)
      ensures r.Success? ==> ReadPages(aead, stream, pages) == Success(written) && NoncesDiffer(pages)
      ensures Extended(old(pages), pages, old(nonces.issued), nonces.issued)
    {
      r := FlushPage();
      assert buf == [] ==> ReadPages(aead, stream, pages).value + buf == ReadPages(aead, stream, pages).value;
    }

    /** Write what is left to write and finish. */
    method WriteOut(bytes: Bytes) returns (r: Result<()>)
      requires Valid()
      modifies this, nonces
      ensures nonces.Valid()
      ensures Extended(old(pages), pages, old(nonces.issued), nonces.issued)
      ensures r.Success? ==> ReadPages(aead, stream, pages) == Success(old(written) + bytes) && NoncesDiffer(pages)
    {
      ghost var pages0, issued0 := pages, nonces.issued;
      r := Write(bytes);
      if r.Success? {
        ghost var pages1, issued1 := pages, nonces.issued;
        r := Finish();
        ExtendedTwice(pages0, pages1, pages, issued0, issued1, nonces.issued);
      }
    }
  }

  lemma PrefixStep(before: Bytes, bytes: Bytes, k: nat, take: nat)
    requires k + take <= |bytes|
    ensures before + bytes[..k] + bytes[k..][..take] == before + bytes[..k + take]
    ensures bytes[k..][take..] == bytes[k + take..]
  {
  }

  lemma IssuedGrows(pages: seq<Bytes>, before: seq<Bytes>, after: seq<Bytes>)
    requires Issued(pages, before) && before <= after
    ensures Issued(pages, after)
  {
  }

  /** What `SealPage` appended is a page that opens to its payload and carries the nonce just handed out. */
  lemma SealedIsPage(aead: Aead, stream: StreamId, pageNo: nat, text: Bytes, page: Bytes, before: seq<Bytes>,
                     after: seq<Bytes>)
    requires Correct(aead)
    requires exists nonce :: after == before + [nonce] && nonce !in before
                             && SealedAs(aead, stream, pageNo, text, nonce, page)
    ensures OpenPage(aead, stream, pageNo, page) == Success(text)
    ensures |page| >= PAGE_HEADER_LEN && NonceIn(page) !in before && after == before + [NonceIn(page)]
  {
    var nonce :| after == before + [nonce] && nonce !in before && SealedAs(aead, stream, pageNo, text, nonce, page);
    SealedPageOpens(aead, stream, pageNo, text, nonce);
    var (cipher, tag) := aead.seal(nonce, PageAd(stream, pageNo), text).value;
    RecordParts(nonce, cipher, tag);
  }

  /** A stream that was not touched keeps its validity while others hand out nonces of the same sequence. */
  twostate lemma ValidSurvives(s: PageStream)
    requires old(s.Valid()) && unchanged(s)
    requires s.nonces.Valid() && old(s.nonces.issued) <= s.nonces.issued
    ensures s.Valid()
  {
    IssuedGrows(s.pages, old(s.nonces.issued), s.nonces.issued);
  }

  // ---------------------------------------------------- all streams of an image

  function Concat(parts: seq<seq<Bytes>>): seq<Bytes> {
    if parts == [] then [] else Concat(parts[..|parts| - 1]) + parts[|parts| - 1]
  }

  lemma ConcatOneMore(parts: seq<seq<Bytes>>, pages: seq<Bytes>)
    ensures Concat(parts + [pages]) == Concat(parts) + pages
  {
    assert (parts + [pages])[..|parts|] == parts;
  }

  lemma DifferTogether(before: seq<Bytes>, pages: seq<Bytes>, issued: seq<Bytes>, later: seq<Bytes>)
    requires NoncesDiffer(before) && Issued(before, issued)
    requires NoncesDiffer(pages) && Extended([], pages, issued, later)
    ensures NoncesDiffer(before + pages) && Issued(before + pages, later)
  {
    var all := before + pages;
    forall i | 0 <= i < |all| ensures |all[i]| >= PAGE_HEADER_LEN && NonceIn(all[i]) in later {
      if i < |before| { assert NonceIn(before[i]) in issued; }
    }
    forall i, j | 0 <= i < j < |all| ensures NonceIn(all[i]) != NonceIn(all[j]) {
      if i < |before| <= j {
        assert NonceIn(before[i]) in issued;
        assert pages[j - |before|] == all[j];
      }
    }
  }

  /**
   Write the metadata streams of one image one after the other under one nonce
   sequence. Each reads back what was written to it, and no two pages of the
   image, of whichever streams, carry the same nonce.
   */
  method WriteStreams(aead: Aead, pageLen: nat, nonces: NonceSeq, streams: seq<(StreamId, Bytes)>)
    returns (r: Result<seq<seq<Bytes>>>)
    requires 0 < pageLen <= MAX_PAGE_LEN && nonces.Valid() && Correct(aead)
    modifies nonces
    ensures nonces.Valid() && old(nonces.issued) <= nonces.issued
    ensures r.Success? ==> |r.value| == |streams| && NoncesDiffer(Concat(r.value))
    ensures r.Success? ==>
              forall k :: 0 <= k < |streams| ==> ReadPages(aead, streams[k].0, r.value[k]) == Success(streams[k].1)
  {
    var parts: seq<seq<Bytes>> := [];
    for k := 0 to |streams|
      invariant nonces.Valid() && old(nonces.issued) <= nonces.issued && |parts| == k
      invariant NoncesDiffer(Concat(parts)) && Issued(Concat(parts), nonces.issued)
      invariant forall j :: 0 <= j < k ==> ReadPages(aead, streams[j].0, parts[j]) == Success(streams[j].1)
    {
      ghost var issued := nonces.issued;
      var pages :- WriteStream(aead, pageLen, nonces, streams[k].0, streams[k].1);
      DifferTogether(Concat(parts), pages, issued, nonces.issued);
      ConcatOneMore(parts, pages);
      parts := parts + [pages];
    }
    return Success(parts);
  }

  /** One stream from beginning to end. */
  method WriteStream(aead: Aead, pageLen: nat, nonces: NonceSeq, stream: StreamId, bytes: Bytes)
    returns (r: Result<seq<Bytes>>)
    requires 0 < pageLen <= MAX_PAGE_LEN && nonces.Valid() && Correct(aead)
    modifies nonces
    ensures nonces.Valid() && old(nonces.issued) <= nonces.issued
    ensures r.Success? ==> ReadPages(aead, stream, r.value) == Success(bytes) && NoncesDiffer(r.value)
    ensures r.Success? ==> Extended([], r.value, old(nonces.issued), nonces.issued)
  {
    var out := new PageStream(aead, stream, pageLen, nonces);
    assert [] + bytes == bytes;
    var finished := out.WriteOut(bytes);
    if finished.Failure? {
      return Failure(finished.error);
    }
    return Success(out.pages);
  }
}
