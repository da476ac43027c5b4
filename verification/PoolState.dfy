/** The buffer pool's invariants over plain values, and the steps that keep them. */
module PoolState {
  import opened Bytes
  import opened Wrappers
  import opened Pages
  import opened Clock

  /** A page's content as the flat store knows it: the page without its checksum field. */
  type Content = b: bytes | |b| == PAGE_SIZE - 4 witness Zeros(PAGE_SIZE - 4)

  /** A page image sent to the device, with the log's durable length at that moment. */
  datatype HomeWrite = HomeWrite(page: nat, image: Page, durable: nat)

  /** The table and the occupied frames are two views of one bijection; an empty frame is idle. */
  ghost predicate Coherent(frames: seq<Frame>, table: map<nat, nat>) {
    && (forall id :: id in table ==> table[id] < |frames| && frames[table[id]].pageId == Some(id))
    && (forall i :: 0 <= i < |frames| && frames[i].pageId.Some? ==>
          frames[i].pageId.value in table && table[frames[i].pageId.value] == i)
    && (forall i :: 0 <= i < |frames| && frames[i].pageId.None? ==> frames[i].pins == 0 && !frames[i].dirty)
  }

  /** What frame `f` holds is what the store says, and a clean frame is what the device has. */
  ghost predicate FrameFaithful(f: Frame, store: seq<Content>, pages: seq<Page>)
    requires |store| == |pages|
  {
    f.pageId.Some? ==>
      && f.pageId.value < |store|
      && Body(f.data) == store[f.pageId.value]
      && (!f.dirty ==> pages[f.pageId.value] == f.data)
  }

  /** The pool and the device together agree with the flat store, page by page. */
  ghost predicate Faithful(frames: seq<Frame>, table: map<nat, nat>, store: seq<Content>, pages: seq<Page>) {
    && |store| == |pages|
    && (forall i :: 0 <= i < |frames| ==> FrameFaithful(frames[i], store, pages))
    && (forall p :: 0 <= p < |store| && p !in table ==> Body(pages[p]) == store[p])
  }

  /** A page the pool has written to verifies on the device whenever the pool holds no newer copy. */
  ghost predicate Sealed(crc: Crc, frames: seq<Frame>, table: map<nat, nat>, pages: seq<Page>, touched: set<nat>)
    requires Coherent(frames, table)
  {
    forall p :: p in touched ==> p < |pages| && ((p in table && frames[table[p]].dirty) || VerifyChecksum(crc, pages[p]))
  }

  /** WAL before data: every image sent home was covered by the log, and checksummed. */
  ghost predicate Covered(crc: Crc, history: seq<HomeWrite>, durable: nat) {
    forall k :: 0 <= k < |history| ==>
      && PageLsn(history[k].image) < history[k].durable <= durable
      && VerifyChecksum(crc, history[k].image)
  }

  /** The LSNs a page is sent home with never descend, nor exceed the one it now carries. */
  ghost predicate Ascending(history: seq<HomeWrite>, store: seq<Content>) {
    && (forall k :: 0 <= k < |history| ==>
          history[k].page < |store| && PageLsn(history[k].image) <= BodyLsn(store[history[k].page]))
    && (forall j, k :: 0 <= j < k < |history| && history[j].page == history[k].page ==>
          PageLsn(history[j].image) <= PageLsn(history[k].image))
  }

  /** A pinned or dirty frame holds a page, with the content the store has for it. */
  lemma InUse(frames: seq<Frame>, table: map<nat, nat>, store: seq<Content>, pages: seq<Page>, i: nat)
    requires Coherent(frames, table) && Faithful(frames, table, store, pages) && i < |frames|
    ensures frames[i].dirty || frames[i].pins > 0 ==> frames[i].pageId.Some?
    ensures frames[i].pageId.Some? ==>
              && frames[i].pageId.value in table && table[frames[i].pageId.value] == i
              && frames[i].pageId.value < |store| == |pages|
              && Body(frames[i].data) == store[frames[i].pageId.value]
  {
  }

  lemma Resident(frames: seq<Frame>, table: map<nat, nat>, id: nat)
    requires Coherent(frames, table) && id in table
    ensures table[id] < |frames| && frames[table[id]].pageId == Some(id)
  {
  }

  lemma StoreIsDeviceSized(frames: seq<Frame>, table: map<nat, nat>, store: seq<Content>, pages: seq<Page>)
    requires Faithful(frames, table, store, pages)
    ensures |store| == |pages|
  {
  }

  /** No victim is found exactly when every frame is pinned; an empty frame is never pinned. */
  lemma AllPinnedIffFull(frames: seq<Frame>, table: map<nat, nat>, store: seq<Content>, pages: seq<Page>, clock: nat)
    requires Coherent(frames, table) && Faithful(frames, table, store, pages) && clock < |frames|
    ensures (forall i :: 0 <= i < |frames| ==> frames[i].pins > 0) <==>
              FirstEmpty(frames) == |frames| && SweepFrom(frames, clock, 2 * |frames|).Exhausted?
  {
    hide SweepFrom, FirstEmpty;
    GivesUpIffAllPinned(frames, clock);
  }

  /** A page the pool has written to, and does not hold, never fails its checksum. */
  lemma Unverified(crc: Crc, frames: seq<Frame>, table: map<nat, nat>, pages: seq<Page>, touched: set<nat>, p: nat)
    requires Coherent(frames, table) && Sealed(crc, frames, table, pages, touched)
    requires p < |pages| && p !in table && !VerifyChecksum(crc, pages[p])
    ensures p !in touched
  {
  }

  lemma AllClean(frames: seq<Frame>, table: map<nat, nat>, store: seq<Content>, pages: seq<Page>)
    requires Coherent(frames, table) && Faithful(frames, table, store, pages)
    requires forall i :: 0 <= i < |frames| ==> !frames[i].dirty
    ensures |store| == |pages| && forall p :: 0 <= p < |store| ==> Body(pages[p]) == store[p]
  {
  }

  // ---- Steps -------------------------------------------------------------------------------

  /** Pins, reference bits and checksums are invisible to the invariants. */
  lemma Retouch(crc: Crc, frames: seq<Frame>, table: map<nat, nat>, store: seq<Content>, pages: seq<Page>,
                touched: set<nat>, i: nat, f: Frame)
    requires Coherent(frames, table) && Faithful(frames, table, store, pages) && Sealed(crc, frames, table, pages, touched)
    requires i < |frames| && f.pageId == frames[i].pageId && f.dirty == frames[i].dirty
    requires Body(f.data) == Body(frames[i].data) && (f.data == frames[i].data || f.dirty)
    requires f.pageId.None? ==> f.pins == 0
    ensures var frames' := frames[i := f];
            Coherent(frames', table) && Faithful(frames', table, store, pages)
            && Sealed(crc, frames', table, pages, touched)
  {
    var frames' := frames[i := f];
    assert FrameFaithful(frames[i], store, pages);
    forall j | 0 <= j < |frames'|
      ensures FrameFaithful(frames'[j], store, pages)
    {
      assert FrameFaithful(frames[j], store, pages);
    }
  }

  /** A write that failed may have spoilt its page: harmless while the frame stays dirty. */
  lemma SpoiltHome(crc: Crc, frames: seq<Frame>, table: map<nat, nat>, store: seq<Content>, pages: seq<Page>,
                   touched: set<nat>, i: nat, pages': seq<Page>)
    requires Coherent(frames, table) && Faithful(frames, table, store, pages) && Sealed(crc, frames, table, pages, touched)
    requires i < |frames| && frames[i].pageId.Some? && frames[i].dirty
    requires |pages'| == |pages| && forall p :: 0 <= p < |pages| && p != frames[i].pageId.value ==> pages'[p] == pages[p]
    ensures Faithful(frames, table, store, pages') && Sealed(crc, frames, table, pages', touched)
  {
  }

  /** A write that succeeded makes the frame clean. */
  lemma WrittenHome(crc: Crc, frames: seq<Frame>, table: map<nat, nat>, store: seq<Content>, pages: seq<Page>,
                    touched: set<nat>, i: nat)
    requires Coherent(frames, table) && Faithful(frames, table, store, pages) && Sealed(crc, frames, table, pages, touched)
    requires i < |frames| && frames[i].pageId.Some? && VerifyChecksum(crc, frames[i].data)
    ensures frames[i].pageId.value < |pages|
    ensures var frames' := frames[i := frames[i].(dirty := false)];
            var pages' := pages[frames[i].pageId.value := frames[i].data];
            Coherent(frames', table) && Faithful(frames', table, store, pages')
            && Sealed(crc, frames', table, pages', touched)
  {
    assert FrameFaithful(frames[i], store, pages);
    var frames' := frames[i := frames[i].(dirty := false)];
    var pages' := pages[frames[i].pageId.value := frames[i].data];
    forall j | 0 <= j < |frames'|
      ensures FrameFaithful(frames'[j], store, pages')
    {
      assert FrameFaithful(frames[j], store, pages);
    }
  }

  /** Clearing reference bits, as a sweep does, is invisible too. */
  lemma Swept(crc: Crc, frames: seq<Frame>, table: map<nat, nat>, store: seq<Content>, pages: seq<Page>,
              touched: set<nat>, frames': seq<Frame>)
    requires Coherent(frames, table) && Faithful(frames, table, store, pages) && Sealed(crc, frames, table, pages, touched)
    requires |frames'| == |frames|
    requires forall i :: 0 <= i < |frames| ==> frames'[i] == frames[i] || frames'[i] == frames[i].(refBit := false)
    ensures Coherent(frames', table) && Faithful(frames', table, store, pages)
            && Sealed(crc, frames', table, pages, touched)
  {
  }

  /** The position of the first frame without a page, or the number of frames. */
  function FirstEmpty(frames: seq<Frame>): (k: nat)
    ensures k <= |frames|
    ensures k < |frames| ==> frames[k].pageId.None?
    ensures forall i :: 0 <= i < k ==> frames[i].pageId.Some?
  {
    if frames == [] || frames[0].pageId.None? then 0 else 1 + FirstEmpty(frames[1..])
  }

  /** A clean frame can give its page up. */
  lemma GivenUp(crc: Crc, frames: seq<Frame>, table: map<nat, nat>, store: seq<Content>, pages: seq<Page>,
                touched: set<nat>, i: nat)
    requires Coherent(frames, table) && Faithful(frames, table, store, pages) && Sealed(crc, frames, table, pages, touched)
    requires i < |frames| && frames[i].pageId.Some? && !frames[i].dirty && frames[i].pins == 0
    ensures var frames' := frames[i := frames[i].(pageId := None)];
            var table' := table - {frames[i].pageId.value};
            Coherent(frames', table') && Faithful(frames', table', store, pages)
            && Sealed(crc, frames', table', pages, touched)
  {
    assert FrameFaithful(frames[i], store, pages);
    var frames' := frames[i := frames[i].(pageId := None)];
    forall j | 0 <= j < |frames'|
      ensures FrameFaithful(frames'[j], store, pages)
    {
      assert FrameFaithful(frames[j], store, pages);
    }
  }

  /** A page read from the device moves into an empty frame. */
  lemma Loaded(crc: Crc, frames: seq<Frame>, table: map<nat, nat>, store: seq<Content>, pages: seq<Page>,
               touched: set<nat>, i: nat, p: nat)
    requires Coherent(frames, table) && Faithful(frames, table, store, pages) && Sealed(crc, frames, table, pages, touched)
    requires i < |frames| && frames[i].pageId.None? && p < |pages| && p !in table
    ensures var frames' := frames[i := Frame(Some(p), pages[p], 1, false, true)];
            var table' := table[p := i];
            Coherent(frames', table') && Faithful(frames', table', store, pages)
            && Sealed(crc, frames', table', pages, touched)
  {
  }

  /** A fresh page is appended to the store and the device and starts life in a frame. */
  lemma Created(crc: Crc, frames: seq<Frame>, table: map<nat, nat>, store: seq<Content>, pages: seq<Page>,
                touched: set<nat>, i: nat, image: Page)
    requires Coherent(frames, table) && Faithful(frames, table, store, pages) && Sealed(crc, frames, table, pages, touched)
    requires i < |frames| && frames[i].pageId.None?
    ensures var p := |pages|;
            var frames' := frames[i := Frame(Some(p), image, 1, true, true)];
            var table' := table[p := i];
            var store' := store + [Body(image)];
            var pages' := pages + [ZERO_PAGE];
            Coherent(frames', table') && Faithful(frames', table', store', pages')
            && Sealed(crc, frames', table', pages', touched + {p})
  {
    var p := |pages|;
    var frames' := frames[i := Frame(Some(p), image, 1, true, true)];
    var store', pages' := store + [Body(image)], pages + [ZERO_PAGE];
    assert forall j :: 0 <= j < |frames| ==> FrameFaithful(frames[j], store, pages);
    assert p !in table;
    forall j | 0 <= j < |frames'|
      ensures FrameFaithful(frames'[j], store', pages')
    {
      assert j != i ==> FrameFaithful(frames[j], store, pages);
    }
  }

  /** A client's write through a frame is a write to the store. */
  lemma Rewritten(crc: Crc, frames: seq<Frame>, table: map<nat, nat>, store: seq<Content>, pages: seq<Page>,
                  touched: set<nat>, i: nat, data: Page)
    requires Coherent(frames, table) && Faithful(frames, table, store, pages) && Sealed(crc, frames, table, pages, touched)
    requires i < |frames| && frames[i].pageId.Some?
    ensures frames[i].pageId.value < |store|
    ensures var p := frames[i].pageId.value;
            var frames' := frames[i := frames[i].(data := data, dirty := true)];
            var store' := store[p := Body(data)];
            Coherent(frames', table) && Faithful(frames', table, store', pages)
            && Sealed(crc, frames', table, pages, touched + {p})
  {
  }

  lemma StillCovered(crc: Crc, history: seq<HomeWrite>, durable: nat, durable': nat)
    requires Covered(crc, history, durable) && durable <= durable'
    ensures Covered(crc, history, durable')
  {
  }

  /** A write that does not lower its page's LSN keeps the claims of the past below the present. */
  lemma Amended(history: seq<HomeWrite>, store: seq<Content>, p: nat, content: Content)
    requires Ascending(history, store) && p < |store| && BodyLsn(content) >= BodyLsn(store[p])
    ensures Ascending(history, store[p := content])
  {
  }

  lemma Appended(history: seq<HomeWrite>, store: seq<Content>, content: Content)
    requires Ascending(history, store)
    ensures Ascending(history, store + [content])
  {
  }

  /** One more image, covered by the log and no older than what the store holds. */
  lemma SentHome(crc: Crc, history: seq<HomeWrite>, store: seq<Content>, durable: nat, durable': nat, w: HomeWrite)
    requires Covered(crc, history, durable) && durable <= durable'
    requires PageLsn(w.image) < w.durable <= durable' && VerifyChecksum(crc, w.image)
    ensures Covered(crc, history + [w], durable')
    ensures Ascending(history, store) && w.page < |store| && Body(w.image) == store[w.page] ==>
              Ascending(history + [w], store)
  {
    LsnIsInTheBody(w.image);
  }
}
