/**
 The single-threaded buffer pool over a device and a log that may fail at any call. A ghost flat
 store holds, for every page, the content last written to it; the pool never contradicts it.
 */
module Pool {
  import opened Bytes
  import opened Wrappers
  import opened Pages
  import opened Clock
  import opened PoolState

  const U32_MAX := 0xFFFF_FFFF

  /** One more pin, in a 32-bit word. */
  function Bump(pins: u32): u32 {
    if pins == U32_MAX then 0 else pins + 1
  }

  /** The log: its durable length only grows, and a successful harden covers what was asked for. */
  class Wal {
    var durableLen: nat

    method EnsureDurable(lsn: nat) returns (ok: bool)
      modifies this
      ensures durableLen >= old(durableLen)
      ensures ok ==> durableLen > lsn
      ensures old(durableLen) > lsn ==> ok && durableLen == old(durableLen)
    {
      if durableLen > lsn {
        return true;
      }
      if * {
        return false;
      }
      durableLen := lsn + 1;
      ok := true;
    }
  }

  /**
   A block device; any operation may fail, and a failed write may spoil the page it aimed at. For the
   proofs it keeps its own record of every image it was handed, whatever became of it, together with
   the durable length of the log at that moment.
   */
  class Device {
    var pages: seq<Page>
    ghost const wal: Wal
    ghost var writes: seq<HomeWrite>

    constructor (pages: seq<Page>, ghost wal: Wal)
      ensures this.pages == pages && this.wal == wal && writes == []
    {
      this.pages, this.wal, writes := pages, wal, [];
    }

    method ReadPage(id: nat) returns (r: Option<Page>)
      ensures r.Some? ==> id < |pages| && r.value == pages[id]
    {
      if id >= |pages| {
        return None;
      }
      if * {
        return None;
      }
      r := Some(pages[id]);
    }

    method WritePage(id: nat, page: Page) returns (ok: bool)
      modifies this
      ensures writes == old(writes) + [HomeWrite(id, page, wal.durableLen)]
      ensures ok ==> id < |old(pages)| && pages == old(pages)[id := page]
      ensures !ok ==> |pages| == |old(pages)| && forall p :: 0 <= p < |pages| && p != id ==> pages[p] == old(pages)[p]
    {
      writes := writes + [HomeWrite(id, page, wal.durableLen)];
      if id >= |pages| {
        return false;
      }
      if * {
        var torn: Page := *;
        pages := pages[id := torn];
        return false;
      }
      pages := pages[id := page];
      ok := true;
    }

    method Extend() returns (ok: bool)
      modifies this`pages
      ensures pages == if ok then old(pages) + [ZERO_PAGE] else old(pages)
    {
      if * {
        return false;
      }
      pages := pages + [ZERO_PAGE];
      ok := true;
    }

    method SyncAll() returns (ok: bool)
    {
      ok := *;
    }
  }

  datatype PoolError = FullOfPinned | WalRefused | WriteFailed | ReadFailed | ExtendFailed | BadChecksum | SyncFailed

  class BufferPool {
    const crc: Crc
    const device: Device
    const wal: Wal
    var frames: seq<Frame>
    var table: map<nat, nat>
    var clock: nat

    /** The flat store this pool stands for. */
    ghost var store: seq<Content>
    /** The pages created or written through this pool. */
    ghost var touched: set<nat>
    /** How many images the device had been handed when this pool took it over. */
    ghost const since: nat
    /** Whether every write so far kept or raised the LSN of its page. */
    ghost var amendedOnly: bool

    ghost predicate Valid()
      reads this, device, wal
    {
      && clock < |frames|
      && device.wal == wal && since <= |device.writes|
      && Coherent(frames, table)
      && Faithful(frames, table, store, device.pages)
      && Sealed(crc, frames, table, device.pages, touched)
      && Covered(crc, device.writes[since..], wal.durableLen)
      && (amendedOnly ==> Ascending(device.writes[since..], store))
    }

    /** Every image the device was handed since it belongs to this pool, in order. */
    ghost function History(): seq<HomeWrite>
      requires since <= |device.writes|
      reads this, device
    {
      device.writes[since..]
    }

    /** Nothing but pins, bits, residency and the device changed: the store is as it was. */
    twostate predicate SameStore()
      reads this, device
    {
      && store == old(store) && touched == old(touched) && amendedOnly == old(amendedOnly)
      && |frames| == |old(frames)| && old(device.writes) <= device.writes
    }

    /** Frames in use when the call began are as they were. */
    twostate predicate PinnedUntouched()
      reads this
    {
      |frames| == |old(frames)| && forall i :: 0 <= i < |frames| && old(frames)[i].pins > 0 ==> frames[i] == old(frames)[i]
    }

    /** Every frame holds the page it held, pinned as often as it was. */
    twostate predicate SameHandles()
      reads this
    {
      |frames| == |old(frames)| && forall j :: 0 <= j < |frames| ==>
        frames[j].pins == old(frames)[j].pins && frames[j].pageId == old(frames)[j].pageId
    }

    /** Every frame but `i` is pinned as often as it was. */
    twostate predicate PinsKeptBut(i: int)
      reads this
    {
      |frames| == |old(frames)| && forall j :: 0 <= j < |frames| && j != i ==> frames[j].pins == old(frames)[j].pins
    }

    constructor (crc: Crc, device: Device, wal: Wal, capacity: nat)
      requires capacity > 0 && device.wal == wal
      ensures Valid() && fresh(this) && this.crc == crc && this.device == device && this.wal == wal
      ensures |frames| == capacity && table == map[] && History() == [] && touched == {} && amendedOnly
      ensures |store| == |device.pages| && forall p :: 0 <= p < |store| ==> store[p] == Body(device.pages[p])
    {
      this.crc, this.device, this.wal := crc, device, wal;
      frames := seq(capacity, _ => EMPTY_FRAME);
      table, clock := map[], 0;
      store := seq(|device.pages|, p requires 0 <= p < |device.pages| reads device => Body(device.pages[p]));
      touched, amendedOnly, since := {}, true, |device.writes|;
    }

    method WriteBack(idx: nat) returns (r: Result<(), PoolError>)
      requires Valid() && idx < |frames|
      modifies this`frames, device, wal
      ensures Valid() && SameStore()
      ensures forall i :: 0 <= i < |frames| && i != idx ==> frames[i] == old(frames)[i]
      ensures frames[idx] == old(frames)[idx].(data := frames[idx].data, dirty := frames[idx].dirty)
      ensures Body(frames[idx].data) == old(Body(frames[idx].data))
      ensures if r.Success? then !frames[idx].dirty else old(frames)[idx].dirty && frames[idx].dirty
      ensures r.Failure? ==> r.error == WalRefused || r.error == WriteFailed
      ensures r.Failure? && r.error == WalRefused ==> device.pages == old(device.pages)
    {
      hide Coherent, Faithful, Sealed, Covered, Ascending, VerifyChecksum, WithChecksum, PageLsn;
      if !frames[idx].dirty {
        return Success(());
      }
      InUse(frames, table, store, device.pages, idx);
      var id := frames[idx].pageId.value;
      var image := WithChecksum(crc, frames[idx].data);
      ChecksumWritten(crc, frames[idx].data);
      Retouch(crc, frames, table, store, device.pages, touched, idx, frames[idx].(data := image));
      frames := frames[idx := frames[idx].(data := image)];
      var hardened := wal.EnsureDurable(PageLsn(image));
      if !hardened {
        StillCovered(crc, History(), old(wal.durableLen), wal.durableLen);
        return Failure(WalRefused);
      }
      ghost var w := HomeWrite(id, image, wal.durableLen);
      SentHome(crc, History(), store, old(wal.durableLen), wal.durableLen, w);
      ghost var before := device.pages;
      var written := device.WritePage(id, image);
      assert History() == old(History()) + [w];
      if !written {
        SpoiltHome(crc, frames, table, store, before, touched, idx, device.pages);
        return Failure(WriteFailed);
      }
      WrittenHome(crc, frames, table, store, before, touched, idx);
      frames := frames[idx := frames[idx].(dirty := false)];
      return Success(());
    }

    /** The clock sweep: reference bits are cleared on the way to the first frame free to go. */
    method SweepClock() returns (r: Option<nat>)
      requires clock < |frames|
      modifies this`frames, this`clock
      ensures
        var s := SweepFrom(old(frames), old(clock), 2 * |old(frames)|);
        && frames == s.frames && clock == s.clock
        && r == if s.Victim? then Some(s.index) else None
    {
      var n := |frames|;
      var step := 0;
      while step < 2 * n
        invariant step <= 2 * n && clock < |frames| == n
        invariant SweepFrom(frames, clock, 2 * n - step) == old(SweepFrom(frames, clock, 2 * |frames|))
      {
        var idx := clock;
        clock := Advance(clock, n);
        if frames[idx].pins == 0 {
          if !frames[idx].refBit {
            return Some(idx);
          }
          frames := frames[idx := frames[idx].(refBit := false)];
        }
        step := step + 1;
      }
      return None;
    }

    method FindEmpty() returns (k: nat)
      ensures k == FirstEmpty(frames)
    {
      hide FirstEmpty;
      k := 0;
      while k < |frames| && frames[k].pageId.Some?
        invariant k <= |frames| && forall i :: 0 <= i < k ==> frames[i].pageId.Some?
      {
        k := k + 1;
      }
    }

    /**
     A frame to load into: the first empty one, or else the frame the clock sweep settles on, written
     back and emptied. Without an empty frame it fails for want of a victim exactly when the sweep
     does; a failed write-back leaves the victim resident and dirty.
     */
    method EvictVictim() returns (r: Result<nat, PoolError>)
      requires Valid()
      modifies this`frames, this`table, this`clock, device, wal
      ensures Valid() && SameStore() && PinnedUntouched() && PinsKeptBut(-1)
      ensures r.Success? ==> r.value < |frames| && frames[r.value].pageId.None?
      ensures r.Failure? ==> r.error in {FullOfPinned, WalRefused, WriteFailed}
      ensures forall id :: id in table ==> id in old(table)
      ensures
        var k, s := FirstEmpty(old(frames)), SweepFrom(old(frames), old(clock), 2 * |old(frames)|);
        if k < |old(frames)| then
          r == Success(k) && frames == old(frames) && clock == old(clock)
        else
          && clock == s.clock
          && (s.Exhausted? ==> r == Failure(FullOfPinned) && frames == s.frames)
          && (s.Victim? ==>
                && (forall i :: 0 <= i < |frames| && i != s.index ==> frames[i] == s.frames[i])
                && (r == Success(s.index)
                    || (r.Failure? && r.error != FullOfPinned && old(frames)[s.index].dirty
                        && frames[s.index] == s.frames[s.index].(data := frames[s.index].data))))
    {
      hide Coherent, Faithful, Sealed, Covered, Ascending, VerifyChecksum, FirstEmpty, SweepFrom;
      var k := FindEmpty();
      if k < |frames| {
        return Success(k);
      }
      SweepTouchesOnlyFreeBits(frames, clock, 2 * |frames|);
      Swept(crc, frames, table, store, device.pages, touched, SweepFrom(frames, clock, 2 * |frames|).frames);
      var victim := SweepClock();
      if victim.None? {
        return Failure(FullOfPinned);
      }
      r := TakeVictim(victim.value);
    }

    /** Writes a free frame back and empties it. */
    method TakeVictim(idx: nat) returns (r: Result<nat, PoolError>)
      requires Valid() && idx < |frames| && frames[idx].pageId.Some? && frames[idx].pins == 0
      modifies this`frames, this`table, device, wal
      ensures Valid() && SameStore()
      ensures forall id :: id in table ==> id in old(table)
      ensures forall i :: 0 <= i < |frames| && i != idx ==> frames[i] == old(frames)[i]
      ensures frames[idx].pins == 0
      ensures if r.Success? then r.value == idx && frames[idx].pageId.None?
              else r.error in {WalRefused, WriteFailed} && old(frames)[idx].dirty
                   && frames[idx] == old(frames)[idx].(data := frames[idx].data)
    {
      hide Coherent, Faithful, Sealed, Covered, Ascending;
      var _ :- WriteBack(idx);
      var id := frames[idx].pageId.value;
      GivenUp(crc, frames, table, store, device.pages, touched, idx);
      frames := frames[idx := frames[idx].(pageId := None)];
      table := table - {id};
      return Success(idx);
    }

    /**
     A resident page is pinned once more and cannot fail; any other is loaded into a frame. Either
     way the frame shows the content last written to the page. The pin count is a 32-bit word and
     wraps, so the frame is pinned afterwards unless it already had as many pins as a word can count.
     */
    method Fetch(id: nat) returns (r: Result<nat, PoolError>)
      requires Valid()
      modifies this, device, wal
      ensures Valid() && SameStore()
      ensures r.Success? ==>
        && r.value < |frames| && frames[r.value].pageId == Some(id) && id < |store|
        && Body(frames[r.value].data) == store[id]
        && frames[r.value].pins == Bump(old(frames)[r.value].pins)
        && (old(frames)[r.value].pins > 0 ==> old(frames)[r.value].pageId == Some(id))
      ensures PinsKeptBut(if r.Success? then r.value else -1)
      ensures forall i :: 0 <= i < |frames| && old(frames)[i].pins > 0 ==>
                frames[i] == if r == Success(i) then old(frames)[i].(pins := frames[i].pins, refBit := true) else old(frames)[i]
      ensures id in old(table) ==>
        var i := old(table)[id];
        && r == Success(i) && table == old(table) && device.pages == old(device.pages)
        && frames == old(frames)[i := old(frames)[i].(pins := Bump(old(frames)[i].pins), refBit := true)]
      ensures r == Failure(FullOfPinned) <==>
        id !in old(table) && forall i :: 0 <= i < |old(frames)| ==> old(frames)[i].pins > 0
      ensures r == Failure(BadChecksum) ==> id !in touched
    {
      hide Coherent, Faithful, Sealed, Covered, Ascending, VerifyChecksum, FirstEmpty, SweepFrom;
      if id in table {
        var i := table[id];
        Resident(frames, table, id);
        InUse(frames, table, store, device.pages, i);
        var f := frames[i].(pins := Bump(frames[i].pins), refBit := true);
        Retouch(crc, frames, table, store, device.pages, touched, i, f);
        frames := frames[i := f];
        return Success(i);
      }
      r := Load(id);
    }

    /** Brings a page that is not resident into a frame of its own. */
    method Load(id: nat) returns (r: Result<nat, PoolError>)
      requires Valid() && id !in table
      modifies this, device, wal
      ensures Valid() && SameStore() && PinnedUntouched() && PinsKeptBut(if r.Success? then r.value else -1)
      ensures r.Success? ==>
        && r.value < |frames| && frames[r.value].pageId == Some(id) && id < |store|
        && frames[r.value].pins == 1 && old(frames)[r.value].pins == 0 && Body(frames[r.value].data) == store[id]
      ensures r == Failure(FullOfPinned) <==> forall i :: 0 <= i < |old(frames)| ==> old(frames)[i].pins > 0
      ensures r == Failure(BadChecksum) ==> id !in touched
    {
      hide Coherent, Faithful, Sealed, Covered, Ascending, VerifyChecksum, FirstEmpty, SweepFrom;
      AllPinnedIffFull(frames, table, store, device.pages, clock);
      var idx :- EvictVictim();
      InUse(frames, table, store, device.pages, idx);
      var page := device.ReadPage(id);
      if page.None? {
        return Failure(ReadFailed);
      }
      if !VerifyChecksum(crc, page.value) {
        Unverified(crc, frames, table, device.pages, touched, id);
        return Failure(BadChecksum);
      }
      Install(idx, id, page.value);
      return Success(idx);
    }

    /** Gives a page as the device has it to an empty frame, pinned once. */
    method Install(idx: nat, id: nat, page: Page)
      requires Valid() && idx < |frames| && frames[idx].pageId.None?
      requires id !in table && id < |device.pages| && page == device.pages[id]
      modifies this`frames, this`table
      ensures Valid() && id < |store| && Body(page) == store[id]
      ensures frames == old(frames)[idx := Frame(Some(id), page, 1, false, true)] && table == old(table)[id := idx]
    {
      hide Coherent, Faithful, Sealed, Covered, Ascending;
      Loaded(crc, frames, table, store, device.pages, touched, idx, id);
      frames := frames[idx := Frame(Some(id), page, 1, false, true)];
      table := table[id := idx];
      InUse(frames, table, store, device.pages, idx);
    }

    /** A fresh page at the end of the device: zeroes with its own id, pinned and dirty. */
    method NewPage() returns (r: Result<(nat, nat), PoolError>)
      requires Valid()
      modifies this, device, wal
      ensures Valid() && PinnedUntouched() && PinsKeptBut(if r.Success? then r.value.0 else -1)
      ensures r.Success? ==>
        var (f, id) := r.value;
        && id == |old(store)| && store == old(store) + [Body(Pages.NewPage(crc, id))]
        && touched == old(touched) + {id}
        && f < |frames| && frames[f] == Frame(Some(id), Pages.NewPage(crc, id), 1, true, true)
        && old(frames)[f].pins == 0
      ensures r.Failure? ==> SameStore()
      ensures amendedOnly == old(amendedOnly) && old(device.writes) <= device.writes
      ensures r == Failure(FullOfPinned) <==> forall i :: 0 <= i < |old(frames)| ==> old(frames)[i].pins > 0
    {
      hide Coherent, Faithful, Sealed, Covered, Ascending, FirstEmpty, SweepFrom, Pages.NewPage;
      AllPinnedIffFull(frames, table, store, device.pages, clock);
      var idx :- EvictVictim();
      InUse(frames, table, store, device.pages, idx);
      var id :- InstallNew(idx);
      return Success((idx, id));
    }

    /** Grows the device by one page and gives the page its first frame. */
    method InstallNew(idx: nat) returns (r: Result<nat, PoolError>)
      requires Valid() && idx < |frames| && frames[idx].pageId.None?
      modifies this`frames, this`table, this`store, this`touched, device`pages
      ensures Valid()
      ensures r.Success? ==>
        && r.value == |old(store)| && store == old(store) + [Body(Pages.NewPage(crc, r.value))]
        && touched == old(touched) + {r.value}
        && frames == old(frames)[idx := Frame(Some(r.value), Pages.NewPage(crc, r.value), 1, true, true)]
      ensures r.Failure? ==>
        r.error == ExtendFailed && store == old(store) && touched == old(touched) && frames == old(frames)
    {
      hide Coherent, Faithful, Sealed, Covered, Ascending, Pages.NewPage;
      StoreIsDeviceSized(frames, table, store, device.pages);
      var id := |device.pages|;
      ghost var before := device.pages;
      var extended := device.Extend();
      if !extended {
        return Failure(ExtendFailed);
      }
      var image := Pages.NewPage(crc, id);
      Created(crc, frames, table, store, before, touched, idx, image);
      if amendedOnly {
        Appended(History(), store, Body(image));
      }
      frames := frames[idx := Frame(Some(id), image, 1, true, true)];
      table := table[id := idx];
      store := store + [Body(image)];
      touched := touched + {id};
      return Success(id);
    }

    /** The page a frame shows, pinned or not: the store's content whenever the frame holds a page. */
    method ReadFrame(f: nat) returns (data: Page)
      requires Valid() && f < |frames|
      ensures data == frames[f].data && (frames[f].pins > 0 ==> frames[f].pageId.Some?)
      ensures frames[f].pageId.Some? ==>
        && frames[f].pageId.value < |store| && Body(data) == store[frames[f].pageId.value]
        && PageLsn(data) == BodyLsn(store[frames[f].pageId.value])
    {
      InUse(frames, table, store, device.pages, f);
      data := frames[f].data;
      LsnIsInTheBody(data);
    }

    /** A page is handed out for writing and comes back as `data`: the store follows. */
    method PageMut(f: nat, data: Page)
      requires Valid() && f < |frames| && frames[f].pageId.Some?
      modifies this
      ensures Valid() && old(frames)[f].pageId.value < |old(store)|
      ensures
        var p := old(frames)[f].pageId.value;
        && frames == old(frames)[f := old(frames)[f].(data := data, dirty := true)]
        && store == old(store)[p := Body(data)] && touched == old(touched) + {p}
        && amendedOnly == (old(amendedOnly) && PageLsn(data) >= old(PageLsn(frames[f].data)))
      ensures table == old(table) && clock == old(clock)
    {
      hide Coherent, Faithful, Sealed, Covered, Ascending, VerifyChecksum, PageLsn, BodyLsn;
      InUse(frames, table, store, device.pages, f);
      ghost var p := frames[f].pageId.value;
      LsnIsInTheBody(data);
      LsnIsInTheBody(frames[f].data);
      amendedOnly := amendedOnly && PageLsn(data) >= PageLsn(frames[f].data);
      if amendedOnly {
        Amended(History(), store, p, Body(data));
      }
      Rewritten(crc, frames, table, store, device.pages, touched, f, data);
      frames := frames[f := frames[f].(data := data, dirty := true)];
      store := store[p := Body(data)];
      touched := touched + {p};
    }

    /** Stamping through the monotone setter never spoils the ascending claims. */
    method StampLsn(f: nat, lsn: u64)
      requires Valid() && f < |frames| && frames[f].pageId.Some?
      modifies this
      ensures Valid() && amendedOnly == old(amendedOnly)
      ensures old(frames)[f].pageId.value < |old(store)|
      ensures frames == old(frames)[f := old(frames)[f].(data := Stamped(old(frames)[f].data, lsn), dirty := true)]
      ensures
        var p := old(frames)[f].pageId.value;
        store == old(store)[p := StampedBody(old(store)[p], lsn)]
      ensures table == old(table) && clock == old(clock)
    {
      hide Coherent, Faithful, Sealed, Covered, Ascending, VerifyChecksum, PageLsn, BodyLsn, Stamped, StampedBody;
      InUse(frames, table, store, device.pages, f);
      StampAdvances(frames[f].data, lsn);
      StampIsInTheBody(frames[f].data, lsn);
      PageMut(f, Stamped(frames[f].data, lsn));
    }

    method Unpin(f: nat)
      requires Valid() && f < |frames|
      modifies this`frames
      ensures Valid()
      ensures frames == old(frames)[f := old(frames)[f].(pins := if old(frames)[f].pins > 0 then old(frames)[f].pins - 1 else 0)]
    {
      hide Coherent, Faithful, Sealed, Covered, Ascending;
      InUse(frames, table, store, device.pages, f);
      var g := frames[f].(pins := if frames[f].pins > 0 then frames[f].pins - 1 else 0);
      Retouch(crc, frames, table, store, device.pages, touched, f, g);
      frames := frames[f := g];
    }

    method Flush(f: nat) returns (r: Result<(), PoolError>)
      requires Valid() && f < |frames|
      modifies this`frames, device, wal
      ensures Valid() && SameStore() && SameHandles()
      ensures r.Success? ==> !frames[f].dirty
      ensures r.Success? && frames[f].pageId.Some? ==>
        var p := frames[f].pageId.value;
        p < |store| && p < |device.pages| && Body(device.pages[p]) == store[p]
      ensures r.Failure? ==> frames[f].dirty
    {
      r := WriteBack(f);
      InUse(frames, table, store, device.pages, f);
    }

    /** On success the device alone now holds the whole store. */
    method FlushAll() returns (r: Result<(), PoolError>)
      requires Valid()
      modifies this`frames, device, wal
      ensures Valid() && SameStore() && SameHandles()
      ensures r.Success? ==>
        && (forall i :: 0 <= i < |frames| ==> !frames[i].dirty)
        && |device.pages| == |store| && (forall p :: 0 <= p < |store| ==> Body(device.pages[p]) == store[p])
    {
      hide Coherent, Faithful, Sealed, Covered, Ascending;
      var dirty: seq<nat> := [];
      for i := 0 to |frames|
        invariant forall k :: 0 <= k < |dirty| ==> dirty[k] < |frames|
        invariant forall j :: 0 <= j < i && frames[j].dirty ==> j in dirty
      {
        if frames[i].dirty {
          dirty := dirty + [i];
        }
      }
      for k := 0 to |dirty|
        invariant Valid() && SameStore() && SameHandles()
        invariant forall j :: 0 <= j < |frames| && frames[j].dirty ==> j in dirty[k..]
      {
        assert dirty[k..] == [dirty[k]] + dirty[k + 1..];
        var _ :- WriteBack(dirty[k]);
      }
      AllClean(frames, table, store, device.pages);
      var synced := device.SyncAll();
      r := if synced then Success(()) else Failure(SyncFailed);
    }
  }
}
