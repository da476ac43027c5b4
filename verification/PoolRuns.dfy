/**
 Whole runs of the buffer pool. A client sees handles and page contents; what it sees is decided by
 a flat array of contents, the handles it holds, and nothing else.
 */
module PoolRuns {
  import opened Bytes
  import opened Wrappers
  import opened Pages
  import opened Clock
  import opened PoolState
  import opened Pool

  datatype Op =
    | Fetch(id: nat)
    | Create
    | Read(frame: nat)
    | Write(frame: nat, data: Page)
    | Stamp(frame: nat, lsn: u64)
    | Unpin(frame: nat)
    | Flush(frame: nat)
    | FlushAll

  /** What a call answers. A call through a handle the client does not hold is not made. */
  datatype Outcome =
    | Shown(frame: nat, content: Content)
    | Made(frame: nat, page: nat)
    | Done
    | Failed(error: PoolError)
    | NotMade

  /** A frame the client has pinned, and the page it was pinned for. */
  datatype Handle = Handle(page: nat, pins: u32)

  /** The flat array, the device's own copy of it, and the handles held. */
  datatype View = View(capacity: nat, store: seq<Content>, disk: seq<Content>, held: map<nat, Handle>)

  function Pinned(held: map<nat, Handle>, f: nat, page: nat): map<nat, Handle> {
    if f !in held then held[f := Handle(page, 1)]
    else if held[f].pins == U32_MAX then held - {f}
    else held[f := Handle(page, held[f].pins + 1)]
  }

  function Unpinned(held: map<nat, Handle>, f: nat): map<nat, Handle> {
    if f !in held then held
    else if held[f].pins <= 1 then held - {f}
    else held[f := Handle(held[f].page, held[f].pins - 1)]
  }

  ghost predicate AllHeld(v: View) {
    forall f :: 0 <= f < v.capacity ==> f in v.held
  }

  /** Handles stand for pages of the array, no two for the same page. */
  ghost predicate Proper(v: View) {
    && (forall f :: f in v.held ==> f < v.capacity && v.held[f].page < |v.store| && v.held[f].pins > 0)
    && (forall f, g :: f in v.held && g in v.held && v.held[f].page == v.held[g].page ==> f == g)
  }

  ghost predicate Unchanged(v: View, v': View) {
    v' == v.(disk := v'.disk)
  }

  /** What each call may answer, and what it leaves behind. */
  ghost predicate Step(crc: Crc, v: View, op: Op, out: Outcome, v': View)
    requires Proper(v)
  {
    match op
    case Fetch(id) =>
      if out.Failed? then
        && Unchanged(v, v')
        && (forall f :: f in v.held ==> v.held[f].page != id)
        && (out.error == FullOfPinned <==> AllHeld(v))
      else
        && out.Shown? && out.frame < v.capacity && id < |v.store| && out.content == v.store[id]
        && (out.frame in v.held ==> v.held[out.frame].page == id)
        && (forall f :: f in v.held && v.held[f].page == id ==> f == out.frame)
        && v' == v.(disk := v'.disk, held := Pinned(v.held, out.frame, id))
    case Create =>
      if out.Failed? then
        Unchanged(v, v') && (out.error == FullOfPinned <==> AllHeld(v))
      else
        && out.Made? && out.frame < v.capacity && out.frame !in v.held && out.page == |v.store|
        && v' == v.(disk := v'.disk, store := v.store + [Body(Pages.NewPage(crc, out.page))],
                    held := v.held[out.frame := Handle(out.page, 1)])
    case Read(f) =>
      && v' == v
      && out == if f in v.held then Shown(f, v.store[v.held[f].page]) else NotMade
    case Write(f, data) =>
      if f !in v.held then out == NotMade && v' == v
      else out == Done && v' == v.(store := v.store[v.held[f].page := Body(data)])
    case Stamp(f, lsn) =>
      if f !in v.held then out == NotMade && v' == v
      else
        var p := v.held[f].page;
        out == Done && v' == v.(store := v.store[p := StampedBody(v.store[p], lsn)])
    case Unpin(f) =>
      if f >= v.capacity then out == NotMade && v' == v
      else out == Done && v' == v.(held := Unpinned(v.held, f))
    case Flush(f) =>
      && Unchanged(v, v')
      && (if f >= v.capacity then out == NotMade && v' == v else out.Done? || out.Failed?)
      && (out.Done? && f in v.held && v.held[f].page < |v'.disk| ==> v'.disk[v.held[f].page] == v.store[v.held[f].page])
    case FlushAll =>
      Unchanged(v, v') && (out.Failed? || (out.Done? && v'.disk == v.store))
  }

  /** A run: one view more than there are calls, and every call a step. */
  ghost predicate Follows(crc: Crc, views: seq<View>, ops: seq<Op>, outs: seq<Outcome>) {
    && |views| == |ops| + 1 && |outs| == |ops|
    && (forall k :: 0 <= k < |views| ==> Proper(views[k]) && |views[k].disk| == |views[k].store|)
    && (forall k :: 0 <= k < |ops| ==> Step(crc, views[k], ops[k], outs[k], views[k + 1]))
  }

  // ---- What the client can work out from its own calls -----------------------------------------

  /** The handles held after a call and its answer. */
  function Track(held: map<nat, Handle>, op: Op, out: Outcome): map<nat, Handle> {
    match (op, out)
    case (Fetch(id), Shown(f, _)) => Pinned(held, f, id)
    case (Create, Made(f, page)) => held[f := Handle(page, 1)]
    case (Unpin(f), Done) => Unpinned(held, f)
    case _ => held
  }

  function HeldAfter(held: map<nat, Handle>, ops: seq<Op>, outs: seq<Outcome>): map<nat, Handle>
    requires |outs| == |ops|
    decreases |ops|
  {
    if ops == [] then held
    else
      var n := |ops| - 1;
      Track(HeldAfter(held, ops[..n], outs[..n]), ops[n], outs[n])
  }

  /** Whether a handle the client holds is one for page `p`. */
  predicate Through(held: map<nat, Handle>, f: nat, p: nat) {
    f in held && held[f].page == p
  }

  /** What a call makes of page `p`, which had content `last`, when these handles are held. */
  ghost function Written(crc: Crc, held: map<nat, Handle>, op: Op, out: Outcome, p: nat, last: Option<Content>)
    : Option<Content> {
    match op
    case Create => if out.Made? && out.page == p then Some(Body(Pages.NewPage(crc, p))) else last
    case Write(f, data) => if Through(held, f, p) then Some(Body(data)) else last
    case Stamp(f, lsn) => if Through(held, f, p) && last.Some? then Some(StampedBody(last.value, lsn)) else last
    case _ => last
  }

  /** The content the client's own writes leave in page `p`, starting from `store`. */
  ghost function LastWritten(crc: Crc, store: seq<Content>, held: map<nat, Handle>, ops: seq<Op>, outs: seq<Outcome>,
                             p: nat): Option<Content>
    requires |outs| == |ops|
    decreases |ops|
  {
    if ops == [] then (if p < |store| then Some(store[p]) else None)
    else
      var n := |ops| - 1;
      Written(crc, HeldAfter(held, ops[..n], outs[..n]), ops[n], outs[n], p,
              LastWritten(crc, store, held, ops[..n], outs[..n], p))
  }

  /** The page an answer of `Shown` was about. */
  function PageShown(held: map<nat, Handle>, op: Op, out: Outcome): Option<nat> {
    if !out.Shown? then None
    else match op
      case Fetch(id) => Some(id)
      case Read(f) => if f in held then Some(held[f].page) else None
      case _ => None
  }

  /** Every page shown is as the client's last write through a handle of that page left it. */
  ghost predicate ShowsLastWritten(crc: Crc, store: seq<Content>, held: map<nat, Handle>, ops: seq<Op>,
                                   outs: seq<Outcome>) {
    |outs| == |ops| && forall k :: 0 <= k < |ops| && outs[k].Shown? ==>
      var page := PageShown(HeldAfter(held, ops[..k], outs[..k]), ops[k], outs[k]);
      page.Some? && LastWritten(crc, store, held, ops[..k], outs[..k], page.value) == Some(outs[k].content)
  }

  lemma Prefix(crc: Crc, views: seq<View>, ops: seq<Op>, outs: seq<Outcome>, k: nat)
    requires Follows(crc, views, ops, outs) && k <= |ops|
    ensures Follows(crc, views[..k + 1], ops[..k], outs[..k])
  {
  }

  lemma StepReckons(crc: Crc, v: View, op: Op, out: Outcome, v': View, p: nat, last: Option<Content>)
    requires Proper(v) && Step(crc, v, op, out, v')
    requires p < |v'.store| && (p < |v.store| ==> last == Some(v.store[p]))
    ensures Written(crc, v.held, op, out, p, last) == Some(v'.store[p])
  {
    hide StampedBody, Pages.NewPage;
  }

  lemma StepTracks(crc: Crc, v: View, op: Op, out: Outcome, v': View)
    requires Proper(v) && Step(crc, v, op, out, v')
    ensures v'.held == Track(v.held, op, out) && |v.store| <= |v'.store|
  {
    hide StampedBody, Pages.NewPage;
  }

  /** The client's reckoning is right: of the handles it holds, and of every page of the array. */
  lemma {:induction false} Reckoning(crc: Crc, views: seq<View>, ops: seq<Op>, outs: seq<Outcome>)
    requires Follows(crc, views, ops, outs)
    ensures views[|ops|].held == HeldAfter(views[0].held, ops, outs)
    ensures forall p :: 0 <= p < |views[|ops|].store| ==>
              LastWritten(crc, views[0].store, views[0].held, ops, outs, p) == Some(views[|ops|].store[p])
    decreases |ops|
  {
    hide Step, Track, Written, Proper;
    if ops != [] {
      var n := |ops| - 1;
      Prefix(crc, views, ops, outs, n);
      Reckoning(crc, views[..n + 1], ops[..n], outs[..n]);
      var v, v' := views[n], views[n + 1];
      StepTracks(crc, v, ops[n], outs[n], v');
      forall p | 0 <= p < |v'.store|
        ensures LastWritten(crc, views[0].store, views[0].held, ops, outs, p) == Some(v'.store[p])
      {
        StepReckons(crc, v, ops[n], outs[n], v', p,
                    LastWritten(crc, views[0].store, views[0].held, ops[..n], outs[..n], p));
      }
    }
  }

  /** What a fetch, or a read through a handle, shows is what was last written to that page. */
  lemma SeenIsLastWritten(crc: Crc, views: seq<View>, ops: seq<Op>, outs: seq<Outcome>)
    requires Follows(crc, views, ops, outs)
    ensures ShowsLastWritten(crc, views[0].store, views[0].held, ops, outs)
  {
    hide LastWritten, HeldAfter, StampedBody, Pages.NewPage;
    forall k | 0 <= k < |ops| && outs[k].Shown?
      ensures var page := PageShown(HeldAfter(views[0].held, ops[..k], outs[..k]), ops[k], outs[k]);
              && page.Some?
              && LastWritten(crc, views[0].store, views[0].held, ops[..k], outs[..k], page.value) == Some(outs[k].content)
    {
      Prefix(crc, views, ops, outs, k);
      Reckoning(crc, views[..k + 1], ops[..k], outs[..k]);
      assert Step(crc, views[k], ops[k], outs[k], views[k + 1]);
    }
  }

  // ---- LSNs ------------------------------------------------------------------------------------

  /** The call does not write a page with a lower LSN than the page has. */
  ghost predicate RaisesLsn(v: View, op: Op)
    requires Proper(v)
  {
    op.Write? && op.frame in v.held ==> PageLsn(op.data) >= BodyLsn(v.store[v.held[op.frame].page])
  }

  ghost predicate RaisesLsns(views: seq<View>, ops: seq<Op>)
    requires |views| > |ops| && forall k :: 0 <= k < |views| ==> Proper(views[k])
  {
    forall k :: 0 <= k < |ops| ==> RaisesLsn(views[k], ops[k])
  }

  lemma StepAscends(crc: Crc, v: View, op: Op, out: Outcome, v': View, p: nat)
    requires Proper(v) && Step(crc, v, op, out, v') && RaisesLsn(v, op) && p < |v.store|
    ensures p < |v'.store| && BodyLsn(v.store[p]) <= BodyLsn(v'.store[p])
  {
    hide BodyLsn, StampedBody, PageLsn, Pages.NewPage;
    if op.Write? {
      LsnIsInTheBody(op.data);
    }
    if op.Stamp? {
      StampedBodyAdvances(v.store[p], op.lsn);
    }
  }

  lemma {:induction false} LsnsAscend(crc: Crc, views: seq<View>, ops: seq<Op>, outs: seq<Outcome>, p: nat, j: nat, k: nat)
    requires Follows(crc, views, ops, outs) && RaisesLsns(views, ops)
    requires j <= k <= |ops| && p < |views[j].store|
    ensures p < |views[k].store| && BodyLsn(views[j].store[p]) <= BodyLsn(views[k].store[p])
    decreases k - j
  {
    hide Step, RaisesLsn, BodyLsn;
    if j < k {
      LsnsAscend(crc, views, ops, outs, p, j, k - 1);
      StepAscends(crc, views[k - 1], ops[k - 1], outs[k - 1], views[k], p);
    }
  }

  /** The LSN seen for a page never descends, across any evictions and reloads in between. */
  lemma SeenLsnNeverDescends(crc: Crc, views: seq<View>, ops: seq<Op>, outs: seq<Outcome>, j: nat, k: nat)
    requires Follows(crc, views, ops, outs) && RaisesLsns(views, ops)
    requires j < k < |ops| && outs[j].Shown? && outs[k].Shown?
    requires PageShown(views[j].held, ops[j], outs[j]) == PageShown(views[k].held, ops[k], outs[k])
    ensures BodyLsn(outs[j].content) <= BodyLsn(outs[k].content)
  {
    hide BodyLsn, StampedBody, Pages.NewPage, RaisesLsn;
    assert Step(crc, views[j], ops[j], outs[j], views[j + 1]) && Step(crc, views[k], ops[k], outs[k], views[k + 1]);
    LsnsAscend(crc, views, ops, outs, PageShown(views[j].held, ops[j], outs[j]).value, j, k);
  }

  // ---- The pool --------------------------------------------------------------------------------

  /** The handles the pinned frames are. */
  ghost function HeldOf(frames: seq<Frame>): map<nat, Handle> {
    map i: nat | i < |frames| && frames[i].pins > 0 ::
      Handle(if frames[i].pageId.Some? then frames[i].pageId.value else 0, frames[i].pins)
  }

  ghost function Bodies(pages: seq<Page>): seq<Content> {
    seq(|pages|, p requires 0 <= p < |pages| => Body(pages[p]))
  }

  ghost function ViewOf(pool: BufferPool): View
    reads pool, pool.device
  {
    View(|pool.frames|, pool.store, Bodies(pool.device.pages), HeldOf(pool.frames))
  }

  /** When the other pinned frames stay as they are, only the handle of frame `i` can change. */
  lemma HeldBut(frames: seq<Frame>, frames': seq<Frame>, i: nat)
    requires i < |frames| == |frames'|
    requires forall j :: 0 <= j < |frames| && j != i ==> frames'[j].pins == frames[j].pins
    requires forall j :: 0 <= j < |frames| && j != i && frames[j].pins > 0 ==> frames'[j].pageId == frames[j].pageId
    ensures HeldOf(frames') == if frames'[i].pins > 0
                               then HeldOf(frames)[i := HeldOf(frames')[i]] else HeldOf(frames) - {i}
  {
  }

  lemma HeldSame(frames: seq<Frame>, frames': seq<Frame>)
    requires |frames| == |frames'|
    requires forall j :: 0 <= j < |frames| ==> frames'[j].pins == frames[j].pins
    requires forall j :: 0 <= j < |frames| && frames[j].pins > 0 ==> frames'[j].pageId == frames[j].pageId
    ensures HeldOf(frames') == HeldOf(frames)
  {
  }

  lemma ValidIsProper(pool: BufferPool)
    requires pool.Valid()
    ensures Proper(ViewOf(pool)) && |ViewOf(pool).disk| == |ViewOf(pool).store|
    ensures forall f :: 0 <= f < |pool.frames| ==> (f in ViewOf(pool).held <==> pool.frames[f].pins > 0)
    ensures forall f :: f in ViewOf(pool).held ==>
              && f < |pool.frames| && pool.frames[f].pageId == Some(ViewOf(pool).held[f].page)
              && ViewOf(pool).held[f].page in pool.table && pool.table[ViewOf(pool).held[f].page] == f
  {
    hide Sealed, Covered, Ascending, Faithful;
    StoreIsDeviceSized(pool.frames, pool.table, pool.store, pool.device.pages);
    forall f | f in ViewOf(pool).held
      ensures pool.frames[f].pageId.Some? && pool.frames[f].pageId.value < |pool.store|
    {
      InUse(pool.frames, pool.table, pool.store, pool.device.pages, f);
    }
  }

  lemma LsnShown(pool: BufferPool, f: nat)
    requires pool.Valid() && f < |pool.frames| && pool.frames[f].pins > 0
    ensures pool.frames[f].pageId.Some? && pool.frames[f].pageId.value < |pool.store|
    ensures PageLsn(pool.frames[f].data) == BodyLsn(pool.store[pool.frames[f].pageId.value])
  {
    InUse(pool.frames, pool.table, pool.store, pool.device.pages, f);
    LsnIsInTheBody(pool.frames[f].data);
  }

  lemma AllHeldIs(pool: BufferPool)
    ensures AllHeld(ViewOf(pool)) <==> forall i :: 0 <= i < |pool.frames| ==> pool.frames[i].pins > 0
  {
    var held := ViewOf(pool).held;
    assert forall i :: 0 <= i < |pool.frames| ==> (i in held <==> pool.frames[i].pins > 0);
  }

  /** One more pin on frame `f`, which shows page `id`, is the handle the client expects. */
  lemma HeldPinned(frames: seq<Frame>, frames': seq<Frame>, f: nat, id: nat)
    requires f < |frames| == |frames'|
    requires forall j :: 0 <= j < |frames| && j != f ==> frames'[j].pins == frames[j].pins
    requires forall j :: 0 <= j < |frames| && frames[j].pins > 0 ==> frames'[j].pageId == frames[j].pageId
    requires frames'[f].pageId == Some(id) && frames'[f].pins == Bump(frames[f].pins)
    ensures HeldOf(frames') == Pinned(HeldOf(frames), f, id)
    ensures f in HeldOf(frames) ==> HeldOf(frames)[f].page == id
  {
    HeldBut(frames, frames', f);
  }

  lemma HeldNew(frames: seq<Frame>, frames': seq<Frame>, f: nat, id: nat)
    requires f < |frames| == |frames'| && frames[f].pins == 0
    requires forall j :: 0 <= j < |frames| && j != f ==> frames'[j].pins == frames[j].pins
    requires forall j :: 0 <= j < |frames| && frames[j].pins > 0 ==> frames'[j].pageId == frames[j].pageId
    requires frames'[f].pageId == Some(id) && frames'[f].pins == 1
    ensures f !in HeldOf(frames) && HeldOf(frames') == HeldOf(frames)[f := Handle(id, 1)]
  {
    HeldBut(frames, frames', f);
  }

  lemma HeldUnpinned(frames: seq<Frame>, frames': seq<Frame>, f: nat)
    requires f < |frames|
    requires frames' == frames[f := frames[f].(pins := if frames[f].pins > 0 then frames[f].pins - 1 else 0)]
    ensures HeldOf(frames') == Unpinned(HeldOf(frames), f)
  {
    HeldBut(frames, frames', f);
  }

  lemma FetchIsStep(crc: Crc, v: View, v': View, frames: seq<Frame>, frames': seq<Frame>, id: nat,
                    r: Result<nat, PoolError>)
    requires Proper(v) && v.held == HeldOf(frames) && v' == v.(disk := v'.disk, held := HeldOf(frames'))
    requires v.capacity == |frames| == |frames'|
    requires forall j :: 0 <= j < |frames| && r != Success(j) ==> frames'[j].pins == frames[j].pins
    requires forall j :: 0 <= j < |frames| && frames[j].pins > 0 ==> frames'[j].pageId == frames[j].pageId
    requires forall f :: f in v.held && v.held[f].page == id ==> r == Success(f)
    requires if r.Failure? then r.error == FullOfPinned <==> AllHeld(v)
             else && r.value < |frames| && id < |v.store|
                  && frames'[r.value].pageId == Some(id) && frames'[r.value].pins == Bump(frames[r.value].pins)
    ensures Step(crc, v, Fetch(id), if r.Failure? then Failed(r.error) else Shown(r.value, v.store[id]), v')
  {
    hide Proper, AllHeld, HeldOf;
    if r.Failure? {
      HeldSame(frames, frames');
    } else {
      HeldPinned(frames, frames', r.value, id);
    }
  }

  /** The call was a step; it extended the device's record, and lowered no LSN unless it says so. */
  twostate predicate Performed(pool: BufferPool, op: Op, out: Outcome)
    reads pool, pool.device, pool.wal
  {
    && pool.Valid() && Proper(old(ViewOf(pool)))
    && Step(pool.crc, old(ViewOf(pool)), op, out, ViewOf(pool))
    && old(pool.device.writes) <= pool.device.writes
    && (pool.amendedOnly <==> old(pool.amendedOnly) && RaisesLsn(old(ViewOf(pool)), op))
  }

  method PerformFetch(pool: BufferPool, id: nat) returns (out: Outcome)
    requires pool.Valid()
    modifies pool, pool.device, pool.wal
    ensures Performed(pool, Fetch(id), out)
  {
    hide BufferPool.Valid, Body, HeldOf, Bodies, Proper, AllHeld, Step;
    ValidIsProper(pool);
    AllHeldIs(pool);
    ghost var v, frames := ViewOf(pool), pool.frames;
    var r := pool.Fetch(id);
    FetchIsStep(pool.crc, v, ViewOf(pool), frames, pool.frames, id, r);
    out := if r.Success? then Shown(r.value, Body(pool.frames[r.value].data)) else Failed(r.error);
  }

  method PerformCreate(pool: BufferPool) returns (out: Outcome)
    requires pool.Valid()
    modifies pool, pool.device, pool.wal
    ensures Performed(pool, Create, out)
  {
    hide BufferPool.Valid, Body, Pages.NewPage, Bodies, Proper, AllHeld, HeldOf;
    ValidIsProper(pool);
    AllHeldIs(pool);
    var r := pool.NewPage();
    if r.Success? {
      HeldNew(old(pool.frames), pool.frames, r.value.0, r.value.1);
      out := Made(r.value.0, r.value.1);
    } else {
      HeldSame(old(pool.frames), pool.frames);
      out := Failed(r.error);
    }
  }

  method PerformRead(pool: BufferPool, f: nat) returns (out: Outcome)
    requires pool.Valid()
    ensures Performed(pool, Read(f), out)
  {
    hide BufferPool.Valid, Body, Bodies, Proper, HeldOf;
    ValidIsProper(pool);
    if f >= |pool.frames| || pool.frames[f].pins == 0 {
      return NotMade;
    }
    var data := pool.ReadFrame(f);
    out := Shown(f, Body(data));
  }

  method PerformWrite(pool: BufferPool, f: nat, data: Page) returns (out: Outcome)
    requires pool.Valid()
    modifies pool
    ensures Performed(pool, Write(f, data), out)
  {
    hide BufferPool.Valid, Body, Bodies, Proper, BodyLsn, PageLsn, HeldOf;
    ValidIsProper(pool);
    if f >= |pool.frames| || pool.frames[f].pins == 0 {
      return NotMade;
    }
    LsnShown(pool, f);
    pool.PageMut(f, data);
    HeldSame(old(pool.frames), pool.frames);
    out := Done;
  }

  method PerformStamp(pool: BufferPool, f: nat, lsn: u64) returns (out: Outcome)
    requires pool.Valid()
    modifies pool
    ensures Performed(pool, Stamp(f, lsn), out)
  {
    hide BufferPool.Valid, Body, Bodies, Proper, Stamped, StampedBody, HeldOf;
    ValidIsProper(pool);
    if f >= |pool.frames| || pool.frames[f].pins == 0 {
      return NotMade;
    }
    LsnShown(pool, f);
    pool.StampLsn(f, lsn);
    HeldSame(old(pool.frames), pool.frames);
    out := Done;
  }

  method PerformUnpin(pool: BufferPool, f: nat) returns (out: Outcome)
    requires pool.Valid()
    modifies pool
    ensures Performed(pool, Unpin(f), out)
  {
    hide BufferPool.Valid, Body, Bodies, Proper, HeldOf, Unpinned;
    ValidIsProper(pool);
    if f >= |pool.frames| {
      return NotMade;
    }
    pool.Unpin(f);
    HeldUnpinned(old(pool.frames), pool.frames, f);
    out := Done;
  }

  method PerformFlush(pool: BufferPool, f: nat) returns (out: Outcome)
    requires pool.Valid()
    modifies pool, pool.device, pool.wal
    ensures Performed(pool, Flush(f), out)
  {
    hide BufferPool.Valid, Body, Proper, HeldOf;
    ValidIsProper(pool);
    if f >= |pool.frames| {
      return NotMade;
    }
    var r := pool.Flush(f);
    HeldSame(old(pool.frames), pool.frames);
    out := if r.Success? then Done else Failed(r.error);
  }

  method PerformFlushAll(pool: BufferPool) returns (out: Outcome)
    requires pool.Valid()
    modifies pool, pool.device, pool.wal
    ensures Performed(pool, FlushAll, out)
  {
    hide BufferPool.Valid, Body, Proper;
    ValidIsProper(pool);
    var r := pool.FlushAll();
    HeldSame(old(pool.frames), pool.frames);
    out := if r.Success? then Done else Failed(r.error);
  }

  method Perform(pool: BufferPool, op: Op) returns (out: Outcome)
    requires pool.Valid()
    modifies pool, pool.device, pool.wal
    ensures Performed(pool, op, out)
  {
    match op
    case Fetch(id) => out := PerformFetch(pool, id);
    case Create => out := PerformCreate(pool);
    case Read(f) => out := PerformRead(pool, f);
    case Write(f, data) => out := PerformWrite(pool, f, data);
    case Stamp(f, lsn) => out := PerformStamp(pool, f, lsn);
    case Unpin(f) => out := PerformUnpin(pool, f);
    case Flush(f) => out := PerformFlush(pool, f);
    case FlushAll => out := PerformFlushAll(pool);
  }

  /**
   Any sequence of calls, with the device and the log failing wherever they like, is a run of the
   flat array: whatever a fetch or a read through a handle shows was last written to that page
   through a handle of that page, and a failed call changes nothing. Every image the device was
   handed meanwhile was covered by the log.
   */
  method Run(pool: BufferPool, ops: seq<Op>) returns (outs: seq<Outcome>, ghost views: seq<View>)
    requires pool.Valid()
    modifies pool, pool.device, pool.wal
    ensures pool.Valid() && old(pool.device.writes) <= pool.device.writes
    ensures Covered(pool.crc, pool.History(), pool.wal.durableLen)
    ensures Follows(pool.crc, views, ops, outs) && views[0] == old(ViewOf(pool)) && views[|ops|] == ViewOf(pool)
    ensures ShowsLastWritten(pool.crc, old(pool.store), old(HeldOf(pool.frames)), ops, outs)
    ensures pool.amendedOnly <==> old(pool.amendedOnly) && RaisesLsns(views, ops)
  {
    hide Coherent, Faithful, Sealed, Covered, Ascending, Step, RaisesLsn, Proper, HeldOf, Bodies, ShowsLastWritten;
    ValidIsProper(pool);
    outs, views := [], [ViewOf(pool)];
    for k := 0 to |ops|
      invariant pool.Valid() && old(pool.device.writes) <= pool.device.writes
      invariant |outs| == k && Follows(pool.crc, views, ops[..k], outs)
      invariant views[0] == old(ViewOf(pool)) && views[k] == ViewOf(pool)
      invariant pool.amendedOnly <==> old(pool.amendedOnly) && RaisesLsns(views, ops[..k])
    {
      var out := Perform(pool, ops[k]);
      ValidIsProper(pool);
      outs := outs + [out];
      views := views + [ViewOf(pool)];
      assert ops[..k + 1] == ops[..k] + [ops[k]];
    }
    assert ops[..|ops|] == ops;
    SeenIsLastWritten(pool.crc, views, ops, outs);
  }
}
