/** The CLOCK sweep over the frames: who is passed over, who is chosen, and when nobody is. */
module Clock {
  import opened Bytes
  import opened Wrappers
  import opened Pages

  datatype Frame = Frame(pageId: Option<nat>, data: Page, pins: u32, dirty: bool, refBit: bool)

  const EMPTY_FRAME := Frame(None, ZERO_PAGE, 0, false, false)

  datatype Sweep = Victim(index: nat, frames: seq<Frame>, clock: nat) | Exhausted(frames: seq<Frame>, clock: nat)

  function Advance(clock: nat, n: nat): (r: nat)
    requires clock < n
    ensures r < n
  {
    if clock + 1 == n then 0 else clock + 1
  }

  /** At most `steps` frames are looked at; a referenced one loses its bit and gets a second chance. */
  function SweepFrom(frames: seq<Frame>, clock: nat, steps: nat): (r: Sweep)
    requires clock < |frames|
    ensures |r.frames| == |frames| && r.clock < |frames|
    ensures r.Victim? ==> r.index < |frames| && r.frames[r.index].pins == 0 && !r.frames[r.index].refBit
    decreases steps
  {
    if steps == 0 then Exhausted(frames, clock)
    else if frames[clock].pins > 0 then SweepFrom(frames, Advance(clock, |frames|), steps - 1)
    else if frames[clock].refBit then
      SweepFrom(frames[clock := frames[clock].(refBit := false)], Advance(clock, |frames|), steps - 1)
    else Victim(clock, frames, Advance(clock, |frames|))
  }

  /** The frame `k` places ahead of the hand. */
  function Ahead(clock: nat, k: nat, n: nat): (i: nat)
    requires clock < n && k <= n
    ensures i < n
  {
    if clock + k < n then clock + k else clock + k - n
  }

  /** How far ahead of the hand frame `i` is. */
  function Distance(clock: nat, i: nat, n: nat): (k: nat)
    requires clock < n && i < n
    ensures k < n && Ahead(clock, k, n) == i
  {
    if i >= clock then i - clock else i + n - clock
  }

  /** The frames after the hand has passed the next `k`: unpinned ones have lost their bit. */
  function Passed(frames: seq<Frame>, clock: nat, k: nat): (r: seq<Frame>)
    requires clock < |frames| && k <= |frames|
    ensures |r| == |frames|
    ensures forall i :: 0 <= i < |frames| ==>
              r[i] == if Distance(clock, i, |frames|) < k && frames[i].pins == 0 then frames[i].(refBit := false) else frames[i]
  {
    seq(|frames|, i requires 0 <= i < |frames| =>
      if Distance(clock, i, |frames|) < k && frames[i].pins == 0 then frames[i].(refBit := false) else frames[i])
  }

  predicate Free(f: Frame) {
    f.pins == 0
  }

  predicate FreeAndClear(f: Frame) {
    f.pins == 0 && !f.refBit
  }

  /** None of the next `k` frames is free with a clear bit. */
  predicate NoneClear(frames: seq<Frame>, clock: nat, k: nat)
    requires clock < |frames| && k <= |frames|
  {
    forall j :: 0 <= j < k ==> !FreeAndClear(frames[Ahead(clock, j, |frames|)])
  }

  /** What the hand leaves behind at a frame it does not choose. */
  function Nudge(frames: seq<Frame>, clock: nat): (r: seq<Frame>)
    requires clock < |frames|
    ensures |r| == |frames|
  {
    if frames[clock].pins > 0 then frames else frames[clock := frames[clock].(refBit := false)]
  }

  lemma NoneClearAfter(frames: seq<Frame>, clock: nat, k: nat)
    requires clock < |frames| && 0 < k <= |frames| && NoneClear(frames, clock, k)
    ensures NoneClear(Nudge(frames, clock), Advance(clock, |frames|), k - 1)
    ensures !FreeAndClear(frames[clock])
  {
    var n, clock' := |frames|, Advance(clock, |frames|);
    assert !FreeAndClear(frames[Ahead(clock, 0, n)]);
    forall j | 0 <= j < k - 1
      ensures !FreeAndClear(Nudge(frames, clock)[Ahead(clock', j, n)])
    {
      assert Ahead(clock', j, n) == Ahead(clock, j + 1, n);
      assert !FreeAndClear(frames[Ahead(clock, j + 1, n)]);
    }
  }

  lemma StepPasses(frames: seq<Frame>, clock: nat, k: nat)
    requires clock < |frames| && 0 < k <= |frames|
    ensures Passed(Nudge(frames, clock), Advance(clock, |frames|), k - 1) == Passed(frames, clock, k)
    ensures Ahead(Advance(clock, |frames|), k - 1, |frames|) == Ahead(clock, k, |frames|)
  {
  }

  lemma PassedNone(frames: seq<Frame>, clock: nat)
    requires clock < |frames|
    ensures Passed(frames, clock, 0) == frames && Ahead(clock, 0, |frames|) == clock
  {
  }

  lemma OneStep(frames: seq<Frame>, clock: nat, steps: nat)
    requires clock < |frames| && steps > 0 && !FreeAndClear(frames[clock])
    ensures SweepFrom(frames, clock, steps)
         == SweepFrom(Nudge(frames, clock), Advance(clock, |frames|), steps - 1)
  {
  }

  /** The hand walks past any stretch without a free, clear frame. */
  lemma {:induction false} WalkPast(frames: seq<Frame>, clock: nat, k: nat, steps: nat)
    requires clock < |frames| && k <= |frames| && k <= steps && NoneClear(frames, clock, k)
    ensures SweepFrom(frames, clock, steps)
         == SweepFrom(Passed(frames, clock, k), Ahead(clock, k, |frames|), steps - k)
    decreases k
  {
    hide *;
    if k == 0 {
      PassedNone(frames, clock);
    } else {
      NoneClearAfter(frames, clock, k);
      OneStep(frames, clock, steps);
      WalkPast(Nudge(frames, clock), Advance(clock, |frames|), k - 1, steps - 1);
      StepPasses(frames, clock, k);
    }
  }

  /** A free frame with a clear bit is chosen, the nearest one first, after no more than n steps. */
  lemma NearestClearIsChosen(frames: seq<Frame>, clock: nat, k: nat, steps: nat)
    requires clock < |frames| && k < |frames| && k < steps
    requires NoneClear(frames, clock, k) && FreeAndClear(frames[Ahead(clock, k, |frames|)])
    ensures var i := Ahead(clock, k, |frames|);
            SweepFrom(frames, clock, steps) == Victim(i, Passed(frames, clock, k), Advance(i, |frames|))
  {
    WalkPast(frames, clock, k, steps);
    var i := Ahead(clock, k, |frames|);
    assert Distance(clock, i, |frames|) == k;
    assert Passed(frames, clock, k)[i] == frames[i];
  }

  /** When every free frame has its bit set, the nearest free frame goes in the second round. */
  lemma NearestFreeIsChosen(frames: seq<Frame>, clock: nat, k: nat)
    requires clock < |frames| && k < |frames|
    requires NoneClear(frames, clock, |frames|)
    requires Free(frames[Ahead(clock, k, |frames|)])
    requires forall j :: 0 <= j < k ==> !Free(frames[Ahead(clock, j, |frames|)])
    ensures var i := Ahead(clock, k, |frames|);
            var all := Passed(frames, clock, |frames|);
            SweepFrom(frames, clock, 2 * |frames|) == Victim(i, all, Advance(i, |frames|))
  {
    var n := |frames|;
    var all := Passed(frames, clock, n);
    WalkPast(frames, clock, n, 2 * n);
    assert Ahead(clock, n, n) == clock;
    forall j | 0 <= j < k
      ensures !FreeAndClear(all[Ahead(clock, j, n)])
    {
      assert !Free(frames[Ahead(clock, j, n)]);
    }
    NearestClearIsChosen(all, clock, k, n);
    assert Passed(all, clock, k) == all;
  }

  /** The sweep gives up exactly when every frame is pinned, and then it has changed nothing. */
  lemma GivesUpIffAllPinned(frames: seq<Frame>, clock: nat)
    requires clock < |frames|
    ensures SweepFrom(frames, clock, 2 * |frames|).Exhausted? <==> forall i :: 0 <= i < |frames| ==> frames[i].pins > 0
    ensures SweepFrom(frames, clock, 2 * |frames|).Exhausted? ==>
              SweepFrom(frames, clock, 2 * |frames|) == Exhausted(frames, clock)
  {
    var n := |frames|;
    if forall i :: 0 <= i < n ==> frames[i].pins > 0 {
      WalkPast(frames, clock, n, 2 * n);
      assert Passed(frames, clock, n) == frames;
      WalkPast(frames, clock, n, n);
      assert Ahead(clock, n, n) == clock;
    } else {
      var k := NearestFree(frames, clock);
      if k' :| 0 <= k' < n && FreeAndClear(frames[Ahead(clock, k', n)]) {
        var c := NearestClear(frames, clock, k');
        NearestClearIsChosen(frames, clock, c, 2 * n);
      } else {
        NearestFreeIsChosen(frames, clock, k);
      }
    }
  }

  lemma NearestFree(frames: seq<Frame>, clock: nat) returns (k: nat)
    requires clock < |frames| && exists i :: 0 <= i < |frames| && frames[i].pins == 0
    ensures k < |frames| && Free(frames[Ahead(clock, k, |frames|)])
    ensures forall j :: 0 <= j < k ==> !Free(frames[Ahead(clock, j, |frames|)])
  {
    var i :| 0 <= i < |frames| && frames[i].pins == 0;
    var far := Distance(clock, i, |frames|);
    k := 0;
    while !Free(frames[Ahead(clock, k, |frames|)])
      invariant k <= far
      invariant forall j :: 0 <= j < k ==> !Free(frames[Ahead(clock, j, |frames|)])
      decreases far - k
    {
      k := k + 1;
    }
  }

  lemma NearestClear(frames: seq<Frame>, clock: nat, far: nat) returns (k: nat)
    requires clock < |frames| && far < |frames| && FreeAndClear(frames[Ahead(clock, far, |frames|)])
    ensures k <= far && FreeAndClear(frames[Ahead(clock, k, |frames|)]) && NoneClear(frames, clock, k)
  {
    k := 0;
    while !FreeAndClear(frames[Ahead(clock, k, |frames|)])
      invariant k <= far && NoneClear(frames, clock, k)
      decreases far - k
    {
      k := k + 1;
    }
  }

  /** A sweep touches nothing but reference bits, and none of a pinned frame's. */
  lemma {:induction false} SweepTouchesOnlyFreeBits(frames: seq<Frame>, clock: nat, steps: nat)
    requires clock < |frames|
    ensures var r := SweepFrom(frames, clock, steps);
            && |r.frames| == |frames|
            && forall i :: 0 <= i < |frames| ==>
                 r.frames[i] == frames[i] || (frames[i].pins == 0 && r.frames[i] == frames[i].(refBit := false))
    decreases steps
  {
    if steps > 0 && !FreeAndClear(frames[clock]) {
      if frames[clock].pins > 0 {
        SweepTouchesOnlyFreeBits(frames, Advance(clock, |frames|), steps - 1);
      } else {
        SweepTouchesOnlyFreeBits(frames[clock := frames[clock].(refBit := false)], Advance(clock, |frames|), steps - 1);
      }
    }
  }
}
