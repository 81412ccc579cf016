/** Clock eviction: the hand sweeps over the frames, ageing those nobody holds, until one can be taken. */
module Clock {
  import opened Keys
  import opened Pages
  import opened Arith

  const MAX_USAGE: nat := 5

  /** A buffer frame; a free one holds no page. */
  datatype Frame = Frame(free: bool, pageId: PageId, data: Bytes, pinCount: nat, usageCount: nat, dirty: bool,
                         evicting: bool)

  /** A frame that holds a page somebody has pinned. */
  predicate Busy(f: Frame) { !f.free && f.pinCount > 0 }

  /** How many steps after the start a frame's turn comes, when the hand starts at frame h of n. */
  function Turn(j: nat, h: nat, n: nat): nat
    requires j < n && h < n
  {
    if j >= h then j - h else j + n - h
  }

  /** How many steps ago a frame had its last turn, when s frames of the round have had theirs. */
  function Ago(j: nat, h: nat, n: nat, s: nat): nat
    requires j < n && h < n && s <= n
  {
    if Turn(j, h, n) < s then s - 1 - Turn(j, h, n) else s + n - 1 - Turn(j, h, n)
  }

  /** The frame the hand points to. */
  function At(hand: nat, n: nat): (i: nat)
    requires n > 0
    ensures i < n
  {
    hand % n
  }

  lemma HandMoves(hand: nat, n: nat)
    requires n > 0
    ensures At(hand + 1, n) == if At(hand, n) + 1 == n then 0 else At(hand, n) + 1
  {
    var q, r := hand / n, hand % n;
    assert hand + 1 == q * n + (r + 1);
    if r + 1 == n {
      assert hand + 1 == (q + 1) * n;
      Division(q + 1, 0, n);
    } else {
      Division(q, r + 1, n);
    }
  }

  /** A 32-bit hand points to the same frame as an unbounded one if the number of frames divides 2^32. */
  lemma NarrowHand(hand: nat, n: nat, k: nat)
    requires n > 0 && n * k == 0x1_0000_0000
    ensures (hand % 0x1_0000_0000) % n == hand % n
  {
    var q, r := hand / 0x1_0000_0000, hand % 0x1_0000_0000;
    assert hand == r + n * (k * q);
    Multiples(r, n, k * q);
  }

  /** Only usage counts of frames without a holder have changed. */
  predicate Aged(before: Frame, after: Frame) {
    after == before.(usageCount := after.usageCount) && after.usageCount <= before.usageCount
        && (Busy(before) ==> after == before)
  }

  /** Where the sweep stands: r full rounds and s further frames, none of which could be taken. */
  ghost predicate Swept(f0: seq<Frame>, f: seq<Frame>, h: nat, r: nat, s: nat) {
    && |f| == |f0| && h < |f0| && s < |f0|
    && forall j :: 0 <= j < |f0| ==>
         && Aged(f0[j], f[j])
         && (Turn(j, h, |f0|) < s || r > 0 ==> !f0[j].free)
         && (!f0[j].free && f0[j].pinCount == 0 ==>
             f[j].usageCount + r + (if Turn(j, h, |f0|) < s then 1 else 0) == f0[j].usageCount)
  }

  /** The last w frames visited were all busy. */
  ghost predicate BusyWindow(f0: seq<Frame>, h: nat, s: nat, w: nat) {
    h < |f0| && s <= |f0| && forall j :: 0 <= j < |f0| && Ago(j, h, |f0|, s) < w ==> Busy(f0[j])
  }

  ghost predicate AllBusy(f0: seq<Frame>) { forall j :: 0 <= j < |f0| ==> Busy(f0[j]) }

  /** v visits make r rounds of n frames and s more. */
  ghost predicate Rounds(v: nat, r: nat, s: nat, n: nat) { s < n && v == r * n + s }

  lemma AtMost(v: nat, r: nat, s: nat, n: nat)
    requires Rounds(v, r, s, n) && r <= MAX_USAGE
    ensures v < (MAX_USAGE + 1) * n
  {
    assert r * n <= MAX_USAGE * n;
  }

  lemma Bounded(f0: seq<Frame>, f: seq<Frame>, h: nat, r: nat, s: nat, v: nat)
    requires Swept(f0, f, h, r, s) && !AllBusy(f0) && Rounds(v, r, s, |f0|) && NoneEvicting(f0)
    ensures v < (MAX_USAGE + 1) * |f0|
  {
    hide Rounds;
    var j :| 0 <= j < |f0| && !Busy(f0[j]);
    assert r <= MAX_USAGE;
    AtMost(v, r, s, |f0|);
  }

  /** One more busy frame: the window grows. */
  lemma WindowGrows(f0: seq<Frame>, h: nat, s: nat, w: nat, i: nat)
    requires BusyWindow(f0, h, s, w) && s < |f0| && i < |f0| && Turn(i, h, |f0|) == s && Busy(f0[i])
    ensures BusyWindow(f0, h, NextStep(s, |f0|), w + 1)
  {
    var n := |f0|;
    forall j | 0 <= j < n && Ago(j, h, n, NextStep(s, n)) < w + 1 ensures Busy(f0[j]) {
      if j != i { assert Ago(j, h, n, s) < w; }
    }
  }

  function NextRound(r: nat, s: nat, n: nat): nat { if s + 1 == n then r + 1 else r }
  function NextStep(s: nat, n: nat): nat { if s + 1 == n then 0 else s + 1 }

  /** A visit that takes nothing: the frame was busy, or it got older. */
  lemma SweptOn(f0: seq<Frame>, f: seq<Frame>, h: nat, r: nat, s: nat, i: nat, frame: Frame)
    requires Swept(f0, f, h, r, s) && i < |f0| && Turn(i, h, |f0|) == s && !f[i].free
    requires if f[i].pinCount > 0 then frame == f[i]
             else f[i].usageCount > 0 && frame == f[i].(usageCount := f[i].usageCount - 1)
    ensures Swept(f0, f[i := frame], h, NextRound(r, s, |f0|), NextStep(s, |f0|))
  {
    var n := |f0|;
    var f' := f[i := frame];
    forall j | 0 <= j < n
      ensures Aged(f0[j], f'[j])
      ensures Turn(j, h, n) < NextStep(s, n) || NextRound(r, s, n) > 0 ==> !f0[j].free
      ensures !f0[j].free && f0[j].pinCount == 0 ==>
                f'[j].usageCount + NextRound(r, s, n) + (if Turn(j, h, n) < NextStep(s, n) then 1 else 0) ==
                    f0[j].usageCount
    {
      assert Aged(f0[j], f[j]);
      if j != i { assert f'[j] == f[j] && Turn(j, h, n) != s; }
    }
  }

  lemma SweptStart(f0: seq<Frame>, h: nat)
    requires h < |f0|
    ensures Swept(f0, f0, h, 0, 0) && BusyWindow(f0, h, 0, 0)
  {
  }

  lemma SweptAt(f0: seq<Frame>, f: seq<Frame>, h: nat, r: nat, s: nat, i: nat)
    requires Swept(f0, f, h, r, s) && i < |f0| && NoneEvicting(f0)
    ensures |f| == |f0| && s < |f0| && h < |f0| && !f[i].evicting && f[i].free == f0[i].free
            && f[i].pinCount == f0[i].pinCount
    ensures AllBusy(f0) ==> Busy(f[i])
    ensures Busy(f[i]) ==> Busy(f0[i])
  {
  }

  ghost predicate NoneEvicting(f: seq<Frame>) {
    forall j :: 0 <= j < |f| ==> !f[j].evicting && f[j].usageCount <= MAX_USAGE
  }

  /** What one call did to the frames. */
  ghost predicate Outcome(f0: seq<Frame>, f: seq<Frame>, ok: bool, victim: nat) {
    && |f| == |f0| && (ok ==> victim < |f0|)
    && forall j :: 0 <= j < |f0| ==> Aged(f0[j], f[j].(evicting := false)) && (f[j].evicting <==> ok && j == victim)
  }

  /** Every frame has been busy in a full window. */
  lemma FullWindow(f0: seq<Frame>, h: nat, s: nat)
    requires BusyWindow(f0, h, s, |f0|)
    ensures AllBusy(f0)
  {
    forall j | 0 <= j < |f0| ensures Busy(f0[j]) { assert Ago(j, h, |f0|, s) < |f0|; }
  }

  lemma NoWindow(f0: seq<Frame>, h: nat, s: nat)
    requires h < |f0| && s < |f0|
    ensures BusyWindow(f0, h, NextStep(s, |f0|), 0)
  {
  }

  lemma TurnMoves(i: nat, h: nat, n: nat)
    requires i < n && h < n
    ensures Turn(if i + 1 == n then 0 else i + 1, h, n) == NextStep(Turn(i, h, n), n)
  {
  }

  lemma Visited(v: nat, r: nat, s: nat, n: nat)
    requires Rounds(v, r, s, n)
    ensures Rounds(v + 1, NextRound(r, s, n), NextStep(s, n), n)
  {
    if s + 1 == n { assert (r + 1) * n == r * n + n; }
  }

  /** After v visits that took nothing, frame i was taken. */
  ghost predicate AgedBy(f0: seq<Frame>, f: seq<Frame>, hand: nat, v: nat, i: nat) {
    && |f| == |f0| && i < |f0|
    && exists r: nat, s: nat :: Rounds(v, r, s, |f0|) && Swept(f0, f[i := f[i].(evicting := false)], At(hand, |f0|),
                                                               r, s)
  }

  lemma TakenAfter(f0: seq<Frame>, f: seq<Frame>, f1: seq<Frame>, hand: nat, v: nat, r: nat, s: nat, i: nat)
    requires |f0| > 0 && Swept(f0, f, At(hand, |f0|), r, s) && Rounds(v, r, s, |f0|) && i < |f| && !f[i].evicting
    requires f1 == f[i := f[i].(evicting := true)]
    ensures AgedBy(f0, f1, hand, v, i)
  {
    hide Swept, Rounds;
    SweptSize(f0, f, At(hand, |f0|), r, s);
    assert f1[i := f1[i].(evicting := false)] == f;
  }

  lemma SweptSize(f0: seq<Frame>, f: seq<Frame>, h: nat, r: nat, s: nat)
    requires Swept(f0, f, h, r, s)
    ensures |f| == |f0|
  {
  }

  /** Where the loop of evictFrame stands: after v visits that took nothing, the hand at its next frame. */
  ghost predicate Sweeping(f0: seq<Frame>, f: seq<Frame>, start: nat, v: nat, r: nat, s: nat, tries: nat) {
    && |f0| > 0 && NoneEvicting(f0) && 0 < tries <= |f0|
    && Swept(f0, f, At(start, |f0|), r, s) && BusyWindow(f0, At(start, |f0|), s, |f0| - tries)
    && Rounds(v, r, s, |f0|) && Turn(At(start + v, |f0|), At(start, |f0|), |f0|) == s
    && (AllBusy(f0) ==> v == |f0| - tries)
  }

  lemma SweepBegins(f0: seq<Frame>, start: nat)
    requires |f0| > 0 && NoneEvicting(f0)
    ensures Sweeping(f0, f0, start, 0, 0, 0, |f0|)
  {
    hide Swept, BusyWindow, AllBusy, Turn, Rounds, At, NoneEvicting;
    SweptStart(f0, At(start, |f0|));
    TurnStart(At(start, |f0|), |f0|);
  }

  /** The hand has not run out of visits, and the frame it points to is not being evicted. */
  lemma SweepAt(f0: seq<Frame>, f: seq<Frame>, start: nat, v: nat, r: nat, s: nat, tries: nat)
    requires Sweeping(f0, f, start, v, r, s, tries)
    ensures |f| == |f0| && 0 < tries <= |f0| && v < (MAX_USAGE + 1) * |f0| && !f[At(start + v, |f0|)].evicting
  {
    hide Swept, BusyWindow, AllBusy, Turn, Rounds, At, NoneEvicting, Busy;
    SweptAt(f0, f, At(start, |f0|), r, s, At(start + v, |f0|));
    if !AllBusy(f0) { Bounded(f0, f, At(start, |f0|), r, s, v); }
  }

  lemma HandTurns(start: nat, v: nat, r: nat, s: nat, n: nat)
    requires n > 0 && Rounds(v, r, s, n) && Turn(At(start + v, n), At(start, n), n) == s
    ensures Rounds(v + 1, NextRound(r, s, n), NextStep(s, n), n)
    ensures Turn(At(start + (v + 1), n), At(start, n), n) == NextStep(s, n)
  {
    hide Turn, Rounds, At;
    Visited(v, r, s, n);
    TurnMoves(At(start + v, n), At(start, n), n);
    HandMoves(start + v, n);
  }

  lemma SweepOlder(f0: seq<Frame>, f: seq<Frame>, start: nat, v: nat, r: nat, s: nat, tries: nat, i: nat)
    requires Sweeping(f0, f, start, v, r, s, tries) && i == At(start + v, |f0|) && i < |f|
    requires !f[i].free && f[i].pinCount == 0 && f[i].usageCount > 0
    ensures Sweeping(f0, f[i := f[i].(usageCount := f[i].usageCount - 1)], start, v + 1, NextRound(r, s, |f0|),
                     NextStep(s, |f0|), |f0|)
  {
    hide Swept, BusyWindow, AllBusy, Turn, Rounds, At, NoneEvicting, NextRound, NextStep;
    var h := At(start, |f0|);
    SweptAt(f0, f, h, r, s, i);
    HandTurns(start, v, r, s, |f0|);
    SweptOn(f0, f, h, r, s, i, f[i].(usageCount := f[i].usageCount - 1));
    NoWindow(f0, h, s);
  }

  lemma SkipsOn(f0: seq<Frame>, f: seq<Frame>, h: nat, r: nat, s: nat, w: nat, i: nat)
    requires Swept(f0, f, h, r, s) && BusyWindow(f0, h, s, w) && NoneEvicting(f0) && i < |f0| && i < |f|
    requires h < |f0| && Turn(i, h, |f0|) == s && Busy(f[i])
    ensures Swept(f0, f, h, NextRound(r, s, |f0|), NextStep(s, |f0|)) && BusyWindow(f0, h, NextStep(s, |f0|), w + 1)
  {
    hide Swept, BusyWindow, AllBusy, Turn, NoneEvicting, NextRound, NextStep;
    SweptAt(f0, f, h, r, s, i);
    SweptOn(f0, f, h, r, s, i, f[i]);
    assert f[i := f[i]] == f;
    WindowGrows(f0, h, s, w, i);
  }

  lemma SweepSkips(f0: seq<Frame>, f: seq<Frame>, start: nat, v: nat, r: nat, s: nat, tries: nat, i: nat)
    requires Sweeping(f0, f, start, v, r, s, tries) && i == At(start + v, |f0|) && i < |f| && Busy(f[i]) && tries > 1
    ensures Sweeping(f0, f, start, v + 1, NextRound(r, s, |f0|), NextStep(s, |f0|), tries - 1)
  {
    hide Swept, BusyWindow, AllBusy, Turn, Rounds, At, NoneEvicting, NextRound, NextStep, Busy;
    HandTurns(start, v, r, s, |f0|);
    SkipsOn(f0, f, At(start, |f0|), r, s, |f0| - tries, i);
  }

  /** The last try met a busy frame too: all of them are busy. */
  lemma SweepEnds(f0: seq<Frame>, f: seq<Frame>, start: nat, v: nat, r: nat, s: nat, i: nat)
    requires Sweeping(f0, f, start, v, r, s, 1) && i == At(start + v, |f0|) && i < |f| && Busy(f[i])
    ensures AllBusy(f0) && Outcome(f0, f, false, 0)
  {
    hide Swept, BusyWindow, AllBusy, Turn, Rounds, At, NoneEvicting, NextRound, NextStep, Busy, Outcome;
    SkipsOn(f0, f, At(start, |f0|), r, s, |f0| - 1, i);
    FullWindow(f0, At(start, |f0|), NextStep(s, |f0|));
    NobodyTaken(f0, f, At(start, |f0|), r, s);
  }

  lemma SweepTakes(f0: seq<Frame>, f: seq<Frame>, f1: seq<Frame>, start: nat, v: nat, r: nat, s: nat, tries: nat,
                   i: nat)
    requires Sweeping(f0, f, start, v, r, s, tries) && i == At(start + v, |f0|) && i < |f|
    requires !Busy(f[i]) && f1 == f[i := f[i].(evicting := true)]
    ensures !AllBusy(f0) && Outcome(f0, f1, true, i) && AgedBy(f0, f1, start, v, i)
    ensures i < |f0| && f[i].free == f0[i].free && f[i].pinCount == f0[i].pinCount
  {
    hide Swept, BusyWindow, AllBusy, Turn, Rounds, At, NoneEvicting, AgedBy, Outcome, Busy;
    SweptAt(f0, f, At(start, |f0|), r, s, i);
    TakenAfter(f0, f, f1, start, v, r, s, i);
    TakenOnly(f0, f, f1, At(start, |f0|), r, s, i);
  }

  /** evictFrame. It stops within (maxUsageCount + 1) visits to each frame, it says the pool is exhausted
      exactly when every frame is busy, and it never takes a pinned frame. The frame it takes is the one
      whose turn it is, free or not used since the hand last wore it down, and every other frame has aged
      by exactly the visits it had. */
  method EvictFrame(frames: array<Frame>, hand: nat) returns (hand': nat, victim: nat, ok: bool)
    requires frames.Length > 0
    requires NoneEvicting(frames[..])
    modifies frames
    ensures hand <= hand' <= hand + (MAX_USAGE + 1) * frames.Length
    ensures !ok <==> AllBusy(old(frames[..]))
    ensures Outcome(old(frames[..]), frames[..], ok, victim)
    ensures ok ==>
              victim < frames.Length && (old(frames[victim]).free || (old(frames[victim]).pinCount == 0
                                                                      && frames[victim].usageCount == 0))
    ensures ok ==>
              hand' > hand && victim == At(hand' - 1, frames.Length)
              && AgedBy(old(frames[..]), frames[..], hand, hand' - hand - 1, victim)
  {
    hide Sweeping, AllBusy, NextRound, NextStep, AgedBy, At, NoneEvicting, Outcome;
    var n := frames.Length;
    ghost var f0 := frames[..];
    ghost var r: nat, s: nat, v: nat := 0, 0, 0;
    var tries: nat := n;
    hand', victim, ok := hand, 0, false;
    SweepBegins(f0, hand);
    while true
      invariant hand' == hand + v && Sweeping(f0, frames[..], hand, v, r, s, tries)
      decreases (MAX_USAGE + 1) * n - v
    {
      var i := At(hand', n);
      ghost var f := frames[..];
      SweepAt(f0, f, hand, v, r, s, tries);
      hand' := hand' + 1;
      var what := Visit(frames, i);
      if what == Taken {
        SweepTakes(f0, f, frames[..], hand, v, r, s, tries, i);
        return hand', i, true;
      }
      if what == Older {
        SweepOlder(f0, f, hand, v, r, s, tries, i);
        tries := n;
      } else {
        tries := tries - 1;
        if tries == 0 {
          SweepEnds(f0, f, hand, v, r, s, i);
          return hand', 0, false;
        }
        SweepSkips(f0, f, hand, v, r, s, tries + 1, i);
      }
      r, s, v := NextRound(r, s, n), NextStep(s, n), v + 1;
    }
  }

  datatype TurnResult = Taken | Older | Skipped

  /** One turn of one frame. */
  method Visit(frames: array<Frame>, i: nat) returns (what: TurnResult)
    requires i < frames.Length && !frames[i].evicting
    modifies frames
    ensures what == (if old(frames[i]).free || (old(frames[i]).pinCount == 0 && old(frames[i]).usageCount == 0)
                     then Taken
                     else if old(frames[i]).pinCount == 0 then Older else Skipped)
    ensures what == Taken ==> frames[..] == old(frames[..])[i := old(frames[i]).(evicting := true)]
    ensures what == Older ==>
              frames[..] == old(frames[..])[i := old(frames[i]).(usageCount := old(frames[i]).usageCount - 1)]
    ensures what == Skipped ==> frames[..] == old(frames[..]) == old(frames[..])[i := old(frames[i])]
    ensures what == Skipped <==> Busy(old(frames[i]))
  {
    var frame := frames[i];
    if frame.free {
      frames[i] := frame.(evicting := true);
      return Taken;
    }
    if frame.pinCount == 0 {
      if frame.usageCount != 0 {
        frames[i] := frame.(usageCount := frame.usageCount - 1);
        return Older;
      }
      frames[i] := frame.(evicting := true);
      return Taken;
    }
    return Skipped;
  }

  lemma TakenOnly(f0: seq<Frame>, f: seq<Frame>, f1: seq<Frame>, h: nat, r: nat, s: nat, i: nat)
    requires Swept(f0, f, h, r, s) && NoneEvicting(f0) && i < |f| && f1 == f[i := f[i].(evicting := true)]
    ensures Outcome(f0, f1, true, i)
  {
  }

  lemma NobodyTaken(f0: seq<Frame>, f: seq<Frame>, h: nat, r: nat, s: nat)
    requires Swept(f0, f, h, r, s) && NoneEvicting(f0)
    ensures Outcome(f0, f, false, 0)
  {
  }

  lemma TurnStart(h: nat, n: nat)
    requires h < n
    ensures Turn(h, h, n) == 0 && Rounds(0, 0, 0, n)
  {
  }
}
