/**
 Single steps of the record player: which frames a press of the forward or the backward
 button shows, whatever the feed thread does while the button is being handled.
 */
module FlvSteps {
  import opened FlvFormat
  import opened FlvTimeline

  // ---------------------------------------------------------------- frames shown

  /** The frames of a log that were delivered with play on. */
  function ShownFrames(tags: seq<Tag>, log: seq<Delivery>): seq<nat> {
    if log == [] then []
    else
      var d := log[|log| - 1];
      ShownFrames(tags, log[..|log| - 1])
      + (if d.tag < |tags| && IsFrame(tags[d.tag]) && d.play then [d.tag] else [])
  }

  lemma {:induction false} ShownFramesAppend(tags: seq<Tag>, log: seq<Delivery>, d: Delivery)
    ensures ShownFrames(tags, log + [d])
            == ShownFrames(tags, log) + (if d.tag < |tags| && IsFrame(tags[d.tag]) && d.play then [d.tag] else [])
  {
    assert (log + [d])[..|log|] == log;
  }

  /** What feeding the tag at the player's position shows. */
  function ShownNow(tags: seq<Tag>, p: Player): seq<nat> {
    if 0 <= p.pos < |tags| && IsFrame(tags[p.pos]) && Delivers(tags[p.pos], p.needI) && !p.regulating then [p.pos]
    else []
  }

  lemma {:induction false} FeedShows(tags: seq<Tag>, p: Player)
    requires Positioned(tags, p)
    ensures ShownFrames(tags, FeedStep(tags, p).log) == ShownFrames(tags, p.log) + ShownNow(tags, p)
  {
    if 0 <= p.pos < |tags| && Delivers(tags[p.pos], p.needI) {
      ShownFramesAppend(tags, p.log, Delivery(p.pos, !p.regulating));
    } else {
      assert ShownFrames(tags, p.log) + [] == ShownFrames(tags, p.log);
    }
  }

  /** The first frame at or after `lo`, or the number of tags. */
  function NextFrame(tags: seq<Tag>, lo: int): (f: nat)
    requires -1 <= lo <= |tags|
    ensures lo <= f <= |tags|
    ensures f < |tags| ==> IsFrame(tags[f])
    ensures NoFrameIn(tags, lo, f)
    decreases |tags| - lo
  {
    if lo == |tags| || (lo >= 0 && IsFrame(tags[lo])) then lo else NextFrame(tags, lo + 1)
  }

  /** Frame `f` is shown unless it must wait for an I frame; there is none at the end of the file. */
  function FrameShown(tags: seq<Tag>, f: nat, needI: bool): seq<nat> {
    if f < |tags| && (IsI(tags[f]) || !needI) then [f] else []
  }

  /** The same for the next frame from `pos` on. */
  function NextShown(tags: seq<Tag>, pos: int, needI: bool): seq<nat>
    requires -1 <= pos <= |tags|
  {
    FrameShown(tags, NextFrame(tags, pos), needI)
  }

  ghost predicate CanStep(tags: seq<Tag>, p: Player) {
    Positioned(tags, p) && (p.regulating ==> ReplayOnCourse(tags, p))
  }

  /** The frame a step requested now is for: a silent replay first runs to its target. */
  ghost function StepFrame(tags: seq<Tag>, p: Player): (f: nat)
    requires CanStep(tags, p)
    ensures p.pos <= f <= |tags|
    ensures f < |tags| ==> IsFrame(tags[f])
  {
    NextFrame(tags, if p.regulating then p.target else p.pos)
  }

  /** Whether that frame must wait for an I frame unless it is one. */
  predicate StepNeedsI(p: Player) {
    !p.regulating && p.needI
  }

  /** What a requested step shows. */
  ghost function StepShows(tags: seq<Tag>, p: Player): seq<nat>
    requires CanStep(tags, p)
  {
    FrameShown(tags, StepFrame(tags, p), StepNeedsI(p))
  }

  /** A step has been dealt with: the loop idles or the file has ended. */
  predicate AtRest(tags: seq<Tag>, p: Player) {
    Idle(p) || p.pos == |tags|
  }

  lemma {:induction false} NextFrameSkips(tags: seq<Tag>, lo: nat, hi: nat)
    requires lo <= hi <= |tags| && NoFrameIn(tags, lo, hi)
    ensures NextFrame(tags, lo) == NextFrame(tags, hi)
    decreases hi - lo
  {
    if lo == hi {
    } else {
      NextFrameSkips(tags, lo + 1, hi);
    }
  }

  /** An iteration of a silent replay shows nothing and leaves what a step will show as it was. */
  lemma {:induction false} ReplayCountsDown(tags: seq<Tag>, p: Player)
    requires p.regulating && CanStep(tags, p)
    ensures var q := FeedStep(tags, p);
            && q.pos == p.pos + 1 <= p.target && q.pause == p.pause && q.stepOne == p.stepOne
            && CanStep(tags, q) && ShownNow(tags, p) == []
            && StepFrame(tags, q) == StepFrame(tags, p) && StepNeedsI(q) == StepNeedsI(p)
  {
    var q := FeedStep(tags, p);
    assert CountVideo(tags, p.pos, p.target)
           == (if IsVideo(tags[p.pos]) then 1 else 0) + CountVideo(tags, p.pos + 1, p.target);
    NoVideoCounted(tags, p.pos + 1, p.target);
    if !q.regulating {
      NextFrameSkips(tags, q.pos, p.target);
    }
  }

  /** One iteration of a step: the frame ends it, any other tag leaves what it shows open. */
  lemma {:induction false} StepFeedsOne(tags: seq<Tag>, p: Player)
    requires Positioned(tags, p) && p.pos < |tags| && p.pause && p.stepOne && !p.regulating
    ensures var q := FeedStep(tags, p);
            && q.pause && !q.regulating && q.pos == p.pos + 1
            && if q.stepOne then
                 && NextFrame(tags, q.pos) == NextFrame(tags, p.pos)
                 && NextShown(tags, q.pos, q.needI) == NextShown(tags, p.pos, p.needI)
                 && ShownNow(tags, p) == []
                 && FrameLog(tags, q.log) == FrameLog(tags, p.log)
               else
                 && NextFrame(tags, p.pos) == p.pos
                 && NextShown(tags, p.pos, p.needI) == ShownNow(tags, p)
                 && FrameLog(tags, q.log) == FrameLog(tags, p.log) + ShownNow(tags, p)
  {
    if p.pos >= 0 && Delivers(tags[p.pos], p.needI) {
      FrameLogAppend(tags, p.log, Delivery(p.pos, true));
    } else {
      assert FrameLog(tags, p.log) + [] == FrameLog(tags, p.log);
    }
  }

  /**
   A paused player with a step requested and no replay shows its next frame and idles, or
   reaches the end of the file. A frame that must wait for an I frame uses up the step
   undelivered.
   */
  lemma {:induction false} StepShowsNext(tags: seq<Tag>, p: Player)
    requires Positioned(tags, p) && p.pause && p.stepOne && !p.regulating
    ensures var q, shown := FeedUntilIdle(tags, p), NextShown(tags, p.pos, p.needI);
            && !q.regulating
            && (if NextFrame(tags, p.pos) < |tags| then Idle(q) else q.pos == |tags|)
            && ShownFrames(tags, q.log) == ShownFrames(tags, p.log) + shown
            && FrameLog(tags, q.log) == FrameLog(tags, p.log) + shown
    decreases |tags| - p.pos
  {
    if p.pos == |tags| {
      assert ShownFrames(tags, p.log) + [] == ShownFrames(tags, p.log);
      assert FrameLog(tags, p.log) + [] == FrameLog(tags, p.log);
    } else {
      FeedShows(tags, p);
      StepFeedsOne(tags, p);
      var q := FeedStep(tags, p);
      assert FeedUntilIdle(tags, p) == FeedUntilIdle(tags, q);
      if q.stepOne {
        assert ShownFrames(tags, p.log) + [] == ShownFrames(tags, p.log);
        StepShowsNext(tags, q);
      }
    }
  }

  /** A paused player with a step requested, replaying or not, shows exactly what it must. */
  lemma {:induction false} StepShowsFrame(tags: seq<Tag>, p: Player)
    requires CanStep(tags, p) && p.pause && p.stepOne
    ensures var q := FeedUntilIdle(tags, p);
            && ShownFrames(tags, q.log) == ShownFrames(tags, p.log) + StepShows(tags, p)
            && AtRest(tags, q) && !q.regulating
            && (p.regulating && IsFrame(tags[p.target]) ==> StepShows(tags, p) == [p.target] && Idle(q))
    decreases |tags| - p.pos
  {
    if !p.regulating {
      StepShowsNext(tags, p);
    } else {
      FeedShows(tags, p);
      ReplayCountsDown(tags, p);
      var q := FeedStep(tags, p);
      assert FeedUntilIdle(tags, p) == FeedUntilIdle(tags, q);
      assert ShownFrames(tags, p.log) + [] == ShownFrames(tags, p.log);
      if q.regulating {
        StepShowsFrame(tags, q);
      } else {
        StepShowsNext(tags, q);
      }
    }
  }

  // ---------------------------------------------------------------- the feed thread meanwhile

  predicate IsFeed(a: Action) {
    a.PassGate? || a.Iterate?
  }

  /** Only the feed thread steps in actions i..j. */
  predicate OnlyFeeds(actions: seq<Action>, i: nat, j: nat) {
    forall k :: i <= k < j && k < |actions| ==> IsFeed(actions[k])
  }

  /** An iteration comes between actions i and j. */
  predicate Iterates(actions: seq<Action>, i: nat, j: nat) {
    exists k :: i <= k < j && k < |actions| && actions[k] == Iterate
  }

  /**
   While the player is paused with no step pending, the gate is shut: the feed thread can
   do the one iteration it may be past its gate for, and no other.
   */
  lemma {:induction false} FeedsWhilePaused(
      tags: seq<Tag>, states: seq<System>, actions: seq<Action>, i: nat, j: nat)
    requires IsRun(tags, states, actions) && i <= j <= |actions|
    requires Idle(states[i].player) && Positioned(tags, states[i].player)
    requires OnlyFeeds(actions, i, j)
    ensures states[j] == if Iterates(actions, i, j) then System(FeedStep(tags, states[i].player), false) else states[i]
    decreases j
  {
    if i == j {
    } else {
      FeedsWhilePaused(tags, states, actions, i, j - 1);
      assert Next(tags, states[j - 1], actions[j - 1], states[j]);
      assert Iterates(actions, i, j) <==> Iterates(actions, i, j - 1) || actions[j - 1] == Iterate;
    }
  }

  /** The feed thread left alone takes the player where feeding until idle does. */
  lemma {:induction false} FeedsToIdle(
      tags: seq<Tag>, states: seq<System>, actions: seq<Action>, i: nat, j: nat)
    requires IsRun(tags, states, actions) && i <= j <= |actions|
    requires Positioned(tags, states[i].player) && (states[i].armed ==> !Idle(states[i].player))
    requires OnlyFeeds(actions, i, j)
    ensures Positioned(tags, states[j].player) && (states[j].armed ==> !Idle(states[j].player))
    ensures FeedUntilIdle(tags, states[j].player) == FeedUntilIdle(tags, states[i].player)
    decreases j
  {
    if i == j {
    } else {
      FeedsToIdle(tags, states, actions, i, j - 1);
      assert Next(tags, states[j - 1], actions[j - 1], states[j]);
    }
  }

  // ---------------------------------------------------------------- a step request

  /**
   The feed thread on its way from player `q` to a step request. Either it has not fed the
   frame `q` would step to, and nothing is shown yet; or it has, that is what is shown, and
   the gate has shut behind it.
   */
  ghost predicate OnTheWay(tags: seq<Tag>, q: Player, s: System)
    requires CanStep(tags, q)
  {
    var r, f := s.player, StepFrame(tags, q);
    && r.pause && CanStep(tags, r)
    && if r.pos <= f then
         && StepFrame(tags, r) == f && StepNeedsI(r) == StepNeedsI(q)
         && ShownFrames(tags, r.log) == ShownFrames(tags, q.log)
       else
         && f < |tags| && r.pos == f + 1
         && !r.regulating && !r.stepOne && !s.armed && r.needI == (StepNeedsI(q) && !IsI(tags[f]))
         && ShownFrames(tags, r.log) == ShownFrames(tags, q.log) + StepShows(tags, q)
  }

  /** An iteration of a player that is not replaying. */
  lemma {:induction false} PlainFeed(tags: seq<Tag>, r: Player)
    requires CanStep(tags, r) && !r.regulating && r.pause
    ensures var n, f := FeedStep(tags, r), StepFrame(tags, r);
            && !n.regulating && n.pause && CanStep(tags, n)
            && if r.pos < f || f == |tags| then
                 n.pos <= f && StepFrame(tags, n) == f && n.needI == r.needI && ShownNow(tags, r) == []
               else
                 && n.pos == f + 1 && !n.stepOne && n.needI == (r.needI && !IsI(tags[f]))
                 && ShownNow(tags, r) == StepShows(tags, r)
  {
  }

  lemma {:induction false} IterateOnTheWay(tags: seq<Tag>, q: Player, s: System)
    requires CanStep(tags, q) && OnTheWay(tags, q, s) && s.armed
    ensures OnTheWay(tags, q, System(FeedStep(tags, s.player), false))
  {
    var r := s.player;
    FeedShows(tags, r);
    if r.regulating {
      ReplayCountsDown(tags, r);
    } else {
      PlainFeed(tags, r);
    }
  }

  lemma {:induction false} FeedsOnTheWay(
      tags: seq<Tag>, states: seq<System>, actions: seq<Action>, i: nat, j: nat)
    requires IsRun(tags, states, actions) && i <= j <= |actions|
    requires CanStep(tags, states[i].player) && states[i].player.pause
    requires OnlyFeeds(actions, i, j)
    ensures OnTheWay(tags, states[i].player, states[j])
    decreases j
  {
    if i == j {
    } else {
      FeedsOnTheWay(tags, states, actions, i, j - 1);
      assert Next(tags, states[j - 1], actions[j - 1], states[j]);
      if actions[j - 1] == Iterate {
        IterateOnTheWay(tags, states[i].player, states[j - 1]);
      }
    }
  }

  /** From the step request on. */
  lemma {:induction false} StepRuns(tags: seq<Tag>, states: seq<System>, actions: seq<Action>, m: nat)
    requires IsRun(tags, states, actions) && m < |actions|
    requires actions[m] == RequestStep && OnlyFeeds(actions, m + 1, |actions|)
    requires Positioned(tags, states[m].player) && AtRest(tags, states[|actions|].player)
    ensures states[|actions|].player == FeedUntilIdle(tags, states[m].player.(stepOne := true))
  {
    assert Next(tags, states[m], actions[m], states[m + 1]);
    FeedsToIdle(tags, states, actions, m + 1, |actions|);
  }

  /** Frame `f`, and if it was fed too early for the step request, the frame after it. */
  function FramesShown(tags: seq<Tag>, f: nat, needI: bool, early: bool): seq<nat> {
    FrameShown(tags, f, needI)
    + if early && f < |tags| then NextShown(tags, f + 1, needI && !IsI(tags[f])) else []
  }

  /**
   A step is requested as action `m` of a player paused in state `i`, replaying or not,
   with an earlier step pending or not, and with only the feed thread acting before and
   after. Shown are the frame state `i` would step to and, if that was fed before the
   request, the frame after it.
   */
  lemma {:induction false} RequestShows(
      tags: seq<Tag>, states: seq<System>, actions: seq<Action>, i: nat, m: nat)
    requires IsRun(tags, states, actions) && i <= m < |actions|
    requires CanStep(tags, states[i].player) && states[i].player.pause
    requires OnlyFeeds(actions, i, m) && actions[m] == RequestStep && OnlyFeeds(actions, m + 1, |actions|)
    requires AtRest(tags, states[|actions|].player)
    ensures var q := states[i].player;
            var f := StepFrame(tags, q);
            ShownFrames(tags, states[|actions|].player.log)
            == ShownFrames(tags, q.log) + FramesShown(tags, f, StepNeedsI(q), states[m].player.pos > f)
  {
    var q, r := states[i].player, states[m].player;
    FeedsOnTheWay(tags, states, actions, i, m);
    StepRuns(tags, states, actions, m);
    StepShowsFrame(tags, r.(stepOne := true));
    var f := StepFrame(tags, q);
    var first, last := StepShows(tags, q), StepShows(tags, r);
    if r.pos <= f {
      assert FramesShown(tags, f, StepNeedsI(q), false) == first;
    } else {
      assert ShownFrames(tags, q.log) + first + last == ShownFrames(tags, q.log) + (first + last);
    }
  }

  /** When frame `f` and no other is shown. */
  lemma {:induction false} FrameAloneExactly(tags: seq<Tag>, f: nat, needI: bool, early: bool)
    requires f < |tags|
    ensures FramesShown(tags, f, needI, early) == [f]
            <==> (IsI(tags[f]) || !needI) && !(early && NextFrame(tags, f + 1) < |tags|)
  {
    if early {
      var later := NextShown(tags, f + 1, needI && !IsI(tags[f]));
      if IsI(tags[f]) || !needI {
        assert |[f] + later| == 1 + |later|;
      } else {
        assert [] + later == later;
      }
    }
  }

  lemma {:induction false} SameTail(a: seq<nat>, b: seq<nat>, c: seq<nat>)
    ensures a + b == a + c <==> b == c
  {
    if a + b == a + c {
      assert b == (a + b)[|a|..] && c == (a + c)[|a|..];
    }
  }

  lemma {:induction false} FeedNeedsGate(tags: seq<Tag>, s: System, a: Action, s': System)
    requires Next(tags, s, a, s') && IsFeed(a)
    ensures s.armed || !Idle(s.player)
  {
    assert a == PassGate || a == Iterate;
  }

  /** Paused with no step pending and the feed thread before its gate, the thread has no step. */
  lemma {:induction false} NothingMoves(
      tags: seq<Tag>, states: seq<System>, actions: seq<Action>, i: nat, j: nat)
    requires IsRun(tags, states, actions) && i <= j <= |actions|
    requires Idle(states[i].player) && !states[i].armed && OnlyFeeds(actions, i, j)
    ensures i == j
  {
    if i < j {
      FeedNeedsGate(tags, states[i], actions[i], states[i + 1]);
    }
  }

  // ---------------------------------------------------------------- backward

  /**
   A press of the backward button: `SetPause(true)` first, `Seek(-1)` as action `a` and
   `RequestStep` as action `m`, with the feed thread's steps before, between and after.
   */
  predicate BackwardPress(actions: seq<Action>, a: nat, m: nat) {
    && 0 < a < m < |actions|
    && actions[0] == SetPause(true) && actions[a] == Seek(-1) && actions[m] == RequestStep
    && OnlyFeeds(actions, 1, a) && OnlyFeeds(actions, a + 1, m) && OnlyFeeds(actions, m + 1, |actions|)
  }

  /** An I frame is at or before tag `t`. */
  predicate HasI(tags: seq<Tag>, t: nat)
    requires t < |tags|
  {
    NearestI(tags, t + 1) >= 0
  }

  /** The frame a seek to `t` makes the next step for: `t`, or the file's first without an I frame to start from. */
  function SoughtFrame(tags: seq<Tag>, t: nat): (f: nat)
    requires t < |tags|
    ensures f <= |tags|
  {
    if HasI(tags, t) then t else NextFrame(tags, 0)
  }

  /** What the press shows from the seek on, `early` telling that this frame was fed before the step request. */
  function BackwardShows(tags: seq<Tag>, t: nat, early: bool): seq<nat>
    requires t < |tags|
  {
    FramesShown(tags, SoughtFrame(tags, t), !HasI(tags, t), early)
  }

  /** The step after a seek, on players. */
  lemma {:induction false} SeekThenStep(tags: seq<Tag>, p: Player, t: nat, q: Player, early: bool)
    requires Invariant(tags, p) && 0 <= p.pos && !p.regulating
    requires IsTarget(tags, p.pos, -1, t) && q == AfterSeek(tags, p, t) && Invariant(tags, q)
    ensures StepFrame(tags, q) == SoughtFrame(tags, t)
    ensures FramesShown(tags, StepFrame(tags, q), StepNeedsI(q), early) == BackwardShows(tags, t, early)
  {
  }

  /** Up to the seek. */
  lemma {:induction false} UntilSeek(tags: seq<Tag>, states: seq<System>, actions: seq<Action>, a: nat)
    requires IsRun(tags, states, actions) && 0 < a <= |actions|
    requires actions[0] == SetPause(true) && OnlyFeeds(actions, 1, a)
    requires Invariant(tags, states[0].player)
    ensures Invariant(tags, states[a].player) && states[a].player.pause
    decreases a
  {
    RunKeepsInvariant(tags, states, actions, a);
    assert Next(tags, states[a - 1], actions[a - 1], states[a]);
    if a == 1 {
    } else {
      UntilSeek(tags, states, actions, a - 1);
    }
  }

  lemma {:induction false} BackwardAloneExactly(tags: seq<Tag>, i: nat, t: nat, early: bool)
    requires i <= |tags| && IsTarget(tags, i, -1, t)
    ensures BackwardShows(tags, t, early) == [t]
            <==> HasI(tags, t) && !(early && NextFrame(tags, t + 1) < |tags|)
  {
    if HasI(tags, t) {
      FrameAloneExactly(tags, t, false, early);
    } else {
      var shown := BackwardShows(tags, t, early);
      assert shown != [] ==> IsI(tags[shown[0]]);
    }
  }

  /**
   `step_one_frame_backward`, pressed at any moment outside a silent replay, with an
   earlier step pending or not, whatever the feed thread does meanwhile. With `t` the
   target of its seek, the frames shown from the seek on are exactly `BackwardShows`. They
   are frame `t` alone iff an I frame is at or before it, and not both it was fed before
   the step request and a later frame follows.
   */
  lemma {:induction false} StepBackward(
      tags: seq<Tag>, states: seq<System>, actions: seq<Action>, a: nat, m: nat, t: nat)
    requires IsRun(tags, states, actions) && BackwardPress(actions, a, m)
    requires Invariant(tags, states[0].player) && !states[a].player.regulating
    requires AtRest(tags, states[|actions|].player)
    requires 0 <= states[a].player.pos <= |tags| && IsTarget(tags, states[a].player.pos, -1, t)
    ensures var before := ShownFrames(tags, states[a].player.log);
            var after := ShownFrames(tags, states[|actions|].player.log);
            && after == before + BackwardShows(tags, t, states[m].player.pos > SoughtFrame(tags, t))
            && (after == before + [t]
                <==> HasI(tags, t) && !(states[m].player.pos > t && NextFrame(tags, t + 1) < |tags|))
  {
    UntilSeek(tags, states, actions, a);
    assert Next(tags, states[a], actions[a], states[a + 1]);
    var p, q, early := states[a].player, states[a + 1].player, states[m].player.pos > SoughtFrame(tags, t);
    SeekKeepsInvariant(tags, p, -1, q);
    var u: nat :| IsTarget(tags, p.pos, -1, u) && q == AfterSeek(tags, p, u);
    TargetUnique(tags, p.pos, -1, t, u);
    SeekThenStep(tags, p, t, q, early);
    RequestShows(tags, states, actions, a + 1, m);
    BackwardAloneExactly(tags, p.pos, t, early);
    SameTail(ShownFrames(tags, p.log), BackwardShows(tags, t, early), [t]);
  }

  /**
   Pressed during a silent replay, the seek is refused. The step is for the frame the
   replay leads to, and shows it alone iff not both it was fed before the step request, by
   the step that is pending, and a later frame follows.
   */
  lemma {:induction false} StepBackwardInReplay(
      tags: seq<Tag>, states: seq<System>, actions: seq<Action>, a: nat, m: nat)
    requires IsRun(tags, states, actions) && BackwardPress(actions, a, m)
    requires Invariant(tags, states[0].player) && states[a].player.regulating
    requires AtRest(tags, states[|actions|].player)
    ensures CanStep(tags, states[a].player)
    ensures var before := ShownFrames(tags, states[a].player.log);
            var after := ShownFrames(tags, states[|actions|].player.log);
            var f := StepFrame(tags, states[a].player);
            && after == before + FramesShown(tags, f, false, states[m].player.pos > f)
            && (f < |tags| ==>
                  (after == before + [f] <==> !(states[m].player.pos > f && NextFrame(tags, f + 1) < |tags|)))
  {
    UntilSeek(tags, states, actions, a);
    assert Next(tags, states[a], actions[a], states[a + 1]);
    var p := states[a].player;
    RequestShows(tags, states, actions, a + 1, m);
    var f := StepFrame(tags, p);
    var early := states[m].player.pos > f;
    if f < |tags| {
      FrameAloneExactly(tags, f, false, early);
      SameTail(ShownFrames(tags, p.log), FramesShown(tags, f, false, early), [f]);
    }
  }

  /**
   Pressed with the feed thread before its gate, no step pending and no replay running, the
   button shows its target alone iff the file has an I frame at or before it.
   */
  lemma {:induction false} StepBackwardUnarmed(
      tags: seq<Tag>, states: seq<System>, actions: seq<Action>, a: nat, m: nat, t: nat)
    requires IsRun(tags, states, actions) && BackwardPress(actions, a, m)
    requires Invariant(tags, states[0].player) && !states[0].armed
    requires !states[0].player.stepOne && !states[0].player.regulating
    requires AtRest(tags, states[|actions|].player)
    requires 0 <= states[0].player.pos <= |tags| && IsTarget(tags, states[0].player.pos, -1, t)
    ensures ShownFrames(tags, states[|actions|].player.log) == ShownFrames(tags, states[0].player.log) + [t]
            <==> HasI(tags, t)
  {
    assert Next(tags, states[0], actions[0], states[1]);
    NothingMoves(tags, states, actions, 1, a);
    assert Next(tags, states[a], actions[a], states[a + 1]);
    StepBackward(tags, states, actions, a, m, t);
    var u: nat :| IsTarget(tags, states[a].player.pos, -1, u)
                  && states[a + 1].player == AfterSeek(tags, states[a].player, u);
    TargetUnique(tags, states[a].player.pos, -1, t, u);
    NothingMoves(tags, states, actions, a + 1, m);
  }

  // ---------------------------------------------------------------- forward

  /** A press of the forward button: `SetPause(true)` first and `RequestStep` as action `m`. */
  predicate ForwardPress(actions: seq<Action>, m: nat) {
    && 0 < m < |actions|
    && actions[0] == SetPause(true) && actions[m] == RequestStep
    && OnlyFeeds(actions, 1, m) && OnlyFeeds(actions, m + 1, |actions|)
  }

  /**
   `step_one_frame_forward`, pressed at any moment, replaying or not, with an earlier step
   pending or not, whatever the feed thread does meanwhile. It is for the next frame, or
   the one a replay leads to, and shows it alone iff it need not wait for an I frame, and
   not both it was fed before the step request and a later frame follows.
   */
  lemma {:induction false} StepForward(tags: seq<Tag>, states: seq<System>, actions: seq<Action>, m: nat)
    requires IsRun(tags, states, actions) && ForwardPress(actions, m)
    requires Invariant(tags, states[0].player)
    requires AtRest(tags, states[|actions|].player)
    ensures CanStep(tags, states[0].player)
    ensures var before := ShownFrames(tags, states[0].player.log);
            var after := ShownFrames(tags, states[|actions|].player.log);
            var f, needI := StepFrame(tags, states[0].player), StepNeedsI(states[0].player);
            && after == before + FramesShown(tags, f, needI, states[m].player.pos > f)
            && (f < |tags| ==>
                  (after == before + [f]
                   <==> (IsI(tags[f]) || !needI)
                        && !(states[m].player.pos > f && NextFrame(tags, f + 1) < |tags|)))
  {
    assert Next(tags, states[0], actions[0], states[1]);
    var p := states[0].player;
    RequestShows(tags, states, actions, 1, m);
    var f, needI := StepFrame(tags, p), StepNeedsI(p);
    var early := states[m].player.pos > f;
    if f < |tags| {
      FrameAloneExactly(tags, f, needI, early);
      SameTail(ShownFrames(tags, p.log), FramesShown(tags, f, needI, early), [f]);
    }
  }

  /** Pressed with the feed thread before its gate and no step pending: its frame alone, unless it must wait. */
  lemma {:induction false} StepForwardUnarmed(tags: seq<Tag>, states: seq<System>, actions: seq<Action>, m: nat)
    requires IsRun(tags, states, actions) && ForwardPress(actions, m)
    requires Invariant(tags, states[0].player) && !states[0].armed && !states[0].player.stepOne
    requires AtRest(tags, states[|actions|].player)
    ensures ShownFrames(tags, states[|actions|].player.log)
            == ShownFrames(tags, states[0].player.log) + StepShows(tags, states[0].player)
  {
    assert Next(tags, states[0], actions[0], states[1]);
    NothingMoves(tags, states, actions, 1, m);
    StepForward(tags, states, actions, m);
    var p := states[0].player;
    assert FramesShown(tags, StepFrame(tags, p), StepNeedsI(p), false) == StepShows(tags, p);
  }

  // ---------------------------------------------------------------- seeking frame by frame

  lemma {:induction false} NoneCounted(tags: seq<Tag>, lo: nat, hi: nat)
    requires lo <= hi <= |tags| && CountFrames(tags, lo, hi) == 0
    ensures NoFrameIn(tags, lo, hi)
    decreases hi - lo
  {
    if lo == hi {
    } else {
      NoneCounted(tags, lo + 1, hi);
    }
  }

  lemma {:induction false} NextIs(tags: seq<Tag>, lo: nat, f: nat)
    requires lo <= f < |tags| && IsFrame(tags[f]) && CountFrames(tags, lo, f + 1) == 1
    ensures NextFrame(tags, lo) == f
  {
    CountFramesSplit(tags, lo, f, f + 1);
    NoneCounted(tags, lo, f);
    NextFrameSkips(tags, lo, f);
  }

  /** `step_by_frame(2)` goes to the next frame after the current tag. */
  lemma {:induction false} SeekByTwo(tags: seq<Tag>, i: nat, t: nat)
    requires i < |tags| && CountFrames(tags, i + 1, |tags|) >= 1 && IsTarget(tags, i, 2, t)
    ensures t == NextFrame(tags, i + 1)
  {
    NextIs(tags, i + 1, t);
  }

  /** One more on the count is one frame further. */
  lemma {:induction false} SeekOneFurther(tags: seq<Tag>, i: nat, c: int, t: nat, u: nat)
    requires i < |tags| && c >= 2 && CountFrames(tags, i + 1, |tags|) >= c
    requires IsTarget(tags, i, c, t) && IsTarget(tags, i, c + 1, u)
    ensures u == NextFrame(tags, t + 1)
  {
    if u < t {
      CountFramesSplit(tags, i + 1, u + 1, t + 1);
    } else {
      CountFramesSplit(tags, i + 1, t + 1, u + 1);
      NextIs(tags, t + 1, u);
    }
  }

  /** `step_by_frame(0)` goes to the last frame before the current tag. */
  lemma {:induction false} SeekByNone(tags: seq<Tag>, i: nat, t: nat)
    requires i <= |tags| && CountFrames(tags, 0, i) >= 1 && IsTarget(tags, i, 0, t)
    ensures t < i && IsFrame(tags[t]) && NoFrameIn(tags, t + 1, i)
  {
    NoneCounted(tags, t + 1, i);
  }

  /** One less on the count is one frame back. */
  lemma {:induction false} SeekOneBack(tags: seq<Tag>, i: nat, c: int, t: nat, u: nat)
    requires i <= |tags| && c <= 0 && CountFrames(tags, 0, i) >= 2 - c
    requires IsTarget(tags, i, c, t) && IsTarget(tags, i, c - 1, u)
    ensures u < t && IsFrame(tags[u]) && NoFrameIn(tags, u + 1, t)
  {
    if t <= u {
      CountFramesSplit(tags, t, u, i);
    } else {
      CountFramesSplit(tags, u, t, i);
      NoneCounted(tags, u + 1, t);
    }
  }

  // ---------------------------------------------------------------- witnesses

  const KEY: Tag := Tag([0, 0, 0, 0, 0, 0, 0], Frame(KEY_FRAME, [0, 0, 0], []))
  const INTER: Tag := Tag([0, 0, 0, 0, 0, 0, 0], Frame(0x27, [0, 0, 0], []))

  /** A key frame and two more, played up to the third. */
  function PlayedTwo(): Player {
    Player(2, false, false, 0, false, false, 0, [Delivery(0, true), Delivery(1, true)])
  }

  /** From `start` to the feed thread past its gate for the third frame. */
  lemma {:induction false} LeadingRun() returns (states: seq<System>, actions: seq<Action>)
    ensures IsRun([KEY, INTER, INTER], states, actions) && Started(states[0].player)
    ensures states[|actions|] == System(PlayedTwo(), true)
  {
    var p := Player(-1, true, false, 0, false, false, 0, []);
    var q, r := p.(pos := 0), Player(1, false, false, 0, false, false, 0, [Delivery(0, true)]);
    actions := [PassGate, Iterate, PassGate, Iterate, PassGate, Iterate, PassGate];
    states := [System(p, false), System(p, true), System(q, false), System(q, true),
               System(r, false), System(r, true), System(PlayedTwo(), false), System(PlayedTwo(), true)];
    assert FeedStep([KEY, INTER, INTER], q) == r && FeedStep([KEY, INTER, INTER], r) == PlayedTwo();
  }

  lemma {:induction false} TargetOfThird()
    ensures IsTarget([KEY, INTER, INTER], 2, -1, 0) && HasI([KEY, INTER, INTER], 0)
  {
    assert CountFrames([KEY, INTER, INTER], 0, 2) == 2;
  }

  /** The press: the thread takes the lock right after the seek. */
  lemma {:induction false} PressingRun() returns (states: seq<System>, actions: seq<Action>)
    ensures IsRun([KEY, INTER, INTER], states, actions) && BackwardPress(actions, 1, 3)
    ensures states[0] == System(PlayedTwo(), true) && states[1].player == PlayedTwo().(pause := true)
    ensures AtRest([KEY, INTER, INTER], states[|actions|].player)
    ensures states[|actions|].player.log
            == [Delivery(0, true), Delivery(1, true), Delivery(0, true), Delivery(1, true)]
  {
    var tags := [KEY, INTER, INTER];
    var p, d0, d1 := PlayedTwo().(pause := true), Delivery(0, true), Delivery(1, true);
    var q := p.(pos := 0);
    var r := p.(pos := 1, log := [d0, d1, d0]);
    var s, t := r.(stepOne := true), p.(log := [d0, d1, d0, d1]);
    actions := [SetPause(true), Seek(-1), Iterate, RequestStep, PassGate, Iterate];
    states := [System(PlayedTwo(), true), System(p, true), System(q, true), System(r, false),
               System(s, false), System(s, true), System(t, false)];
    TargetOfThird();
    assert AfterSeek(tags, p, 0) == q;
    assert Next(tags, states[1], actions[1], states[2]);
    assert FeedStep(tags, q) == r && FeedStep(tags, s) == t;
  }

  lemma {:induction false} RunsJoin(
      tags: seq<Tag>, states: seq<System>, actions: seq<Action>, more: seq<System>, further: seq<Action>)
    requires IsRun(tags, states, actions) && IsRun(tags, more, further)
    requires states[|actions|] == more[0]
    ensures IsRun(tags, states + more[1..], actions + further)
    ensures forall k :: 0 <= k <= |further| ==> (states + more[1..])[|actions| + k] == more[k]
  {
    var all, acts := states + more[1..], actions + further;
    assert forall k {:trigger more[k]} :: 0 <= k <= |further| ==> all[|actions| + k] == more[k];
    forall k | 0 <= k < |acts|
      ensures Next(tags, all[k], acts[k], all[k + 1])
    {
      if k < |actions| {
        assert Next(tags, states[k], actions[k], states[k + 1]);
      } else {
        var j := k - |actions|;
        assert Next(tags, more[j], further[j], more[j + 1]);
        assert all[|actions| + (j + 1)] == more[j + 1];
      }
    }
  }

  lemma {:induction false} ShownFour(tags: seq<Tag>, d0: Delivery, d1: Delivery)
    requires tags == [KEY, INTER, INTER] && d0 == Delivery(0, true) && d1 == Delivery(1, true)
    ensures ShownFrames(tags, [d0, d1]) == [0, 1]
    ensures ShownFrames(tags, [d0, d1, d0, d1]) == [0, 1] + [0, 1]
  {
    ShownFramesAppend(tags, [], d0);
    ShownFramesAppend(tags, [d0], d1);
    ShownFramesAppend(tags, [d0, d1], d0);
    ShownFramesAppend(tags, [d0, d1, d0], d1);
    assert [] + [d0] == [d0] && [d0] + [d1] == [d0, d1];
    assert [d0, d1] + [d0] == [d0, d1, d0] && [d0, d1, d0] + [d1] == [d0, d1, d0, d1];
  }

  /**
   Two frames shown by one press of the backward button, in a run from `start`: the feed
   thread passed its gate before the pause and takes the lock right after the seek.
   */
  lemma {:induction false} TwoFramesShown()
    returns (tags: seq<Tag>, states: seq<System>, actions: seq<Action>, press: nat)
    ensures ValidTags(tags)
    ensures IsRun(tags, states, actions) && Started(states[0].player) && press < |actions|
    ensures BackwardPress(actions[press..], 1, 3) && !states[press].player.pause
    ensures AtRest(tags, states[|actions|].player)
    ensures states[press + 1].player.pos == 2 == |tags| - 1 && IsTarget(tags, 2, -1, 0) && HasI(tags, 0)
    ensures ShownFrames(tags, states[|actions|].player.log)
            == ShownFrames(tags, states[press + 1].player.log) + [0, 1]
  {
    tags := [KEY, INTER, INTER];
    var lead, leading := LeadingRun();
    var more, pressing := PressingRun();
    RunsJoin(tags, lead, leading, more, pressing);
    states, actions, press := lead + more[1..], leading + pressing, |leading|;
    assert actions[press..] == pressing;
    assert states[press + 0] == more[0] && states[press + 1] == more[1];
    assert states[press + |pressing|] == more[|pressing|];
    TargetOfThird();
    ShownFour(tags, Delivery(0, true), Delivery(1, true));
  }

  /** From `start` to the feed thread past its gate for the first tag of any file. */
  lemma {:induction false} HeaderRun(tags: seq<Tag>) returns (states: seq<System>, actions: seq<Action>)
    ensures IsRun(tags, states, actions) && Started(states[0].player)
    ensures states[|actions|] == System(Player(0, true, false, 0, false, false, 0, []), true)
  {
    var p := Player(-1, true, false, 0, false, false, 0, []);
    var q := p.(pos := 0);
    actions := [PassGate, Iterate, PassGate];
    states := [System(p, false), System(p, true), System(q, false), System(q, true)];
  }

  lemma {:induction false} ForwardPressingRun() returns (states: seq<System>, actions: seq<Action>)
    ensures IsRun([KEY, INTER], states, actions) && ForwardPress(actions, 2)
    ensures states[0] == System(Player(0, true, false, 0, false, false, 0, []), true)
    ensures AtRest([KEY, INTER], states[|actions|].player)
    ensures states[|actions|].player.log == [Delivery(0, true), Delivery(1, true)]
  {
    var tags, q := [KEY, INTER], Player(0, true, false, 0, false, false, 0, []);
    var d0, d1, r := Delivery(0, true), Delivery(1, true), q.(pause := true);
    var s := Player(1, false, false, 0, true, false, 0, [d0]);
    var t, u := s.(stepOne := true), s.(pos := 2, log := [d0, d1]);
    actions := [SetPause(true), Iterate, RequestStep, PassGate, Iterate];
    states := [System(q, true), System(r, true), System(s, false), System(t, false), System(t, true), System(u, false)];
    assert FeedStep(tags, r) == s && FeedStep(tags, t) == u;
  }

  /** The same for the forward button, pressed at the first frame of a file. */
  lemma {:induction false} TwoFramesForward()
    returns (tags: seq<Tag>, states: seq<System>, actions: seq<Action>, press: nat)
    ensures ValidTags(tags)
    ensures IsRun(tags, states, actions) && Started(states[0].player) && press < |actions|
    ensures ForwardPress(actions[press..], 2)
    ensures AtRest(tags, states[|actions|].player)
    ensures states[press].player.log == []
    ensures ShownFrames(tags, states[|actions|].player.log) == [0, 1]
  {
    tags := [KEY, INTER];
    var lead, leading := HeaderRun(tags);
    var more, pressing := ForwardPressingRun();
    RunsJoin(tags, lead, leading, more, pressing);
    states, actions, press := lead + more[1..], leading + pressing, |leading|;
    assert actions[press..] == pressing;
    assert states[press + 0] == more[0] && states[press + |pressing|] == more[|pressing|];
    ShownFramesAppend(tags, [], Delivery(0, true));
    ShownFramesAppend(tags, [Delivery(0, true)], Delivery(1, true));
    assert [] + [Delivery(0, true)] == [Delivery(0, true)];
    assert [Delivery(0, true)] + [Delivery(1, true)] == [Delivery(0, true), Delivery(1, true)];
  }

  /** A key frame and two more, played to the end, and the backward button pressed: the replay has not run yet. */
  function PressedAtEnd(): Player {
    Player(0, false, true, 1, true, true, 1, [Delivery(0, true), Delivery(1, true), Delivery(2, true)])
  }

  lemma {:induction false} FirstPress() returns (states: seq<System>, actions: seq<Action>)
    ensures IsRun([KEY, INTER, INTER], states, actions)
    ensures states[0] == System(PlayedTwo(), true) && states[|actions|] == System(PressedAtEnd(), false)
  {
    var tags := [KEY, INTER, INTER];
    var p := PlayedTwo().(pos := 3, log := [Delivery(0, true), Delivery(1, true), Delivery(2, true)]);
    var q, r := p.(pause := true), PressedAtEnd();
    actions := [Iterate, SetPause(true), Seek(-1), RequestStep];
    states := [System(PlayedTwo(), true), System(p, false), System(q, false), System(r.(stepOne := false), false),
               System(r, false)];
    assert CountFrames(tags, 1, 3) == 2 && CountFrames(tags, 0, 3) == 3;
    assert IsTarget(tags, 3, -1, 1);
    assert CountVideo(tags, 0, 1) == 1 && NearestI(tags, 1) == 0;
    assert AfterSeek(tags, q, 1) == r.(stepOne := false);
    assert Next(tags, states[2], actions[2], states[3]);
    assert FeedStep(tags, PlayedTwo()) == p;
  }

  lemma {:induction false} SecondPress() returns (states: seq<System>, actions: seq<Action>)
    ensures IsRun([KEY, INTER, INTER], states, actions) && BackwardPress(actions, 1, 6)
    ensures states[0] == states[1] == System(PressedAtEnd(), false)
    ensures AtRest([KEY, INTER, INTER], states[|actions|].player)
    ensures states[|actions|].player.log
            == PressedAtEnd().log + [Delivery(0, false), Delivery(1, true), Delivery(2, true)]
  {
    var tags, p := [KEY, INTER, INTER], PressedAtEnd();
    var q := p.(pos := 1, regulating := false, regCount := 0, log := p.log + [Delivery(0, false)]);
    var r := q.(pos := 2, stepOne := false, log := q.log + [Delivery(1, true)]);
    var s, t := r.(stepOne := true), r.(pos := 3, log := r.log + [Delivery(2, true)]);
    actions := [SetPause(true), Seek(-1), PassGate, Iterate, PassGate, Iterate, RequestStep, PassGate, Iterate];
    states := [System(p, false), System(p, false), System(p, false), System(p, true), System(q, false),
               System(q, true), System(r, false), System(s, false), System(s, true), System(t, false)];
    assert FeedStep(tags, p) == q && FeedStep(tags, q) == r && FeedStep(tags, s) == t;
  }

  /**
   Two frames shown by a second press of the backward button, made while the first one's
   replay runs and its step is pending: that step takes the replay's target, and the new
   one the frame after it.
   */
  lemma {:induction false} TwoFramesInReplay()
    returns (tags: seq<Tag>, states: seq<System>, actions: seq<Action>, press: nat)
    ensures ValidTags(tags)
    ensures IsRun(tags, states, actions) && Started(states[0].player) && press + 1 < |actions|
    ensures BackwardPress(actions[press..], 1, 6) && AtRest(tags, states[|actions|].player)
    ensures var p := states[press + 1].player;
            && p.regulating && p.stepOne && p.target == 1
            && ShownFrames(tags, states[|actions|].player.log) == ShownFrames(tags, p.log) + [1, 2]
  {
    tags := [KEY, INTER, INTER];
    var lead, leading := LeadingRun();
    var first, pressing := FirstPress();
    var second, again := SecondPress();
    RunsJoin(tags, lead, leading, first, pressing);
    states, actions, press := lead + first[1..], leading + pressing, |leading + pressing|;
    assert states[|leading| + |pressing|] == first[|pressing|];
    RunsJoin(tags, states, actions, second, again);
    states, actions := states + second[1..], actions + again;
    assert actions[press..] == again;
    assert states[press + 0] == second[0] && states[press + 1] == second[1];
    assert states[press + |again|] == second[|again|];
    var p := PressedAtEnd();
    ShownFramesAppend(tags, p.log, Delivery(0, false));
    ShownFramesAppend(tags, p.log + [Delivery(0, false)], Delivery(1, true));
    ShownFramesAppend(tags, p.log + [Delivery(0, false)] + [Delivery(1, true)], Delivery(2, true));
    assert p.log + [Delivery(0, false)] + [Delivery(1, true)] + [Delivery(2, true)]
        == p.log + [Delivery(0, false), Delivery(1, true), Delivery(2, true)];
  }

  /** A press of the backward button, in a run from `start`, that shows nothing: the file has no I frame. */
  lemma {:induction false} NothingShown()
    returns (tags: seq<Tag>, states: seq<System>, actions: seq<Action>, press: nat)
    ensures ValidTags(tags)
    ensures IsRun(tags, states, actions) && Started(states[0].player) && press + 1 < |actions|
    ensures BackwardPress(actions[press..], 1, 2) && !states[press].armed
    ensures AtRest(tags, states[|actions|].player)
    ensures states[press + 1].player.pos == 2 == |tags| && IsTarget(tags, 2, -1, 0) && !HasI(tags, 0)
    ensures ShownFrames(tags, states[|actions|].player.log) == ShownFrames(tags, states[press + 1].player.log)
  {
    tags, press := [INTER, INTER], 6;
    var p := Player(-1, true, false, 0, false, false, 0, []);
    var q, r, s := p.(pos := 0), p.(pos := 1), p.(pos := 2);
    var paused := s.(pause := true);
    var sought := paused.(pos := 0);
    var asked, done := sought.(stepOne := true), sought.(pos := 1);
    var pressing := [SetPause(true), Seek(-1), RequestStep, PassGate, Iterate];
    actions := [PassGate, Iterate, PassGate, Iterate, PassGate, Iterate] + pressing;
    states := [System(p, false), System(p, true), System(q, false), System(q, true), System(r, false),
               System(r, true), System(s, false), System(paused, false), System(sought, false),
               System(asked, false), System(asked, true), System(done, false)];
    assert actions[press..] == pressing;
    assert CountFrames(tags, 0, 2) == 2;
    assert IsTarget(tags, 2, -1, 0);
    assert AfterSeek(tags, paused, 0) == sought;
    assert Next(tags, states[7], actions[7], states[8]);
    assert FeedStep(tags, q) == r && FeedStep(tags, r) == s && FeedStep(tags, asked) == done;
  }
}
