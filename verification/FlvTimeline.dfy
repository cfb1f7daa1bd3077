/**
 The record player seen on tag indices: what a feed iteration and a seek do to the
 player, the threads' interleaved steps, and what every run of them keeps.
 */
module FlvTimeline {
  import opened FlvFormat

  // ---------------------------------------------------------------- tags

  predicate IsVideo(t: Tag) {
    t.body.Config? || t.body.Frame?
  }

  /** A VIDEO tag with AVCPacketType 1. */
  predicate IsFrame(t: Tag) {
    t.body.Frame?
  }

  predicate IsI(t: Tag) {
    t.body.Frame? && t.body.flags == KEY_FRAME
  }

  predicate HasVideo(tags: seq<Tag>) {
    exists i :: 0 <= i < |tags| && IsVideo(tags[i])
  }

  function CountVideo(tags: seq<Tag>, lo: nat, hi: nat): nat
    requires lo <= hi <= |tags|
    decreases hi - lo
  {
    if lo == hi then 0
    else (if IsVideo(tags[lo]) then 1 else 0) + CountVideo(tags, lo + 1, hi)
  }

  function CountFrames(tags: seq<Tag>, lo: nat, hi: nat): nat
    requires lo <= hi <= |tags|
    decreases hi - lo
  {
    if lo == hi then 0
    else (if IsFrame(tags[lo]) then 1 else 0) + CountFrames(tags, lo + 1, hi)
  }

  /** The nearest I frame strictly before `t`, or -1. */
  function NearestI(tags: seq<Tag>, t: nat): (g: int)
    requires t <= |tags|
    ensures -1 <= g < t
    ensures g >= 0 ==> IsI(tags[g])
    ensures forall k :: g < k < t ==> !IsI(tags[k])
  {
    if t == 0 then -1
    else if IsI(tags[t - 1]) then t - 1
    else NearestI(tags, t - 1)
  }

  ghost predicate NoFrameIn(tags: seq<Tag>, lo: int, hi: int) {
    forall k :: 0 <= k < |tags| && lo <= k < hi ==> !IsFrame(tags[k])
  }

  lemma {:induction false} NoVideoCounted(tags: seq<Tag>, lo: nat, hi: nat)
    requires lo <= hi <= |tags|
    ensures CountVideo(tags, lo, hi) == 0 <==> forall k :: lo <= k < hi ==> !IsVideo(tags[k])
    decreases hi - lo
  {
    if lo == hi {
    } else {
      NoVideoCounted(tags, lo + 1, hi);
    }
  }

  lemma {:induction false} CountFramesSplit(tags: seq<Tag>, lo: nat, mid: nat, hi: nat)
    requires lo <= mid <= hi <= |tags|
    ensures CountFrames(tags, lo, hi) == CountFrames(tags, lo, mid) + CountFrames(tags, mid, hi)
    decreases mid - lo
  {
    if lo == mid {
    } else {
      CountFramesSplit(tags, lo + 1, mid, hi);
    }
  }

  // ---------------------------------------------------------------- one player

  /** The tag handed to the callbacks, and the `play` argument they got. */
  datatype Delivery = Delivery(tag: nat, play: bool)

  /**
   `pos` is the tag the file is positioned at, -1 before the FLV header is consumed.
   `target` (meaningful while regulating) is the tag the last seek aims at, and `log`
   records the tags delivered so far; the program keeps neither.
   */
  datatype Player = Player(
    pos: int,
    needI: bool,
    regulating: bool,
    regCount: int,
    pause: bool,
    stepOne: bool,
    target: nat,
    log: seq<Delivery>)

  /** The player right after `start` opened a file. */
  predicate Started(p: Player) {
    p.pos == -1 && p.needI && !p.regulating && !p.pause && p.log == []
  }

  predicate Positioned(tags: seq<Tag>, p: Player) {
    -1 <= p.pos <= |tags|
  }

  /** Whether a tag reaches the callbacks. */
  predicate Delivers(t: Tag, needI: bool) {
    match t.body
    case Config(_, _, _, _, _) => true
    case Frame(_, _, _) => IsI(t) || !needI
    case Audio(_, _, _) => true
    case Script(_) => false
  }

  /** What feeding the tag at the position does. */
  function FedTag(t: Tag, p: Player): Player
    requires p.pos >= 0
  {
    var left := if p.regulating && IsVideo(t) then p.regCount - 1 else p.regCount;
    p.(pos := p.pos + 1,
       needI := p.needI && !IsI(t),
       log := if Delivers(t, p.needI) then p.log + [Delivery(p.pos, !p.regulating)] else p.log,
       stepOne := p.stepOne && (p.regulating || !IsFrame(t)),
       regCount := left,
       regulating := p.regulating && !(IsVideo(t) && left == 0))
  }

  /** One iteration of the feed loop past its gate. */
  function FeedStep(tags: seq<Tag>, p: Player): (r: Player)
    requires Positioned(tags, p)
    ensures Positioned(tags, r)
  {
    if p.pos == |tags| then p
    else if p.pos == -1 then p.(pos := 0)
    else FedTag(tags[p.pos], p)
  }

  function FeedN(tags: seq<Tag>, p: Player, n: nat): (r: Player)
    requires Positioned(tags, p)
    ensures Positioned(tags, r)
    decreases n
  {
    if n == 0 then p else FeedN(tags, FeedStep(tags, p), n - 1)
  }

  /**
   The tag `step_by_frame(c)` aims at from tag `i`. Forward: the (c-1)-th frame after
   tag `i`, else the last VIDEO tag of the file. Backward: the (1-c)-th frame before
   tag `i`, else the first tag.
   */
  ghost predicate IsTarget(tags: seq<Tag>, i: nat, c: int, t: nat)
    requires i <= |tags|
  {
    && c != 1
    && t < |tags|
    && if c >= 2 then
         if i < |tags| && CountFrames(tags, i + 1, |tags|) >= c - 1 then
           i < t && IsFrame(tags[t]) && CountFrames(tags, i + 1, t + 1) == c - 1
         else
           IsVideo(tags[t]) && forall k :: t < k < |tags| ==> !IsVideo(tags[k])
       else
         if CountFrames(tags, 0, i) >= 1 - c then
           t < i && IsFrame(tags[t]) && CountFrames(tags, t, i) == 1 - c
         else
           t == 0
  }

  /** Where the seek leaves the player once its target is known. */
  function AfterSeek(tags: seq<Tag>, p: Player, t: nat): Player
    requires t < |tags|
  {
    var g := NearestI(tags, t);
    if IsI(tags[t]) then
      p.(pos := t)
    else if g >= 0 then
      p.(pos := g, regulating := true, regCount := CountVideo(tags, g, t), target := t)
    else
      p.(pos := 0, needI := true, regCount := CountVideo(tags, 0, t))
  }

  /** One whole `step_by_frame(c)`. */
  ghost predicate SeekStep(tags: seq<Tag>, p: Player, c: int, q: Player)
    requires 0 <= p.pos <= |tags|
  {
    if p.regulating || c == 1 then q == p
    else exists t: nat :: IsTarget(tags, p.pos, c, t) && q == AfterSeek(tags, p, t)
  }

  /** The calls of `step_by_frame` that return. */
  predicate SeekReturns(tags: seq<Tag>, regulating: bool, c: int) {
    regulating || c == 1 || HasVideo(tags) || (c <= 0 && |tags| > 0)
  }

  // ---------------------------------------------------------------- seek targets

  lemma {:induction false} NthFrameUnique(tags: seq<Tag>, lo: nat, s: nat, t: nat)
    requires lo <= s < t < |tags|
    requires IsFrame(tags[t])
    ensures CountFrames(tags, lo, s + 1) < CountFrames(tags, lo, t + 1)
  {
    CountFramesSplit(tags, lo, s + 1, t + 1);
    CountFramesSplit(tags, s + 1, t, t + 1);
  }

  lemma {:induction false} NthFrameBackUnique(tags: seq<Tag>, s: nat, t: nat, hi: nat)
    requires s < t < hi <= |tags|
    requires IsFrame(tags[s])
    ensures CountFrames(tags, t, hi) < CountFrames(tags, s, hi)
  {
    CountFramesSplit(tags, s, t, hi);
  }

  /** A seek has one target only. */
  lemma {:induction false} TargetUnique(tags: seq<Tag>, i: nat, c: int, s: nat, t: nat)
    requires i <= |tags|
    requires IsTarget(tags, i, c, s) && IsTarget(tags, i, c, t)
    ensures s == t
  {
    if s != t {
      var a, b := if s < t then s else t, if s < t then t else s;
      if c >= 2 {
        if i < |tags| && CountFrames(tags, i + 1, |tags|) >= c - 1 {
          NthFrameUnique(tags, i + 1, a, b);
        }
      } else if CountFrames(tags, 0, i) >= 1 - c {
        NthFrameBackUnique(tags, a, b, i);
      }
    }
  }

  lemma {:induction false} FindNthFrame(tags: seq<Tag>, lo: nat, hi: nat, n: nat) returns (t: nat)
    requires lo <= hi <= |tags|
    requires 1 <= n <= CountFrames(tags, lo, hi)
    ensures lo <= t < hi && IsFrame(tags[t]) && CountFrames(tags, lo, t + 1) == n
    decreases hi - lo
  {
    CountFramesSplit(tags, lo, hi - 1, hi);
    if CountFrames(tags, lo, hi - 1) >= n {
      t := FindNthFrame(tags, lo, hi - 1, n);
    } else {
      t := hi - 1;
    }
  }

  lemma {:induction false} FindNthFrameBack(tags: seq<Tag>, hi: nat, n: nat) returns (t: nat)
    requires hi <= |tags|
    requires 1 <= n <= CountFrames(tags, 0, hi)
    ensures t < hi && IsFrame(tags[t]) && CountFrames(tags, t, hi) == n
  {
    var m := CountFrames(tags, 0, hi) - n + 1;
    t := FindNthFrame(tags, 0, hi, m);
    CountFramesSplit(tags, 0, t, hi);
    CountFramesSplit(tags, 0, t, t + 1);
  }

  lemma {:induction false} LastVideo(tags: seq<Tag>, hi: nat) returns (t: int)
    requires hi <= |tags|
    ensures -1 <= t < hi
    ensures t >= 0 ==> IsVideo(tags[t])
    ensures forall k :: t < k < hi ==> !IsVideo(tags[k])
  {
    if hi == 0 {
      t := -1;
    } else if IsVideo(tags[hi - 1]) {
      t := hi - 1;
    } else {
      t := LastVideo(tags, hi - 1);
    }
  }

  lemma {:induction false} NoFrames(tags: seq<Tag>, lo: nat, hi: nat)
    requires lo <= hi <= |tags|
    requires NoFrameIn(tags, lo, hi)
    ensures CountFrames(tags, lo, hi) == 0
    decreases hi - lo
  {
    if lo == hi {
    } else {
      NoFrames(tags, lo + 1, hi);
    }
  }

  /** A seek that must move has a target exactly when the file lets it return. */
  lemma {:induction false} TargetExists(tags: seq<Tag>, i: nat, c: int)
    requires i <= |tags| && c != 1
    ensures (exists t: nat :: IsTarget(tags, i, c, t)) <==> SeekReturns(tags, false, c)
  {
    if SeekReturns(tags, false, c) {
      var t: int;
      if c >= 2 {
        if i < |tags| && CountFrames(tags, i + 1, |tags|) >= c - 1 {
          t := FindNthFrame(tags, i + 1, |tags|, c - 1);
        } else {
          t := LastVideo(tags, |tags|);
        }
      } else if CountFrames(tags, 0, i) >= 1 - c {
        t := FindNthFrameBack(tags, i, 1 - c);
      } else {
        t := 0;
      }
      assert IsTarget(tags, i, c, t);
    } else {
      if c >= 2 && i < |tags| {
        NoFrames(tags, i + 1, |tags|);
      }
    }
  }

  /** The tag looked at by the `k`-th pass of the loop that backs up from the end of the file. */
  function BackFromEnd(tags: seq<Tag>, k: nat): int {
    if k <= |tags| then |tags| - k else 0
  }

  /** The `k`-th pass leaves that loop: the file is at a tag, and the tag is VIDEO. */
  predicate LeavesEndLoop(tags: seq<Tag>, k: nat) {
    k >= 1 && BackFromEnd(tags, k) < |tags| && IsVideo(tags[BackFromEnd(tags, k)])
  }

  /** The counting loop of the seek runs into the end of the file. */
  predicate RunsOffEnd(tags: seq<Tag>, i: nat, c: int)
    requires i <= |tags|
  {
    |tags| == 0 || (c >= 2 && (i == |tags| || CountFrames(tags, i + 1, |tags|) < c - 1))
  }

  /** A seek that runs off the end and returns finds its target, the last VIDEO tag, on the way back. */
  lemma {:induction false} OffEndTarget(tags: seq<Tag>, i: nat, c: int)
    requires i <= |tags| && c != 1 && RunsOffEnd(tags, i, c) && SeekReturns(tags, false, c)
    ensures HasVideo(tags)
    ensures forall t: nat :: t < |tags| && IsVideo(tags[t]) && (forall k :: t < k < |tags| ==> !IsVideo(tags[k]))
              ==> IsTarget(tags, i, c, t)
  {
  }

  /**
   When `step_by_frame` returns, loop by loop: a seek that runs off the end returns
   iff some pass of its back-up loop finds a VIDEO tag. A file without one keeps it
   looping forever, so the condition on the file is exact.
   */
  lemma {:induction false} SeekReturnsExactly(tags: seq<Tag>, i: nat, c: int)
    requires i <= |tags| && c != 1
    ensures (RunsOffEnd(tags, i, c) ==> exists k :: LeavesEndLoop(tags, k)) <==> SeekReturns(tags, false, c)
  {
    if HasVideo(tags) {
      var v :| 0 <= v < |tags| && IsVideo(tags[v]);
      assert LeavesEndLoop(tags, |tags| - v);
    } else {
      if c >= 2 && i < |tags| {
        NoFrames(tags, i + 1, |tags|);
      }
      assert forall k :: !LeavesEndLoop(tags, k);
    }
  }

  /** A file without VIDEO tags: the back-up loop of `step_by_frame(2)` has no last pass. */
  lemma {:induction false} SeekLoopsForever() returns (tags: seq<Tag>)
    ensures ValidTags(tags) && RunsOffEnd(tags, 0, 2) && forall k :: !LeavesEndLoop(tags, k)
  {
    tags := [Tag([0, 0, 0, 0, 0, 0, 0], Audio(0xAF, 1, []))];
  }

  /** The count of the seek that looks for `n` frames in direction `dire`. */
  function SeekCount(dire: int, n: nat): int {
    if dire == 1 then 1 + n else 1 - n
  }

  /**
   The counting loop of a seek from tag `i` in direction `dire`, `left` of its `n` frames
   still to count, standing at tag `at`.
   */
  ghost predicate Scanning(tags: seq<Tag>, i: nat, dire: int, n: nat, left: nat, at: nat)
    requires i <= |tags|
  {
    && at <= |tags| && left <= n
    && (at == i ==> left == n)
    && (left == 0 ==> at < |tags| && IsFrame(tags[at]))
    && if dire == 1 then
         i <= at && (i < at ==> at < |tags| && CountFrames(tags, i + 1, at + 1) == n - left)
       else
         at <= i && CountFrames(tags, at, i) == n - left
  }

  /** One pass of the counting loop that does not break off. */
  lemma {:induction false} ScanOn(tags: seq<Tag>, i: nat, dire: int, n: nat, left: nat, at: nat, next: nat)
    requires i <= |tags| && (dire == 1 || dire == -1) && left > 0
    requires Scanning(tags, i, dire, n, left, at)
    requires next == at + dire && 0 < next < |tags|
    ensures Scanning(tags, i, dire, n, if IsFrame(tags[next]) then left - 1 else left, next)
  {
    if dire == 1 {
      CountFramesSplit(tags, i + 1, next, next + 1);
    }
  }

  /** The counting loop breaks off where the walk can go no further. */
  lemma {:induction false} ScanBreaksOff(tags: seq<Tag>, i: nat, dire: int, n: nat, left: nat, at: nat, next: nat)
    requires i <= |tags| && (dire == 1 || dire == -1) && left > 0
    requires Scanning(tags, i, dire, n, left, at)
    requires next == 0 || next == |tags|
    requires dire == 1 ==> next == if at < |tags| then at + 1 else at
    requires dire == -1 ==> next == if at > 0 then at - 1 else 0
    ensures next < |tags| ==> IsTarget(tags, i, SeekCount(dire, n), next)
    ensures next == |tags| ==> RunsOffEnd(tags, i, SeekCount(dire, n))
  {
    if dire == -1 {
      CountFramesSplit(tags, 0, at, i);
    }
  }

  lemma {:induction false} ScanSucceeds(tags: seq<Tag>, i: nat, dire: int, n: nat, at: nat)
    requires i <= |tags| && (dire == 1 || dire == -1) && n > 0
    requires Scanning(tags, i, dire, n, 0, at)
    ensures at < |tags| && IsTarget(tags, i, SeekCount(dire, n), at)
  {
    if dire == 1 {
      CountFramesSplit(tags, i + 1, at + 1, |tags|);
    } else {
      CountFramesSplit(tags, 0, at, i);
    }
  }

  /** The loop that backs up from tag `t` to an I frame, at tag `at` after passing `passed` VIDEO tags. */
  ghost predicate BackingUp(tags: seq<Tag>, t: nat, at: int, passed: int, found: bool) {
    && 0 <= at <= t <= |tags|
    && passed == CountVideo(tags, at, t)
    && (found ==> at < t && IsI(tags[at]))
    && (forall k :: (if found then at + 1 else at) <= k < t ==> !IsI(tags[k]))
  }

  lemma BackUpOn(tags: seq<Tag>, t: nat, at: int, passed: int)
    requires BackingUp(tags, t, at, passed, false) && at > 0
    ensures BackingUp(tags, t, at - 1, passed + (if IsVideo(tags[at - 1]) then 1 else 0), IsI(tags[at - 1]))
  {
  }

  lemma NearestIUnique(tags: seq<Tag>, t: nat, g: int)
    requires t <= |tags| && -1 <= g < t
    requires g >= 0 ==> IsI(tags[g])
    requires forall k :: g < k < t ==> !IsI(tags[k])
    ensures NearestI(tags, t) == g
  {
  }

  // ---------------------------------------------------------------- decodable logs

  /** The frame tags of a log, in delivery order. */
  function FrameLog(tags: seq<Tag>, log: seq<Delivery>): seq<nat> {
    if log == [] then []
    else
      var d := log[|log| - 1];
      FrameLog(tags, log[..|log| - 1])
      + (if d.tag < |tags| && IsFrame(tags[d.tag]) then [d.tag] else [])
  }

  /** Tag `f` is the last frame before position `pos`. */
  ghost predicate LastFrameBefore(tags: seq<Tag>, f: int, pos: int) {
    f < pos && NoFrameIn(tags, f + 1, pos)
  }

  /** Every delivered frame is an I frame or directly follows the frame the file has before it. */
  ghost predicate Decodable(tags: seq<Tag>, fs: seq<nat>) {
    forall k {:trigger fs[k]} :: 0 <= k < |fs| ==>
      && fs[k] < |tags|
      && IsFrame(tags[fs[k]])
      && (IsI(tags[fs[k]]) || (k > 0 && LastFrameBefore(tags, fs[k - 1], fs[k])))
  }

  /** All frame tags of the file in [lo, hi), in file order. */
  function FrameIndices(tags: seq<Tag>, lo: nat, hi: nat): seq<nat>
    requires lo <= hi <= |tags|
    decreases hi - lo
  {
    if lo == hi then []
    else FrameIndices(tags, lo, hi - 1) + (if IsFrame(tags[hi - 1]) then [hi - 1] else [])
  }

  lemma {:induction false} FrameIndicesSkip(tags: seq<Tag>, lo: nat, mid: nat, hi: nat)
    requires lo <= mid <= hi <= |tags|
    requires NoFrameIn(tags, mid, hi)
    ensures FrameIndices(tags, lo, hi) == FrameIndices(tags, lo, mid)
    decreases hi - mid
  {
    if mid == hi {
    } else {
      FrameIndicesSkip(tags, lo, mid, hi - 1);
    }
  }

  /**
   Deliveries `j..k` are the whole group of pictures of delivery `k` up to it: they
   start at its I frame and are exactly the file's frames from there on.
   */
  ghost predicate GopPrefix(tags: seq<Tag>, fs: seq<nat>, j: nat, k: nat) {
    && j <= k < |fs|
    && fs[j] <= fs[k] < |tags|
    && IsI(tags[fs[j]])
    && (forall m :: fs[j] < m <= fs[k] ==> !IsI(tags[m]))
    && fs[j..k + 1] == FrameIndices(tags, fs[j], fs[k] + 1)
  }

  ghost predicate HasGopPrefix(tags: seq<Tag>, fs: seq<nat>, k: nat) {
    exists j: nat :: GopPrefix(tags, fs, j, k)
  }

  lemma {:induction false} GopPrefixExtends(tags: seq<Tag>, fs: seq<nat>, j: nat, k: nat)
    requires 0 < k < |fs| && fs[k] < |tags|
    requires GopPrefix(tags, fs, j, k - 1)
    requires IsFrame(tags[fs[k]]) && !IsI(tags[fs[k]]) && LastFrameBefore(tags, fs[k - 1], fs[k])
    ensures GopPrefix(tags, fs, j, k)
  {
    FrameIndicesSkip(tags, fs[j], fs[k - 1] + 1, fs[k]);
    assert fs[j..k + 1] == fs[j..k] + [fs[k]];
  }

  /** In a decodable log, every frame has its whole group-of-pictures prefix just before it. */
  lemma {:induction false} DecodableHasGopPrefix(tags: seq<Tag>, fs: seq<nat>, k: nat)
    requires Decodable(tags, fs)
    requires k < |fs|
    ensures HasGopPrefix(tags, fs, k)
  {
    if IsI(tags[fs[k]]) {
      FrameIndicesSkip(tags, fs[k], fs[k], fs[k]);
      assert fs[k..k + 1] == [fs[k]];
      assert GopPrefix(tags, fs, k, k);
    } else {
      DecodableHasGopPrefix(tags, fs, k - 1);
      var j: nat :| GopPrefix(tags, fs, j, k - 1);
      GopPrefixExtends(tags, fs, j, k);
    }
  }

  // ---------------------------------------------------------------- invariant

  /**
   The decoder can go on: either frames are withheld until an I frame, or the player is
   at one, or the last frame delivered is the last frame before the position.
   */
  ghost predicate Synced(tags: seq<Tag>, p: Player) {
    || p.needI
    || (0 <= p.pos < |tags| && IsI(tags[p.pos]))
    || (var fs := FrameLog(tags, p.log); fs != [] && LastFrameBefore(tags, fs[|fs| - 1], p.pos))
  }

  /** Silent replay is on course: the count is that of the VIDEO tags left before the target. */
  ghost predicate ReplayOnCourse(tags: seq<Tag>, p: Player) {
    && 0 <= p.pos < p.target < |tags|
    && IsVideo(tags[p.target])
    && p.regCount == CountVideo(tags, p.pos, p.target)
    && p.regCount > 0
    && (p.needI ==> IsI(tags[p.pos]))
  }

  ghost predicate Invariant(tags: seq<Tag>, p: Player) {
    && Positioned(tags, p)
    && (p.pos == -1 ==> p.needI && !p.regulating)
    && Decodable(tags, FrameLog(tags, p.log))
    && Synced(tags, p)
    && (p.regulating ==> ReplayOnCourse(tags, p))
  }

  lemma {:induction false} FrameLogAppend(tags: seq<Tag>, log: seq<Delivery>, d: Delivery)
    ensures FrameLog(tags, log + [d])
            == FrameLog(tags, log) + (if d.tag < |tags| && IsFrame(tags[d.tag]) then [d.tag] else [])
  {
    assert (log + [d])[..|log|] == log;
  }

  lemma {:induction false} DecodableAppend(tags: seq<Tag>, fs: seq<nat>, f: nat)
    requires Decodable(tags, fs)
    requires f < |tags| && IsFrame(tags[f])
    requires IsI(tags[f]) || (fs != [] && LastFrameBefore(tags, fs[|fs| - 1], f))
    ensures Decodable(tags, fs + [f])
  {
    var gs := fs + [f];
    forall k | 0 <= k < |gs|
      ensures gs[k] < |tags| && IsFrame(tags[gs[k]])
      ensures IsI(tags[gs[k]]) || (k > 0 && LastFrameBefore(tags, gs[k - 1], gs[k]))
    {
      if k < |fs| {
        assert gs[k] == fs[k];
        assert k > 0 ==> gs[k - 1] == fs[k - 1];
      }
    }
  }

  /** What a fed tag adds to the frame log. */
  lemma {:induction false} FedFrameLog(tags: seq<Tag>, p: Player)
    requires 0 <= p.pos < |tags|
    ensures FrameLog(tags, FeedStep(tags, p).log)
            == FrameLog(tags, p.log)
               + if IsFrame(tags[p.pos]) && Delivers(tags[p.pos], p.needI) then [p.pos] else []
  {
    if Delivers(tags[p.pos], p.needI) {
      FrameLogAppend(tags, p.log, Delivery(p.pos, !p.regulating));
    } else {
      assert FrameLog(tags, p.log) + [] == FrameLog(tags, p.log);
    }
  }

  lemma {:induction false} FeedKeepsDecodable(tags: seq<Tag>, p: Player)
    requires 0 <= p.pos < |tags| && Decodable(tags, FrameLog(tags, p.log)) && Synced(tags, p)
    ensures var q := FeedStep(tags, p); Decodable(tags, FrameLog(tags, q.log)) && Synced(tags, q)
  {
    var t, fs := tags[p.pos], FrameLog(tags, p.log);
    FedFrameLog(tags, p);
    if IsFrame(t) && Delivers(t, p.needI) {
      DecodableAppend(tags, fs, p.pos);
      assert (fs + [p.pos])[|fs|] == p.pos;
    } else {
      assert fs + [] == fs;
    }
  }

  lemma {:induction false} FeedKeepsReplay(tags: seq<Tag>, p: Player)
    requires p.regulating && ReplayOnCourse(tags, p)
    ensures var q := FeedStep(tags, p); q.regulating ==> ReplayOnCourse(tags, q)
  {
    assert CountVideo(tags, p.pos, p.target)
           == (if IsVideo(tags[p.pos]) then 1 else 0) + CountVideo(tags, p.pos + 1, p.target);
  }

  lemma {:induction false} FeedKeepsInvariant(tags: seq<Tag>, p: Player)
    requires Invariant(tags, p)
    ensures Invariant(tags, FeedStep(tags, p))
  {
    if 0 <= p.pos < |tags| {
      FeedKeepsDecodable(tags, p);
      if p.regulating {
        FeedKeepsReplay(tags, p);
      }
    }
  }

  lemma {:induction false} SeekKeepsInvariant(tags: seq<Tag>, p: Player, c: int, q: Player)
    requires Invariant(tags, p) && 0 <= p.pos
    requires SeekStep(tags, p, c, q)
    ensures Invariant(tags, q) && 0 <= q.pos
    ensures q.log == p.log
  {
    if !p.regulating && c != 1 {
      var t: nat :| IsTarget(tags, p.pos, c, t) && q == AfterSeek(tags, p, t);
      var g := NearestI(tags, t);
      if !IsI(tags[t]) && g >= 0 {
        NoVideoCounted(tags, g, t);
        assert IsVideo(tags[g]);
      }
    }
  }

  // ---------------------------------------------------------------- runs

  /**
   The atomic steps of the threads. The feed thread first passes its gate (is it
   paused?) and then does one iteration under the lock. `step_one_frame_backward` is
   `SetPause(true)`, `Seek(-1)`, `RequestStep`; `step_by_seconds` is `SetPause(true)`,
   `Seek(sec * fps)`, `SetPause(false)`; other threads' steps may come in between.
   */
  datatype Action =
    | PassGate
    | Iterate
    | Seek(count: int)
    | TogglePause
    | SetPause(on: bool)
    | RequestStep

  /** `armed`: the feed thread is past its gate, about to take the lock. */
  datatype System = System(player: Player, armed: bool)

  ghost predicate Next(tags: seq<Tag>, s: System, a: Action, s': System) {
    var p := s.player;
    match a
    case PassGate => !s.armed && (!p.pause || p.stepOne) && s' == s.(armed := true)
    case Iterate => s.armed && Positioned(tags, p) && s' == System(FeedStep(tags, p), false)
    case Seek(c) =>
      && 0 <= p.pos <= |tags|
      && SeekStep(tags, p, c, s'.player)
      && s'.armed == s.armed
    case TogglePause => s' == s.(player := p.(pause := !p.pause))
    case SetPause(on) => s' == s.(player := p.(pause := on))
    case RequestStep => s' == s.(player := p.(stepOne := true))
  }

  ghost predicate IsRun(tags: seq<Tag>, states: seq<System>, actions: seq<Action>) {
    && |states| == |actions| + 1
    && forall k :: 0 <= k < |actions| ==> Next(tags, states[k], actions[k], states[k + 1])
  }

  lemma {:induction false} NextKeepsInvariant(tags: seq<Tag>, s: System, a: Action, s': System)
    requires Invariant(tags, s.player)
    requires Next(tags, s, a, s')
    ensures Invariant(tags, s'.player)
  {
    match a
    case Iterate => FeedKeepsInvariant(tags, s.player);
    case Seek(c) => SeekKeepsInvariant(tags, s.player, c, s'.player);
    case _ =>
  }

  lemma {:induction false} RunKeepsInvariant(tags: seq<Tag>, states: seq<System>, actions: seq<Action>, k: nat)
    requires IsRun(tags, states, actions)
    requires Invariant(tags, states[0].player)
    requires k < |states|
    ensures Invariant(tags, states[k].player)
  {
    if k == 0 {
    } else {
      RunKeepsInvariant(tags, states, actions, k - 1);
      NextKeepsInvariant(tags, states[k - 1], actions[k - 1], states[k]);
    }
  }

  /**
   Decodability over every run: whatever the interleaving of feed iterations, seeks and
   button presses since `start`, each frame delivered so far has its whole
   group-of-pictures prefix delivered just before it, and nothing in between.
   */
  lemma {:induction false} RunsAreDecodable(tags: seq<Tag>, states: seq<System>, actions: seq<Action>, k: nat)
    requires IsRun(tags, states, actions)
    requires Started(states[0].player)
    requires k < |states|
    ensures var fs := FrameLog(tags, states[k].player.log);
            forall f: nat :: f < |fs| ==> HasGopPrefix(tags, fs, f)
  {
    RunKeepsInvariant(tags, states, actions, k);
    var fs := FrameLog(tags, states[k].player.log);
    forall f: nat | f < |fs|
      ensures HasGopPrefix(tags, fs, f)
    {
      DecodableHasGopPrefix(tags, fs, f);
    }
  }

  /** Silent replay in every reachable state. */
  lemma {:induction false} RunsReplayOnCourse(tags: seq<Tag>, states: seq<System>, actions: seq<Action>, k: nat)
    requires IsRun(tags, states, actions)
    requires Started(states[0].player)
    requires k < |states|
    ensures var p := states[k].player;
            p.regulating ==>
              && 0 <= p.pos < p.target < |tags|
              && IsVideo(tags[p.target])
              && p.regCount == CountVideo(tags, p.pos, p.target) > 0
  {
    RunKeepsInvariant(tags, states, actions, k);
  }

  // ---------------------------------------------------------------- silent replay

  /** The deliveries of the tags in [lo, hi) when none of them is withheld. */
  function Span(tags: seq<Tag>, lo: nat, hi: nat, play: bool): seq<Delivery>
    requires lo <= hi <= |tags|
    decreases hi - lo
  {
    if lo == hi then []
    else
      Span(tags, lo, hi - 1, play)
      + (if Delivers(tags[hi - 1], false) then [Delivery(hi - 1, play)] else [])
  }

  lemma {:induction false} ReplayOneTag(tags: seq<Tag>, r: Player, from: nat, log: seq<Delivery>)
    requires Invariant(tags, r) && r.regulating
    requires from <= r.pos
    requires r.log == log + Span(tags, from, r.pos, false)
    ensures var q := FeedStep(tags, r);
            && q.pos == r.pos + 1 <= r.target
            && q.target == r.target
            && q.log == log + Span(tags, from, q.pos, false)
            && (q.regulating <==> CountVideo(tags, q.pos, q.target) > 0)
            && (!q.regulating ==> !q.needI)
            && (q.regulating ==> q.pos < q.target && q.regCount == CountVideo(tags, q.pos, q.target))
  {
    var t := tags[r.pos];
    assert Delivers(t, r.needI) <==> Delivers(t, false);
    assert CountVideo(tags, r.pos, r.target)
           == (if IsVideo(t) then 1 else 0) + CountVideo(tags, r.pos + 1, r.target);
  }

  /**
   From the moment a seek starts a silent replay at tag `p0`, and for as long as the
   replay lasts, any interleaving of the threads delivers exactly the tags from the
   I frame on, in file order, all with play off. When it ends, no VIDEO tag is left
   before the target, so the next VIDEO tag fed is the target itself.
   */
  lemma {:induction false} ReplayUnderInterleaving(tags: seq<Tag>, states: seq<System>, actions: seq<Action>, k: nat)
    requires IsRun(tags, states, actions)
    requires Invariant(tags, states[0].player)
    requires k < |states|
    requires forall j :: 0 <= j < k ==> states[j].player.regulating
    requires states[0].player.regulating && IsI(tags[states[0].player.pos])
    ensures var p, q := states[0].player, states[k].player;
            && p.pos <= q.pos <= p.target < |tags|
            && q.target == p.target
            && q.log == p.log + Span(tags, p.pos, q.pos, false)
            && (q.regulating <==> CountVideo(tags, q.pos, p.target) > 0)
            && (!q.regulating ==> !q.needI)
            && (q.regulating ==> q.pos < p.target && q.regCount == CountVideo(tags, q.pos, p.target))
  {
    var p, q := states[0].player, states[k].player;
    if k == 0 {
      assert p.log + [] == p.log;
    } else {
      ReplayUnderInterleaving(tags, states, actions, k - 1);
      RunKeepsInvariant(tags, states, actions, k - 1);
      var r := states[k - 1].player;
      assert Next(tags, states[k - 1], actions[k - 1], states[k]);
      if actions[k - 1].Iterate? {
        ReplayOneTag(tags, r, p.pos, p.log);
      }
    }
  }

  lemma LogsChain(a: seq<Delivery>, b: seq<Delivery>, c: seq<Delivery>)
    ensures a + b + c == a + (b + c)
  {
  }

  lemma {:induction false} SpanConcat(tags: seq<Tag>, lo: nat, mid: nat, hi: nat, play: bool)
    requires lo <= mid <= hi <= |tags|
    ensures Span(tags, lo, hi, play) == Span(tags, lo, mid, play) + Span(tags, mid, hi, play)
    decreases hi - mid
  {
    if mid == hi {
    } else {
      SpanConcat(tags, lo, mid, hi - 1, play);
    }
  }

  /**
   Left to the feed loop, a silent replay ends after finitely many iterations, before
   the end of the file, having delivered the tags from the position on with play off.
   */
  lemma {:induction false} ReplayEnds(tags: seq<Tag>, p: Player) returns (n: nat)
    requires Invariant(tags, p) && p.regulating
    ensures 0 < n <= p.target - p.pos
    ensures var q := FeedN(tags, p, n);
            && !q.regulating && !q.needI
            && q.pos == p.pos + n <= p.target < |tags|
            && q.log == p.log + Span(tags, p.pos, q.pos, false)
            && CountVideo(tags, q.pos, p.target) == 0
    decreases p.target - p.pos
  {
    var r := FeedStep(tags, p);
    assert p.log + Span(tags, p.pos, p.pos, false) == p.log;
    ReplayOneTag(tags, p, p.pos, p.log);
    assert Invariant(tags, r) by {
      FeedKeepsInvariant(tags, p);
    }
    if r.regulating {
      var m := ReplayEnds(tags, r);
      n := m + 1;
      var q := FeedN(tags, r, m);
      assert FeedN(tags, p, n) == q;
      assert q.log == p.log + Span(tags, p.pos, q.pos, false) by {
        SpanConcat(tags, p.pos, r.pos, q.pos, false);
        LogsChain(p.log, Span(tags, p.pos, r.pos, false), Span(tags, r.pos, q.pos, false));
      }
    } else {
      n := 1;
      assert FeedN(tags, p, 1) == FeedN(tags, r, 0) == r;
    }
  }

  lemma {:induction false} FeedNSplit(tags: seq<Tag>, p: Player, m: nat, n: nat)
    requires Positioned(tags, p)
    ensures FeedN(tags, p, m + n) == FeedN(tags, FeedN(tags, p, m), n)
    decreases m
  {
    if m == 0 {
    } else {
      FeedNSplit(tags, FeedStep(tags, p), m - 1, n);
    }
  }

  lemma {:induction false} FeedNThenOne(tags: seq<Tag>, p: Player, n: nat)
    requires Positioned(tags, p)
    ensures FeedN(tags, p, n + 1) == FeedStep(tags, FeedN(tags, p, n))
    decreases n
  {
    if n == 0 {
    } else {
      FeedNThenOne(tags, FeedStep(tags, p), n - 1);
    }
  }

  lemma {:induction false} FeedsSpan(tags: seq<Tag>, p: Player, n: nat)
    requires 0 <= p.pos && p.pos + n <= |tags| && !p.regulating && !p.needI
    ensures var q := FeedN(tags, p, n);
            && q.pos == p.pos + n && !q.regulating && !q.needI
            && q.log == p.log + Span(tags, p.pos, p.pos + n, true)
  {
    if n == 0 {
    } else {
      FeedsSpan(tags, p, n - 1);
      FeedNThenOne(tags, p, n - 1);
    }
  }

  lemma {:induction false} ThenPlays(tags: seq<Tag>, p: Player, n: nat, e: nat, m: nat)
    requires Positioned(tags, p) && 0 <= p.pos <= e && e + m <= |tags|
    requires var q := FeedN(tags, p, n);
             q.pos == e && !q.regulating && !q.needI && q.log == p.log + Span(tags, p.pos, e, false)
    ensures var r := FeedN(tags, p, n + m);
            && r.pos == e + m
            && r.log == p.log + Span(tags, p.pos, e, false) + Span(tags, e, e + m, true)
  {
    FeedNSplit(tags, p, n, m);
    FeedsSpan(tags, FeedN(tags, p, n), m);
  }

  /**
   Left to itself, a silent replay and the feeding that follows deliver every tag up to
   the target in order, and the target is the first VIDEO tag delivered with play on.
   */
  lemma {:induction false} ReplayReachesTarget(tags: seq<Tag>, p: Player) returns (e: nat)
    requires Invariant(tags, p) && p.regulating
    ensures p.pos < e <= p.target
    ensures CountVideo(tags, e, p.target) == 0
    ensures var q := FeedN(tags, p, p.target + 1 - p.pos);
            && q.pos == p.target + 1
            && q.log == p.log + Span(tags, p.pos, e, false) + Span(tags, e, p.target + 1, true)
  {
    var n := ReplayEnds(tags, p);
    e := p.pos + n;
    ThenPlays(tags, p, n, e, p.target + 1 - e);
  }

  // ---------------------------------------------------------------- feeding until idle

  /** The feed loop stays at its gate. */
  predicate Idle(p: Player) {
    p.pause && !p.stepOne
  }

  /** Feed iterations until the loop idles or the file ends. */
  function FeedUntilIdle(tags: seq<Tag>, p: Player): Player
    requires Positioned(tags, p)
    decreases |tags| - p.pos
  {
    if Idle(p) || p.pos == |tags| then p else FeedUntilIdle(tags, FeedStep(tags, p))
  }

  // ---------------------------------------------------------------- playing through

  /** Without seeks a tag is delivered unless it is script data or a frame before the first I frame. */
  predicate Played(tags: seq<Tag>, j: nat)
    requires j < |tags|
  {
    match tags[j].body
    case Script(_) => false
    case Frame(_, _, _) => NearestI(tags, j + 1) >= 0
    case _ => true
  }

  /** The deliveries of an uninterrupted playback of the first `n` tags. */
  function Playback(tags: seq<Tag>, n: nat): seq<Delivery>
    requires n <= |tags|
  {
    if n == 0 then []
    else Playback(tags, n - 1) + (if Played(tags, n - 1) then [Delivery(n - 1, true)] else [])
  }

  /**
   Parsing refinement on indices: fed from the start with no seek, the player has after
   `n + 1` iterations delivered exactly the playback of the first `n` tags.
   */
  lemma {:induction false} PlaysThrough(tags: seq<Tag>, p: Player, n: nat)
    requires Started(p) && n <= |tags|
    ensures var q := FeedN(tags, p, n + 1);
            && q.pos == n && !q.regulating
            && q.log == Playback(tags, n)
            && (q.needI <==> NearestI(tags, n) < 0)
  {
    FeedNThenOne(tags, p, n);
    if n > 0 {
      PlaysThrough(tags, p, n - 1);
    } else {
      assert FeedN(tags, p, 0) == p;
    }
  }

  /** At the end of the file the loop keeps waiting and delivers nothing more. */
  lemma {:induction false} StaysAtEnd(tags: seq<Tag>, p: Player, n: nat)
    requires p.pos == |tags|
    ensures FeedN(tags, p, n) == p
  {
    if n == 0 {
    } else {
      StaysAtEnd(tags, p, n - 1);
    }
  }

  /** `n` passes of the feed loop: each stops at the gate or does one iteration. */
  function FeedPasses(tags: seq<Tag>, p: Player, n: nat): (r: Player)
    requires Positioned(tags, p)
    ensures Positioned(tags, r)
  {
    if n == 0 then p
    else
      var q := FeedPasses(tags, p, n - 1);
      if Idle(q) then q else FeedStep(tags, q)
  }

  /** With nobody pausing, the passes are iterations. */
  lemma {:induction false} PassesAreIterations(tags: seq<Tag>, p: Player, n: nat)
    requires Positioned(tags, p) && !p.pause
    ensures FeedPasses(tags, p, n) == FeedN(tags, p, n)
    ensures !FeedPasses(tags, p, n).pause
  {
    if n > 0 {
      PassesAreIterations(tags, p, n - 1);
      FeedNThenOne(tags, p, n - 1);
    } else {
      assert FeedN(tags, p, 0) == p;
    }
  }

  /** Played from the start, a file is delivered whole and the player waits at its end. */
  lemma {:induction false} PlaysWholeFile(tags: seq<Tag>, p: Player, n: nat)
    requires Started(p) && n > |tags|
    ensures var q := FeedPasses(tags, p, n);
            q.pos == |tags| && q.log == Playback(tags, |tags|)
  {
    PassesAreIterations(tags, p, n);
    PlaysThrough(tags, p, |tags|);
    FeedNSplit(tags, p, |tags| + 1, n - |tags| - 1);
    StaysAtEnd(tags, FeedN(tags, p, |tags| + 1), n - |tags| - 1);
  }

  lemma {:induction false} PassesStop(tags: seq<Tag>, p: Player, n: nat)
    requires Positioned(tags, p) && (Idle(p) || p.pos == |tags|)
    ensures FeedPasses(tags, p, n) == p
  {
    if n == 0 {
    } else {
      PassesStop(tags, p, n - 1);
    }
  }

  lemma {:induction false} FirstPass(tags: seq<Tag>, p: Player, n: nat)
    requires Positioned(tags, p) && !Idle(p)
    ensures FeedPasses(tags, p, n + 1) == FeedPasses(tags, FeedStep(tags, p), n)
  {
    if n > 0 {
      FirstPass(tags, p, n - 1);
    } else {
      assert FeedPasses(tags, p, 0) == p;
    }
  }

  /**
   A paused loop left alone: once it has idled, or reached the end, further passes change
   nothing, so enough passes amount to feeding until idle.
   */
  lemma {:induction false} PassesReachIdle(tags: seq<Tag>, p: Player, n: nat)
    requires Positioned(tags, p) && n >= |tags| - p.pos
    ensures FeedPasses(tags, p, n) == FeedUntilIdle(tags, p)
    decreases n
  {
    if Idle(p) || p.pos == |tags| {
      PassesStop(tags, p, n);
    } else {
      PassesReachIdle(tags, FeedStep(tags, p), n - 1);
      FirstPass(tags, p, n - 1);
    }
  }
}
