/**
 Runs of the record player on the bytes of its file: whatever order the threads take
 their steps in, the callbacks are those of a run of the tag-index player.
 */
module FlvRuns {
  import opened FlvContainer
  import opened FlvTimeline
  import opened FlvCallbacks
  import opened FlvPlayer

  /** Whether a step is enabled; of the seeks, those that return, once the FLV header is consumed. */
  predicate Enabled(tags: seq<FlvFormat.Tag>, p: Player, armed: bool, a: Action) {
    match a
    case PassGate => !armed && !Idle(p)
    case Iterate => armed
    case Seek(c) => p.pos >= 0 && SeekReturns(tags, p.regulating, c)
    case _ => true
  }

  lemma {:induction false} PositionTests(player: FlvPlayer)
    requires player.Valid()
    ensures player.curIdx > 0 <==> player.pos >= 0
    ensures player.totalBytes > FLV_HEADER_LENGTH + 4 <==> |player.tags| > 0
  {
    BoundaryTests(player.file, player.raws, |player.raws|);
    if player.pos >= 0 {
      BoundaryTests(player.file, player.raws, player.pos);
    }
  }

  /**
   Takes one step if it is enabled. `armed` tells that the feed thread is past its gate,
   `hasVideo` that the recording has VIDEO tags.
   */
  method Step(player: FlvPlayer, a: Action, armed: bool, hasVideo: bool) returns (newArmed: bool, taken: bool)
    requires player.Valid() && hasVideo == HasVideo(player.tags)
    modifies player, player.tagHeader, player.tagData
    ensures player.Valid()
    ensures taken == Enabled(player.tags, old(player.Abs()), armed, a)
    ensures taken ==> Next(player.tags, System(old(player.Abs()), armed), a, System(player.Abs(), newArmed))
    ensures !taken ==> player.Abs() == old(player.Abs()) && newArmed == armed
  {
    newArmed, taken := armed, true;
    match a
    case PassGate =>
      taken := !armed && !(player.isPause && !player.stepOneFrame);
      newArmed := armed || taken;
    case Iterate =>
      taken := armed;
      newArmed := false;
      if armed {
        player.FeedIteration();
      }
    case Seek(c) =>
      PositionTests(player);
      taken := player.curIdx > 0
        && (player.isRegulating || c == 1 || hasVideo || (c <= 0 && player.totalBytes > FLV_HEADER_LENGTH + 4));
      if taken {
        player.StepByFrame(c);
      }
    case TogglePause => player.Pause();
    case SetPause(on) => player.isPause := on;
    case RequestStep => player.stepOneFrame := true;
  }

  lemma {:induction false} RunExtends(
    tags: seq<FlvFormat.Tag>, states: seq<System>, actions: seq<Action>, a: Action, s: System)
    requires IsRun(tags, states, actions)
    requires Next(tags, states[|actions|], a, s)
    ensures IsRun(tags, states + [s], actions + [a])
  {
    var ss, acts := states + [s], actions + [a];
    forall k | 0 <= k < |acts|
      ensures Next(tags, ss[k], acts[k], ss[k + 1])
    {
      if k < |actions| {
        assert ss[k] == states[k] && ss[k + 1] == states[k + 1] && acts[k] == actions[k];
      }
    }
  }

  /**
   Takes the steps asked for one after the other, passing over those not enabled. On the
   bytes of any file this is a run of the index player from `start`, so
   the callbacks are those of a log in which every frame has its whole
   group-of-pictures prefix just before it.
   */
  method Run(player: FlvPlayer, requests: seq<Action>, hasVideo: bool)
    returns (ghost states: seq<System>, ghost actions: seq<Action>)
    requires player.Valid() && Started(player.Abs()) && hasVideo == HasVideo(player.tags)
    modifies player, player.tagHeader, player.tagData
    ensures player.Valid()
    ensures IsRun(player.tags, states, actions)
    ensures states[0].player == old(player.Abs()) && states[|actions|].player == player.Abs()
    ensures player.callbacks == Callbacks(player.tags, player.log)
    ensures var fs := FrameLog(player.tags, player.log);
            forall f: nat :: f < |fs| ==> HasGopPrefix(player.tags, fs, f)
  {
    var armed := false;
    states, actions := [System(player.Abs(), false)], [];
    for i := 0 to |requests|
      invariant player.Valid()
      invariant IsRun(player.tags, states, actions)
      invariant states[0].player == old(player.Abs())
      invariant states[|actions|] == System(player.Abs(), armed)
    {
      var taken;
      armed, taken := Step(player, requests[i], armed, hasVideo);
      if taken {
        RunExtends(player.tags, states, actions, requests[i], System(player.Abs(), armed));
        states, actions := states + [System(player.Abs(), armed)], actions + [requests[i]];
      }
    }
    RunsAreDecodable(player.tags, states, actions, |actions|);
  }
}
