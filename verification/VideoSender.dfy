/**
 The RTMP sender's shutdown: the push thread, one call of `stop` and any number of
 packet producers, interleaved step by step over the packet queue. Each step is one
 critical section of the queue or one access to the shared `is_pushing` flag.
 */
module VideoSender {
  import opened SafeQueue

  /** Where the push thread stands. `Sending` holds the packet it popped. */
  datatype PushPc<P> =
    | Connecting
    | TurningOn
    | Testing
    | Popping
    | Sending(packet: P)
    | TurningOff
    | Clearing
    | Ending
    | Ended

  /** Where the thread calling `stop` stands; `Joining` waits for the push thread. */
  datatype StopPc = Outside | Inside | FlagDown | QueueOff | Joining | Joined

  datatype System<P> = System(
    packets: Monitor<P>,
    isPushing: bool,
    push: PushPc<P>,
    stop: StopPc)

  /** A push thread's own steps; the booleans are the network's answers. */
  datatype PushAction =
    | Connect(ok: bool) | TurnOn | Test | PopOrSleep | WakeUp | Send(ok: bool) | TurnOff | ClearQueue | End

  datatype Action<P> = Pusher(act: PushAction) | Stopper | Produce(packet: P)

  /** A queue as it is before a session, new or left by an earlier one: empty, flag down, nobody asleep. */
  predicate AtRest<P>(m: Monitor<P>) {
    m.que == [] && m.workFlag == 0 && !m.asleep
  }

  /** `push` has just set `is_pushing` and launched the thread. */
  predicate Launched<P>(s: System<P>) {
    AtRest(s.packets) && s.isPushing && s.push.Connecting? && s.stop.Outside?
  }

  predicate PushEnabled<P>(s: System<P>, act: PushAction) {
    match act
    case Connect(_) => s.push.Connecting?
    case TurnOn => s.push.TurningOn?
    case Test => s.push.Testing?
    case PopOrSleep => s.push.Popping? && !s.packets.asleep
    case WakeUp => s.push.Popping? && s.packets.asleep
    case Send(_) => s.push.Sending?
    case TurnOff => s.push.TurningOff?
    case ClearQueue => s.push.Clearing?
    case End => s.push.Ending?
  }

  /** After a pass of `pop` the thread sleeps on, has a packet, or loops with none. */
  function AfterPop<P>(s: System<P>): System<P> {
    var m := s.packets;
    var next := if m.que != [] then Sending(m.que[0]) else if m.workFlag != 0 then Popping else Testing;
    s.(packets := PopPass(m), push := next)
  }

  function PushStep<P>(s: System<P>, act: PushAction): System<P>
    requires PushEnabled(s, act)
  {
    match act
    case Connect(ok) => s.(push := if ok then TurningOn else TurningOff)
    case TurnOn => s.(packets := WorkSet(s.packets, 1), push := Testing)
    case Test => s.(push := if s.isPushing then Popping else TurningOff)
    case PopOrSleep => AfterPop(s)
    case WakeUp => AfterPop(s)
    case Send(ok) => s.(push := if ok then Testing else TurningOff)
    case TurnOff => s.(packets := WorkSet(s.packets, 0), push := Clearing)
    case ClearQueue => s.(packets := Cleared(s.packets), push := Ending)
    case End => s.(isPushing := false, push := Ended)
  }

  predicate StopEnabled<P>(s: System<P>) {
    match s.stop
    case Outside => s.isPushing
    case Joining => s.push.Ended?
    case Joined => false
    case _ => true
  }

  function StopStep<P>(s: System<P>): System<P>
    requires StopEnabled(s)
  {
    match s.stop
    case Outside => s.(stop := Inside)
    case Inside => s.(isPushing := false, stop := FlagDown)
    case FlagDown => s.(packets := WorkSet(s.packets, 0), stop := QueueOff)
    case QueueOff => s.(packets := Cleared(s.packets), stop := Joining)
    case Joining => s.(stop := Joined)
    case Joined => s
  }

  ghost predicate Next<P>(s: System<P>, a: Action<P>, s': System<P>) {
    match a
    case Pusher(act) => PushEnabled(s, act) && s' == PushStep(s, act)
    case Stopper => StopEnabled(s) && s' == StopStep(s)
    case Produce(x) => s' == s.(packets := Pushed(s.packets, x))
  }

  ghost predicate IsRun<P>(states: seq<System<P>>, actions: seq<Action<P>>) {
    && |states| == |actions| + 1
    && forall k :: 0 <= k < |actions| ==> Next(states[k], actions[k], states[k + 1])
  }

  // ---------------------------------------------------------------- invariant

  /** `stop` has run its `setWork(0)`. */
  predicate TurnedOff<P>(s: System<P>) {
    s.stop.QueueOff? || s.stop.Joining? || s.stop.Joined?
  }

  /** The thread has run its final `clear`. */
  predicate Drained<P>(s: System<P>) {
    s.push.Ending? || s.push.Ended?
  }

  /** The thread is in its sending loop. */
  predicate InLoop<P>(pc: PushPc<P>) {
    pc.Testing? || pc.Popping? || pc.Sending?
  }

  ghost predicate Invariant<P>(s: System<P>) {
    var m := s.packets;
    && NoLostWakeUp(m)
    && (m.asleep ==> s.push.Popping?)
    && (s.stop.FlagDown? || TurnedOff(s) ==> !s.isPushing)
    && (m.workFlag != 0 ==> s.push.Testing? || s.push.Popping? || s.push.Sending? || s.push.TurningOff?)
    && (TurnedOff(s) && m.workFlag != 0 ==> s.push.Testing? || s.push.TurningOff?)
    && (Drained(s) ==> m.que == [])
    && (s.stop.Joined? ==> s.push.Ended?)
    && (s.push.Ended? ==> !s.isPushing)
    && (InLoop(s.push) && !TurnedOff(s) ==> m.workFlag != 0)
  }

  lemma NextKeepsInvariant<P>(s: System<P>, a: Action<P>, s': System<P>)
    requires Invariant(s) && Next(s, a, s')
    ensures Invariant(s')
  {
  }

  lemma {:induction false} RunKeepsInvariant<P>(states: seq<System<P>>, actions: seq<Action<P>>, k: nat)
    requires IsRun(states, actions) && Invariant(states[0])
    requires k < |states|
    ensures Invariant(states[k])
  {
    if k == 0 {
    } else {
      RunKeepsInvariant(states, actions, k - 1);
      NextKeepsInvariant(states[k - 1], actions[k - 1], states[k]);
    }
  }

  /** The queue operation a step performs, if any. */
  function QueueOps<P>(s: System<P>, a: Action<P>): seq<Op<P>> {
    match a
    case Pusher(TurnOn) => [SetWork(1)]
    case Pusher(PopOrSleep) => [Pop]
    case Pusher(WakeUp) => [Pop]
    case Pusher(TurnOff) => [SetWork(0)]
    case Pusher(ClearQueue) => [Clear]
    case Pusher(_) => []
    case Stopper => if s.stop.FlagDown? then [SetWork(0)] else if s.stop.QueueOff? then [Clear] else []
    case Produce(x) => [Push(x)]
  }

  lemma {:induction false} NextIsQueueOps<P>(s: System<P>, a: Action<P>, s': System<P>)
    requires Next(s, a, s')
    ensures s'.packets == After(s.packets, QueueOps(s, a))
  {
    var ops := QueueOps(s, a);
    if ops != [] {
      assert ops[..0] == [];
      assert After(s.packets, ops) == Apply(s.packets, ops[0]);
    }
  }

  /** Packets are conserved, keep their order and lose no wake-up over every run. */
  lemma {:induction false} RunKeepsPackets<P(!new)>(states: seq<System<P>>, actions: seq<Action<P>>, k: nat)
    requires IsRun(states, actions) && Kept(states[0].packets)
    requires k < |states|
    ensures Kept(states[k].packets)
  {
    if k == 0 {
    } else {
      RunKeepsPackets(states, actions, k - 1);
      assert Next(states[k - 1], actions[k - 1], states[k]);
      NextIsQueueOps(states[k - 1], actions[k - 1], states[k]);
      HistoryKeeps(states[k - 1].packets, QueueOps(states[k - 1], actions[k - 1]));
    }
  }

  // ---------------------------------------------------------------- sending

  /** In every run, what is produced while the thread is in its loop is queued, until `stop` runs its `setWork(0)`. */
  lemma {:induction false} ProducedIsQueued<P>(states: seq<System<P>>, actions: seq<Action<P>>, k: nat, x: P)
    requires IsRun(states, actions) && Launched(states[0])
    requires k < |actions| && actions[k] == Produce(x)
    requires InLoop(states[k].push) && !TurnedOff(states[k])
    ensures states[k + 1].packets.que == states[k].packets.que + [x]
  {
    RunKeepsInvariant(states, actions, k);
    assert Next(states[k], actions[k], states[k + 1]);
  }

  /** The thread is past its loop. */
  predicate Leaving<P>(pc: PushPc<P>) {
    pc.TurningOff? || pc.Clearing? || pc.Ending? || pc.Ended?
  }

  /** The network refused, or `is_pushing` was found down. */
  predicate GivesReason<P(==)>(s: System<P>, a: Action<P>) {
    a == Pusher(Connect(false)) || a == Pusher(Send(false)) || (a == Pusher(Test) && !s.isPushing)
  }

  /** A step takes the thread out of its loop exactly when it gives a reason to. */
  lemma {:induction false} LeavesExactly<P>(s: System<P>, a: Action<P>, s': System<P>)
    requires Next(s, a, s') && !Leaving(s.push)
    ensures Leaving(s'.push) <==> GivesReason(s, a)
  {
    match a
    case Pusher(Connect(ok)) => assert ok || a == Pusher(Connect(false));
    case Pusher(Send(ok)) => assert ok || a == Pusher(Send(false));
    case _ =>
  }

  /** In every run, the thread leaves only after the network refused or `is_pushing` went down. */
  lemma {:induction false} LeavesForAReason<P>(states: seq<System<P>>, actions: seq<Action<P>>, k: nat)
    requires IsRun(states, actions) && k < |states|
    requires !Leaving(states[0].push) && Leaving(states[k].push)
    ensures exists j :: 0 <= j < k && GivesReason(states[j], actions[j])
    decreases k
  {
    assert Next(states[k - 1], actions[k - 1], states[k]);
    if Leaving(states[k - 1].push) {
      LeavesForAReason(states, actions, k - 1);
    } else {
      LeavesExactly(states[k - 1], actions[k - 1], states[k]);
    }
  }

  function InHand<P>(pc: PushPc<P>): seq<P> {
    if pc.Sending? then [pc.packet] else []
  }

  /** The packet a step hands to the network. */
  function SentNow<P>(s: System<P>, a: Action<P>): seq<P> {
    if a.Pusher? && a.act.Send? then InHand(s.push) else []
  }

  /** The packets handed to the network in the first `k` steps. */
  function SentBy<P>(states: seq<System<P>>, actions: seq<Action<P>>, k: nat): seq<P>
    requires k <= |actions| < |states|
  {
    if k == 0 then []
    else
      SentBy(states, actions, k - 1) + SentNow(states[k - 1], actions[k - 1])
  }

  lemma {:induction false} PacketsFlow<P>(s: System<P>, a: Action<P>, s': System<P>, sent: seq<P>)
    requires Next(s, a, s') && s.packets.popped == sent + InHand(s.push)
    ensures s'.packets.popped == sent + SentNow(s, a) + InHand(s'.push)
  {
  }

  /** In every run, the packets popped are handed to the network once each, in order. */
  lemma {:induction false} PoppedAreSent<P>(states: seq<System<P>>, actions: seq<Action<P>>, k: nat)
    requires IsRun(states, actions) && k < |states| && !states[0].push.Sending?
    ensures states[k].packets.popped
            == states[0].packets.popped + SentBy(states, actions, k) + InHand(states[k].push)
    decreases k
  {
    var before := states[0].packets.popped;
    if k == 0 {
      assert before + [] + [] == before;
    } else {
      PoppedAreSent(states, actions, k - 1);
      var sent := SentBy(states, actions, k - 1);
      PacketsFlow(states[k - 1], actions[k - 1], states[k], before + sent);
      assert before + sent + SentNow(states[k - 1], actions[k - 1])
          == before + (sent + SentNow(states[k - 1], actions[k - 1]));
    }
  }

  /** Only the push thread steps, and the network accepts. */
  predicate Undisturbed<P>(actions: seq<Action<P>>) {
    forall k :: 0 <= k < |actions| ==>
      actions[k].Pusher? && (actions[k].act.Send? ==> actions[k].act.ok)
  }

  /** One round of the loop with a packet queued: tested, popped, sent. */
  lemma {:induction false} RoundSends<P>(s: System<P>, a: Action<P>, s1: System<P>, b: Action<P>, s2: System<P>,
                                         c: Action<P>, s3: System<P>)
    requires Next(s, a, s1) && Next(s1, b, s2) && Next(s2, c, s3) && Undisturbed([a, b, c])
    requires s.push.Testing? && s.isPushing && !s.packets.asleep && s.packets.que != []
    ensures s2.push == Sending(s.packets.que[0])
    ensures s3.push.Testing? && s3.isPushing && !s3.packets.asleep && s3.packets.que == s.packets.que[1..]
    ensures s3.packets.popped == s.packets.popped + [s.packets.que[0]]
  {
    assert [a, b, c][0] == a && [a, b, c][1] == b && [a, b, c][2] == c;
  }

  /**
   Left alone with an accepting network, a running thread sends what is queued: three
   steps a packet, in order.
   */
  lemma {:induction false} SendsQueue<P>(states: seq<System<P>>, actions: seq<Action<P>>, n: nat)
    requires IsRun(states, actions) && Undisturbed(actions) && 3 * n <= |actions|
    requires var s := states[0];
             s.push.Testing? && s.isPushing && !s.packets.asleep && n <= |s.packets.que|
    ensures var s, t := states[0], states[3 * n];
            && t.push.Testing? && t.isPushing && !t.packets.asleep
            && t.packets.que == s.packets.que[n..]
            && t.packets.popped == s.packets.popped + s.packets.que[..n]
            && forall i :: 0 <= i < n ==> states[3 * i + 2].push == Sending(s.packets.que[i])
  {
    var que := states[0].packets.que;
    if n == 0 {
      assert states[0].packets.popped + que[..0] == states[0].packets.popped;
    } else {
      SendsQueue(states, actions, n - 1);
      var k := 3 * (n - 1);
      assert Next(states[k], actions[k], states[k + 1]);
      assert Next(states[k + 1], actions[k + 1], states[k + 2]);
      assert Next(states[k + 2], actions[k + 2], states[k + 3]);
      RoundSends(states[k], actions[k], states[k + 1], actions[k + 1], states[k + 2], actions[k + 2], states[k + 3]);
      assert que[..n] == que[..n - 1] + [que[n - 1]];
    }
  }

  // ---------------------------------------------------------------- shutdown

  /**
   In every reachable state: once `stop` has run `setWork(0)` the push thread is not
   asleep in `pop` without a notification on its way, and after its final `clear` the
   queue is empty with the work flag down.
   */
  lemma {:induction false} ShutdownIsSafe<P>(states: seq<System<P>>, actions: seq<Action<P>>, k: nat)
    requires IsRun(states, actions) && Launched(states[0])
    requires k < |states|
    ensures var s := states[k];
            && (TurnedOff(s) && s.packets.asleep ==> s.packets.notified && s.packets.workFlag == 0)
            && (Drained(s) ==> s.packets.que == [] && s.packets.workFlag == 0)
            && (s.stop.Joined? ==> s.push.Ended?)
            && (s.push.Ended? ==> !s.isPushing)
  {
    RunKeepsInvariant(states, actions, k);
  }

  /** Once drained, the queue stays empty and the flag down for the rest of the run. */
  lemma {:induction false} StaysDrained<P>(states: seq<System<P>>, actions: seq<Action<P>>, j: nat, k: nat)
    requires IsRun(states, actions) && Launched(states[0])
    requires j <= k < |states| && Drained(states[j])
    ensures Drained(states[k])
    ensures states[k].packets.que == [] && states[k].packets.workFlag == 0
    ensures states[k].packets.accepted == states[j].packets.accepted
    decreases k
  {
    ShutdownIsSafe(states, actions, k);
    if j == k {
    } else {
      StaysDrained(states, actions, j, k - 1);
      assert Next(states[k - 1], actions[k - 1], states[k]);
    }
  }

  /** `push` called again. */
  function Relaunched<P>(s: System<P>): System<P> {
    s.(isPushing := true, push := Connecting, stop := Outside)
  }

  /** Once `stop` has returned, a further `push` starts a session as the first one did. */
  lemma {:induction false} SessionsFollow<P>(states: seq<System<P>>, actions: seq<Action<P>>, k: nat)
    requires IsRun(states, actions) && Launched(states[0])
    requires k < |states| && states[k].stop.Joined?
    ensures !states[k].isPushing && Launched(Relaunched(states[k]))
  {
    RunKeepsInvariant(states, actions, k);
  }

  /** A bound on the steps the push thread still has to make once it is told to stop. */
  function StepsLeft<P>(pc: PushPc<P>): nat {
    match pc
    case Connecting => 8
    case TurningOn => 7
    case Popping => 6
    case Sending(_) => 5
    case Testing => 4
    case TurningOff => 3
    case Clearing => 2
    case Ending => 1
    case Ended => 0
  }

  /** How many of the actions j..k are the push thread's. */
  function PusherSteps<P>(actions: seq<Action<P>>, j: nat, k: nat): nat
    requires j <= k <= |actions|
    decreases k
  {
    if j == k then 0
    else PusherSteps(actions, j, k - 1) + (if actions[k - 1].Pusher? then 1 else 0)
  }

  /** A push thread told to stop and not yet ended can step without waiting for anybody. */
  lemma {:induction false} NeverStuck<P>(s: System<P>)
    requires Invariant(s) && TurnedOff(s) && !s.push.Ended?
    ensures exists act :: PushEnabled(s, act) && (act.WakeUp? ==> s.packets.notified)
  {
    var act := match s.push
      case Connecting => Connect(true)
      case TurningOn => TurnOn
      case Testing => Test
      case Popping => if s.packets.asleep then WakeUp else PopOrSleep
      case Sending(_) => Send(true)
      case TurningOff => TurnOff
      case Clearing => ClearQueue
      case Ending => End
      case Ended => End;
    assert PushEnabled(s, act);
  }

  /** Each of its steps brings it closer to its end, so `stop`'s join returns. */
  lemma StepsDecrease<P>(s: System<P>, a: Action<P>, s': System<P>)
    requires Invariant(s) && TurnedOff(s) && Next(s, a, s')
    ensures TurnedOff(s')
    ensures if a.Pusher? then StepsLeft(s'.push) < StepsLeft(s.push) else s'.push == s.push
  {
  }

  /**
   In any interleaving, the push thread makes at most eight steps once `stop` has run its
   `setWork(0)` (in state `j`). As it is never stuck before its end, `stop` gets to join it.
   */
  lemma {:induction false} StopCompletes<P>(states: seq<System<P>>, actions: seq<Action<P>>, j: nat, k: nat)
    requires IsRun(states, actions) && Launched(states[0])
    requires j <= k < |states| && TurnedOff(states[j])
    ensures TurnedOff(states[k])
    ensures PusherSteps(actions, j, k) + StepsLeft(states[k].push) <= StepsLeft(states[j].push) <= 8
    decreases k
  {
    if j == k {
    } else {
      StopCompletes(states, actions, j, k - 1);
      RunKeepsInvariant(states, actions, k - 1);
      assert Next(states[k - 1], actions[k - 1], states[k]);
      StepsDecrease(states[k - 1], actions[k - 1], states[k]);
    }
  }

  // ---------------------------------------------------------------- the sender

  /** The sender as the program keeps it; each method is one step of the system above. */
  class VideoSender<P(0)> {
    const packets: SafeQueue<P>
    var isPushing: bool
    var push: PushPc<P>
    var stop: StopPc

    ghost function State(): System<P>
      reads this, packets
    {
      System(packets.State(), isPushing, push, stop)
    }

    constructor ()
      ensures Fresh(packets.State()) && fresh(packets) && !isPushing && push.Ended? && stop.Outside?
    {
      packets := new SafeQueue<P>();
      isPushing, push, stop := false, Ended, Outside;
    }

    /** `push`: raises the flag and launches the thread, unless it is up already; no `stop` is under way. */
    method Push()
      modifies this
      ensures packets.State() == old(packets.State())
      ensures State() == if old(isPushing) then old(State()) else Relaunched(old(State()))
      ensures AtRest(old(packets.State())) && !old(isPushing) ==> Launched(State())
    {
      if isPushing {
        return;
      }
      isPushing := true;
      push := Connecting;
      stop := Outside;
    }

    /** A pass of `pop`: it sleeps, brings a packet, or makes the loop go round without one. */
    method PopPacket()
      requires push.Popping?
      modifies this, packets
      ensures State() == AfterPop(old(State()))
    {
      var sleeps, ret, packet := packets.PopSection();
      push := if sleeps then Popping else if ret == 1 then Sending(packet) else Testing;
    }

    /** One step of the push thread. */
    method ThreadStep(act: PushAction)
      requires PushEnabled(State(), act)
      modifies this, packets
      ensures State() == PushStep(old(State()), act)
      ensures Next(old(State()), Pusher(act), State())
      ensures old(push).Popping? && old(packets.que) != [] ==> push == Sending(old(packets.que)[0])
    {
      match act
      case Connect(ok) => push := if ok then TurningOn else TurningOff;
      case TurnOn => packets.SetWork(1); push := Testing;
      case Test => push := if isPushing then Popping else TurningOff;
      case PopOrSleep => PopPacket();
      case WakeUp => PopPacket();
      case Send(ok) => push := if ok then Testing else TurningOff;
      case TurnOff => packets.SetWork(0); push := Clearing;
      case ClearQueue => packets.Clear(); push := Ending;
      case End => isPushing := false; push := Ended;
    }

    /** One step of the thread that calls `stop`. */
    method Stop()
      requires StopEnabled(State())
      modifies this, packets
      ensures State() == StopStep(old(State()))
      ensures Next(old(State()), Stopper, State())
      ensures old(stop).Inside? ==> !isPushing
      ensures old(stop).FlagDown? ==> packets.workFlag == 0
      ensures old(stop).QueueOff? ==> packets.que == []
    {
      match stop
      case Outside => stop := Inside;
      case Inside => isPushing := false; stop := FlagDown;
      case FlagDown => packets.SetWork(0); stop := QueueOff;
      case QueueOff => packets.Clear(); stop := Joining;
      case Joining => stop := Joined;
    }

    /** The packet callback of the video and audio channels. */
    method OnPacket(packet: P)
      modifies packets
      ensures Next(old(State()), Produce(packet), State())
      ensures packets.que == if packets.workFlag != 0 then old(packets.que) + [packet] else old(packets.que)
    {
      packets.Push(packet);
    }
  }
}
