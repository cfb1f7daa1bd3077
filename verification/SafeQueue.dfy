/**
 The producer/consumer queue: a monitor with a work flag and a condition variable on
 which at most one consumer sleeps. Each critical section is one atomic step.
 */
module SafeQueue {

  /**
   `asleep` and `notified` are the condition variable seen by the one consumer. The
   last four fields record the fate of every element; the program keeps none of them.
   */
  datatype Monitor<T> = Monitor(
    que: seq<T>,
    workFlag: int,
    asleep: bool,
    notified: bool,
    pushed: seq<T>,
    accepted: seq<T>,
    popped: seq<T>,
    released: seq<T>)

  predicate Fresh<T(==)>(m: Monitor<T>) {
    m == Monitor([], 0, false, false, [], [], [], [])
  }

  function Notify<T>(m: Monitor<T>): Monitor<T> {
    m.(notified := m.notified || m.asleep)
  }

  function Pushed<T>(m: Monitor<T>, x: T): Monitor<T> {
    if m.workFlag != 0 then
      Notify(m.(que := m.que + [x], pushed := m.pushed + [x], accepted := m.accepted + [x]))
    else
      m.(pushed := m.pushed + [x], released := m.released + [x])
  }

  /** A pass of `pop` under the lock: it goes to sleep, takes the front element or gives up. */
  function PopPass<T>(m: Monitor<T>): Monitor<T> {
    if m.workFlag != 0 && m.que == [] then
      m.(asleep := true, notified := false)
    else if m.que != [] then
      m.(que := m.que[1..], popped := m.popped + [m.que[0]], asleep := false, notified := false)
    else
      m.(asleep := false, notified := false)
  }

  function WorkSet<T>(m: Monitor<T>, flag: int): Monitor<T> {
    Notify(m.(workFlag := flag))
  }

  function Cleared<T>(m: Monitor<T>): Monitor<T> {
    m.(que := [], released := m.released + m.que)
  }

  // ---------------------------------------------------------------- histories

  /** `Pop` is a pass of `pop`: on entry, or after a notified or a spurious wake-up. */
  datatype Op<T> = Push(x: T) | Pop | SetWork(flag: int) | Clear

  function Apply<T>(m: Monitor<T>, op: Op<T>): Monitor<T> {
    match op
    case Push(x) => Pushed(m, x)
    case Pop => PopPass(m)
    case SetWork(flag) => WorkSet(m, flag)
    case Clear => Cleared(m)
  }

  /** The monitor after a history, one operation after the other. */
  function After<T>(m: Monitor<T>, ops: seq<Op<T>>): Monitor<T>
    decreases |ops|
  {
    if ops == [] then m else Apply(After(m, ops[..|ops| - 1]), ops[|ops| - 1])
  }

  // ---------------------------------------------------------------- what is kept

  /** `a` is `b` with some elements left out. */
  predicate Subsequence<T(==)>(a: seq<T>, b: seq<T>) {
    if a == [] then true
    else if b == [] then false
    else if a[|a| - 1] == b[|b| - 1] then Subsequence(a[..|a| - 1], b[..|b| - 1])
    else Subsequence(a, b[..|b| - 1])
  }

  lemma {:induction false} SubsequenceExtend<T>(a: seq<T>, b: seq<T>, x: T)
    requires Subsequence(a, b)
    ensures Subsequence(a + [x], b + [x])
  {
    assert (a + [x])[..|a|] == a && (b + [x])[..|b|] == b;
  }

  lemma {:induction false} SubsequenceWiden<T>(a: seq<T>, b: seq<T>, x: T)
    requires Subsequence(a, b)
    ensures Subsequence(a, b + [x])
    decreases |b|, 1
  {
    assert (b + [x])[..|b|] == b;
    if a != [] && a[|a| - 1] == x {
      DropLast(a, b);
    }
  }

  lemma {:induction false} SubsequencePrefix<T>(a: seq<T>, b: seq<T>, n: nat)
    requires Subsequence(a, b) && n <= |a|
    ensures Subsequence(a[..n], b)
    decreases |b|
  {
    if n == |a| {
      assert a[..n] == a;
    } else if n > 0 {
      var c := b[..|b| - 1];
      if a[|a| - 1] == b[|b| - 1] {
        SubsequencePrefix(a[..|a| - 1], c, n);
        assert a[..|a| - 1][..n] == a[..n];
      } else {
        SubsequencePrefix(a, c, n);
      }
      SubsequenceWiden(a[..n], c, b[|b| - 1]);
      assert c + [b[|b| - 1]] == b;
    }
  }

  lemma {:induction false} DropLast<T>(a: seq<T>, b: seq<T>)
    requires Subsequence(a, b) && a != []
    ensures Subsequence(a[..|a| - 1], b)
    decreases |b|, 0
  {
    var c, z := b[..|b| - 1], b[|b| - 1];
    assert c + [z] == b;
    if a[|a| - 1] == z {
      SubsequenceWiden(a[..|a| - 1], c, z);
    } else {
      DropLast(a, c);
      SubsequenceWiden(a[..|a| - 1], c, z);
    }
  }

  /** Each pushed element is in exactly one of queued, popped and released. */
  ghost predicate Conserved<T(!new)>(m: Monitor<T>) {
    multiset(m.pushed) == multiset(m.que) + multiset(m.popped) + multiset(m.released)
  }

  /** Popped elements followed by queued ones keep the order of the accepted pushes. */
  ghost predicate Fifo<T(!new)>(m: Monitor<T>) {
    Subsequence(m.popped + m.que, m.accepted)
  }

  /** A consumer that sleeps with no notification pending has nothing to wake up for. */
  predicate NoLostWakeUp<T>(m: Monitor<T>) {
    m.asleep && !m.notified ==> m.workFlag != 0 && m.que == []
  }

  ghost predicate Kept<T(!new)>(m: Monitor<T>) {
    Conserved(m) && Fifo(m) && NoLostWakeUp(m)
  }

  lemma {:induction false} PopConserves<T(!new)>(m: Monitor<T>)
    requires Conserved(m)
    ensures Conserved(PopPass(m))
  {
    if m.que != [] {
      assert m.que == [m.que[0]] + m.que[1..];
      assert multiset(m.popped + [m.que[0]]) + multiset(m.que[1..]) == multiset(m.popped) + multiset(m.que);
    }
  }

  lemma {:induction false} PushConserves<T(!new)>(m: Monitor<T>, x: T)
    requires Conserved(m)
    ensures Conserved(Pushed(m, x))
  {
    if m.workFlag != 0 {
      assert multiset(m.que + [x]) == multiset(m.que) + multiset{x};
    } else {
      assert multiset(m.released + [x]) == multiset(m.released) + multiset{x};
    }
  }

  lemma {:induction false} ApplyConserves<T(!new)>(m: Monitor<T>, op: Op<T>)
    requires Conserved(m)
    ensures Conserved(Apply(m, op))
  {
    match op
    case Push(x) => PushConserves(m, x);
    case Pop => PopConserves(m);
    case Clear => assert multiset(m.released + m.que) == multiset(m.released) + multiset(m.que);
    case _ =>
  }

  lemma {:induction false} PushKeepsOrder<T(!new)>(m: Monitor<T>, x: T)
    requires Fifo(m)
    ensures Fifo(Pushed(m, x))
  {
    if m.workFlag != 0 {
      var kept, n := m.popped + m.que, Pushed(m, x);
      SubsequenceExtend(kept, m.accepted, x);
      assert n.popped + n.que == kept + [x];
    }
  }

  lemma {:induction false} PopKeepsOrder<T(!new)>(m: Monitor<T>)
    requires Fifo(m)
    ensures Fifo(PopPass(m))
  {
    if m.que != [] {
      assert m.popped + m.que == (m.popped + [m.que[0]]) + m.que[1..];
    }
  }

  lemma {:induction false} ClearKeepsOrder<T(!new)>(m: Monitor<T>)
    requires Fifo(m)
    ensures Fifo(Cleared(m))
  {
    SubsequencePrefix(m.popped + m.que, m.accepted, |m.popped|);
    assert (m.popped + m.que)[..|m.popped|] == m.popped + [];
  }

  lemma {:induction false} ApplyKeepsOrder<T(!new)>(m: Monitor<T>, op: Op<T>)
    requires Fifo(m)
    ensures Fifo(Apply(m, op))
  {
    match op
    case Push(x) => PushKeepsOrder(m, x);
    case Pop => PopKeepsOrder(m);
    case SetWork(flag) =>
    case Clear => ClearKeepsOrder(m);
  }

  lemma ApplyLosesNoWakeUp<T>(m: Monitor<T>, op: Op<T>)
    requires NoLostWakeUp(m)
    ensures NoLostWakeUp(Apply(m, op))
  {
  }

  lemma {:induction false} ApplyKeeps<T(!new)>(m: Monitor<T>, op: Op<T>)
    requires Kept(m)
    ensures Kept(Apply(m, op))
  {
    ApplyConserves(m, op);
    ApplyKeepsOrder(m, op);
    ApplyLosesNoWakeUp(m, op);
  }

  /** Conservation, FIFO order and no lost wake-up over every history. */
  lemma {:induction false} HistoryKeeps<T(!new)>(m: Monitor<T>, ops: seq<Op<T>>)
    requires Kept(m)
    ensures Kept(After(m, ops))
    decreases |ops|
  {
    if ops == [] {
    } else {
      HistoryKeeps(m, ops[..|ops| - 1]);
      ApplyKeeps(After(m, ops[..|ops| - 1]), ops[|ops| - 1]);
    }
  }

  lemma FreshIsKept<T(!new)>(m: Monitor<T>)
    requires Fresh(m)
    ensures Kept(m)
  {
  }

  // ---------------------------------------------------------------- what a history accepts

  /** The work flag a history leaves: that of its last `SetWork`. */
  function FlagOf<T>(flag: int, ops: seq<Op<T>>): int {
    if ops == [] then flag
    else
      var last := ops[|ops| - 1];
      if last.SetWork? then last.flag else FlagOf(flag, ops[..|ops| - 1])
  }

  /** The elements a history pushes with the flag up (`up`) or down, in order. */
  function PushesOf<T>(flag: int, ops: seq<Op<T>>, up: bool): seq<T> {
    if ops == [] then []
    else
      var front, last := ops[..|ops| - 1], ops[|ops| - 1];
      PushesOf(flag, front, up)
      + (if last.Push? && (FlagOf(flag, front) != 0) == up then [last.x] else [])
  }

  predicate NoClear<T>(ops: seq<Op<T>>) {
    forall k :: 0 <= k < |ops| ==> !ops[k].Clear?
  }

  lemma AcceptedNext<T(!new)>(m: Monitor<T>, op: Op<T>)
    ensures Apply(m, op).accepted == m.accepted + (if op.Push? && m.workFlag != 0 then [op.x] else [])
    ensures Apply(m, op).workFlag == if op.SetWork? then op.flag else m.workFlag
  {
  }

  /** Exactly the pushes made with the flag up are accepted, whatever else happens. */
  lemma {:induction false} AcceptsExactly<T(!new)>(m: Monitor<T>, ops: seq<Op<T>>)
    ensures var n := After(m, ops);
            && n.workFlag == FlagOf(m.workFlag, ops)
            && n.accepted == m.accepted + PushesOf(m.workFlag, ops, true)
    decreases |ops|
  {
    if ops == [] {
      assert m.accepted + [] == m.accepted;
    } else {
      var front, last := ops[..|ops| - 1], ops[|ops| - 1];
      AcceptsExactly(m, front);
      AcceptedNext(After(m, front), last);
      assert After(m, ops) == Apply(After(m, front), last);
    }
  }

  /**
   Without `clear`, nothing is lost: what was popped and what is queued are the accepted
   elements, all of them in order, and exactly the pushes made with the flag down are
   released.
   */
  lemma {:induction false} NothingLost<T(!new)>(m: Monitor<T>, ops: seq<Op<T>>)
    requires Fresh(m) && NoClear(ops)
    ensures var n := After(m, ops);
            && n.popped + n.que == PushesOf(0, ops, true)
            && n.released == PushesOf(0, ops, false)
    decreases |ops|
  {
    if ops == [] {
    } else {
      var front, last := ops[..|ops| - 1], ops[|ops| - 1];
      assert forall k :: 0 <= k < |front| ==> front[k] == ops[k];
      NothingLost(m, front);
      AcceptsExactly(m, front);
      var f, n := After(m, front), After(m, ops);
      if last.Push? && f.workFlag != 0 {
        assert n.popped + n.que == (f.popped + f.que) + [last.x];
      } else if last.Pop? && f.que != [] {
        assert n.popped + n.que == f.popped + f.que;
      }
    }
  }

  /** The elements the `clear`s of a history find in the queue. */
  function ClearedBy<T>(m: Monitor<T>, ops: seq<Op<T>>): seq<T> {
    if ops == [] then []
    else
      var front := ops[..|ops| - 1];
      ClearedBy(m, front) + (if ops[|ops| - 1].Clear? then After(m, front).que else [])
  }

  /** What one operation releases. */
  lemma ReleasedNext<T(!new)>(m: Monitor<T>, op: Op<T>)
    ensures Apply(m, op).released
            == m.released + (if op.Push? && m.workFlag == 0 then [op.x] else if op.Clear? then m.que else [])
  {
  }

  /** Released are the pushes made with the flag down and the cleared elements, no others. */
  lemma {:induction false} ReleasesExactly<T(!new)>(m: Monitor<T>, ops: seq<Op<T>>)
    ensures multiset(After(m, ops).released)
            == multiset(m.released) + multiset(PushesOf(m.workFlag, ops, false)) + multiset(ClearedBy(m, ops))
    decreases |ops|
  {
    if ops == [] {
    } else {
      var front, last := ops[..|ops| - 1], ops[|ops| - 1];
      ReleasesExactly(m, front);
      AcceptsExactly(m, front);
      ReleasedNext(After(m, front), last);
      assert After(m, ops) == Apply(After(m, front), last);
    }
  }

  /** With the flag down the queue takes nothing in, whatever is pushed or popped. */
  lemma {:induction false} StaysEmpty<T(!new)>(m: Monitor<T>, ops: seq<Op<T>>)
    requires m.workFlag == 0 && m.que == []
    requires forall k :: 0 <= k < |ops| && ops[k].SetWork? ==> ops[k].flag == 0
    ensures After(m, ops).workFlag == 0 && After(m, ops).que == []
    ensures After(m, ops).accepted == m.accepted && After(m, ops).popped == m.popped
    decreases |ops|
  {
    if ops == [] {
    } else {
      StaysEmpty(m, ops[..|ops| - 1]);
    }
  }

  /** The queue as the program keeps it, its methods tied to the monitor steps above. */
  class SafeQueue<T(0)> {
    var que: seq<T>
    var workFlag: int
    var asleep: bool
    var notified: bool
    ghost var pushed: seq<T>
    ghost var accepted: seq<T>
    ghost var popped: seq<T>
    ghost var released: seq<T>

    ghost function State(): Monitor<T>
      reads this
    {
      Monitor(que, workFlag, asleep, notified, pushed, accepted, popped, released)
    }

    constructor ()
      ensures State() == Monitor([], 0, false, false, [], [], [], [])
    {
      que, workFlag, asleep, notified := [], 0, false, false;
      pushed, accepted, popped, released := [], [], [], [];
    }

    method NotifyOne()
      modifies this`notified
      ensures notified == (old(notified) || asleep)
    {
      if asleep {
        notified := true;
      }
    }

    method Push(element: T)
      modifies this
      ensures State() == Pushed(old(State()), element)
      ensures workFlag == old(workFlag) && popped == old(popped)
      ensures que == if workFlag != 0 then old(que) + [element] else old(que)
      ensures released == if workFlag != 0 then old(released) else old(released) + [element]
    {
      pushed := pushed + [element];
      if workFlag != 0 {
        que := que + [element];
        accepted := accepted + [element];
        NotifyOne();
      } else {
        released := released + [element];
      }
    }

    /**
     `pop` from taking the lock, on entry or after a wake-up, to either sleeping on the
     condition variable or returning `ret` and, if that is 1, the value.
     */
    method PopSection() returns (sleeps: bool, ret: int, value: T)
      modifies this
      ensures State() == PopPass(old(State()))
      ensures sleeps <==> old(workFlag) != 0 && old(que) == []
      ensures ret == if old(que) != [] then 1 else 0
      ensures ret == 1 ==> value == old(que)[0] && que == old(que)[1..]
      ensures ret == 0 ==> que == old(que)
      ensures asleep == sleeps && !notified && workFlag == old(workFlag)
    {
      ret, value := 0, *;
      if workFlag != 0 && |que| == 0 {
        asleep, notified := true, false;
        return true, 0, value;
      }
      if |que| != 0 {
        value := que[0];
        popped := popped + [value];
        que := que[1..];
        ret := 1;
      }
      asleep, notified := false, false;
      sleeps := false;
    }

    method SetWork(flag: int)
      modifies this
      ensures State() == WorkSet(old(State()), flag)
      ensures workFlag == flag && que == old(que)
    {
      workFlag := flag;
      NotifyOne();
    }

    /** Releases the elements one by one, oldest first. */
    method Clear()
      modifies this
      ensures State() == Cleared(old(State()))
      ensures que == [] && released == old(released) + old(que)
    {
      var size := |que|;
      for i := 0 to size
        invariant que == old(que)[i..] && released == old(released) + old(que)[..i]
        invariant size == |old(que)|
        invariant State() == old(State()).(que := que, released := released)
      {
        var value := que[0];
        que := que[1..];
        released := released + [value];
        assert old(que)[..i + 1] == old(que)[..i] + [value];
      }
      assert old(que)[..size] == old(que);
    }
  }
}
