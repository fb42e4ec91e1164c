// The bounded per-connection queue and its parked receiver (src/libs/ws/outbound.rs), at the
// granularity of its mutex: each operation is one step, and a wake is a step of its own that
// comes after the lock has been released.
module Outbound {
  import opened Wrappers

  // A waker of one task. `will_wake` compares instances; two instances may name one task.
  datatype Waker = Waker(task: nat, instance: nat)

  datatype SendResult = Sent | Full | Closed

  datatype Pop<T> = Value(value: T) | Empty | Disconnected

  datatype Poll<T> = Pending | Ready(value: Option<T>)

  datatype Inner<T> = Inner(
    queue: seq<T>,
    capacity: nat,
    senders: nat,
    receiverAlive: bool,
    recvWaker: Option<Waker>)

  function Channel<T>(capacity: nat): Inner<T> {
    Inner([], capacity, 1, true, None)
  }

  // Each operation: the state it leaves, its answer, and the waker it takes out to wake.

  function AddSender<T>(i: Inner<T>): Inner<T> {
    i.(senders := i.senders + 1)
  }

  function RemoveSender<T>(i: Inner<T>): (Inner<T>, Option<Waker>)
    requires i.senders > 0
  {
    if i.senders == 1 then (i.(senders := 0, recvWaker := None), i.recvWaker) else (i.(senders := i.senders - 1), None)
  }

  function Send<T>(i: Inner<T>, value: T): (Inner<T>, SendResult, Option<Waker>) {
    if !i.receiverAlive then (i, Closed, None)
    else if |i.queue| >= i.capacity then (i, Full, None)
    else (i.(queue := i.queue + [value], recvWaker := None), Sent, i.recvWaker)
  }

  function Take<T>(i: Inner<T>): (Inner<T>, Pop<T>) {
    if i.queue != [] then (i.(queue := i.queue[1..]), Value(i.queue[0]))
    else (i, if i.senders == 0 then Disconnected else Empty)
  }

  function PollRecv<T>(i: Inner<T>, waker: Waker): (Inner<T>, Poll<T>) {
    var (i', pop) := Take(i);
    match pop
    case Value(v) => (i', Ready(Some(v)))
    case Disconnected => (i', Ready(None))
    case Empty => (if i.recvWaker == Some(waker) then i' else i'.(recvWaker := Some(waker)), Pending)
  }

  // The shared state behind the mutex.
  class Shared<T> {
    var queue: seq<T>
    const capacity: nat
    var senders: nat
    var receiverAlive: bool
    var recvWaker: Option<Waker>

    function Contents(): Inner<T>
      reads this
    {
      Inner(queue, capacity, senders, receiverAlive, recvWaker)
    }

    constructor (capacity: nat)
      ensures Contents() == Channel(capacity)
    {
      this.capacity := capacity;
      queue, senders, receiverAlive, recvWaker := [], 1, true, None;
    }

    method CloneSender()
      modifies this
      ensures Contents() == AddSender(old(Contents()))
    {
      senders := senders + 1;
    }

    method DropSender() returns (wake: Option<Waker>)
      requires senders > 0
      modifies this
      ensures (Contents(), wake) == RemoveSender(old(Contents()))
    {
      senders := senders - 1;
      wake := None;
      if senders == 0 {
        wake, recvWaker := recvWaker, None;
      }
    }

    method TrySend(value: T) returns (r: SendResult, wake: Option<Waker>)
      modifies this
      ensures (Contents(), r, wake) == Send(old(Contents()), value)
    {
      if !receiverAlive {
        return Closed, None;
      }
      if |queue| >= capacity {
        return Full, None;
      }
      queue := queue + [value];
      r := Sent;
      wake, recvWaker := recvWaker, None;
    }

    method TryRecv() returns (pop: Pop<T>)
      modifies this
      ensures (Contents(), pop) == Take(old(Contents()))
    {
      if queue != [] {
        pop := Value(queue[0]);
        queue := queue[1..];
      } else {
        pop := if senders == 0 then Disconnected else Empty;
      }
    }

    method Recv(waker: Waker) returns (poll: Poll<T>)
      modifies this
      ensures (Contents(), poll) == PollRecv(old(Contents()), waker)
    {
      var pop := TryRecv();
      match pop
      case Value(v) => poll := Ready(Some(v));
      case Disconnected => poll := Ready(None);
      case Empty =>
        if recvWaker != Some(waker) {
          recvWaker := Some(waker);
        }
        poll := Pending;
    }

    method DropReceiver()
      modifies this
      ensures Contents() == old(Contents()).(receiverAlive := false)
    {
      receiverAlive := false;
    }
  }

  // All the parties: live sender handles, the wakes taken out but not yet delivered, and the
  // receiver. `waiting` is the waker its latest poll left pending, if that future is still held;
  // `notified` says that its task has been woken since.
  datatype Machine<T> = Machine(
    inner: Inner<T>,
    handles: set<nat>,
    waking: multiset<Waker>,
    waiting: Option<Waker>,
    notified: bool,
    accepted: seq<T>,
    delivered: seq<T>)

  datatype Action<T> =
    | Clone(from: nat, added: nat)
    | TrySend(from: nat, value: T)
    | DropHandle(from: nat)
    | PollWith(waker: Waker)
    | TryRecv
    | DropFuture
    | DropReceiver
    | Wake(waker: Waker)

  function NewMachine<T>(capacity: nat): Machine<T> {
    Machine(Channel(capacity), {0}, multiset{}, None, false, [], [])
  }

  // Handles are used while they live, and the receiver is borrowed by the future that waits.
  predicate Enabled<T>(m: Machine<T>, a: Action<T>) {
    match a
    case Clone(h, h') => h in m.handles && h' !in m.handles
    case TrySend(h, _) => h in m.handles
    case DropHandle(h) => h in m.handles && m.inner.senders > 0
    case PollWith(_) => m.inner.receiverAlive
    case TryRecv => m.inner.receiverAlive && m.waiting.None?
    case DropFuture => true
    case DropReceiver => m.inner.receiverAlive && m.waiting.None?
    case Wake(w) => w in m.waking
  }

  function Out(wake: Option<Waker>): multiset<Waker> {
    if wake.Some? then multiset{wake.value} else multiset{}
  }

  function Next<T>(m: Machine<T>, a: Action<T>): Machine<T>
    requires Enabled(m, a)
  {
    match a
    case Clone(_, h') => m.(inner := AddSender(m.inner), handles := m.handles + {h'})
    case TrySend(_, value) =>
      var (inner, r, wake) := Send(m.inner, value);
      m.(inner := inner, waking := m.waking + Out(wake), accepted := if r.Sent? then m.accepted + [value] else m.accepted)
    case DropHandle(h) =>
      var (inner, wake) := RemoveSender(m.inner);
      m.(inner := inner, handles := m.handles - {h}, waking := m.waking + Out(wake))
    case PollWith(waker) =>
      var (inner, poll) := PollRecv(m.inner, waker);
      m.(inner := inner, notified := false,
         waiting := if poll.Pending? then Some(waker) else None,
         delivered := if poll.Ready? && poll.value.Some? then m.delivered + [poll.value.value] else m.delivered)
    case TryRecv =>
      var (inner, pop) := Take(m.inner);
      m.(inner := inner, delivered := if pop.Value? then m.delivered + [pop.value] else m.delivered)
    case DropFuture => m.(waiting := None)
    case DropReceiver => m.(inner := m.inner.(receiverAlive := false))
    case Wake(w) =>
      m.(waking := m.waking - multiset{w},
         notified := m.notified || (m.waiting.Some? && m.waiting.value.task == w.task))
  }

  // A wake for a task is on its way.
  ghost predicate Outstanding(waking: multiset<Waker>, task: nat) {
    exists w :: w in waking && w.task == task
  }

  ghost predicate ContentsInv<T>(m: Machine<T>) {
    && m.accepted == m.delivered + m.inner.queue
    && |m.inner.queue| <= m.inner.capacity
    && m.inner.senders == |m.handles|
  }

  // A parked waker means there is nothing to receive, and somebody who may still send.
  ghost predicate ParkedInv<T>(m: Machine<T>) {
    m.inner.recvWaker.Some? ==> m.inner.queue == [] && m.inner.senders > 0
  }

  // A receiver left pending is parked, or is being woken, or has been woken.
  ghost predicate WatchedInv<T>(m: Machine<T>) {
    m.waiting.Some? ==>
      || (m.inner.recvWaker.Some? && m.inner.recvWaker.value.task == m.waiting.value.task)
      || Outstanding(m.waking, m.waiting.value.task)
      || m.notified
  }

  ghost predicate Inv<T>(m: Machine<T>) {
    ContentsInv(m) && ParkedInv(m) && WatchedInv(m)
  }

  lemma NextKeepsInv<T>(m: Machine<T>, a: Action<T>)
    requires Inv(m) && Enabled(m, a)
    ensures Inv(Next(m, a))
  {
    NextKeepsContents(m, a);
    NextKeepsParked(m, a);
    NextKeepsWatched(m, a);
    hide Next;
  }

  lemma NextKeepsContents<T>(m: Machine<T>, a: Action<T>)
    requires ContentsInv(m) && Enabled(m, a)
    ensures ContentsInv(Next(m, a))
  {
    if a.Clone? {
      assert |m.handles + {a.added}| == |m.handles| + 1;
    } else if a.DropHandle? {
      assert |m.handles - {a.from}| == |m.handles| - 1;
    }
  }

  lemma NextKeepsParked<T>(m: Machine<T>, a: Action<T>)
    requires ParkedInv(m) && Enabled(m, a)
    ensures ParkedInv(Next(m, a))
  {
    hide Out;
    match a
    case Clone(_, _) =>
    case TrySend(_, _) =>
    case DropHandle(_) =>
    case PollWith(_) =>
    case TryRecv =>
    case DropFuture =>
    case DropReceiver =>
    case Wake(_) =>
  }

  lemma NextKeepsWatched<T>(m: Machine<T>, a: Action<T>)
    requires WatchedInv(m) && Enabled(m, a)
    ensures WatchedInv(Next(m, a))
  {
    var m' := Next(m, a);
    hide Outstanding, Out;
    if a.TrySend? {
      KeepsWaking(m, m', Send(m.inner, a.value).2);
    } else if a.DropHandle? {
      KeepsWaking(m, m', RemoveSender(m.inner).1);
    } else if a.Wake? {
      WakeKeepsWatched(m, a.waker);
    }
  }

  lemma WakeKeepsWatched<T>(m: Machine<T>, w: Waker)
    requires WatchedInv(m) && w in m.waking
    ensures WatchedInv(Next(m, Wake(w)))
  {
    var waking := m.waking - multiset{w};
    if m.waiting.Some? && w.task != m.waiting.value.task && Outstanding(m.waking, m.waiting.value.task) {
      var x :| x in m.waking && x.task == m.waiting.value.task;
      assert x in waking;
    }
  }

  // Taking the parked waker out moves it to the wakes on their way.
  lemma KeepsWaking<T>(m: Machine<T>, m': Machine<T>, wake: Option<Waker>)
    requires WatchedInv(m) && m'.waiting == m.waiting && m'.notified == m.notified
    requires m'.waking == m.waking + Out(wake)
    requires m'.inner.recvWaker == m.inner.recvWaker || (wake == m.inner.recvWaker && m'.inner.recvWaker.None?)
    ensures WatchedInv(m')
  {
    if m.waiting.Some? && !m.notified {
      if Outstanding(m.waking, m.waiting.value.task) {
        var x :| x in m.waking && x.task == m.waiting.value.task;
        assert x in m'.waking;
      } else if m'.inner.recvWaker.None? {
        assert wake.value in m'.waking;
      }
    }
  }

  ghost predicate IsRun<T>(run: seq<Machine<T>>, actions: seq<Action<T>>) {
    && |run| == |actions| + 1
    && run[0] == NewMachine(run[0].inner.capacity)
    && forall i :: 0 <= i < |actions| ==> Enabled(run[i], actions[i]) && run[i + 1] == Next(run[i], actions[i])
  }

  lemma StepOf<T>(run: seq<Machine<T>>, actions: seq<Action<T>>, i: nat)
    requires IsRun(run, actions) && i + 1 < |run|
    ensures i < |actions| && Enabled(run[i], actions[i]) && run[i + 1] == Next(run[i], actions[i])
  {
    hide Next, Enabled;
  }

  lemma {:induction false} RunInv<T>(run: seq<Machine<T>>, actions: seq<Action<T>>, i: nat)
    requires IsRun(run, actions) && i < |run|
    ensures Inv(run[i])
  {
    if i > 0 {
      hide IsRun, Next, Enabled, Inv;
      RunInv(run, actions, i - 1);
      StepOf(run, actions, i - 1);
      NextKeepsInv(run[i - 1], actions[i - 1]);
    }
  }

  // No lost wakeup, over every interleaving: if the wakes on their way have all been delivered and
  // the waiting receiver has not been woken, then it is parked, and rightly so.
  lemma NoLostWakeup<T>(run: seq<Machine<T>>, actions: seq<Action<T>>, i: nat)
    requires IsRun(run, actions) && i < |run|
    requires run[i].waiting.Some? && !run[i].notified
    requires !Outstanding(run[i].waking, run[i].waiting.value.task)
    ensures run[i].inner.recvWaker.Some? && run[i].inner.recvWaker.value.task == run[i].waiting.value.task
    ensures run[i].inner.queue == [] && run[i].handles != {}
  {
    RunInv(run, actions, i);
  }

  // The contents, over every interleaving. The bound does not depend on the number of handles.
  lemma QueueContents<T>(run: seq<Machine<T>>, actions: seq<Action<T>>, i: nat)
    requires IsRun(run, actions) && i < |run|
    ensures run[i].accepted == run[i].delivered + run[i].inner.queue
    ensures |run[i].inner.queue| <= run[i].inner.capacity == run[0].inner.capacity
    ensures run[i].inner.senders == |run[i].handles|
  {
    RunInv(run, actions, i);
    CapacityFixed(run, actions, i);
  }

  lemma {:induction false} CapacityFixed<T>(run: seq<Machine<T>>, actions: seq<Action<T>>, i: nat)
    requires IsRun(run, actions) && i < |run|
    ensures run[i].inner.capacity == run[0].inner.capacity
  {
    if i > 0 {
      hide IsRun, Next, Enabled;
      CapacityFixed(run, actions, i - 1);
      StepOf(run, actions, i - 1);
      CapacityKept(run[i - 1], actions[i - 1]);
    }
  }

  lemma CapacityKept<T>(m: Machine<T>, a: Action<T>)
    requires Enabled(m, a)
    ensures Next(m, a).inner.capacity == m.inner.capacity
  {
    hide Out;
  }

  // A refusal says why: Closed exactly when the receiver is gone, full or not; Full exactly when
  // it is there and the queue holds `capacity` messages.
  lemma RefusalsMean<T>(run: seq<Machine<T>>, actions: seq<Action<T>>, i: nat, value: T)
    requires IsRun(run, actions) && i < |run|
    ensures Send(run[i].inner, value).1 == Closed <==> !run[i].inner.receiverAlive
    ensures Send(run[i].inner, value).1 == Full <==> run[i].inner.receiverAlive && |run[i].inner.queue| == run[0].inner.capacity
  {
    QueueContents(run, actions, i);
  }

  // `recv` ends only when every handle is gone and everything accepted has been delivered ...
  lemma EndMeansDrained<T>(run: seq<Machine<T>>, actions: seq<Action<T>>, i: nat, waker: Waker)
    requires IsRun(run, actions) && i < |run|
    ensures PollRecv(run[i].inner, waker).1 == Ready(None)
       <==> run[i].handles == {} && run[i].delivered == run[i].accepted
  {
    QueueContents(run, actions, i);
    var m := run[i];
    if m.delivered == m.accepted {
      assert |m.accepted| == |m.delivered| + |m.inner.queue|;
    }
    if m.inner.queue == [] {
      assert m.delivered + [] == m.delivered;
    }
  }

  ghost predicate Drained<T>(i: Inner<T>) {
    i.queue == [] && i.senders == 0
  }

  lemma EndMeans<T>(i: Inner<T>, waker: Waker)
    ensures PollRecv(i, waker).1 == Ready(None) <==> Drained(i)
  {
  }

  // ... and then it ends every time it is polled again.
  lemma {:induction false} EndIsForever<T>(run: seq<Machine<T>>, actions: seq<Action<T>>, i: nat, j: nat, waker: Waker, waker': Waker)
    requires IsRun(run, actions) && i <= j < |run|
    requires PollRecv(run[i].inner, waker).1 == Ready(None)
    ensures PollRecv(run[j].inner, waker').1 == Ready(None)
  {
    hide *;
    EndMeans(run[i].inner, waker);
    DrainedStays(run, actions, i, j);
    EndMeans(run[j].inner, waker');
  }

  lemma {:induction false} DrainedStays<T>(run: seq<Machine<T>>, actions: seq<Action<T>>, i: nat, j: nat)
    requires IsRun(run, actions) && i <= j < |run| && Drained(run[i].inner)
    ensures Drained(run[j].inner)
    decreases j
  {
    hide IsRun, Next, Enabled, Drained;
    if j > i {
      DrainedStays(run, actions, i, j - 1);
      StepOf(run, actions, j - 1);
      QueueContents(run, actions, j - 1);
      EndStays(run[j - 1], actions[j - 1]);
    }
  }

  // Without a handle nobody sends, and nobody clones.
  lemma EndStays<T>(m: Machine<T>, a: Action<T>)
    requires Enabled(m, a) && m.inner.senders == |m.handles| && Drained(m.inner)
    ensures Drained(Next(m, a).inner)
  {
    hide Out;
    assert m.handles == {};
  }
}
