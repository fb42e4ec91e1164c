// The session loop together with the wakes of its queue (src/libs/ws/outbound.rs) and the
// broadcasts of its flag (src/libs/signal.rs). A sender takes the parked waker out under the lock
// and wakes it later; a `cancel` stores the flag and broadcasts later; all others step in between.
module SessionWakes {
  import opened Wrappers
  import opened Outbound
  import opened Toolbox
  import opened Session

  // `waking`: wakers taken out of the queue and not yet woken. `woken`: the session's task has been
  // woken since its latest stretch began. `casting`: calls of `cancel` between store and broadcast.
  // `hit`: a broadcast has reached the flag future that the session is parked on.
  datatype State = State(session: Session.State, waking: multiset<Waker>, woken: bool, casting: nat, hit: bool)

  datatype Action =
    | Act(action: Session.Action)
    | Wake(waker: Waker)
    | Broadcast

  // Queueing this text sets the flag, and broadcasts.
  predicate Closes(l: Line, p: Policy, text: string) {
    p.flagged && (p.oneshot || (Put(l, Payload(text)).1.Full? && p.dropOnFull))
  }

  predicate ClosesAny(c: Config, l: Line, texts: seq<string>)
    decreases |texts|
  {
    texts != [] &&
    (Closes(l, PolicyOf(c), texts[0]) || ClosesAny(c, Enqueue(l, PolicyOf(c), texts[0]), texts[1..]))
  }

  predicate TurnsClose(c: Config, l: Line, turns: seq<Turn>)
    decreases |turns|
  {
    turns != [] &&
    (ClosesAny(c, l, turns[0].texts) || TurnsClose(c, EnqueueAll(c, l, turns[0].texts), turns[1..]))
  }

  // What a parked flag future finds is no longer a free input: a broadcast has reached it, from
  // another thread before this stretch or from a handler polled in it.
  predicate Enabled(c: Config, s: State, a: Action) {
    match a
    case Act(b) =>
      && Session.Enabled(s.session, b)
      && (b.Stretch? && s.session.pc.Waiting? ==>
            (b.input.notified <==> s.hit || TurnsClose(c, s.session.line, b.input.turns)))
    case Wake(w) => w in s.waking
    case Broadcast => s.casting > 0
  }

  // The waker a step of somebody else takes out of the queue. What a stretch takes out itself is
  // woken within it; one that ends waiting took none out (`PendingPoll`).
  function TakenOut(s: Session.State, a: Session.Action): Option<Waker>
    requires Session.Enabled(s, a)
  {
    match a
    case Other(frame) => Send(s.line.inner, frame).2
    case DropSender => RemoveSender(s.line.inner).1
    case _ => None
  }

  function Next(c: Config, s: State, a: Action): State
    requires Enabled(c, s, a)
  {
    match a
    case Act(b) =>
      var session := Session.Next(c, s.session, b);
      s.(session := session,
         waking := s.waking + Out(TakenOut(s.session, b)),
         woken := s.woken && !b.Stretch?,
         casting := s.casting + if b.Cancel? then 1 else 0,
         hit := s.hit && session.pc.Waiting?)
    case Wake(w) => s.(waking := s.waking - multiset{w}, woken := s.woken || w.task == TASK.task)
    case Broadcast => s.(casting := s.casting - 1, woken := s.woken || s.session.pc.Waiting?, hit := s.session.pc.Waiting?)
  }

  function Initial(capacity: nat): State {
    State.State(Session.Initial(capacity), multiset{}, false, 0, false)
  }

  // A parked waker is the session's, with nothing to take and somebody who may still send.
  ghost predicate Parked(i: Inner<Frame>) {
    i.recvWaker.Some? ==> i.recvWaker == Some(TASK) && i.queue == [] && i.senders > 0
  }

  ghost predicate QueueWatched(s: State) {
    s.session.pc.Waiting? ==> s.session.line.inner.recvWaker.Some? || TASK in s.waking || s.woken
  }

  ghost predicate FlagWatched(s: State) {
    && (s.hit ==> s.session.pc.Waiting? && s.session.line.end && s.woken)
    && (s.casting > 0 ==> s.session.line.end)
    && (s.session.pc.Waiting? && s.session.line.end ==> s.casting > 0 || s.hit)
  }

  ghost predicate Inv(c: Config, s: State) {
    Session.Inv(c, s.session) && Parked(s.session.line.inner) && QueueWatched(s) && FlagWatched(s)
  }

  // What queueing does to the parked waker and to the flag.

  ghost predicate Grown(l: Line, l': Line, closes: bool) {
    && l'.inner.senders == l.inner.senders
    && l.inner.queue <= l'.inner.queue
    && (l'.inner.queue == l.inner.queue ==> l'.inner.recvWaker == l.inner.recvWaker)
    && (l'.inner.queue != l.inner.queue ==> l'.inner.recvWaker.None?)
    && (l'.end <==> l.end || closes)
  }

  lemma GrownTwice(l: Line, l1: Line, l2: Line, closes: bool, closes': bool)
    requires Grown(l, l1, closes) && Grown(l1, l2, closes')
    ensures Grown(l, l2, closes || closes')
  {
    if l2.inner.queue == l.inner.queue {
      assert |l.inner.queue| <= |l1.inner.queue| <= |l2.inner.queue|;
      assert l1.inner.queue == l.inner.queue;
    }
  }

  lemma PutGrows(l: Line, frame: Frame)
    ensures Grown(l, Put(l, frame).0, false)
  {
  }

  lemma CloseGrows(l: Line, p: Policy)
    ensures Grown(l, CloseForPolicy(l, p), p.flagged)
  {
    PutGrows(l, Close);
  }

  lemma EnqueueGrows(l: Line, p: Policy, text: string)
    ensures Grown(l, Enqueue(l, p, text), Closes(l, p, text))
  {
    var (l1, r) := Put(l, Payload(text));
    var refused := r.Full? && p.dropOnFull;
    var l2 := if refused then CloseForPolicy(l1, p) else l1;
    PutGrows(l, Payload(text));
    CloseGrows(l1, p);
    CloseGrows(l2, p);
    hide Grown, Put, CloseForPolicy;
    if refused {
      GrownTwice(l, l1, l2, false, p.flagged);
    }
    if p.oneshot {
      GrownTwice(l, l2, CloseForPolicy(l2, p), refused && p.flagged, p.flagged);
    }
  }

  lemma {:induction false} AllGrow(c: Config, l: Line, texts: seq<string>)
    ensures Grown(l, EnqueueAll(c, l, texts), ClosesAny(c, l, texts))
    decreases |texts|
  {
    if texts != [] {
      var l1 := Enqueue(l, PolicyOf(c), texts[0]);
      EnqueueGrows(l, PolicyOf(c), texts[0]);
      AllGrow(c, l1, texts[1..]);
      hide Grown, Enqueue, Closes;
      GrownTwice(l, l1, EnqueueAll(c, l1, texts[1..]), Closes(l, PolicyOf(c), texts[0]), ClosesAny(c, l1, texts[1..]));
    }
  }

  lemma {:induction false} TurnsGrow(c: Config, l: Line, turns: seq<Turn>)
    ensures Grown(l, RunTurns(c, l, turns), TurnsClose(c, l, turns))
    decreases |turns|
  {
    if turns != [] {
      var l1 := EnqueueAll(c, l, turns[0].texts);
      AllGrow(c, l, turns[0].texts);
      TurnsGrow(c, l1, turns[1..]);
      hide Grown, EnqueueAll, ClosesAny;
      GrownTwice(l, l1, RunTurns(c, l1, turns[1..]), ClosesAny(c, l, turns[0].texts), TurnsClose(c, l1, turns[1..]));
    }
  }

  lemma GrownParked(l: Line, l': Line, closes: bool)
    requires Grown(l, l', closes) && Parked(l.inner)
    ensures Parked(l'.inner)
  {
  }

  // Stretches.

  // A poll that ends pending found the queue empty and left the session parked on it. It took out
  // no waker, and did not find the flag.
  lemma PendingPoll(c: Config, s: Session.State, given: Input, first: bool)
    requires PollArms(c, s, given, first).pc.Waiting?
    ensures var l, l' := s.line, PollArms(c, s, given, first).line;
      && l.inner.queue == [] == l'.inner.queue
      && l.inner.senders == l'.inner.senders > 0
      && l'.inner.recvWaker == Some(TASK)
      && RunTurns(c, l, given.turns).inner.recvWaker == l.inner.recvWaker
      && (l'.end <==> l.end || TurnsClose(c, l, given.turns))
      && !(l'.end && (first || given.notified))
  {
    TurnsGrow(c, s.line, given.turns);
    hide RunTurns, TurnsClose, Finishes, EnqueueAll, HandleMessage;
  }

  lemma PollParks(c: Config, s: Session.State, given: Input, first: bool)
    requires Parked(s.line.inner)
    ensures Parked(PollArms(c, s, given, first).line.inner)
  {
    TurnsGrow(c, s.line, given.turns);
    GrownParked(s.line, RunTurns(c, s.line, given.turns), TurnsClose(c, s.line, given.turns));
    hide RunTurns, TurnsClose, Finishes, Dispatch, Grown;
    if !Finishes(given.turns) && given.arrival.Message? {
      var s1 := s.(line := RunTurns(c, s.line, given.turns));
      DispatchParks(c, s1.(line := s1.line.(inner := PollRecv(s1.line.inner, TASK).0)), given.arrival.message);
    }
  }

  lemma DispatchParks(c: Config, s: Session.State, m: Inbound)
    requires Parked(s.line.inner)
    ensures Parked(Dispatch(c, s, m).line.inner)
  {
    hide EnqueueAll, HandleMessage, ClosesAny;
    var texts := HandleMessage(c, m).1;
    AllGrow(c, s.line, texts);
    GrownParked(s.line, EnqueueAll(c, s.line, texts), ClosesAny(c, s.line, texts));
  }

  lemma StretchParks(c: Config, s: Session.State, given: Input)
    requires Parked(s.line.inner) && !s.pc.Done?
    ensures Parked(Advance(c, s, given).line.inner)
  {
    hide PollArms;
    if s.pc.Waiting? {
      PollParks(c, s, given, false);
    } else if !s.pc.Sending? {
      PollParks(c, s, given, true);
    }
  }

  lemma StretchWatches(c: Config, s: State, given: Input)
    requires Inv(c, s) && Enabled(c, s, Act(Stretch(given)))
    ensures Inv(c, Next(c, s, Act(Stretch(given))))
  {
    Session.NextKeepsInv(c, s.session, Stretch(given));
    StretchParks(c, s.session, given);
    if s.session.line.end {
      FlaggedStep(c, s.session, Stretch(given));
    }
    hide PollArms, Session.Inv, TurnsClose;
    if Advance(c, s.session, given).pc.Waiting? {
      PendingPoll(c, s.session, given, !s.session.pc.Waiting?);
    }
    assert multiset{} + s.waking == s.waking;
  }

  // Everybody else's steps.

  lemma OtherWatches(c: Config, s: State, frame: Frame)
    requires Inv(c, s)
    ensures Inv(c, Next(c, s, Act(Other(frame))))
  {
    Session.NextKeepsInv(c, s.session, Other(frame));
    PutGrows(s.session.line, frame);
    hide Session.Inv;
  }

  lemma DropWatches(c: Config, s: State)
    requires Inv(c, s) && s.session.line.inner.senders > 0
    ensures Inv(c, Next(c, s, Act(DropSender)))
  {
    Session.NextKeepsInv(c, s.session, DropSender);
    hide Session.Inv;
  }

  lemma NextKeepsInv(c: Config, s: State, a: Action)
    requires Inv(c, s) && Enabled(c, s, a)
    ensures Inv(c, Next(c, s, a))
  {
    if a.Act? {
      if a.action.Stretch? {
        StretchWatches(c, s, a.action.input);
      } else if a.action.Other? {
        OtherWatches(c, s, a.action.frame);
      } else if a.action.DropSender? {
        DropWatches(c, s);
      } else {
        Session.NextKeepsInv(c, s.session, a.action);
        hide Session.Inv;
      }
    } else if a.Wake? {
      assert a.waker != TASK && TASK in s.waking ==> TASK in s.waking - multiset{a.waker};
      hide Session.Inv;
    }
  }

  ghost predicate IsRun(c: Config, run: seq<State>, actions: seq<Action>) {
    && |run| == |actions| + 1
    && run[0] == Initial(run[0].session.line.inner.capacity)
    && forall i :: 0 <= i < |actions| ==> Enabled(c, run[i], actions[i]) && run[i + 1] == Next(c, run[i], actions[i])
  }

  lemma StepOf(c: Config, run: seq<State>, actions: seq<Action>, i: nat)
    requires IsRun(c, run, actions) && i + 1 < |run|
    ensures i < |actions| && Enabled(c, run[i], actions[i]) && run[i + 1] == Next(c, run[i], actions[i])
  {
    hide Next, Enabled;
  }

  lemma {:induction false} RunInv(c: Config, run: seq<State>, actions: seq<Action>, i: nat)
    requires IsRun(c, run, actions) && i < |run|
    ensures Inv(c, run[i])
  {
    if i > 0 {
      hide IsRun, Next, Enabled, Inv;
      RunInv(c, run, actions, i - 1);
      StepOf(c, run, actions, i - 1);
      NextKeepsInv(c, run[i - 1], actions[i - 1]);
    }
  }

  // No lost wake, over every interleaving: a session that waits while its queue holds a frame or
  // has lost its last sender, or while its flag is set, has been woken, or a wake or a broadcast
  // for it is on its way.
  lemma NoLostWake(c: Config, run: seq<State>, actions: seq<Action>, i: nat)
    requires IsRun(c, run, actions) && i < |run| && run[i].session.pc.Waiting?
    ensures var s, l := run[i], run[i].session.line;
      && (l.inner.queue != [] || l.inner.senders == 0 ==> s.woken || TASK in s.waking)
      && (l.end ==> (s.woken && s.hit) || s.casting > 0)
  {
    RunInv(c, run, actions, i);
    hide Session.Inv;
  }

  // Hence a session at rest, with nothing on its way to wake it, has sent every frame its queue
  // ever accepted; its flag is not set, and somebody can still send.
  lemma AtRestAllIsSent(c: Config, run: seq<State>, actions: seq<Action>, i: nat)
    requires IsRun(c, run, actions) && i < |run| && run[i].session.pc.Waiting?
    requires !run[i].woken && TASK !in run[i].waking && run[i].casting == 0
    ensures run[i].session.line.accepted == run[i].session.sent
    ensures !run[i].session.line.end && run[i].session.line.inner.senders > 0
  {
    RunInv(c, run, actions, i);
  }

  // And no wake is in vain: whatever handlers do and the peer sends, a poll that has a frame to
  // take, or finds the senders gone or the broadcast arrived, does not go back to waiting.
  lemma PollActs(c: Config, run: seq<State>, actions: seq<Action>, i: nat)
    requires IsRun(c, run, actions) && i < |actions| && run[i].session.pc.Waiting?
    requires run[i].session.line.inner.queue != [] || run[i].session.line.inner.senders == 0 || run[i].hit
    requires actions[i].Act? && actions[i].action.Stretch?
    ensures !run[i + 1].session.pc.Waiting?
  {
    RunInv(c, run, actions, i);
    StepOf(c, run, actions, i);
    hide IsRun, PollArms, Session.Inv;
    if run[i + 1].session.pc.Waiting? {
      PendingPoll(c, run[i].session, actions[i].action.input, false);
    }
  }
}
