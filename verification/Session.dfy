// The session loop (src/libs/ws/session.rs): drain the queue, honour the flag, then wait on four
// arms in strict priority. A stretch of the loop between two awaits is one step; everybody else
// who shares the queue and the flag steps in between.
module Session {
  import opened Wrappers
  import opened Outbound
  import opened Toolbox

  datatype Config = Config(headerOnly: bool, dropOnFull: bool, mcp: bool, mcpOnly: bool)

  // What the frames of a peer ask for. A payload is read as JSON-RPC if it parses as such and MCP
  // is enabled, and as a legacy request otherwise; either way it is answered at once (with any
  // number of frames) or becomes a task.
  datatype Outcome = Answer(texts: seq<string>) | Work(task: nat)
  datatype Inbound = Data(rpc: Outcome, isRpc: bool, legacy: Outcome) | Ping | Pong | CloseFrame

  datatype Verdict = Hangup | Keep | Task(task: nat)

  const MCP_ONLY_ERROR := "This WebSocket accepts MCP JSON-RPC 2.0 frames only"

  function Judge(o: Outcome): (Verdict, seq<string>) {
    match o
    case Answer(texts) => (Keep, texts)
    case Work(t) => (Task(t), [])
  }

  function HandleMessage(c: Config, m: Inbound): (Verdict, seq<string>) {
    if c.mcp && m.Data? && m.isRpc then Judge(m.rpc)
    else if c.mcpOnly then (Keep, [MCP_ONLY_ERROR])
    else match m
      case Data(_, _, legacy) => Judge(legacy)
      case Ping => (Keep, [])
      case Pong => (Keep, [])
      case CloseFrame => (Hangup, [])
  }

  datatype Reason = IdleExpired | SendFailed | HeaderOnly | EndFlagged | OutboundClosed | InboundFailed | InboundEnded | PeerClosed

  // Where the loop stands between two stretches. `Sending` awaits the stream, in the drain loop
  // or after the outbound arm fired; `Waiting` is pending in `priority4`.
  datatype Pc = Top | Draining | Sending(frame: Frame, arm: bool) | Waiting | Done(reason: Reason)

  // One poll of one handler: the frames it queues, and whether it completes.
  datatype Turn = Turn(task: nat, texts: seq<string>, finished: bool)

  datatype Arrival = Nothing | Message(message: Inbound) | Failure | End

  // What the surroundings decide during one stretch.
  datatype Input = Input(
    idle: bool,          // `idle_expired` at the top of the loop
    idlePopped: bool,    // and after a frame was popped
    sendOk: bool,        // the pending send succeeded
    turns: seq<Turn>,    // the handlers that are polled, in order
    arrival: Arrival,    // what the stream has
    notified: bool)      // the broadcast has reached the parked flag future

  datatype State = State(
    line: Line,
    handlers: set<nat>,
    pc: Pc,
    sent: seq<Frame>,
    lost: seq<Frame>,
    dispatched: seq<Inbound>)

  datatype Action =
    | Stretch(input: Input)
    | IdleWins           // the idle timer ends the session at an await
    | Other(frame: Frame)  // `try_send` by somebody else
    | Cancel             // the flag, by somebody else
    | CloneSender
    | DropSender

  function PolicyOf(c: Config): Policy {
    Policy(c.headerOnly, c.dropOnFull, true)
  }

  function EnqueueAll(c: Config, l: Line, texts: seq<string>): Line
    decreases |texts|
  {
    if texts == [] then l else EnqueueAll(c, Enqueue(l, PolicyOf(c), texts[0]), texts[1..])
  }

  // The handler set is polled until one completes.
  function RunTurns(c: Config, l: Line, turns: seq<Turn>): Line
    decreases |turns|
  {
    if turns == [] then l else RunTurns(c, EnqueueAll(c, l, turns[0].texts), turns[1..])
  }

  predicate Finishes(turns: seq<Turn>) {
    turns != [] && turns[|turns| - 1].finished
  }

  // Only members are polled, and the poll stops at the first that completes.
  predicate ValidTurns(handlers: set<nat>, turns: seq<Turn>) {
    forall i :: 0 <= i < |turns| ==> turns[i].task in handlers && (turns[i].finished ==> i == |turns| - 1)
  }

  // Returning drops the receiver.
  function Exit(s: State, reason: Reason): State {
    s.(pc := Done(reason), line := s.line.(inner := s.line.inner.(receiverAlive := false)))
  }

  function Dispatch(c: Config, s: State, m: Inbound): State {
    var (verdict, texts) := HandleMessage(c, m);
    var s' := s.(line := EnqueueAll(c, s.line, texts), dispatched := s.dispatched + [m]);
    match verdict
    case Hangup => Exit(s', PeerClosed)
    case Keep => s'.(pc := Top)
    case Task(t) => s'.(pc := Top, handlers := s'.handlers + {t})
  }

  function PollInbound(c: Config, s: State, arrival: Arrival, endReady: bool): State {
    match arrival
    case Message(m) => Dispatch(c, s, m)
    case Failure => Exit(s, InboundFailed)
    case End => Exit(s, InboundEnded)
    case Nothing => if endReady then Exit(s, EndFlagged) else s.(pc := Waiting)
  }

  // The waker of the session's own task.
  const TASK := Waker(0, 0)

  // One poll of `priority4`. A flag future polled for the first time reads the flag; one that is
  // parked is ready when the broadcast has reached it.
  function PollArms(c: Config, s: State, given: Input, first: bool): State {
    var s1 := s.(line := RunTurns(c, s.line, given.turns));
    if Finishes(given.turns) then
      s1.(pc := Top, handlers := s1.handlers - {given.turns[|given.turns| - 1].task})
    else
      var (inner, poll) := PollRecv(s1.line.inner, TASK);
      var s2 := s1.(line := s1.line.(inner := inner));
      match poll
      case Ready(Some(frame)) => s2.(pc := Sending(frame, true))
      case Ready(None) => Exit(s2, OutboundClosed)
      case Pending => PollInbound(c, s2, given.arrival, s2.line.end && (first || given.notified))
  }

  function Drain(c: Config, s: State, given: Input): State {
    var (inner, pop) := Take(s.line.inner);
    if pop.Value? then
      var s1 := s.(line := s.line.(inner := inner));
      if given.idlePopped then Exit(s1.(lost := s.lost + [pop.value]), IdleExpired)
      else s1.(pc := Sending(pop.value, false))
    else if s.line.end then Exit(s, EndFlagged)
    else PollArms(c, s, given, true)
  }

  function Sent(c: Config, s: State, given: Input): State
    requires s.pc.Sending?
  {
    if !given.sendOk then Exit(s.(lost := s.lost + [s.pc.frame]), SendFailed)
    else
      var s1 := s.(sent := s.sent + [s.pc.frame]);
      if c.headerOnly then Exit(s1, HeaderOnly)
      else s1.(pc := if s.pc.arm then Top else Draining)
  }

  function Advance(c: Config, s: State, given: Input): State
    requires !s.pc.Done?
  {
    match s.pc
    case Top => if given.idle then Exit(s, IdleExpired) else Drain(c, s, given)
    case Draining => Drain(c, s, given)
    case Sending(_, _) => Sent(c, s, given)
    case Waiting => PollArms(c, s, given, false)
  }

  function Expire(s: State): State {
    Exit(if s.pc.Sending? then s.(lost := s.lost + [s.pc.frame]) else s, IdleExpired)
  }

  predicate Enabled(s: State, a: Action) {
    match a
    case Stretch(given) => !s.pc.Done? && ValidTurns(s.handlers, given.turns)
    case IdleWins => s.pc.Sending? || s.pc.Waiting?
    case CloneSender => s.line.inner.senders > 0
    case DropSender => s.line.inner.senders > 0
    case _ => true
  }

  function Next(c: Config, s: State, a: Action): State
    requires Enabled(s, a)
  {
    match a
    case Stretch(given) => Advance(c, s, given)
    case IdleWins => Expire(s)
    case Other(frame) => s.(line := Put(s.line, frame).0)
    case Cancel => s.(line := s.line.(end := true))
    case CloneSender => s.(line := s.line.(inner := AddSender(s.line.inner)))
    case DropSender => s.(line := s.line.(inner := RemoveSender(s.line.inner).0))
  }

  function Initial(capacity: nat): State {
    State.State(Line(Channel(capacity), false, []), {}, Top, [], [], [])
  }

  function InFlight(pc: Pc): seq<Frame> {
    if pc.Sending? then [pc.frame] else []
  }

  // The exits that may leave something behind.
  predicate Abrupt(r: Reason) {
    r == IdleExpired || r == SendFailed || r == HeaderOnly
  }

  // Every accepted frame was sent, or is being sent, or was lost, or waits, in this order.
  ghost predicate Inv(c: Config, s: State) {
    && s.line.accepted == s.sent + (InFlight(s.pc) + s.lost) + s.line.inner.queue
    && |s.lost| <= 1
    && (s.lost != [] ==> s.pc == Done(IdleExpired) || s.pc == Done(SendFailed))
    && (s.line.inner.receiverAlive <==> !s.pc.Done?)
    && (s.pc.Done? && !Abrupt(s.pc.reason) ==> s.line.inner.queue == [])
    && (c.headerOnly && s.sent != [] ==> s.pc == Done(HeaderOnly) && |s.sent| == 1)
    && (s.pc == Done(HeaderOnly) ==> c.headerOnly)
  }

  // The part of the invariant that queueing touches.
  ghost predicate Accounts(l: Line, before: seq<Frame>) {
    l.accepted == before + l.inner.queue
  }

  lemma PutKeeps(l: Line, frame: Frame, before: seq<Frame>)
    requires Accounts(l, before)
    ensures var l' := Put(l, frame).0;
            && Accounts(l', before) && l'.inner.receiverAlive == l.inner.receiverAlive
            && (!l.inner.receiverAlive ==> l'.inner.queue == l.inner.queue)
            && l.inner.queue <= l'.inner.queue && l.accepted <= l'.accepted && l'.end == l.end
  {
  }

  lemma EnqueueKeeps(l: Line, p: Policy, text: string, before: seq<Frame>)
    requires Accounts(l, before)
    ensures var l' := Enqueue(l, p, text);
            && Accounts(l', before) && l'.inner.receiverAlive == l.inner.receiverAlive
            && l.inner.queue <= l'.inner.queue && (l.end ==> l'.end)
  {
    PutKeeps(l, Payload(text), before);
    var l1 := Put(l, Payload(text)).0;
    PutKeeps(l1, Close, before);
    var l2 := CloseForPolicy(l1, p);
    PutKeeps(l2, Close, before);
  }

  lemma {:induction false} EnqueueAllKeeps(c: Config, l: Line, texts: seq<string>, before: seq<Frame>)
    requires Accounts(l, before)
    ensures var l' := EnqueueAll(c, l, texts);
            && Accounts(l', before) && l'.inner.receiverAlive == l.inner.receiverAlive
            && l.inner.queue <= l'.inner.queue && (l.end ==> l'.end)
    decreases |texts|
  {
    if texts != [] {
      EnqueueKeeps(l, PolicyOf(c), texts[0], before);
      EnqueueAllKeeps(c, Enqueue(l, PolicyOf(c), texts[0]), texts[1..], before);
      hide Enqueue;
    }
  }

  lemma {:induction false} RunTurnsKeeps(c: Config, l: Line, turns: seq<Turn>, before: seq<Frame>)
    requires Accounts(l, before)
    ensures var l' := RunTurns(c, l, turns);
            && Accounts(l', before) && l'.inner.receiverAlive == l.inner.receiverAlive
            && l.inner.queue <= l'.inner.queue && (l.end ==> l'.end)
    decreases |turns|
  {
    if turns != [] {
      EnqueueAllKeeps(c, l, turns[0].texts, before);
      RunTurnsKeeps(c, EnqueueAll(c, l, turns[0].texts), turns[1..], before);
      hide EnqueueAll;
    }
  }

  lemma DispatchKeepsInv(c: Config, s: State, m: Inbound)
    requires Inv(c, s) && (s.pc.Top? || s.pc.Draining? || s.pc.Waiting?) && s.line.inner.queue == []
    ensures Inv(c, Dispatch(c, s, m))
  {
    hide EnqueueAll, HandleMessage;
    var (verdict, texts) := HandleMessage(c, m);
    if verdict.Hangup? {
      HangupIsSilent(c, s.line, m);
    } else {
      EnqueueAllKeeps(c, s.line, texts, s.sent);
    }
  }

  lemma HangupIsSilent(c: Config, l: Line, m: Inbound)
    ensures HandleMessage(c, m).0.Hangup? <==> m.CloseFrame? && !c.mcpOnly
    ensures HandleMessage(c, m).0.Hangup? ==> EnqueueAll(c, l, HandleMessage(c, m).1) == l
  {
  }

  // The frame that is popped is sent, or is lost if the idle timer has expired.
  lemma PopKeepsInv(c: Config, s: State, arm: bool)
    requires Inv(c, s) && !s.pc.Done? && !s.pc.Sending? && s.line.inner.queue != []
    ensures var (inner, pop) := Take(s.line.inner);
            var s1 := s.(line := s.line.(inner := inner));
            && Inv(c, s1.(pc := Sending(pop.value, arm)))
            && Inv(c, Exit(s1.(lost := s.lost + [pop.value]), IdleExpired))
  {
    var q := s.line.inner.queue;
    assert s.lost == [] && s.line.accepted == s.sent + q;
    PoppedInOrder(s.sent, q);
  }

  lemma PoppedInOrder(sent: seq<Frame>, q: seq<Frame>)
    requires q != []
    ensures sent + q == sent + ([q[0]] + []) + q[1..]
    ensures sent + q == sent + ([] + ([] + [q[0]])) + q[1..]
  {
    assert q == [q[0]] + q[1..];
  }

  lemma RunTurnsKeepsInv(c: Config, s: State, turns: seq<Turn>)
    requires Inv(c, s) && !s.pc.Done? && !s.pc.Sending?
    ensures Inv(c, s.(line := RunTurns(c, s.line, turns)))
  {
    hide RunTurns;
    RunTurnsKeeps(c, s.line, turns, s.sent + (InFlight(s.pc) + s.lost));
  }

  lemma PollArmsKeepsInv(c: Config, s: State, given: Input, first: bool)
    requires Inv(c, s) && !s.pc.Done? && !s.pc.Sending?
    ensures Inv(c, PollArms(c, s, given, first))
  {
    hide RunTurns, Dispatch, Finishes;
    RunTurnsKeepsInv(c, s, given.turns);
    var s1 := s.(line := RunTurns(c, s.line, given.turns));
    if !Finishes(given.turns) {
      var pop := Take(s1.line.inner).1;
      if pop.Value? {
        PopKeepsInv(c, s1, true);
        hide Inv;
      } else if pop.Empty? && given.arrival.Message? {
        DispatchKeepsInv(c, s1.(line := s1.line.(inner := PollRecv(s1.line.inner, TASK).0)), given.arrival.message);
        hide Inv;
      }
    }
  }

  lemma DrainKeepsInv(c: Config, s: State, given: Input)
    requires Inv(c, s) && !s.pc.Done? && !s.pc.Sending?
    ensures Inv(c, Drain(c, s, given))
  {
    hide PollArms;
    if s.line.inner.queue != [] {
      PopKeepsInv(c, s, false);
      hide Inv;
    } else if !s.line.end {
      PollArmsKeepsInv(c, s, given, true);
    }
  }

  lemma SentKeepsInv(c: Config, s: State, given: Input)
    requires Inv(c, s) && s.pc.Sending?
    ensures Inv(c, Sent(c, s, given))
  {
    assert s.sent + ([s.pc.frame] + []) == s.sent + ([] + ([] + [s.pc.frame])) == (s.sent + [s.pc.frame]) + ([] + []);
  }

  lemma ExpireKeepsInv(c: Config, s: State)
    requires Inv(c, s) && (s.pc.Sending? || s.pc.Waiting?)
    ensures Inv(c, Expire(s))
  {
    if s.pc.Sending? {
      assert s.sent + ([s.pc.frame] + []) == s.sent + ([] + ([] + [s.pc.frame]));
    }
  }

  lemma StretchKeepsInv(c: Config, s: State, given: Input)
    requires Inv(c, s) && !s.pc.Done?
    ensures Inv(c, Advance(c, s, given))
  {
    hide PollArms, Drain, Sent;
    if s.pc.Waiting? {
      PollArmsKeepsInv(c, s, given, false);
    } else if s.pc.Sending? {
      SentKeepsInv(c, s, given);
    } else if s.pc.Draining? || !given.idle {
      DrainKeepsInv(c, s, given);
    }
  }

  lemma NextKeepsInv(c: Config, s: State, a: Action)
    requires Inv(c, s) && Enabled(s, a)
    ensures Inv(c, Next(c, s, a))
  {
    match a
    case Stretch(given) => StretchKeepsInv(c, s, given);
    case Other(frame) => PutKeeps(s.line, frame, s.sent + (InFlight(s.pc) + s.lost));
    case IdleWins => ExpireKeepsInv(c, s);
    case Cancel =>
    case CloneSender =>
    case DropSender =>
  }

  ghost predicate IsRun(c: Config, run: seq<State>, actions: seq<Action>) {
    && |run| == |actions| + 1
    && run[0] == Initial(run[0].line.inner.capacity)
    && forall i :: 0 <= i < |actions| ==> Enabled(run[i], actions[i]) && run[i + 1] == Next(c, run[i], actions[i])
  }

  lemma StepOf(c: Config, run: seq<State>, actions: seq<Action>, i: nat)
    requires IsRun(c, run, actions) && i + 1 < |run|
    ensures i < |actions| && Enabled(run[i], actions[i]) && run[i + 1] == Next(c, run[i], actions[i])
  {
    hide Next, Enabled;
  }

  lemma {:induction false} RunInv(c: Config, run: seq<State>, actions: seq<Action>, i: nat)
    requires IsRun(c, run, actions) && i < |run|
    ensures Inv(c, run[i])
  {
    if i > 0 {
      hide IsRun, Next, Enabled, Inv;
      RunInv(c, run, actions, i - 1);
      StepOf(c, run, actions, i - 1);
      NextKeepsInv(c, run[i - 1], actions[i - 1]);
    }
  }

  // Over every run: what the queue accepted is what was sent, then at most one frame in flight or
  // lost with it, then the queue. A session that ended other than by idling out, a failed send or
  // header_only has sent every frame the queue ever accepted, for good.
  lemma NothingAbandoned(c: Config, run: seq<State>, actions: seq<Action>, i: nat)
    requires IsRun(c, run, actions) && i < |run|
    ensures run[i].line.accepted == run[i].sent + (InFlight(run[i].pc) + run[i].lost) + run[i].line.inner.queue
    ensures |InFlight(run[i].pc) + run[i].lost| <= 1
    ensures run[i].lost != [] ==> run[i].pc == Done(IdleExpired) || run[i].pc == Done(SendFailed)
    ensures run[i].pc.Done? && !Abrupt(run[i].pc.reason) ==> run[i].line.accepted == run[i].sent
    ensures c.headerOnly ==> |run[i].sent| <= 1
  {
    RunInv(c, run, actions, i);
  }

  // A frame of the peer is dispatched only by a poll in which no handler had finished, with every
  // frame accepted before that poll sent already and none queued by the handlers it polled.
  lemma DispatchMeans(c: Config, run: seq<State>, actions: seq<Action>, i: nat)
    requires IsRun(c, run, actions) && i < |actions| && run[i + 1].dispatched != run[i].dispatched
    ensures actions[i].Stretch? && actions[i].input.arrival.Message?
    ensures run[i + 1].dispatched == run[i].dispatched + [actions[i].input.arrival.message]
    ensures !Finishes(actions[i].input.turns)
    ensures run[i].line.accepted == run[i].sent == run[i + 1].sent
    ensures RunTurns(c, run[i].line, actions[i].input.turns).inner.queue == []
    ensures run[i].pc == Waiting || !run[i].line.end
  {
    RunInv(c, run, actions, i);
    DispatchingStep(c, run[i], actions[i]);
    hide RunTurns, Finishes, Next;
  }

  lemma DispatchingStep(c: Config, s: State, a: Action)
    requires Inv(c, s) && Enabled(s, a) && Next(c, s, a).dispatched != s.dispatched
    ensures a.Stretch? && a.input.arrival.Message? && !Finishes(a.input.turns)
    ensures var s' := Next(c, s, a);
            && s'.dispatched == s.dispatched + [a.input.arrival.message]
            && s.line.accepted == s.sent == s'.sent
    ensures RunTurns(c, s.line, a.input.turns).inner.queue == []
    ensures s.pc == Waiting || !s.line.end
  {
    hide RunTurns, Finishes, EnqueueAll, HandleMessage, Put;
    if a.Stretch? {
      if s.line.inner.queue != [] {
        RunTurnsKeeps(c, s.line, a.input.turns, s.sent + (InFlight(s.pc) + s.lost));
      }
      hide Accounts;
    }
  }

  // Once the flag is set the loop takes in at most one more frame of its peer, the one that was
  // ready in the very poll the flag interrupted.
  lemma {:induction false} AtMostOneDispatchOnceFlagged(c: Config, run: seq<State>, actions: seq<Action>, i: nat, j: nat)
    requires IsRun(c, run, actions) && i <= j < |run| && run[i].line.end
    ensures run[j].line.end
    ensures |run[j].dispatched| + (if run[j].pc.Waiting? then 1 else 0) <= |run[i].dispatched| + (if run[i].pc.Waiting? then 1 else 0)
    decreases j
  {
    if j > i {
      AtMostOneDispatchOnceFlagged(c, run, actions, i, j - 1);
      FlaggedStep(c, run[j - 1], actions[j - 1]);
      hide Next;
    }
  }

  lemma FlaggedStep(c: Config, s: State, a: Action)
    requires Enabled(s, a) && s.line.end
    ensures var s' := Next(c, s, a);
            && s'.line.end
            && |s'.dispatched| + (if s'.pc.Waiting? then 1 else 0) <= |s.dispatched| + (if s.pc.Waiting? then 1 else 0)
  {
    hide PollArms;
    if a.Stretch? && s.pc.Waiting? {
      FlaggedPoll(c, s, a.input);
    }
  }

  lemma FlaggedPoll(c: Config, s: State, given: Input)
    requires s.line.end
    ensures var s' := PollArms(c, s, given, false);
            && s'.line.end
            && |s'.dispatched| + (if s'.pc.Waiting? then 1 else 0) <= |s.dispatched| + 1
  {
    hide RunTurns, EnqueueAll, HandleMessage, Finishes;
    RunTurnsEnd(c, s.line, given.turns);
    if given.arrival.Message? {
      var l := RunTurns(c, s.line, given.turns);
      EnqueueAllEnd(c, l.(inner := PollRecv(l.inner, TASK).0), HandleMessage(c, given.arrival.message).1);
    }
  }

  lemma {:induction false} EnqueueAllEnd(c: Config, l: Line, texts: seq<string>)
    requires l.end
    ensures EnqueueAll(c, l, texts).end
    decreases |texts|
  {
    if texts != [] {
      EnqueueAllEnd(c, Enqueue(l, PolicyOf(c), texts[0]), texts[1..]);
    }
  }

  lemma {:induction false} RunTurnsEnd(c: Config, l: Line, turns: seq<Turn>)
    requires l.end
    ensures RunTurns(c, l, turns).end
    decreases |turns|
  {
    if turns != [] {
      EnqueueAllEnd(c, l, turns[0].texts);
      RunTurnsEnd(c, EnqueueAll(c, l, turns[0].texts), turns[1..]);
    }
  }

  // A peer that closes is heard, unless the server takes MCP frames only: then its Close is
  // answered like any other frame, and the session goes on until something else ends it.
  lemma {:induction false} McpOnlyNeverHangsUp(c: Config, run: seq<State>, actions: seq<Action>, i: nat)
    requires IsRun(c, run, actions) && i < |run| && c.mcpOnly
    ensures run[i].pc != Done(PeerClosed)
  {
    if i > 0 {
      hide IsRun, Next, Enabled;
      McpOnlyNeverHangsUp(c, run, actions, i - 1);
      StepOf(c, run, actions, i - 1);
      McpOnlyStep(c, run[i - 1], actions[i - 1]);
    }
  }

  lemma McpOnlyStep(c: Config, s: State, a: Action)
    requires Enabled(s, a) && c.mcpOnly && s.pc != Done(PeerClosed)
    ensures Next(c, s, a).pc != Done(PeerClosed)
  {
    hide RunTurns, Finishes, Put, Dispatch, ValidTurns;
    if a.Stretch? && a.input.arrival.Message? {
      forall s': State
        ensures Dispatch(c, s', a.input.arrival.message).pc != Done(PeerClosed)
      {
        NeverHungUp(c, s', a.input.arrival.message);
      }
    }
  }

  lemma NeverHungUp(c: Config, s: State, m: Inbound)
    requires c.mcpOnly
    ensures Dispatch(c, s, m).pc != Done(PeerClosed)
  {
    hide EnqueueAll;
  }
}
