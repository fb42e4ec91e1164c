// The session as the object it is (src/libs/ws/session.rs): one stretch of its loop, on the shared
// queue and flag themselves, is one step of the machine.
module SessionLoop {
  import opened Wrappers
  import opened Outbound
  import opened Toolbox
  import opened Session
  import Signal

  // Which frames the queue accepted before does not matter to what it does next.
  lemma EnqueueForgets(l: Line, p: Policy, text: string)
    ensures var l0 := Line(l.inner, l.end, []);
      Enqueue(l, p, text).inner == Enqueue(l0, p, text).inner && Enqueue(l, p, text).end == Enqueue(l0, p, text).end
  {
  }

  class WsClientSession {
    const config: Config
    const rx: Shared<Frame>
    const end: Signal.Shutdown
    var handlers: set<nat>
    var pc: Pc
    ghost var sent: seq<Frame>
    ghost var lost: seq<Frame>
    ghost var dispatched: seq<Inbound>
    ghost var accepted: seq<Frame>

    ghost function Queue(): Line
      reads this, rx, end
    {
      Line(rx.Contents(), end.cancelled, accepted)
    }

    ghost function Contents(): Session.State
      reads this, rx, end
    {
      Session.State.State(Queue(), handlers, pc, sent, lost, dispatched)
    }

    constructor (config: Config, rx: Shared<Frame>, end: Signal.Shutdown)
      ensures Contents() == Session.State.State(Line(rx.Contents(), end.cancelled, []), {}, Top, [], [], [])
      ensures this.config == config && this.rx == rx && this.end == end
    {
      this.config, this.rx, this.end := config, rx, end;
      handlers, pc, sent, lost, dispatched, accepted := {}, Top, [], [], [], [];
    }

    // The frames a handler queues while it is polled, or the dispatch of a frame queues at once.
    method QueueAll(texts: seq<string>)
      modifies `accepted, rx, end
      ensures Queue() == EnqueueAll(config, old(Queue()), texts)
    {
      for i := 0 to |texts|
        invariant EnqueueAll(config, Queue(), texts[i..]) == EnqueueAll(config, old(Queue()), texts)
      {
        ghost var l := Queue();
        EnqueueForgets(l, PolicyOf(config), texts[i]);
        var _ := EnqueueFrame(rx, Some(end), texts[i], config.headerOnly, config.dropOnFull);
        accepted := Enqueue(l, PolicyOf(config), texts[i]).accepted;
        assert Queue() == Enqueue(l, PolicyOf(config), texts[i]);
        assert texts[i..][0] == texts[i] && texts[i..][1..] == texts[i + 1..];
        hide Enqueue;
      }
    }

    // The handler set is polled until one of them completes.
    method PollHandlers(turns: seq<Turn>) returns (finished: Option<nat>)
      requires ValidTurns(handlers, turns)
      modifies `accepted, rx, end
      ensures Queue() == RunTurns(config, old(Queue()), turns)
      ensures finished == if Finishes(turns) then Some(turns[|turns| - 1].task) else None
    {
      finished := None;
      for i := 0 to |turns|
        invariant finished == if i > 0 && turns[i - 1].finished then Some(turns[i - 1].task) else None
        invariant RunTurns(config, Queue(), turns[i..]) == RunTurns(config, old(Queue()), turns)
      {
        assert turns[i..][0] == turns[i] && turns[i..][1..] == turns[i + 1..];
        QueueAll(turns[i].texts);
        if turns[i].finished {
          finished := Some(turns[i].task);
        }
        hide EnqueueAll;
      }
    }

    method Return(reason: Reason)
      modifies `pc, rx
      ensures Contents() == Exit(old(Contents()), reason)
    {
      rx.DropReceiver();
      pc := Done(reason);
    }

    method HandleInbound(m: Inbound)
      modifies this, rx, end
      ensures Contents() == Dispatch(config, old(Contents()), m)
    {
      var (verdict, texts) := HandleMessage(config, m);
      QueueAll(texts);
      dispatched := dispatched + [m];
      match verdict
      case Hangup => Return(PeerClosed);
      case Keep => pc := Top;
      case Task(t) =>
        handlers := handlers + {t};
        pc := Top;
    }

    method Poll(given: Input, first: bool)
      requires ValidTurns(handlers, given.turns)
      modifies this, rx, end
      ensures Contents() == PollArms(config, old(Contents()), given, first)
    {
      hide RunTurns, Dispatch, Finishes;
      var finished := PollHandlers(given.turns);
      if finished.Some? {
        handlers := handlers - {finished.value};
        pc := Top;
        return;
      }
      var poll := rx.Recv(TASK);
      match poll
      case Ready(Some(frame)) => pc := Sending(frame, true);
      case Ready(None) => Return(OutboundClosed);
      case Pending =>
        match given.arrival
        case Message(m) => HandleInbound(m);
        case Failure => Return(InboundFailed);
        case End => Return(InboundEnded);
        case Nothing =>
          if end.cancelled && (first || given.notified) {
            Return(EndFlagged);
          } else {
            pc := Waiting;
          }
    }

    method DrainQueue(given: Input)
      requires ValidTurns(handlers, given.turns)
      modifies this, rx, end
      ensures Contents() == Drain(config, old(Contents()), given)
    {
      hide PollArms;
      var pop := rx.TryRecv();
      if pop.Value? {
        if given.idlePopped {
          lost := lost + [pop.value];
          Return(IdleExpired);
        } else {
          pc := Sending(pop.value, false);
        }
        return;
      }
      var cancelled := end.IsCancelled();
      if cancelled {
        Return(EndFlagged);
      } else {
        Poll(given, true);
      }
    }

    // From one await to the next.
    method Proceed(given: Input)
      requires !pc.Done? && ValidTurns(handlers, given.turns)
      modifies this, rx, end
      ensures Contents() == Advance(config, old(Contents()), given)
    {
      hide PollArms, Drain;
      match pc
      case Top =>
        if given.idle {
          Return(IdleExpired);
        } else {
          DrainQueue(given);
        }
      case Draining => DrainQueue(given);
      case Sending(frame, arm) =>
        if !given.sendOk {
          lost := lost + [frame];
          Return(SendFailed);
        } else {
          sent := sent + [frame];
          if config.headerOnly {
            Return(HeaderOnly);
          } else {
            pc := if arm then Top else Draining;
          }
        }
      case Waiting => Poll(given, false);
    }
  }
}
