// Queueing a frame under the connection's policy (src/libs/ws/toolbox.rs): what happens when the
// queue refuses it, and the flag that ends the session even when no `Close` fits.
module Toolbox {
  import opened Wrappers
  import opened Outbound
  import Signal

  datatype Frame = Payload(text: string) | Close

  // `oneshot` closes after every frame; `flagged` says that the caller passed the end flag.
  datatype Policy = Policy(oneshot: bool, dropOnFull: bool, flagged: bool)

  // What the senders of one connection share: the queue and the sticky flag. `accepted` lists the
  // frames that ever entered the queue.
  datatype Line = Line(inner: Inner<Frame>, end: bool, accepted: seq<Frame>)

  function Put(l: Line, frame: Frame): (Line, SendResult) {
    var (inner, r, _) := Send(l.inner, frame);
    (Line(inner, l.end, if r.Sent? then l.accepted + [frame] else l.accepted), r)
  }

  function CloseForPolicy(l: Line, p: Policy): Line {
    var l' := Put(l, Close).0;
    if p.flagged then l'.(end := true) else l'
  }

  function Enqueue(l: Line, p: Policy, text: string): Line {
    var (l1, r) := Put(l, Payload(text));
    var l2 := if r.Full? && p.dropOnFull then CloseForPolicy(l1, p) else l1;
    if p.oneshot then CloseForPolicy(l2, p) else l2
  }

  method CloseConnection(sender: Shared<Frame>, end: Option<Signal.Shutdown>) returns (wake: Option<Waker>)
    modifies sender, if end.Some? then {end.value} else {}
    ensures sender.Contents() == Send(old(sender.Contents()), Close).0 && wake == Send(old(sender.Contents()), Close).2
    ensures end.Some? ==> end.value.cancelled
  {
    var _, w := sender.TrySend(Close);
    wake := w;
    if end.Some? {
      var _ := end.value.Cancel();
    }
  }

  method EnqueueFrame(sender: Shared<Frame>, end: Option<Signal.Shutdown>, text: string, oneshot: bool, dropOnFull: bool)
    returns (wakes: seq<Option<Waker>>)
    modifies sender, if end.Some? then {end.value} else {}
    ensures var l := Line(old(sender.Contents()), end.Some? && old(end.value.cancelled), []);
            var l' := Enqueue(l, Policy(oneshot, dropOnFull, end.Some?), text);
            sender.Contents() == l'.inner && (end.Some? ==> end.value.cancelled == l'.end)
  {
    var r, wake := sender.TrySend(Payload(text));
    wakes := [wake];
    if r == Full && dropOnFull {
      wake := CloseConnection(sender, end);
      wakes := wakes + [wake];
    }
    if oneshot {
      wake := CloseConnection(sender, end);
      wakes := wakes + [wake];
    }
  }

  // Many callers at once, at the granularity of the queue's lock and the flag's store. A call is
  // about to put its payload, to put `Close`, or to set the flag; `again` is the second policy
  // close, the one `oneshot` asks for after a refusal has already asked for one.
  datatype Call =
    | Putting(text: string)
    | Closing(again: bool)
    | Cancelling(again: bool)

  // `refused`: calls whose payload a live receiver's queue was too full to take. `policies`: calls
  // that went into a policy close. `foreign`: cancellations that came from elsewhere.
  datatype State = State(line: Line, calls: map<nat, Call>, refused: set<nat>, policies: set<nat>, foreign: bool)

  datatype Action =
    | Start(c: nat, text: string)
    | Step(c: nat)
    | Receive
    | DropReceiver
    | Cancel

  predicate Enabled(s: State, a: Action) {
    match a
    case Start(c, _) => c !in s.calls && c !in s.refused && c !in s.policies
    case Step(c) => c in s.calls
    case _ => true
  }

  function Finish(s: State, c: nat, again: bool): State {
    s.(calls := if again then s.calls[c := Closing(false)] else s.calls - {c})
  }

  function StepCall(p: Policy, s: State, c: nat): State
    requires c in s.calls
  {
    match s.calls[c]
    case Putting(text) =>
      var (line, r) := Put(s.line, Payload(text));
      var s' := s.(line := line, refused := if r.Full? then s.refused + {c} else s.refused);
      if r.Full? && p.dropOnFull then s'.(calls := s.calls[c := Closing(p.oneshot)], policies := s.policies + {c})
      else if p.oneshot then s'.(calls := s.calls[c := Closing(false)], policies := s.policies + {c})
      else s'.(calls := s.calls - {c})
    case Closing(again) =>
      var s' := s.(line := Put(s.line, Close).0);
      if p.flagged then s'.(calls := s.calls[c := Cancelling(again)]) else Finish(s', c, again)
    case Cancelling(again) => Finish(s.(line := s.line.(end := true)), c, again)
  }

  function Next(p: Policy, s: State, a: Action): State
    requires Enabled(s, a)
  {
    match a
    case Start(c, text) => s.(calls := s.calls[c := Putting(text)])
    case Step(c) => StepCall(p, s, c)
    case Receive => s.(line := s.line.(inner := Take(s.line.inner).0))
    case DropReceiver => s.(line := s.line.(inner := s.line.inner.(receiverAlive := false)))
    case Cancel => s.(line := s.line.(end := true), foreign := true)
  }

  function Initial(capacity: nat): State {
    State(Line(Channel(capacity), false, []), map[], {}, {}, false)
  }

  // A call that owes a policy close and has not yet set the flag.
  predicate Owes(s: State, c: nat) {
    c in s.calls && !s.calls[c].Putting?
  }

  ghost predicate Inv(p: Policy, s: State) {
    && (p.flagged ==> forall c :: c in s.policies ==> s.line.end || Owes(s, c))
    && (p.dropOnFull ==> s.refused <= s.policies)
    && (p.oneshot ==> forall c :: c in s.refused ==> c in s.policies)
    && (s.line.end ==> s.foreign || (p.flagged && s.policies != {}))
    && (forall c :: c in s.calls ==> (s.calls[c].Putting? <==> c !in s.policies))
    && (forall c :: c in s.calls && s.calls[c].Cancelling? ==> p.flagged)
    && (s.policies != {} ==> p.oneshot || (p.dropOnFull && s.refused != {}))
  }

  lemma NextKeepsInv(p: Policy, s: State, a: Action)
    requires Inv(p, s) && Enabled(s, a)
    ensures Inv(p, Next(p, s, a))
  {
    if a.Step? {
      StepKeepsInv(p, s, a.c);
    }
  }

  lemma StepKeepsInv(p: Policy, s: State, c: nat)
    requires Inv(p, s) && c in s.calls
    ensures Inv(p, StepCall(p, s, c))
  {
    hide Send;
    var s' := StepCall(p, s, c);
    assert forall d :: d != c ==> (d in s'.calls <==> d in s.calls) && (d in s.calls ==> s'.calls[d] == s.calls[d]);
    assert s.policies <= s'.policies && s.refused <= s'.refused;
    if s.calls[c].Putting? {
      assert s'.policies <= s.policies + {c} && s'.refused <= s.refused + {c};
      assert c in s'.refused ==> s'.refused != {};
    } else {
      assert s'.policies == s.policies && s'.refused == s.refused;
    }
  }

  ghost predicate IsRun(p: Policy, run: seq<State>, actions: seq<Action>) {
    && |run| == |actions| + 1
    && run[0] == Initial(run[0].line.inner.capacity)
    && forall i :: 0 <= i < |actions| ==> Enabled(run[i], actions[i]) && run[i + 1] == Next(p, run[i], actions[i])
  }

  lemma {:induction false} RunInv(p: Policy, run: seq<State>, actions: seq<Action>, i: nat)
    requires IsRun(p, run, actions) && i < |run|
    ensures Inv(p, run[i])
  {
    if i > 0 {
      RunInv(p, run, actions, i - 1);
      NextKeepsInv(p, run[i - 1], actions[i - 1]);
    }
  }

  // Over every interleaving, with `drop_on_full`: once the calls whose frame a full queue refused
  // have returned, the flag is set, whether or not any `Close` found a slot. And nothing else
  // sets it: a set flag was asked for by `oneshot`, by such a refusal, or from outside.
  lemma RefusedForFullnessFlags(p: Policy, run: seq<State>, actions: seq<Action>, i: nat, c: nat)
    requires IsRun(p, run, actions) && i < |run| && p.flagged
    ensures (p.dropOnFull || p.oneshot) && c in run[i].refused && c !in run[i].calls ==> run[i].line.end
    ensures run[i].line.end ==> run[i].foreign || p.oneshot || (p.dropOnFull && run[i].refused != {})
  {
    RunInv(p, run, actions, i);
  }

  // The flag is sticky, and a caller that passed no flag never sets it.
  lemma {:induction false} FlagIsSticky(p: Policy, run: seq<State>, actions: seq<Action>, i: nat, j: nat)
    requires IsRun(p, run, actions) && i <= j < |run|
    ensures run[i].line.end ==> run[j].line.end
    ensures !p.flagged && run[j].line.end ==> run[j].foreign
    decreases j
  {
    RunInv(p, run, actions, j);
    if j > i {
      FlagIsSticky(p, run, actions, i, j - 1);
    }
  }

  // Run without interruption, the steps of a call are `Enqueue`.
  lemma UninterruptedCall(p: Policy, s: State, c: nat, text: string)
    requires c in s.calls && s.calls[c] == Putting(text)
    ensures exists k: nat :: c !in Steps(p, s, c, k).calls && Steps(p, s, c, k).line == Enqueue(s.line, p, text)
  {
    var r := Put(s.line, Payload(text)).1;
    var closes := (if r.Full? && p.dropOnFull then 1 else 0) + (if p.oneshot then 1 else 0);
    var s1 := StepCall(p, s, c);
    if closes == 0 {
      assert Steps(p, s, c, 1) == s1;
    } else {
      OneClose(p, s1, c);
      var k1 := if p.flagged then 2 else 1;
      var s2 := Steps(p, s1, c, k1);
      if closes == 1 {
        assert Steps(p, s, c, 1 + k1) == s2;
      } else {
        OneClose(p, s2, c);
        StepsAdd(p, s1, c, k1, k1);
        assert Steps(p, s, c, 1 + k1 + k1) == Steps(p, s2, c, k1);
      }
    }
  }

  lemma OneClose(p: Policy, s: State, c: nat)
    requires c in s.calls && s.calls[c].Closing?
    ensures Steps(p, s, c, if p.flagged then 2 else 1) == Finish(s.(line := CloseForPolicy(s.line, p)), c, s.calls[c].again)
  {
    var s1 := StepCall(p, s, c);
    if p.flagged {
      var s2 := StepCall(p, s1, c);
      assert Steps(p, s1, c, 1) == s2;
      assert s1.calls - {c} == s.calls - {c};
      assert s1.calls[c := Closing(false)] == s.calls[c := Closing(false)];
    }
  }

  function Steps(p: Policy, s: State, c: nat, k: nat): State
    decreases k
  {
    if k == 0 || c !in s.calls then s else Steps(p, StepCall(p, s, c), c, k - 1)
  }

  lemma {:induction false} StepsAdd(p: Policy, s: State, c: nat, k: nat, l: nat)
    ensures Steps(p, s, c, k + l) == Steps(p, Steps(p, s, c, k), c, l)
    decreases k
  {
    if k > 0 && c in s.calls {
      StepsAdd(p, StepCall(p, s, c), c, k - 1, l);
    }
  }
}
