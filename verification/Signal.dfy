// The sticky shutdown flag (src/libs/signal.rs): a flag, a broadcast that leaves no permit, and
// waiters that register before they read the flag.
module Signal {

  // Where a call of `cancelled` stands, at the granularity of its atomic steps.
  datatype Pc =
    | Top         // about to create a `Notified`
    | Created     // about to `enable` it
    | Notified    // `enable` found it notified already; about to read the flag
    | Registered  // registered with the broadcast; about to read the flag
    | Parked      // read the flag unset and awaits
    | Returned

  // `hit`: a broadcast has reached the current `Notified`.
  datatype Waiter = Waiter(pc: Pc, hit: bool)

  // `stored` are the calls of `cancel` between their store and their broadcast; `finished` says
  // that some call has returned.
  datatype State = State(flag: bool, waiters: map<nat, Waiter>, stored: set<nat>, finished: bool)

  // A broadcast wakes the waiters that have registered. Whether it also reaches one that was
  // created and not yet enabled is left open: `early` are those it does reach.
  datatype Action =
    | Start(w: nat)
    | Step(w: nat)
    | Abandon(w: nat)
    | Store(c: nat)
    | Broadcast(c: nat, early: set<nat>)

  const Initial := State(false, map[], {}, false)

  predicate CanStep(s: State, w: nat) {
    w in s.waiters && match s.waiters[w].pc
      case Returned => false
      case Parked => s.waiters[w].hit
      case _ => true
  }

  predicate Enabled(s: State, a: Action) {
    match a
    case Start(w) => w !in s.waiters
    case Step(w) => CanStep(s, w)
    case Abandon(w) => w in s.waiters
    case Store(c) => c !in s.stored
    case Broadcast(c, early) => c in s.stored
  }

  function StepWaiter(flag: bool, w: Waiter): Waiter {
    match w.pc
    case Top => Waiter(Created, false)
    case Created => if w.hit then Waiter(Notified, false) else Waiter(Registered, false)
    case Notified => Waiter(if flag then Returned else Top, false)
    case Registered => if flag then w.(pc := Returned) else w.(pc := Parked)
    case Parked => Waiter(Top, false)
    case Returned => w
  }

  predicate Reached(w: Waiter, isEarly: bool) {
    w.pc == Registered || w.pc == Parked || (w.pc == Created && isEarly)
  }

  // The waiters after a broadcast.
  function Woken(waiters: map<nat, Waiter>, early: set<nat>): map<nat, Waiter> {
    map w | w in waiters :: if Reached(waiters[w], w in early) then waiters[w].(hit := true) else waiters[w]
  }

  // The flag as its owners see it, with the calls of `cancelled` that wait on it.
  class Shutdown {
    var cancelled: bool
    var waiters: map<nat, Waiter>

    constructor ()
      ensures !cancelled && waiters == map[]
    {
      cancelled, waiters := false, map[];
    }

    // The store and then the broadcast, which reaches `early` of those that have yet to register.
    method Cancel() returns (early: set<nat>)
      modifies this
      ensures cancelled
      ensures waiters == Woken(old(waiters), early)
    {
      cancelled := true;
      early := *;
      waiters := Woken(waiters, early);
    }

    method IsCancelled() returns (b: bool)
      ensures b == cancelled
    {
      b := cancelled;
    }
  }

  function Next(s: State, a: Action): State
    requires Enabled(s, a)
  {
    match a
    case Start(w) => s.(waiters := s.waiters[w := Waiter(Top, false)])
    case Step(w) => s.(waiters := s.waiters[w := StepWaiter(s.flag, s.waiters[w])])
    case Abandon(w) => s.(waiters := s.waiters - {w})
    case Store(c) => s.(flag := true, stored := s.stored + {c})
    case Broadcast(c, early) =>
      s.(waiters := Woken(s.waiters, early),
         stored := s.stored - {c},
         finished := true)
  }

  ghost predicate Inv(s: State) {
    && (s.finished || s.stored != {} ==> s.flag)
    && (forall w :: w in s.waiters && s.waiters[w].pc == Parked && s.finished ==> s.waiters[w].hit)
    && (forall w :: w in s.waiters && s.waiters[w].pc == Returned ==> s.flag)
  }

  lemma NextKeepsInv(s: State, a: Action)
    requires Inv(s) && Enabled(s, a)
    ensures Inv(Next(s, a))
  {
    match a
    case Step(w) =>
      var s' := Next(s, a);
      assert forall x :: x in s'.waiters && x != w ==> x in s.waiters && s'.waiters[x] == s.waiters[x];
    case _ =>
  }

  ghost predicate IsRun(run: seq<State>, actions: seq<Action>) {
    && |run| == |actions| + 1
    && run[0] == Initial
    && forall i :: 0 <= i < |actions| ==> Enabled(run[i], actions[i]) && run[i + 1] == Next(run[i], actions[i])
  }

  lemma {:induction false} RunInv(run: seq<State>, actions: seq<Action>, i: nat)
    requires IsRun(run, actions) && i < |run|
    ensures Inv(run[i])
  {
    if i > 0 {
      RunInv(run, actions, i - 1);
      NextKeepsInv(run[i - 1], actions[i - 1]);
    }
  }

  // Own steps a waiter still needs once the flag is set.
  function StepsLeft(pc: Pc): nat {
    match pc
    case Returned => 0
    case Notified => 1
    case Registered => 1
    case Created => 2
    case Top => 3
    case Parked => 4
  }

  // No lost cancellation, over every interleaving: after some `cancel` has returned, no waiter is
  // parked without having been notified, each one can step, and each own step brings it nearer
  // to returning. A waiter has returned only if the flag is set.
  lemma NoLostCancellation(run: seq<State>, actions: seq<Action>, i: nat, w: nat)
    requires IsRun(run, actions) && i < |run| && w in run[i].waiters
    ensures run[i].waiters[w].pc == Returned ==> run[i].flag
    ensures run[i].finished && run[i].waiters[w].pc != Returned ==>
      && (run[i].waiters[w].pc == Parked ==> run[i].waiters[w].hit)
      && Enabled(run[i], Step(w))
      && StepsLeft(Next(run[i], Step(w)).waiters[w].pc) < StepsLeft(run[i].waiters[w].pc)
  {
    RunInv(run, actions, i);
  }

  // Nobody else's step takes a waiter further away, and the flag stays set.
  lemma OthersDoNotHinder(s: State, a: Action, w: nat)
    requires Inv(s) && Enabled(s, a) && s.finished && w in s.waiters && w in Next(s, a).waiters
    ensures Next(s, a).flag && Next(s, a).finished
    ensures StepsLeft(Next(s, a).waiters[w].pc) <= StepsLeft(s.waiters[w].pc)
  {
  }

  // Hence four own steps are enough, however they are interleaved.
  lemma {:induction false} ReturnsWithinFour(run: seq<State>, actions: seq<Action>, i: nat, w: nat)
    requires IsRun(run, actions) && i < |run| && w in run[i].waiters && run[i].finished
    requires forall j :: i <= j < |actions| ==> actions[j] != Abandon(w)
    ensures w in run[|actions|].waiters
    ensures OwnSteps(actions[i..], w) + StepsLeft(run[|actions|].waiters[w].pc) <= StepsLeft(run[i].waiters[w].pc) <= 4
    decreases |actions| - i
  {
    if i < |actions| {
      RunInv(run, actions, i);
      assert actions[i..][1..] == actions[i + 1..];
      assert w in run[i + 1].waiters;
      if actions[i] == Step(w) {
        NoLostCancellation(run, actions, i, w);
      }
      OthersDoNotHinder(run[i], actions[i], w);
      ReturnsWithinFour(run, actions, i + 1, w);
    }
  }

  function OwnSteps(actions: seq<Action>, w: nat): nat {
    if actions == [] then 0 else (if actions[0] == Step(w) then 1 else 0) + OwnSteps(actions[1..], w)
  }

  // `cancel` run alone is its store and its broadcast: nobody it leaves parked is un-notified, and
  // nobody is taken off the list.
  lemma CancelledAlone(s: State, c: nat, early: set<nat>)
    requires c !in s.stored
    ensures var s1 := Next(s, Store(c));
      && Enabled(s1, Broadcast(c, early))
      && var s2 := Next(s1, Broadcast(c, early));
      && s2.flag && s2.finished && s2.stored == s.stored
      && s2.waiters == Woken(s.waiters, early) && s2.waiters.Keys == s.waiters.Keys
      && forall w :: w in s2.waiters && s2.waiters[w].pc == Parked ==> s2.waiters[w].hit
  {
    assert s.stored + {c} - {c} == s.stored;
  }
}
