// Admission under a limit (src/libs/ws/server.rs): an optimistic `fetch_add` that is taken back
// on refusal, a warning given once, and slots that count down when dropped. Each atomic operation
// and each event callback is one step.
module Admission {
  import opened Wrappers

  datatype Config = Config(cap: Option<nat>, warn: Option<nat>)

  // What the `fetch_add` of one acquisition found: the slots live and the other acquisitions
  // counted at that moment. `current` is the sum the atomic answered, plus one.
  datatype Claim = Claim(current: nat, live: set<nat>, others: set<nat>)

  // `pending` are the acquisitions the counter includes. Of these, `added` have yet to look at
  // the warning, `announcing` have yet to report it, and the others are about to compare with the
  // cap. `refusing` are no longer counted and have their event still due. `claims` remembers
  // every acquisition that ever started, `warnings` and `refusals` the events given out, each by
  // the count it carried.
  datatype State = State(
    counter: nat,
    warned: bool,
    live: set<nat>,
    pending: set<nat>,
    added: set<nat>,
    announcing: set<nat>,
    refusing: set<nat>,
    granted: set<nat>,
    refused: set<nat>,
    claims: map<nat, Claim>,
    warnings: seq<nat>,
    refusals: seq<nat>)

  datatype Action =
    | FetchAdd(id: nat)
    | Swap(id: nat)      // look at the warning threshold, and swap the flag if it is reached
    | Announce(id: nat)
    | Judge(id: nat)     // compare with the cap, and `fetch_sub` if it is exceeded
    | Report(id: nat)
    | Release(id: nat)

  const Initial := State(0, false, {}, {}, {}, {}, {}, {}, {}, map[], [], [])

  predicate Reaches(limit: Option<nat>, current: nat) {
    limit.Some? && current >= limit.value
  }

  predicate Exceeds(limit: Option<nat>, current: nat) {
    limit.Some? && current > limit.value
  }

  predicate Enabled(s: State, a: Action) {
    match a
    case FetchAdd(id) => id !in s.claims
    case Swap(id) => id in s.added && id in s.claims
    case Announce(id) => id in s.announcing && id in s.claims
    case Judge(id) => id in s.pending && id !in s.added && id !in s.announcing && id in s.claims && s.counter > 0
    case Report(id) => id in s.refusing && id in s.claims
    case Release(id) => id in s.live && s.counter > 0
  }

  function Next(c: Config, s: State, a: Action): State
    requires Enabled(s, a)
  {
    match a
    case FetchAdd(id) =>
      s.(counter := s.counter + 1, pending := s.pending + {id}, added := s.added + {id},
         claims := s.claims[id := Claim(s.counter + 1, s.live, s.pending)])
    case Swap(id) =>
      var s1 := s.(added := s.added - {id});
      if !Reaches(c.warn, s.claims[id].current) then s1
      else if s.warned then s1
      else s1.(warned := true, announcing := s.announcing + {id})
    case Announce(id) =>
      s.(announcing := s.announcing - {id}, warnings := s.warnings + [s.claims[id].current])
    case Judge(id) =>
      if Exceeds(c.cap, s.claims[id].current) then
        s.(counter := s.counter - 1, pending := s.pending - {id}, refusing := s.refusing + {id})
      else
        s.(pending := s.pending - {id}, live := s.live + {id}, granted := s.granted + {id})
    case Report(id) =>
      s.(refusing := s.refusing - {id}, refused := s.refused + {id}, refusals := s.refusals + [s.claims[id].current])
    case Release(id) => s.(counter := s.counter - 1, live := s.live - {id})
  }

  ghost predicate CounterInv(s: State) {
    && s.counter == |s.live| + |s.pending|
    && PhaseInv(s)
  }

  // Each acquisition is in one phase, and has a claim.
  ghost predicate PhaseInv(s: State) {
    && (forall id :: id in s.live ==> id in s.claims && id !in s.pending)
    && (forall id :: id in s.pending ==> id in s.claims)
    && (forall id :: id in s.added ==> id in s.pending && id !in s.announcing)
    && (forall id :: id in s.announcing ==> id in s.pending)
  }

  // The acquisitions that hold a slot or are bound to get one.
  function Winners(s: State, cap: nat): set<nat> {
    s.live + set id | id in s.pending && id in s.claims && s.claims[id].current <= cap
  }

  ghost predicate CapInv(c: Config, s: State) {
    c.cap.Some? ==> |Winners(s, c.cap.value)| <= c.cap.value
  }

  ghost predicate ClaimInv(s: State) {
    && (forall id :: id in s.claims ==> s.claims[id].current == |s.claims[id].live| + |s.claims[id].others| + 1)
    && |s.refusals| == |s.refused|
  }

  ghost predicate VerdictInv(c: Config, s: State) {
    && (forall id :: id in s.claims ==> id in s.pending || id in s.granted || id in s.refusing || id in s.refused)
    && (forall id :: id in s.granted ==> id in s.claims && !Exceeds(c.cap, s.claims[id].current))
    && (forall id :: id in s.refusing ==> id in s.claims && id !in s.pending && id !in s.refused && Exceeds(c.cap, s.claims[id].current))
    && (forall id :: id in s.refused ==> id in s.claims && id !in s.pending && Exceeds(c.cap, s.claims[id].current))
  }

  ghost predicate Warrants(c: Config, s: State, id: nat) {
    id in s.claims && id !in s.added && Reaches(c.warn, s.claims[id].current)
  }

  ghost predicate WarnInv(c: Config, s: State) {
    && |s.warnings| + |s.announcing| == (if s.warned then 1 else 0)
    && (s.warned <==> exists id :: Warrants(c, s, id))
  }

  ghost predicate Inv(c: Config, s: State) {
    CounterInv(s) && CapInv(c, s) && ClaimInv(s) && VerdictInv(c, s) && WarnInv(c, s)
  }

  lemma NextKeepsCounter(c: Config, s: State, a: Action)
    requires CounterInv(s) && Enabled(s, a)
    ensures CounterInv(Next(c, s, a))
  {
    NextKeepsPhase(c, s, a);
    assert a.FetchAdd? || a.Judge? ==> a.id !in s.live;
    assert a.FetchAdd? ==> a.id !in s.pending;
    hide PhaseInv;
    if a.FetchAdd? {
      assert |s.pending + {a.id}| == |s.pending| + 1;
    } else if a.Judge? {
      assert |s.pending - {a.id}| == |s.pending| - 1;
      assert |s.live + {a.id}| == |s.live| + 1;
    } else if a.Release? {
      assert |s.live - {a.id}| == |s.live| - 1;
    }
  }

  lemma NextKeepsPhase(c: Config, s: State, a: Action)
    requires PhaseInv(s) && Enabled(s, a)
    ensures PhaseInv(Next(c, s, a))
  {
  }

  lemma NextKeepsCap(c: Config, s: State, a: Action)
    requires CounterInv(s) && CapInv(c, s) && Enabled(s, a)
    ensures CapInv(c, Next(c, s, a))
  {
    if c.cap.Some? {
      var cap, s' := c.cap.value, Next(c, s, a);
      if a.FetchAdd? && s.counter < cap {
        assert Winners(s', cap) <= s.live + s.pending + {a.id};
        Smaller(Winners(s', cap), s.live + s.pending + {a.id});
      } else {
        WinnersShrink(c, s, a);
        Smaller(Winners(s', cap), Winners(s, cap));
      }
    }
  }

  // Only a `fetch_add` that finds room below the cap adds to the winners.
  lemma WinnersShrink(c: Config, s: State, a: Action)
    requires Enabled(s, a) && c.cap.Some? && (a.FetchAdd? ==> s.counter >= c.cap.value)
    requires s.live + s.pending <= s.claims.Keys
    ensures Winners(Next(c, s, a), c.cap.value) <= Winners(s, c.cap.value)
  {
  }

  lemma Smaller<T>(a: set<T>, b: set<T>)
    requires a <= b
    ensures |a| <= |b|
  {
    assert b == a + (b - a);
  }

  lemma NextKeepsVerdict(c: Config, s: State, a: Action)
    requires VerdictInv(c, s) && Enabled(s, a)
    ensures VerdictInv(c, Next(c, s, a))
  {
  }

  lemma NextKeepsClaims(c: Config, s: State, a: Action)
    requires s.counter == |s.live| + |s.pending| && ClaimInv(s) && Enabled(s, a)
    requires a.Report? ==> a.id !in s.refused
    ensures ClaimInv(Next(c, s, a))
  {
    if a.Report? {
      assert |s.refused + {a.id}| == |s.refused| + 1;
    }
  }

  lemma NextKeepsWarn(c: Config, s: State, a: Action)
    requires PhaseInv(s) && WarnInv(c, s) && Enabled(s, a)
    ensures WarnInv(c, Next(c, s, a))
  {
    WarnedAfter(c, s, a);
    AnnouncedAfter(c, s, a);
    hide Next, Warrants, PhaseInv;
  }

  lemma AnnouncedAfter(c: Config, s: State, a: Action)
    requires Enabled(s, a) && (a.Swap? ==> a.id !in s.announcing)
    requires |s.warnings| + |s.announcing| == (if s.warned then 1 else 0)
    ensures var s' := Next(c, s, a); |s'.warnings| + |s'.announcing| == (if s'.warned then 1 else 0)
  {
    if a.Swap? {
      assert |s.announcing + {a.id}| == |s.announcing| + 1;
    } else if a.Announce? {
      assert |s.announcing - {a.id}| == |s.announcing| - 1;
    }
  }

  lemma WarnedAfter(c: Config, s: State, a: Action)
    requires PhaseInv(s) && Enabled(s, a)
    requires s.warned <==> exists id :: Warrants(c, s, id)
    ensures var s' := Next(c, s, a); s'.warned <==> exists id :: Warrants(c, s', id)
  {
    var s' := Next(c, s, a);
    assert forall id :: Warrants(c, s, id) ==> Warrants(c, s', id);
    if s'.warned && !s.warned {
      assert Warrants(c, s', a.id);
    } else {
      assert forall id :: Warrants(c, s', id) ==> Warrants(c, s, id) || s.warned;
    }
  }

  ghost predicate IsRun(c: Config, run: seq<State>, actions: seq<Action>) {
    && |run| == |actions| + 1
    && run[0] == Initial
    && forall i :: 0 <= i < |actions| ==> Enabled(run[i], actions[i]) && run[i + 1] == Next(c, run[i], actions[i])
  }

  lemma {:induction false} RunInv(c: Config, run: seq<State>, actions: seq<Action>, i: nat)
    requires IsRun(c, run, actions) && i < |run|
    ensures Inv(c, run[i])
  {
    if i > 0 {
      RunInv(c, run, actions, i - 1);
      NextKeepsCounter(c, run[i - 1], actions[i - 1]);
      NextKeepsCap(c, run[i - 1], actions[i - 1]);
      NextKeepsClaims(c, run[i - 1], actions[i - 1]);
      NextKeepsVerdict(c, run[i - 1], actions[i - 1]);
      NextKeepsWarn(c, run[i - 1], actions[i - 1]);
      hide Next, CounterInv, CapInv, ClaimInv, VerdictInv, WarnInv;
    } else if c.cap.Some? {
      assert Winners(Initial, c.cap.value) == {};
    }
  }

  // The counter, over every interleaving: live slots plus acquisitions between their increment
  // and their verdict. It is zero when nothing is live or in progress.
  lemma CounterCounts(c: Config, run: seq<State>, actions: seq<Action>, i: nat)
    requires IsRun(c, run, actions) && i < |run|
    ensures run[i].counter == |run[i].live| + |run[i].pending|
    ensures run[i].live == {} && run[i].pending == {} ==> run[i].counter == 0
  {
    RunInv(c, run, actions, i);
  }

  // Every acquisition in progress can go on, and every slot can be dropped.
  lemma NothingStuck(c: Config, run: seq<State>, actions: seq<Action>, i: nat, id: nat)
    requires IsRun(c, run, actions) && i < |run|
    ensures id in run[i].pending ==> Enabled(run[i], Swap(id)) || Enabled(run[i], Announce(id)) || Enabled(run[i], Judge(id))
    ensures id in run[i].refusing ==> Enabled(run[i], Report(id))
    ensures id in run[i].live ==> Enabled(run[i], Release(id))
  {
    RunInv(c, run, actions, i);
  }

  // The slots never exceed the cap, even while the counter does.
  lemma LiveWithinCap(c: Config, run: seq<State>, actions: seq<Action>, i: nat)
    requires IsRun(c, run, actions) && i < |run| && c.cap.Some?
    ensures |run[i].live| <= c.cap.value
  {
    RunInv(c, run, actions, i);
    Smaller(run[i].live, Winners(run[i], c.cap.value));
  }

  // The verdict: an acquisition is granted if and only if, when it counted itself in, the live
  // slots and the other acquisitions counted then were fewer than the cap.
  lemma GrantedIff(c: Config, run: seq<State>, actions: seq<Action>, i: nat, id: nat)
    requires IsRun(c, run, actions) && i < |run| && id in run[i].granted + run[i].refused
    ensures id in run[i].claims
    ensures var claim := run[i].claims[id];
            && (id in run[i].granted <==> c.cap.None? || |claim.live| + |claim.others| < c.cap.value)
            && (id in run[i].granted <==> id !in run[i].refused)
  {
    RunInv(c, run, actions, i);
    hide CounterInv, CapInv, WarnInv;
  }

  // What a claim recorded is what the run held when it was made, and it is not revised.
  lemma {:induction false} ClaimsAreTrue(c: Config, run: seq<State>, actions: seq<Action>, i: nat, j: nat)
    requires IsRun(c, run, actions) && i < j < |run| && actions[i].FetchAdd?
    ensures var id := actions[i].id;
            id in run[j].claims && run[j].claims[id] == Claim(run[i].counter + 1, run[i].live, run[i].pending)
    decreases j
  {
    if j > i + 1 {
      ClaimsAreTrue(c, run, actions, i, j - 1);
    }
  }

  // The events: one Refuse for each refusal, never more than one Warn, and, once nothing is in
  // progress, exactly one Warn if and only if some acquisition reached the threshold.
  lemma EventsTell(c: Config, run: seq<State>, actions: seq<Action>, i: nat)
    requires IsRun(c, run, actions) && i < |run|
    ensures |run[i].refusals| == |run[i].refused|
    ensures |run[i].warnings| <= 1
    ensures run[i].pending == {} ==>
      (|run[i].warnings| == 1 <==> exists id :: id in run[i].claims && Reaches(c.warn, run[i].claims[id].current))
  {
    RunInv(c, run, actions, i);
    hide CapInv;
    if run[i].pending == {} {
      assert run[i].announcing == {};
      assert forall id :: Warrants(c, run[i], id) <==> id in run[i].claims && Reaches(c.warn, run[i].claims[id].current);
    }
  }

  // Refusal is not a statement about live slots alone: under a cap of one, an acquisition that
  // found no slot live is refused, because another one has yet to take itself back.
  lemma RefusedWithNothingLive()
    ensures exists run: seq<State>, actions ::
      && IsRun(Config(Some(1), None), run, actions)
      && 2 in run[|actions|].refused && 2 in run[|actions|].claims && run[|actions|].claims[2].live == {}
  {
    var c := Config(Some(1), None);
    var before := CrowdedOut();
    var (run, actions) := before;
    var s := run[|actions|];
    var s1 := Next(c, s, Swap(2));
    var s2 := Next(c, s1, Judge(2));
    var s3 := Next(c, s2, Report(2));
    var run', actions' := run + [s1, s2, s3], actions + [Swap(2), Judge(2), Report(2)];
    assert IsRun(c, run', actions');
    assert run'[|actions'|] == s3;
  }

  // One acquisition has come and gone, a second is about to be refused, a third has just begun.
  ghost function CrowdedOut(): (r: (seq<State>, seq<Action>))
    ensures IsRun(Config(Some(1), None), r.0, r.1)
    ensures var s := r.0[|r.1|];
            && s.counter == 2 && s.added == {1, 2} && s.announcing == {} && s.pending == {1, 2}
            && 2 in s.claims && s.claims[2] == Claim(2, {}, {1})
  {
    var c := Config(Some(1), None);
    var s1 := Next(c, Initial, FetchAdd(0));
    var s2 := Next(c, s1, Swap(0));
    var s3 := Next(c, s2, Judge(0));
    var s4 := Next(c, s3, FetchAdd(1));
    var s5 := Next(c, s4, Release(0));
    var s6 := Next(c, s5, FetchAdd(2));
    ([Initial, s1, s2, s3, s4, s5, s6], [FetchAdd(0), Swap(0), Judge(0), FetchAdd(1), Release(0), FetchAdd(2)])
  }

  datatype Kind = Warn | Refuse

  datatype Event = Event(current: nat, threshold: nat, kind: Kind)

  // The object itself. Between its atomic operations other threads may run; this is the method with
  // nobody else running.
  class Limit {
    var counter: nat
    var warned: bool

    constructor ()
      ensures counter == 0 && !warned
    {
      counter, warned := 0, false;
    }

    method Acquire(c: Config) returns (granted: bool, events: seq<Event>)
      modifies this
      ensures granted == !Exceeds(c.cap, old(counter) + 1)
      ensures counter == old(counter) + (if granted then 1 else 0)
      ensures warned == (old(warned) || Reaches(c.warn, old(counter) + 1))
      ensures events ==
        (if Warns(c, old(counter), old(warned)) then [Event(old(counter) + 1, c.warn.value, Warn)] else []) +
        (if granted then [] else [Event(old(counter) + 1, c.cap.value, Refuse)])
    {
      events := [];
      counter := counter + 1;
      var current := counter;
      if Reaches(c.warn, current) {
        var before := warned;
        warned := true;
        if !before {
          events := events + [Event(current, c.warn.value, Warn)];
        }
      }
      if Exceeds(c.cap, current) {
        counter := counter - 1;
        events := events + [Event(current, c.cap.value, Refuse)];
        granted := false;
      } else {
        granted := true;
      }
    }

    method DropSlot()
      requires counter > 0
      modifies this
      ensures counter == old(counter) - 1 && warned == old(warned)
    {
      counter := counter - 1;
    }
  }

  // The method and the machine: the steps of one acquisition, with nobody else stepping in between,
  // do what the method does.
  predicate Warns(c: Config, counter: nat, warned: bool) {
    Reaches(c.warn, counter + 1) && !warned
  }

  function Steps(c: Config, s: State, id: nat): seq<Action> {
    [FetchAdd(id), Swap(id)]
    + (if Warns(c, s.counter, s.warned) then [Announce(id)] else [])
    + [Judge(id)]
    + (if Exceeds(c.cap, s.counter + 1) then [Report(id)] else [])
  }

  // The state after the steps, or None if one of them is not enabled.
  function Play(c: Config, s: State, actions: seq<Action>): Option<State>
    decreases |actions|
  {
    if actions == [] then Some(s)
    else if Enabled(s, actions[0]) then Play(c, Next(c, s, actions[0]), actions[1..])
    else None
  }

  lemma PlayOne(c: Config, s: State, a: Action, rest: seq<Action>)
    requires Enabled(s, a)
    ensures Play(c, s, [a] + rest) == Play(c, Next(c, s, a), rest)
  {
    hide Next, Enabled;
    assert ([a] + rest)[1..] == rest;
  }

  // What an acquisition leaves behind.
  ghost predicate Acquired(c: Config, s: State, id: nat, end: State) {
    var granted := !Exceeds(c.cap, s.counter + 1);
    && end.counter == s.counter + (if granted then 1 else 0)
    && end.warned == (s.warned || Reaches(c.warn, s.counter + 1))
    && end.warnings == s.warnings + (if Warns(c, s.counter, s.warned) then [s.counter + 1] else [])
    && end.refusals == s.refusals + (if granted then [] else [s.counter + 1])
    && end.live == s.live + (if granted then {id} else {})
    && end.refused == s.refused + (if granted then {} else {id})
    && end.pending == s.pending && end.refusing == s.refusing
  }

  lemma AcquiredAlone(c: Config, s: State, id: nat)
    requires id !in s.claims && id !in s.pending + s.added + s.announcing + s.refusing
    ensures var end := Play(c, s, Steps(c, s, id)); end.Some? && Acquired(c, s, id, end.value)
  {
    var warn := if Warns(c, s.counter, s.warned) then [Announce(id)] else [];
    var report := if Exceeds(c.cap, s.counter + 1) then [Report(id)] else [];
    var s1 := Next(c, s, FetchAdd(id));
    var s2 := Next(c, s1, Swap(id));
    var s3 := if warn == [] then s2 else Next(c, s2, Announce(id));
    WarnedAlone(c, s, id);
    JudgedAlone(c, s, s3, id);
    hide Play, Next, Enabled, Acquired;
    var rest := [Judge(id)] + report;
    assert Steps(c, s, id) == [FetchAdd(id)] + ([Swap(id)] + (warn + rest));
    PlayOne(c, s, FetchAdd(id), [Swap(id)] + (warn + rest));
    PlayOne(c, s1, Swap(id), warn + rest);
    if warn != [] {
      PlayOne(c, s2, Announce(id), rest);
    } else {
      assert [] + rest == rest;
    }
  }

  // Up to the verdict ...
  lemma WarnedAlone(c: Config, s: State, id: nat)
    requires id !in s.claims && id !in s.pending + s.added + s.announcing + s.refusing
    ensures var s1 := Next(c, s, FetchAdd(id));
      && Enabled(s, FetchAdd(id)) && Enabled(s1, Swap(id))
      && var s2 := Next(c, s1, Swap(id));
      && (Warns(c, s.counter, s.warned) <==> id in s2.announcing)
      && (Warns(c, s.counter, s.warned) ==> Enabled(s2, Announce(id)))
      && Counted(c, s, id, if Warns(c, s.counter, s.warned) then Next(c, s2, Announce(id)) else s2)
  {
  }

  ghost predicate Counted(c: Config, s: State, id: nat, s3: State) {
    && s3.counter == s.counter + 1
    && s3.warned == (s.warned || Reaches(c.warn, s.counter + 1))
    && s3.warnings == s.warnings + (if Warns(c, s.counter, s.warned) then [s.counter + 1] else [])
    && s3.pending == s.pending + {id} && id !in s3.added && id !in s3.announcing
    && id in s3.claims && s3.claims[id].current == s.counter + 1
    && s3.live == s.live && s3.refused == s.refused && s3.refusals == s.refusals && s3.refusing == s.refusing
  }

  // ... and from there.
  lemma JudgedAlone(c: Config, s: State, s3: State, id: nat)
    requires Counted(c, s, id, s3) && id !in s.pending + s.refusing
    ensures Enabled(s3, Judge(id))
    ensures var report := if Exceeds(c.cap, s.counter + 1) then [Report(id)] else [];
      var end := Play(c, s3, [Judge(id)] + report);
      end.Some? && Acquired(c, s, id, end.value)
  {
    var s4 := Next(c, s3, Judge(id));
    assert s.pending + {id} - {id} == s.pending;
    if Exceeds(c.cap, s.counter + 1) {
      PlayOne(c, s3, Judge(id), [Report(id)]);
      PlayOne(c, s4, Report(id), []);
      assert [Report(id)] + [] == [Report(id)];
      assert s.refusing + {id} - {id} == s.refusing;
    } else {
      PlayOne(c, s3, Judge(id), []);
    }
    hide Play;
  }
}
