// The life of a connection (src/libs/ws/server.rs): refused before it is registered, or
// registered and then cleaned up exactly once, however its future ends.
module Lifecycle {
  import opened Wrappers

  // Connection ids are 32 bits wide and wrap around.
  const ID_SPAN: nat := 0x1_0000_0000

  function IdOf(base: nat, number: nat): nat {
    (base + number) % ID_SPAN
  }

  // `serve_connection` of one peer, by the await it stands at; a step is the stretch to the next
  // one. From `Authing` to `Serving` it
  // owns the cleanup job.
  datatype Pc = Connecting | Authing | Flushing | Serving | Gone

  predicate HoldsJob(pc: Pc) {
    pc.Authing? || pc.Flushing? || pc.Serving?
  }

  // `anyHooks`: some OnDisconnect hook is registered. Ids count up from `base`.
  datatype Config = Config(base: nat, anyHooks: bool)

  // `table` is the state table, by id; `numbers` the place of every connection ever registered in
  // the order of registration; `flagged` the connections whose end flag was set after failed
  // authentication; `removals` and `dispatched` count the removals made and the hook tasks spawned
  // for each connection.
  datatype State = State(
    issued: nat,
    table: map<nat, nat>,
    conns: map<nat, Pc>,
    numbers: map<nat, nat>,
    flagged: set<nat>,
    removals: multiset<nat>,
    dispatched: multiset<nat>)

  datatype Action =
    | Arrive(c: nat)
    | Connected(c: nat, accepted: bool)  // the OnConnect hooks answered
    | Authed(c: nat, ok: bool)           // a failed or late authentication is not ok
    | Ended(c: nat)                      // the session ended, or its flush ran out of time
    | Dropped(c: nat)                    // the future was dropped at the await it stood at

  const Initial := State(0, map[], map[], map[], {}, multiset{}, multiset{})

  predicate Enabled(s: State, a: Action) {
    match a
    case Arrive(c) => c !in s.conns
    case Connected(c, _) => c in s.conns && s.conns[c].Connecting?
    case Authed(c, _) => c in s.conns && s.conns[c].Authing? && c in s.numbers
    case Ended(c) => c in s.conns && (s.conns[c].Flushing? || s.conns[c].Serving?) && c in s.numbers
    case Dropped(c) => c in s.conns && !s.conns[c].Gone? && (HoldsJob(s.conns[c]) ==> c in s.numbers)
  }

  function IdOfConn(g: Config, s: State, c: nat): nat
    requires c in s.numbers
  {
    IdOf(g.base, s.numbers[c])
  }

  // Taking the job: remove the state under this id, and spawn the hooks if there are any.
  function DispatchJob(g: Config, s: State, c: nat): State
    requires c in s.numbers
  {
    s.(table := s.table - {IdOfConn(g, s, c)},
       removals := s.removals + multiset{c},
       dispatched := if g.anyHooks then s.dispatched + multiset{c} else s.dispatched)
  }

  function Leave(s: State, c: nat): State {
    s.(conns := s.conns[c := Gone])
  }

  function Next(g: Config, s: State, a: Action): State
    requires Enabled(s, a)
  {
    match a
    case Arrive(c) => s.(conns := s.conns[c := Connecting])
    case Connected(c, accepted) =>
      if !accepted then Leave(s, c)
      else
        s.(issued := s.issued + 1, table := s.table[IdOf(g.base, s.issued) := c],
           numbers := s.numbers[c := s.issued], conns := s.conns[c := Authing])
    case Authed(c, ok) =>
      if ok then s.(conns := s.conns[c := Serving])
      else
        var id := IdOfConn(g, s, c);
        s.(conns := s.conns[c := Flushing], flagged := if id in s.table then s.flagged + {s.table[id]} else s.flagged)
    case Ended(c) => Leave(DispatchJob(g, s, c), c)
    case Dropped(c) => Leave(if HoldsJob(s.conns[c]) then DispatchJob(g, s, c) else s, c)
  }

  predicate Registers(a: Action) {
    a.Connected? && a.accepted
  }

  predicate Held(s: State, c: nat) {
    c in s.conns && HoldsJob(s.conns[c])
  }

  // The jobs, for any run: a registered connection that is gone was cleaned up once, and nobody
  // else was. Whether ids are reused does not matter.
  function Cleanups(s: State, c: nat): nat {
    if c in s.numbers && c in s.conns && s.conns[c].Gone? then 1 else 0
  }

  ghost predicate JobInv(g: Config, s: State, c: nat) {
    && (c in s.numbers ==> c in s.conns && !s.conns[c].Connecting? && s.numbers[c] < s.issued)
    && (Held(s, c) ==> c in s.numbers)
    && s.removals[c] == Cleanups(s, c)
    && s.dispatched[c] == (if g.anyHooks then Cleanups(s, c) else 0)
  }

  lemma NextKeepsJobs(g: Config, s: State, a: Action, c: nat)
    requires JobInv(g, s, c) && Enabled(s, a)
    ensures JobInv(g, Next(g, s, a), c)
  {
    hide IdOf;
  }

  ghost predicate IsRun(g: Config, run: seq<State>, actions: seq<Action>) {
    && |run| == |actions| + 1
    && run[0] == Initial
    && forall i :: 0 <= i < |actions| ==> Enabled(run[i], actions[i]) && run[i + 1] == Next(g, run[i], actions[i])
  }

  // Over every interleaving of any number of connections, with a drop possible at every await: the
  // job of a registered connection is run when it goes, once, its hooks dispatched once if there
  // are any; and nobody who is not registered is removed or dispatched.
  lemma {:induction false} JobsRunOnce(g: Config, run: seq<State>, actions: seq<Action>, i: nat, c: nat)
    requires IsRun(g, run, actions) && i < |run|
    ensures JobInv(g, run[i], c)
  {
    if i > 0 {
      JobsRunOnce(g, run, actions, i - 1, c);
      NextKeepsJobs(g, run[i - 1], actions[i - 1], c);
      hide Next, JobInv;
    }
  }

  lemma {:induction false} RefusedNeverRegistered(g: Config, run: seq<State>, actions: seq<Action>, i: nat, j: nat, c: nat)
    requires IsRun(g, run, actions) && i < j < |run|
    requires actions[i] == Connected(c, false)
    ensures c in run[j].conns && run[j].conns[c].Gone? && c !in run[j].numbers
    ensures run[j].removals[c] == 0 && run[j].dispatched[c] == 0
    decreases j
  {
    JobsRunOnce(g, run, actions, i, c);
    JobsRunOnce(g, run, actions, j, c);
    if j > i + 1 {
      RefusedNeverRegistered(g, run, actions, i, j - 1, c);
      GoneStaysGone(g, run[j - 1], actions[j - 1], c);
      hide Next;
    }
  }

  lemma GoneStaysGone(g: Config, s: State, a: Action, c: nat)
    requires Enabled(s, a) && c in s.conns && s.conns[c].Gone?
    ensures var s' := Next(g, s, a); c in s'.conns && s'.conns[c].Gone? && (c in s'.numbers <==> c in s.numbers)
  {
  }

  // The table: exactly the connections whose job is held, each under its own id.
  ghost predicate TableInv(g: Config, s: State) {
    && (forall id :: id in s.table ==> var c := s.table[id]; Held(s, c) && c in s.numbers && IdOfConn(g, s, c) == id)
    && (forall c :: Held(s, c) ==> c in s.numbers && IdOfConn(g, s, c) in s.table && s.table[IdOfConn(g, s, c)] == c)
  }

  // The id about to be issued is not in use.
  predicate FreshId(g: Config, s: State) {
    IdOf(g.base, s.issued) !in s.table
  }

  // No connection still held registered a multiple of 2^32 registrations ago.
  ghost predicate NoneAtWrap(s: State) {
    forall c :: Held(s, c) && c in s.numbers ==> (s.issued - s.numbers[c]) % ID_SPAN != 0
  }

  lemma SameIdIff(base: nat, m: nat, n: nat)
    requires m <= n
    ensures IdOf(base, m) == IdOf(base, n) <==> (n - m) % ID_SPAN == 0
  {
    var q, r, k := (base + m) / ID_SPAN, (base + n) / ID_SPAN, (n - m) / ID_SPAN;
    assert base + m == ID_SPAN * q + IdOf(base, m);
    assert base + n == ID_SPAN * r + IdOf(base, n);
    assert n - m == ID_SPAN * k + (n - m) % ID_SPAN;
  }

  // While the table is true, the next id is in use exactly when a held connection is at the wrap.
  lemma FreshIff(g: Config, s: State)
    requires TableInv(g, s) && forall c :: c in s.numbers ==> s.numbers[c] < s.issued
    ensures FreshId(g, s) <==> NoneAtWrap(s)
  {
    forall c | Held(s, c) && c in s.numbers
      ensures IdOfConn(g, s, c) == IdOf(g.base, s.issued) <==> (s.issued - s.numbers[c]) % ID_SPAN == 0
    {
      SameIdIff(g.base, s.numbers[c], s.issued);
    }
    hide IdOf;
  }

  lemma NextKeepsTable(g: Config, s: State, a: Action)
    requires TableInv(g, s) && Enabled(s, a) && (Registers(a) ==> FreshId(g, s) && a.c !in s.numbers)
    ensures TableInv(g, Next(g, s, a))
  {
    if Registers(a) {
      TableAfterRegister(g, s, a.c);
    } else if a.Arrive? || a.Connected? || a.Authed? {
      TableAfterMove(g, s, Next(g, s, a), a.c);
    } else if Held(s, a.c) {
      TableAfterLeave(g, s, a.c);
    } else {
      TableAfterMove(g, s, Next(g, s, a), a.c);
    }
    hide TableInv, IdOf;
  }

  lemma TableAfterRegister(g: Config, s: State, c: nat)
    requires TableInv(g, s) && Enabled(s, Connected(c, true)) && FreshId(g, s) && c !in s.numbers
    ensures TableInv(g, Next(g, s, Connected(c, true)))
  {
    hide IdOf;
    var s' := Next(g, s, Connected(c, true));
    assert forall x :: x != c ==> (Held(s', x) <==> Held(s, x));
  }

  lemma TableAfterMove(g: Config, s: State, s': State, c: nat)
    requires TableInv(g, s) && s'.table == s.table && s'.numbers == s.numbers
    requires c in s'.conns && s'.conns == s.conns[c := s'.conns[c]] && (Held(s', c) <==> Held(s, c))
    ensures TableInv(g, s')
  {
    hide IdOf;
    assert forall x :: Held(s', x) <==> Held(s, x);
  }

  lemma TableAfterLeave(g: Config, s: State, c: nat)
    requires TableInv(g, s) && Held(s, c) && c in s.numbers
    ensures TableInv(g, Leave(DispatchJob(g, s, c), c))
  {
    hide IdOf;
    var s' := Leave(DispatchJob(g, s, c), c);
    assert forall x :: Held(s', x) <==> x != c && Held(s, x);
  }

  // Registering under an id in use makes the table lie about the connection that had it.
  lemma ReuseBreaksTable(g: Config, s: State, c: nat)
    requires TableInv(g, s) && Enabled(s, Connected(c, true)) && c !in s.numbers && !FreshId(g, s)
    ensures !TableInv(g, Next(g, s, Connected(c, true)))
  {
    var elder := s.table[IdOf(g.base, s.issued)];
    var s' := Next(g, s, Connected(c, true));
    hide IdOf;
    assert Held(s', elder) && elder != c && s'.table[IdOfConn(g, s', elder)] == c;
  }

  // The table is true at every point of a run exactly if every registration finds its id unused,
  // and that is so exactly if no registration finds a held connection at the wrap.
  ghost predicate TableTrue(g: Config, run: seq<State>, n: nat) {
    forall i :: 0 <= i < n && i < |run| ==> TableInv(g, run[i])
  }

  ghost predicate IdsFresh(g: Config, run: seq<State>, actions: seq<Action>, n: nat) {
    forall i :: 0 <= i < n && i < |actions| && i < |run| && Registers(actions[i]) ==> FreshId(g, run[i])
  }

  ghost predicate NobodyAtWrap(run: seq<State>, actions: seq<Action>, n: nat) {
    forall i :: 0 <= i < n && i < |actions| && i < |run| && Registers(actions[i]) ==> NoneAtWrap(run[i])
  }

  lemma {:induction false} TableTrueUpTo(g: Config, run: seq<State>, actions: seq<Action>, n: nat)
    requires IsRun(g, run, actions) && n <= |actions|
    ensures TableTrue(g, run, n + 1) <==> IdsFresh(g, run, actions, n)
    ensures IdsFresh(g, run, actions, n) <==> NobodyAtWrap(run, actions, n)
  {
    if n > 0 {
      var i := n - 1;
      TableTrueUpTo(g, run, actions, i);
      if TableTrue(g, run, n) {
        JobsRunOnce(g, run, actions, i, actions[i].c);
        NumbersBelow(g, run, actions, i);
        FreshIff(g, run[i]);
        hide Next, TableInv, FreshId, NoneAtWrap;
        if !Registers(actions[i]) || FreshId(g, run[i]) {
          NextKeepsTable(g, run[i], actions[i]);
        } else {
          ReuseBreaksTable(g, run[i], actions[i].c);
          assert !TableInv(g, run[n]);
        }
      }
    }
    hide TableInv, FreshId, NoneAtWrap;
  }

  lemma NumbersBelow(g: Config, run: seq<State>, actions: seq<Action>, i: nat)
    requires IsRun(g, run, actions) && i < |run|
    ensures forall c :: c in run[i].numbers ==> run[i].numbers[c] < run[i].issued
  {
    forall c | c in run[i].numbers
      ensures run[i].numbers[c] < run[i].issued
    {
      JobsRunOnce(g, run, actions, i, c);
    }
  }

  lemma TableTrueIff(g: Config, run: seq<State>, actions: seq<Action>)
    requires IsRun(g, run, actions)
    ensures (forall i :: 0 <= i < |run| ==> TableInv(g, run[i])) <==> IdsFresh(g, run, actions, |actions|)
    ensures IdsFresh(g, run, actions, |actions|) <==> NobodyAtWrap(run, actions, |actions|)
  {
    TableTrueUpTo(g, run, actions, |actions|);
    hide TableInv;
  }

  // So it is in every run in which no connection is held across 2^32 registrations, and in
  // particular in every run of at most 2^32 of them.
  lemma TableTrueWhileYoung(g: Config, run: seq<State>, actions: seq<Action>)
    requires IsRun(g, run, actions)
    requires forall i, c :: 0 <= i < |actions| && Registers(actions[i]) && Held(run[i], c) && c in run[i].numbers ==>
      run[i].issued < run[i].numbers[c] + ID_SPAN
    ensures forall i :: 0 <= i < |run| ==> TableInv(g, run[i])
  {
    forall i | 0 <= i < |actions| && Registers(actions[i])
      ensures NoneAtWrap(run[i])
    {
      NumbersBelow(g, run, actions, i);
    }
    TableTrueIff(g, run, actions);
    hide TableInv, FreshId;
  }

  lemma TableTrueForOneSpan(g: Config, run: seq<State>, actions: seq<Action>)
    requires IsRun(g, run, actions) && run[|actions|].issued <= ID_SPAN
    ensures forall i :: 0 <= i < |run| ==> TableInv(g, run[i])
  {
    forall i, c | 0 <= i < |actions| && Registers(actions[i]) && Held(run[i], c) && c in run[i].numbers
      ensures run[i].issued < run[i].numbers[c] + ID_SPAN
    {
      IssuedGrows(g, run, actions, i + 1, |actions|);
    }
    TableTrueWhileYoung(g, run, actions);
    hide TableInv;
  }

  lemma {:induction false} IssuedGrows(g: Config, run: seq<State>, actions: seq<Action>, i: nat, j: nat)
    requires IsRun(g, run, actions) && i <= j < |run|
    ensures run[i].issued <= run[j].issued
    decreases j
  {
    if j > i {
      IssuedGrows(g, run, actions, i, j - 1);
    }
  }

  // What that means for one connection: in the table exactly while its job is held; and its own
  // end flag is set while it flushes.
  lemma CleanedUpExactlyOnce(g: Config, run: seq<State>, actions: seq<Action>, i: nat, c: nat)
    requires IsRun(g, run, actions) && NobodyAtWrap(run, actions, |actions|) && i < |run| && c in run[i].conns
    ensures var s := run[i];
      && ((exists id :: id in s.table && s.table[id] == c) <==> HoldsJob(s.conns[c]))
      && s.removals[c] == (if s.conns[c].Gone? && c in s.numbers then 1 else 0)
      && s.dispatched[c] == (if s.conns[c].Gone? && c in s.numbers && g.anyHooks then 1 else 0)
      && (s.conns[c].Flushing? ==> c in s.flagged)
  {
    JobsRunOnce(g, run, actions, i, c);
    TableTrueIff(g, run, actions);
    FlushIsFlagged(g, run, actions, i, c);
    assert TableInv(g, run[i]);
    if HoldsJob(run[i].conns[c]) {
      assert Held(run[i], c);
    }
    hide IdOf, NobodyAtWrap;
  }

  lemma {:induction false} FlushIsFlagged(g: Config, run: seq<State>, actions: seq<Action>, i: nat, c: nat)
    requires IsRun(g, run, actions) && i < |run|
    requires forall j :: 0 <= j < |run| ==> TableInv(g, run[j])
    ensures c in run[i].conns && run[i].conns[c].Flushing? ==> c in run[i].flagged
  {
    if i > 0 {
      FlushIsFlagged(g, run, actions, i - 1, c);
      assert TableInv(g, run[i - 1]);
      if actions[i - 1] == Authed(c, false) {
        assert Held(run[i - 1], c);
      }
      hide IdOfConn;
      FlushStep(g, run[i - 1], actions[i - 1], c);
      hide Next, TableInv;
    }
  }

  lemma FlushStep(g: Config, s: State, a: Action, c: nat)
    requires Enabled(s, a) && (c in s.conns && s.conns[c].Flushing? ==> c in s.flagged)
    requires a == Authed(c, false) ==> IdOfConn(g, s, c) in s.table && s.table[IdOfConn(g, s, c)] == c
    ensures var s' := Next(g, s, a); c in s'.conns && s'.conns[c].Flushing? ==> c in s'.flagged
  {
    hide IdOfConn, IdOf;
  }

  // When an id is reused, the newcomer takes over the entry, so an end flag meant for the elder
  // lands on the newcomer; and when the elder goes, however it goes, the newcomer's entry goes
  // with it.
  lemma WrappedIdEvicts(g: Config, s: State, c: nat, leave: Action)
    requires TableInv(g, s) && c in s.conns && s.conns[c].Connecting? && c !in s.numbers && !FreshId(g, s)
    requires leave.c == s.table[IdOf(g.base, s.issued)] && (leave.Ended? || leave.Dropped?) && Enabled(s, leave)
    ensures Enabled(s, Connected(c, true)) && Enabled(Next(g, s, Connected(c, true)), leave)
    ensures var elder, s1 := leave.c, Next(g, s, Connected(c, true));
      var s2 := Next(g, s1, leave);
      && Held(s1, elder) && (forall id :: id in s1.table ==> s1.table[id] != elder)
      && (s.conns[elder].Authing? ==>
            var failed := Authed(elder, false); Enabled(s1, failed) && Next(g, s1, failed).flagged == s.flagged + {c})
      && Held(s2, c) && (forall id :: id in s2.table ==> s2.table[id] != c)
  {
    hide IdOf;
  }

  // The wrap is reachable: one connection is served while 2^32 - 1 others come and go, and the next
  // one is given its id.
  lemma RunMore(g: Config, run: seq<State>, actions: seq<Action>, a: Action)
    requires IsRun(g, run, actions) && Enabled(run[|actions|], a)
    ensures IsRun(g, run + [Next(g, run[|actions|], a)], actions + [a])
  {
    hide Next, Enabled;
    var run', actions' := run + [Next(g, run[|actions|], a)], actions + [a];
    forall i | 0 <= i < |actions'|
      ensures Enabled(run'[i], actions'[i]) && run'[i + 1] == Next(g, run'[i], actions'[i])
    {
      if i < |actions| {
        assert run'[i] == run[i] && actions'[i] == actions[i];
      }
    }
  }

  // Connection 0 is served, and the others up to `k` are gone.
  ghost predicate Outlasted(g: Config, s: State, k: nat) {
    && s.issued == k + 1
    && s.table == map[IdOf(g.base, 0) := 0]
    && (forall c: nat :: c in s.conns <==> c <= k)
    && (forall c :: c in s.conns && c > 0 ==> s.conns[c].Gone?)
    && 0 in s.conns && s.conns[0].Serving?
    && 0 in s.numbers && s.numbers[0] == 0
    && (forall c :: c in s.numbers ==> c <= k)
  }

  lemma {:induction false} Outlasts(g: Config, k: nat) returns (run: seq<State>, actions: seq<Action>)
    requires k < ID_SPAN
    ensures IsRun(g, run, actions) && Outlasted(g, run[|actions|], k)
  {
    if k == 0 {
      run, actions := [Initial], [];
      FirstIsServed(g);
      run, actions := ThreeSteps(g, run, actions, Arrive(0), Connected(0, true), Authed(0, true));
    } else {
      run, actions := Outlasts(g, k - 1);
      OutlastsOneMore(g, run[|actions|], k);
      run, actions := ThreeSteps(g, run, actions, Arrive(k), Connected(k, true), Dropped(k));
    }
  }

  lemma FirstIsServed(g: Config)
    ensures var s1 := Next(g, Initial, Arrive(0));
      && Enabled(s1, Connected(0, true)) && Enabled(Next(g, s1, Connected(0, true)), Authed(0, true))
      && Outlasted(g, Next(g, Next(g, s1, Connected(0, true)), Authed(0, true)), 0)
  {
    hide IdOf;
    var s3 := Next(g, Next(g, Next(g, Initial, Arrive(0)), Connected(0, true)), Authed(0, true));
    assert s3.table == map[IdOf(g.base, 0) := 0];
    assert s3.conns == map[0 := Serving] && s3.numbers == map[0 := 0] && s3.issued == 1;
  }

  lemma OutlastsOneMore(g: Config, s: State, k: nat)
    requires 0 < k < ID_SPAN && Outlasted(g, s, k - 1)
    ensures Enabled(s, Arrive(k))
    ensures var s1 := Next(g, s, Arrive(k));
      && Enabled(s1, Connected(k, true)) && Enabled(Next(g, s1, Connected(k, true)), Dropped(k))
      && Outlasted(g, Next(g, Next(g, s1, Connected(k, true)), Dropped(k)), k)
  {
    SameIdIff(g.base, 0, k);
    hide IdOf;
    var s3 := Next(g, Next(g, Next(g, s, Arrive(k)), Connected(k, true)), Dropped(k));
    assert s3.table == map[IdOf(g.base, 0) := 0];
  }

  lemma ThreeSteps(g: Config, run: seq<State>, actions: seq<Action>, a1: Action, a2: Action, a3: Action)
    returns (run': seq<State>, actions': seq<Action>)
    requires IsRun(g, run, actions) && Enabled(run[|actions|], a1)
    requires Enabled(Next(g, run[|actions|], a1), a2)
    requires Enabled(Next(g, Next(g, run[|actions|], a1), a2), a3)
    ensures IsRun(g, run', actions')
    ensures run'[|actions'|] == Next(g, Next(g, Next(g, run[|actions|], a1), a2), a3)
  {
    hide Next, Enabled;
    RunMore(g, run, actions, a1);
    var run1, actions1 := run + [Next(g, run[|actions|], a1)], actions + [a1];
    RunMore(g, run1, actions1, a2);
    var run2, actions2 := run1 + [Next(g, run1[|actions1|], a2)], actions1 + [a2];
    RunMore(g, run2, actions2, a3);
    run', actions' := run2 + [Next(g, run2[|actions2|], a3)], actions2 + [a3];
  }

  lemma WrapIsReachable(g: Config)
    ensures exists run: seq<State>, actions, c ::
      && IsRun(g, run, actions)
      && !NobodyAtWrap(run, actions, |actions|)
      && Held(run[|actions|], c)
      && forall id :: id in run[|actions|].table ==> run[|actions|].table[id] != c
  {
    var run, actions := Outlasts(g, ID_SPAN - 1);
    SameIdIff(g.base, 0, ID_SPAN);
    hide IdOf;
    var c := ID_SPAN;
    var run', actions' := ThreeSteps(g, run, actions, Arrive(c), Connected(c, true), Ended(0));
    assert Held(run'[|actions'|], c) && run'[|actions'|].table == map[];
    assert !TableInv(g, run'[|actions'|]);
    TableTrueIff(g, run', actions');
    hide TableInv, NobodyAtWrap;
  }

  // The objects: the state table and the guard that owns the cleanup job.
  class WebsocketStates {
    var entries: map<nat, nat>

    constructor ()
      ensures entries == map[]
    {
      entries := map[];
    }

    method Insert(id: nat, c: nat)
      modifies this
      ensures entries == old(entries)[id := c]
    {
      entries := entries[id := c];
    }

    method Remove(id: nat)
      modifies this
      ensures entries == old(entries) - {id}
    {
      entries := entries - {id};
    }
  }

  class ConnectionCleanup {
    const states: WebsocketStates
    const anyHooks: bool
    var job: Option<nat>
    var spawned: seq<nat>  // the hook tasks spawned, by the id they were given

    constructor (states: WebsocketStates, anyHooks: bool, id: nat)
      ensures this.states == states && this.anyHooks == anyHooks && job == Some(id) && spawned == []
    {
      this.states, this.anyHooks, job, spawned := states, anyHooks, Some(id), [];
    }

    method Dispatch()
      modifies this, states
      ensures job == None
      ensures states.entries == if old(job).Some? then old(states.entries) - {old(job).value} else old(states.entries)
      ensures spawned == old(spawned) + (if old(job).Some? && anyHooks then [old(job).value] else [])
    {
      var taken := job;
      job := None;
      if taken.Some? {
        states.Remove(taken.value);
        if anyHooks {
          spawned := spawned + [taken.value];
        }
      }
    }

    // `drop` of the guard, which also ends `finish`.
    method Drop()
      modifies this, states
      ensures job == None
      ensures states.entries == if old(job).Some? then old(states.entries) - {old(job).value} else old(states.entries)
      ensures spawned == old(spawned) + (if old(job).Some? && anyHooks then [old(job).value] else [])
    {
      Dispatch();
    }

    method Finish()
      modifies this, states
      ensures job == None
      ensures states.entries == if old(job).Some? then old(states.entries) - {old(job).value} else old(states.entries)
      ensures spawned == old(spawned) + (if old(job).Some? && anyHooks then [old(job).value] else [])
    {
      Dispatch();
      Drop();
    }
  }

  // How the awaits of one `serve_connection` turn out. `cutAt` is the await, if any, at which the
  // future is dropped: 0 the OnConnect hooks, 1 authentication, 2 the session or its flush.
  datatype Fate = Fate(accepted: bool, authOk: bool, cutAt: Option<nat>)

  predicate IsRegistered(fate: Fate) {
    fate.accepted && fate.cutAt != Some(0)
  }

  predicate IsFlagged(fate: Fate) {
    IsRegistered(fate) && fate.cutAt != Some(1) && !fate.authOk
  }

  // Alone on its table, whatever its fate, a connection leaves no entry behind and spawns its
  // hooks exactly once if it was registered, and not at all if it was not.
  method ServeConnection(states: WebsocketStates, id: nat, c: nat, anyHooks: bool, fate: Fate)
    returns (spawned: seq<nat>, flagged: bool)
    requires id !in states.entries
    modifies states
    ensures states.entries == old(states.entries)
    ensures spawned == if anyHooks && IsRegistered(fate) then [id] else []
    ensures flagged == IsFlagged(fate)
  {
    spawned, flagged := [], false;
    if fate.cutAt == Some(0) || !fate.accepted {
      return;
    }
    states.Insert(id, c);
    var cleanup := new ConnectionCleanup(states, anyHooks, id);
    if fate.cutAt == Some(1) {
      cleanup.Drop();
    } else {
      if !fate.authOk {
        flagged := id in states.entries;
      }
      if fate.cutAt == Some(2) {
        cleanup.Drop();
      } else {
        cleanup.Finish();
      }
    }
    spawned := cleanup.spawned;
    assert states.entries == old(states.entries);
  }

  // The machine's steps of that fate, with nobody else stepping in between, have the same effect.
  function Steps(fate: Fate, c: nat): seq<Action> {
    if fate.cutAt == Some(0) then [Arrive(c), Dropped(c)]
    else if !fate.accepted then [Arrive(c), Connected(c, false)]
    else if fate.cutAt == Some(1) then [Arrive(c), Connected(c, true), Dropped(c)]
    else if fate.cutAt == Some(2) then [Arrive(c), Connected(c, true), Authed(c, fate.authOk), Dropped(c)]
    else [Arrive(c), Connected(c, true), Authed(c, fate.authOk), Ended(c)]
  }

  // The state after the steps, or None if one of them is not enabled.
  function Play(g: Config, s: State, actions: seq<Action>): Option<State>
    decreases |actions|
  {
    if actions == [] then Some(s)
    else if Enabled(s, actions[0]) then Play(g, Next(g, s, actions[0]), actions[1..])
    else None
  }

  // What a connection does to the state that it finds, from its arrival to its end.
  ghost predicate Served(g: Config, s: State, c: nat, fate: Fate, end: State) {
    && end.table == s.table
    && end.dispatched == s.dispatched + (if g.anyHooks && IsRegistered(fate) then multiset{c} else multiset{})
    && end.removals == s.removals + (if IsRegistered(fate) then multiset{c} else multiset{})
    && end.flagged == s.flagged + (if IsFlagged(fate) then {c} else {})
    && end.conns == s.conns[c := Gone]
  }

  lemma ServedAlone(g: Config, s: State, c: nat, fate: Fate)
    requires c !in s.conns && c !in s.numbers && FreshId(g, s)
    ensures var end := Play(g, s, Steps(fate, c)); end.Some? && Served(g, s, c, fate, end.value)
  {
    var actions := Steps(fate, c);
    var s1 := Next(g, s, Arrive(c));
    PlayOne(g, s, actions);
    if IsRegistered(fate) {
      var s2 := Next(g, s1, Connected(c, true));
      PlayOne(g, s1, actions[1..]);
      PlayOne(g, s2, actions[2..]);
      ServedRegistered(g, s, c, fate);
      if fate.cutAt != Some(1) {
        ServedAuthed(g, s, c, fate, actions[3]);
        PlayOne(g, Next(g, s2, Authed(c, fate.authOk)), actions[3..]);
      }
    } else {
      PlayOne(g, s1, actions[1..]);
    }
    hide Play, IdOf;
  }

  lemma PlayOne(g: Config, s: State, actions: seq<Action>)
    requires actions != [] && Enabled(s, actions[0])
    ensures Play(g, s, actions) == if |actions| == 1 then Some(Next(g, s, actions[0])) else Play(g, Next(g, s, actions[0]), actions[1..])
  {
    hide Next;
  }

  // A registered connection goes as it came: only its traces in the counts are left.
  lemma GoesAsItCame(g: Config, s: State, c: nat, s': State, fate: Fate)
    requires IsRegistered(fate) && FreshId(g, s) && c in s'.numbers && s'.numbers[c] == s.issued
    requires s'.table == s.table[IdOf(g.base, s.issued) := c] && s'.removals == s.removals && s'.dispatched == s.dispatched
    requires c in s'.conns && s'.conns == s.conns[c := s'.conns[c]]
    requires s'.flagged == s.flagged + (if IsFlagged(fate) then {c} else {})
    ensures Served(g, s, c, fate, Leave(DispatchJob(g, s', c), c))
  {
    hide IdOf;
    assert s'.table - {IdOf(g.base, s.issued)} == s.table;
  }

  lemma ServedRegistered(g: Config, s: State, c: nat, fate: Fate)
    requires c !in s.conns && c !in s.numbers && FreshId(g, s) && IsRegistered(fate)
    ensures var s2 := Next(g, Next(g, s, Arrive(c)), Connected(c, true));
      && Enabled(s2, Dropped(c)) && Enabled(s2, Authed(c, fate.authOk))
      && (fate.cutAt == Some(1) ==> Served(g, s, c, fate, Next(g, s2, Dropped(c))))
  {
    hide IdOf, Served;
    var s2 := Next(g, Next(g, s, Arrive(c)), Connected(c, true));
    if fate.cutAt == Some(1) {
      GoesAsItCame(g, s, c, s2, fate);
    }
  }

  lemma ServedAuthed(g: Config, s: State, c: nat, fate: Fate, last: Action)
    requires c !in s.conns && c !in s.numbers && FreshId(g, s) && IsRegistered(fate) && fate.cutAt != Some(1)
    requires last == Dropped(c) || last == Ended(c)
    ensures var s2 := Next(g, Next(g, s, Arrive(c)), Connected(c, true));
      && Enabled(s2, Authed(c, fate.authOk)) && Enabled(Next(g, s2, Authed(c, fate.authOk)), last)
      && Served(g, s, c, fate, Next(g, Next(g, s2, Authed(c, fate.authOk)), last))
  {
    hide IdOf, Served;
    var s3 := Next(g, Next(g, Next(g, s, Arrive(c)), Connected(c, true)), Authed(c, fate.authOk));
    GoesAsItCame(g, s, c, s3, fate);
  }
}
