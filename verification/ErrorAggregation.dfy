// The bounded aggregate of recent errors (src/libs/log/error_aggregation.rs): one record per kind
// of error, the record that began longest ago making room for a new kind.
module ErrorAggregation {
  import opened Wrappers

  datatype Entry = Entry(target: string, message: string, timestamp: int)

  datatype Key = Key(target: string, pattern: string)

  datatype Stats = Stats(count: nat, firstSeen: int, lastSeen: int, message: string, target: string, pattern: string)

  // `normalization` stands for the regular expressions of the source; it may be any function.
  datatype Config = Config(limit: nat, normalize: bool, normalization: string -> string)

  type Storage = map<Key, Stats>

  function KeyOf(c: Config, e: Entry): Key {
    Key(e.target, if c.normalize then c.normalization(e.message) else e.message)
  }

  function Opened(c: Config, e: Entry): Stats {
    Stats(1, e.timestamp, e.timestamp, e.message, e.target, KeyOf(c, e).pattern)
  }

  function Repeated(s: Stats, e: Entry): Stats {
    s.(count := s.count + 1, lastSeen := e.timestamp, message := e.message)
  }

  predicate MustEvict(c: Config, m: Storage, e: Entry) {
    KeyOf(c, e) !in m && |m| >= c.limit && m != map[]
  }

  ghost predicate IsOldest(m: Storage, k: Key) {
    k in m && forall k' :: k' in m ==> m[k].firstSeen <= m[k'].firstSeen
  }

  // The storage after one entry, given the key evicted for it, if any.
  function After(c: Config, m: Storage, e: Entry, victim: Option<Key>): Storage {
    var k := KeyOf(c, e);
    if k in m then m[k := Repeated(m[k], e)]
    else (if victim.Some? then m - {victim.value} else m)[k := Opened(c, e)]
  }

  ghost predicate Legal(c: Config, m: Storage, e: Entry, victim: Option<Key>) {
    && (victim.Some? <==> MustEvict(c, m, e))
    && (victim.Some? ==> IsOldest(m, victim.value))
  }

  class ErrorContainer {
    const config: Config
    var storage: Storage

    constructor (config: Config)
      ensures storage == map[] && this.config == config
    {
      this.config := config;
      storage := map[];
    }

    method Process(e: Entry) returns (victim: Option<Key>)
      modifies this
      ensures Legal(config, old(storage), e, victim)
      ensures storage == After(config, old(storage), e, victim)
    {
      var k := KeyOf(config, e);
      victim := None;
      if k in storage {
        storage := storage[k := Repeated(storage[k], e)];
      } else {
        if |storage| >= config.limit && storage != map[] {
          var oldest := FindOldest();
          victim := Some(oldest);
          storage := storage - {oldest};
        }
        storage := storage[k := Opened(config, e)];
      }
    }

    method FindOldest() returns (oldest: Key)
      requires storage != map[]
      ensures IsOldest(storage, oldest)
    {
      assert storage.Keys != {};
      oldest :| oldest in storage;
      var rest := storage.Keys - {oldest};
      while rest != {}
        invariant oldest in storage && rest <= storage.Keys
        invariant forall k :: k in storage && k !in rest ==> storage[oldest].firstSeen <= storage[k].firstSeen
        decreases |rest|
      {
        var k :| k in rest;
        rest := rest - {k};
        if storage[k].firstSeen < storage[oldest].firstSeen {
          oldest := k;
        }
      }
    }

    method Clear()
      modifies this
      ensures storage == map[]
    {
      storage := map[];
    }

    // `order` is the order in which the map happens to list its keys; `sortBy` the caller's own
    // comparison, if any, as "comes strictly before".
    method GetErrors(order: seq<Key>, sortBy: Option<(Report, Report) -> bool>, limit: nat, offset: nat) returns (page: seq<Report>)
      requires Enumerates(order, storage)
      ensures page == Page(Sorted(if sortBy.Some? then sortBy.value else MoreRecent, Reports(storage, order)), limit, offset)
    {
      var entries := Reports(storage, order);
      if sortBy.Some? {
        entries := Sorted(sortBy.value, entries);
      } else {
        entries := Sorted(MoreRecent, entries);
      }
      page := Page(entries, limit, offset);
    }

    method GetStats(order: seq<Key>, limit: nat, offset: nat) returns (page: seq<Stats>)
      requires Enumerates(order, storage)
      ensures page == Page(Sorted(SeenLater, Values(storage, order)), limit, offset)
    {
      page := Page(Sorted(SeenLater, Values(storage, order)), limit, offset);
    }
  }

  // Runs since the last clear: what was processed, where each retained record began, and the
  // records evicted.
  datatype State = State(storage: Storage, log: seq<Entry>, since: map<Key, nat>, evicted: seq<Stats>)

  const Cleared := State(map[], [], map[], [])

  function Next(c: Config, s: State, e: Entry, victim: Option<Key>): State {
    var k := KeyOf(c, e);
    State(After(c, s.storage, e, victim),
          s.log + [e],
          if k in s.storage then s.since else s.since[k := |s.log|],
          if victim.Some? && victim.value in s.storage then s.evicted + [s.storage[victim.value]] else s.evicted)
  }

  // The entries of one kind, in order.
  function OfKind(c: Config, log: seq<Entry>, k: Key): seq<Entry> {
    if log == [] then []
    else
      var n := |log| - 1;
      OfKind(c, log[..n], k) + if KeyOf(c, log[n]) == k then [log[n]] else []
  }

  function Summary(k: Key, entries: seq<Entry>): Stats
    requires entries != []
  {
    var last := entries[|entries| - 1];
    Stats(|entries|, entries[0].timestamp, last.timestamp, last.message, k.target, k.pattern)
  }

  // A record summarises the entries of its kind from where it began.
  ghost predicate Explained(c: Config, s: State, k: Key) {
    && k in s.storage && k in s.since && s.since[k] < |s.log|
    && KeyOf(c, s.log[s.since[k]]) == k
    && OfKind(c, s.log[s.since[k]..], k) != []
    && s.storage[k] == Summary(k, OfKind(c, s.log[s.since[k]..], k))
  }

  ghost function Total(m: Storage): nat {
    if m == map[] then 0
    else
      assert m.Keys != {};
      var k :| k in m;
      m[k].count + Total(m - {k})
  }

  function Counts(evicted: seq<Stats>): nat {
    if evicted == [] then 0 else Counts(evicted[..|evicted| - 1]) + evicted[|evicted| - 1].count
  }

  ghost predicate Inv(c: Config, s: State) {
    && |s.storage| <= (if c.limit > 0 then c.limit else 1)
    && (forall k :: k in s.storage ==> Explained(c, s, k))
    && Total(s.storage) + Counts(s.evicted) == |s.log|
  }

  lemma {:induction false} TotalWithout(m: Storage, k: Key)
    requires k in m
    ensures Total(m) == m[k].count + Total(m - {k})
    decreases |m|
  {
    assert m != map[] && m.Keys != {};
    var x :| x in m && Total(m) == m[x].count + Total(m - {x});
    if x != k {
      assert (m - {x}).Keys == m.Keys - {x};
      assert |(m - {x}).Keys| < |m.Keys|;
      TotalWithout(m - {x}, k);
      TotalWithout(m - {k}, x);
      assert m - {x} - {k} == m - {k} - {x};
    }
  }

  lemma TotalSet(m: Storage, k: Key, v: Stats)
    ensures Total(m[k := v]) == v.count + Total(m - {k})
  {
    TotalWithout(m[k := v], k);
    assert m[k := v] - {k} == m - {k};
  }

  lemma NextKeepsTotal(c: Config, s: State, e: Entry, victim: Option<Key>)
    requires Legal(c, s.storage, e, victim)
    requires Total(s.storage) + Counts(s.evicted) == |s.log|
    ensures var s' := Next(c, s, e, victim); Total(s'.storage) + Counts(s'.evicted) == |s'.log|
  {
    var k := KeyOf(c, e);
    if k in s.storage {
      TotalWithout(s.storage, k);
      TotalSet(s.storage, k, Repeated(s.storage[k], e));
    } else if victim.Some? {
      var v := s.storage[victim.value];
      TotalWithout(s.storage, victim.value);
      TotalSet(s.storage - {victim.value}, k, Opened(c, e));
      assert s.storage - {victim.value} - {k} == s.storage - {victim.value};
      assert (s.evicted + [v])[..|s.evicted|] == s.evicted;
    } else {
      TotalSet(s.storage, k, Opened(c, e));
      assert s.storage - {k} == s.storage;
    }
  }

  lemma OfKindMore(c: Config, log: seq<Entry>, e: Entry, k: Key)
    ensures OfKind(c, log + [e], k) == OfKind(c, log, k) + if KeyOf(c, e) == k then [e] else []
  {
    assert (log + [e])[..|log|] == log;
  }

  lemma NextKeepsExplained(c: Config, s: State, e: Entry, victim: Option<Key>, k: Key)
    requires Legal(c, s.storage, e, victim) && k in Next(c, s, e, victim).storage
    requires k in s.storage ==> Explained(c, s, k)
    ensures Explained(c, Next(c, s, e, victim), k)
  {
    if k in s.storage {
      RecordAfter(c, s, e, victim, k);
      RecordGoesOn(c, s, Next(c, s, e, victim), e, k);
    } else {
      RecordBegins(c, s, Next(c, s, e, victim), e, k);
    }
    hide Explained, OfKind, IsOldest;
  }

  lemma RecordGoesOn(c: Config, s: State, s': State, e: Entry, k: Key)
    requires Explained(c, s, k) && s'.log == s.log + [e] && k in s'.storage && k in s'.since && s'.since[k] == s.since[k]
    requires s'.storage[k] == if KeyOf(c, e) == k then Repeated(s.storage[k], e) else s.storage[k]
    ensures Explained(c, s', k)
  {
    var tail := s.log[s.since[k]..];
    assert s'.log[s.since[k]..] == tail + [e];
    OfKindMore(c, tail, e, k);
    hide OfKind;
    SummaryMore(k, OfKind(c, tail, k), e);
  }

  lemma SummaryMore(k: Key, entries: seq<Entry>, e: Entry)
    requires entries != []
    ensures Summary(k, entries + [e]) == Repeated(Summary(k, entries), e)
  {
  }

  lemma RecordBegins(c: Config, s: State, s': State, e: Entry, k: Key)
    requires k == KeyOf(c, e) && s'.log == s.log + [e] && k in s'.since && s'.since[k] == |s.log|
    requires k in s'.storage && s'.storage[k] == Opened(c, e)
    ensures Explained(c, s', k)
  {
    assert s'.log[|s.log|..] == [] + [e];
    OfKindMore(c, [], e, k);
    assert OfKind(c, [], k) + [e] == [e];
    hide OfKind;
  }

  lemma RecordAfter(c: Config, s: State, e: Entry, victim: Option<Key>, k: Key)
    requires Legal(c, s.storage, e, victim) && k in s.storage && k in After(c, s.storage, e, victim)
    ensures After(c, s.storage, e, victim)[k] == if KeyOf(c, e) == k then Repeated(s.storage[k], e) else s.storage[k]
    ensures k in s.since ==> k in Next(c, s, e, victim).since && Next(c, s, e, victim).since[k] == s.since[k]
  {
    hide IsOldest;
  }

  lemma NextKeepsSize(c: Config, m: Storage, e: Entry, victim: Option<Key>)
    requires Legal(c, m, e, victim) && |m| <= (if c.limit > 0 then c.limit else 1)
    ensures |After(c, m, e, victim)| <= (if c.limit > 0 then c.limit else 1)
  {
    var k, m' := KeyOf(c, e), After(c, m, e, victim);
    if victim.Some? {
      assert m'.Keys == m.Keys - {victim.value} + {k};
      assert |m.Keys - {victim.value}| == |m.Keys| - 1;
      assert |m'| == |m'.Keys| && |m| == |m.Keys|;
    }
  }

  lemma NextKeepsInv(c: Config, s: State, e: Entry, victim: Option<Key>)
    requires Inv(c, s) && Legal(c, s.storage, e, victim)
    ensures Inv(c, Next(c, s, e, victim))
  {
    var s' := Next(c, s, e, victim);
    NextKeepsTotal(c, s, e, victim);
    NextKeepsSize(c, s.storage, e, victim);
    hide Explained;
    forall k | k in s'.storage
      ensures Explained(c, s', k)
    {
      NextKeepsExplained(c, s, e, victim, k);
    }
    hide After, Legal;
  }

  ghost predicate IsRun(c: Config, run: seq<State>, victims: seq<Option<Key>>) {
    && |run| == |victims| + 1
    && run[0] == Cleared
    && forall i :: 0 <= i < |victims| ==>
         exists e :: Legal(c, run[i].storage, e, victims[i]) && run[i + 1] == Next(c, run[i], e, victims[i])
  }

  // Over every run since a clear: the size is bounded, each record tells the truth about the
  // entries since it began, and no entry is uncounted.
  lemma {:induction false} RunInv(c: Config, run: seq<State>, victims: seq<Option<Key>>, i: nat)
    requires IsRun(c, run, victims) && i < |run|
    ensures Inv(c, run[i]) && |run[i].log| == i
  {
    if i > 0 {
      RunInv(c, run, victims, i - 1);
      var s, victim := run[i - 1], victims[i - 1];
      var e :| Legal(c, s.storage, e, victim) && run[i] == Next(c, s, e, victim);
      NextKeepsInv(c, s, e, victim);
      hide Inv, Legal;
    }
  }

  // While there is room nothing is forgotten: as long as nothing was evicted, each kind of error
  // that occurred has a record, and the record counts every occurrence.
  ghost predicate Complete(c: Config, s: State) {
    && (forall i :: 0 <= i < |s.log| ==> KeyOf(c, s.log[i]) in s.storage)
    && (forall k :: k in s.storage ==> s.storage[k].count == |OfKind(c, s.log, k)|)
  }

  lemma {:induction false} NothingForgottenUnlessEvicted(c: Config, run: seq<State>, victims: seq<Option<Key>>, i: nat)
    requires IsRun(c, run, victims) && i < |run|
    ensures run[i].evicted == [] ==> Complete(c, run[i])
    ensures i > 0 && run[i].evicted == [] ==> run[i - 1].evicted == []
  {
    if i > 0 {
      NothingForgottenUnlessEvicted(c, run, victims, i - 1);
      var s, victim := run[i - 1], victims[i - 1];
      var e :| Legal(c, s.storage, e, victim) && run[i] == Next(c, s, e, victim);
      if run[i].evicted == [] {
        KeepsComplete(c, s, e);
        assert victim == None;
      }
      hide Complete;
    }
  }

  lemma KeepsComplete(c: Config, s: State, e: Entry)
    requires Complete(c, s)
    ensures Complete(c, Next(c, s, e, None))
  {
    var s' := Next(c, s, e, None);
    forall k | k in s'.storage
      ensures s'.storage[k].count == |OfKind(c, s'.log, k)|
    {
      OfKindMore(c, s.log, e, k);
      if k !in s.storage {
        NoneOfKind(c, s.log, k);
      }
      hide OfKind;
    }
    assert forall i :: 0 <= i < |s.log| ==> s'.log[i] == s.log[i];
    hide OfKind;
  }

  lemma {:induction false} NoneOfKind(c: Config, log: seq<Entry>, k: Key)
    requires forall i :: 0 <= i < |log| ==> KeyOf(c, log[i]) != k
    ensures OfKind(c, log, k) == []
  {
    if log != [] {
      NoneOfKind(c, log[..|log| - 1], k);
    }
  }

  // An eviction happens exactly when a new kind arrives and the storage is at its limit, and the
  // record that goes had begun no later than any other.
  lemma EvictsOldestExactlyWhenFull(c: Config, s: State, e: Entry, victim: Option<Key>)
    requires Inv(c, s) && Legal(c, s.storage, e, victim)
    ensures var s' := Next(c, s, e, victim);
      && (|s'.evicted| == |s.evicted| + 1 <==> KeyOf(c, e) !in s.storage && |s.storage| == (if c.limit > 0 then c.limit else 1))
      && (victim.Some? ==> victim.value !in s'.storage || victim.value == KeyOf(c, e))
      && (victim.Some? ==> forall k :: k in s.storage ==>
            k in s.since && victim.value in s.since && s.since[k] < |s.log| && s.since[victim.value] < |s.log|
            && s.log[s.since[victim.value]].timestamp <= s.log[s.since[k]].timestamp)
  {
    assert |s.storage| == 0 <==> s.storage == map[];
    if victim.Some? {
      forall k | k in s.storage
        ensures k in s.since && s.since[k] < |s.log| && s.storage[k].firstSeen == s.log[s.since[k]].timestamp
      {
        assert Explained(c, s, k);
        BeginsThere(c, s.log[s.since[k]..], k);
      }
      hide Explained;
    }
  }

  lemma {:induction false} BeginsThere(c: Config, log: seq<Entry>, k: Key)
    requires log != [] && KeyOf(c, log[0]) == k
    ensures OfKind(c, log, k) != [] && OfKind(c, log, k)[0] == log[0]
  {
    if |log| > 1 {
      BeginsThere(c, log[..|log| - 1], k);
    } else {
      assert OfKind(c, log[..0], k) == [];
    }
  }

  // Pages.

  ghost predicate Enumerates(order: seq<Key>, m: Storage) {
    && (forall k :: k in order <==> k in m)
    && (forall i, j :: 0 <= i < j < |order| ==> order[i] != order[j])
  }

  function Values(m: Storage, order: seq<Key>): seq<Stats>
    requires forall k :: k in order ==> k in m
  {
    seq(|order|, i requires 0 <= i < |order| => m[order[i]])
  }

  // A record as `get_errors` shows it.
  datatype Report = Report(message: string, timestamp: int, target: string, count: nat)

  function ReportOf(s: Stats): Report {
    Report(s.message, s.lastSeen, s.target, s.count)
  }

  function Reports(m: Storage, order: seq<Key>): seq<Report>
    requires forall k :: k in order ==> k in m
  {
    seq(|order|, i requires 0 <= i < |order| => ReportOf(m[order[i]]))
  }

  predicate MoreRecent(a: Report, b: Report) {
    a.timestamp > b.timestamp
  }

  predicate SeenLater(a: Stats, b: Stats) {
    a.lastSeen > b.lastSeen
  }

  // Insertion before the first element that `before` does not put first: the sort is stable.
  function Inserted<T>(before: (T, T) -> bool, x: T, sorted: seq<T>): seq<T> {
    if sorted == [] then [x]
    else if before(sorted[0], x) then [sorted[0]] + Inserted(before, x, sorted[1..])
    else [x] + sorted
  }

  function Sorted<T>(before: (T, T) -> bool, entries: seq<T>): seq<T> {
    if entries == [] then [] else Inserted(before, entries[0], Sorted(before, entries[1..]))
  }

  ghost predicate InOrder<T(!new)>(before: (T, T) -> bool, entries: seq<T>) {
    forall i, j :: 0 <= i < j < |entries| ==> !before(entries[j], entries[i])
  }

  // What a comparison has to be for a sort to make sense: a strict weak order.
  ghost predicate IsOrder<T(!new)>(before: (T, T) -> bool) {
    && (forall a, b :: before(a, b) ==> !before(b, a))
    && (forall a, b, c :: !before(b, a) && !before(c, b) ==> !before(c, a))
  }

  lemma {:induction false} InsertedAdds<T>(before: (T, T) -> bool, x: T, sorted: seq<T>)
    ensures multiset(Inserted(before, x, sorted)) == multiset{x} + multiset(sorted)
  {
    if sorted != [] {
      InsertedAdds(before, x, sorted[1..]);
      assert sorted == [sorted[0]] + sorted[1..];
    }
  }

  lemma {:induction false} InsertedSorts<T(!new)>(before: (T, T) -> bool, x: T, sorted: seq<T>)
    requires IsOrder(before) && InOrder(before, sorted)
    ensures InOrder(before, Inserted(before, x, sorted))
  {
    if sorted != [] {
      if before(sorted[0], x) {
        var rest := Inserted(before, x, sorted[1..]);
        InsertedSorts(before, x, sorted[1..]);
        InsertedAdds(before, x, sorted[1..]);
        forall i | 0 <= i < |rest|
          ensures !before(rest[i], sorted[0])
        {
          assert rest[i] in multiset(rest);
          assert rest[i] == x || rest[i] in sorted[1..];
        }
        hide Inserted, IsOrder;
        FirstInOrder(before, sorted[0], rest);
      } else {
        assert forall i :: 0 <= i < |sorted| ==> !before(sorted[i], x);
        hide IsOrder;
        FirstInOrder(before, x, sorted);
      }
    }
    hide InOrder;
  }

  lemma FirstInOrder<T(!new)>(before: (T, T) -> bool, x: T, rest: seq<T>)
    requires InOrder(before, rest) && forall i :: 0 <= i < |rest| ==> !before(rest[i], x)
    ensures InOrder(before, [x] + rest)
  {
  }

  lemma {:induction false} SortedSorts<T(!new)>(before: (T, T) -> bool, entries: seq<T>)
    ensures IsOrder(before) ==> InOrder(before, Sorted(before, entries))
    ensures multiset(Sorted(before, entries)) == multiset(entries)
  {
    if entries != [] {
      SortedSorts(before, entries[1..]);
      if IsOrder(before) {
        InsertedSorts(before, entries[0], Sorted(before, entries[1..]));
      }
      InsertedAdds(before, entries[0], Sorted(before, entries[1..]));
      assert entries == [entries[0]] + entries[1..];
    }
    hide Inserted, IsOrder, InOrder;
  }

  function Page<T>(entries: seq<T>, limit: nat, offset: nat): seq<T> {
    if offset >= |entries| then []
    else if offset + limit >= |entries| then entries[offset..]
    else entries[offset..offset + limit]
  }

  function AllPages<T>(entries: seq<T>, limit: nat, offset: nat): seq<T>
    requires limit > 0
    decreases |entries| - offset
  {
    if offset >= |entries| then [] else Page(entries, limit, offset) + AllPages(entries, limit, offset + limit)
  }

  lemma {:induction false} PagesJoin<T>(entries: seq<T>, limit: nat, offset: nat)
    requires limit > 0 && offset <= |entries|
    ensures AllPages(entries, limit, offset) == entries[offset..]
    decreases |entries| - offset
  {
    if offset + limit < |entries| {
      PagesJoin(entries, limit, offset + limit);
      assert entries[offset..offset + limit] + entries[offset + limit..] == entries[offset..];
    } else if offset < |entries| {
      assert AllPages(entries, limit, offset + limit) == [];
    }
  }

  // Consecutive pages of an unchanged storage are the whole storage, in the order asked for,
  // whatever the size of a page; and most recent first if no order was.
  lemma PagesShowEverything(m: Storage, order: seq<Key>, before: (Report, Report) -> bool, limit: nat)
    requires Enumerates(order, m) && limit > 0
    ensures var shown := AllPages(Sorted(before, Reports(m, order)), limit, 0);
      multiset(shown) == multiset(Reports(m, order)) && (IsOrder(before) ==> InOrder(before, shown))
    ensures IsOrder(MoreRecent)
  {
    var entries := Reports(m, order);
    SortedSorts(before, entries);
    PagesJoin(Sorted(before, entries), limit, 0);
    assert Sorted(before, entries)[0..] == Sorted(before, entries);
  }

  lemma StatPagesShowEverything(m: Storage, order: seq<Key>, limit: nat)
    requires Enumerates(order, m) && limit > 0
    ensures var shown := AllPages(Sorted(SeenLater, Values(m, order)), limit, 0);
      multiset(shown) == multiset(Values(m, order)) && InOrder(SeenLater, shown)
  {
    var entries := Values(m, order);
    SortedSorts(SeenLater, entries);
    PagesJoin(Sorted(SeenLater, entries), limit, 0);
    assert Sorted(SeenLater, entries)[0..] == Sorted(SeenLater, entries);
  }

  // `get_all_errors` asks for one page of `limit` records: that is everything, except under a
  // limit of zero, where the one record kept is never shown.
  lemma AllErrorsIff(c: Config, s: State, order: seq<Key>)
    requires Inv(c, s) && Enumerates(order, s.storage)
    ensures |Page(Sorted(MoreRecent, Reports(s.storage, order)), c.limit, 0)| == |s.storage| <==> c.limit > 0 || s.storage == map[]
  {
    var entries := Reports(s.storage, order);
    SortedSorts(MoreRecent, entries);
    assert |Sorted(MoreRecent, entries)| == |multiset(Sorted(MoreRecent, entries))| == |multiset(entries)| == |order|;
    Distinct(order, s.storage.Keys);
    hide Sorted;
  }

  lemma {:induction false} Distinct(order: seq<Key>, keys: set<Key>)
    requires forall k :: k in order <==> k in keys
    requires forall i, j :: 0 <= i < j < |order| ==> order[i] != order[j]
    ensures |order| == |keys|
  {
    if order == [] {
      assert keys == {};
    } else {
      var k := order[0];
      assert forall x :: x in order[1..] <==> x in keys - {k};
      Distinct(order[1..], keys - {k});
    }
  }
}
