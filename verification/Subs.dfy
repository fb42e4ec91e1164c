// Stream subscriptions (src/libs/ws/subs.rs): connections by id, sets of connections by key, and
// publishing that drops the connections it finds gone, even as it walks the sets.
module Subs {
  import opened Wrappers

  // The stream sequence number is an AtomicU32: it wraps around.
  const SEQ_SPAN: nat := 0x1_0000_0000

  datatype Subscriber<S> = Subscriber(connection: nat, seqNo: nat, callee: nat, streamSeq: nat, settings: S)

  datatype Frame<D> = Frame(to: nat, originalSeq: nat, callee: nat, streamSeq: nat, streamCode: nat, data: D)

  datatype Index<S, Key> = Index(subscribes: map<nat, Subscriber<S>>, mappings: map<Key, set<nat>>)

  // Every mapped connection is subscribed, and filed under its own id.
  ghost predicate Valid<S, Key(!new)>(ix: Index<S, Key>) {
    && (forall id :: id in ix.subscribes ==> ix.subscribes[id].connection == id)
    && (forall k, id :: k in ix.mappings && id in ix.mappings[k] ==> id in ix.subscribes)
  }

  function Subscribed<S, Key>(ix: Index<S, Key>, entrant: Subscriber<S>, keys: seq<Key>, change: Subscriber<S> -> Subscriber<S>): Index<S, Key> {
    var id := entrant.connection;
    var sub := if id in ix.subscribes then change(ix.subscribes[id]) else entrant;
    Index(ix.subscribes[id := sub],
          map k | k in ix.mappings.Keys + (set x | x in keys) ::
            (if k in ix.mappings then ix.mappings[k] else {}) + (if k in keys then {id} else {}))
  }

  function Unsubscribed<S, Key>(ix: Index<S, Key>, id: nat): Index<S, Key> {
    Index(ix.subscribes - {id}, map k | k in ix.mappings :: ix.mappings[k] - {id})
  }

  // The closure may change the subscriber; it says whether to remove it, and from which keys.
  // A set that becomes empty goes with its key.
  function UnsubscribedWith<S, Key>(ix: Index<S, Key>, id: nat, remove: Subscriber<S> -> (Subscriber<S>, bool, seq<Key>)): Index<S, Key> {
    if id !in ix.subscribes then ix
    else
      var (sub, gone, keys) := remove(ix.subscribes[id]);
      Index(if gone then ix.subscribes - {id} else ix.subscribes[id := sub],
            map k | k in ix.mappings && (k in keys ==> ix.mappings[k] - {id} != {}) ::
              if k in keys then ix.mappings[k] - {id} else ix.mappings[k])
  }

  function FrameFor<S, D>(streamCode: nat, sub: Subscriber<S>, data: D): Frame<D> {
    Frame(sub.connection, sub.seqNo, sub.callee, sub.streamSeq, streamCode, data)
  }

  function Bumped<S>(sub: Subscriber<S>): Subscriber<S> {
    sub.(streamSeq := (sub.streamSeq + 1) % SEQ_SPAN)
  }

  function Dead(targets: set<nat>, alive: nat -> bool): set<nat> {
    set id | id in targets && !alive(id)
  }

  // After one attempt to each of `targets`: the live ones have counted on, the dead ones are gone.
  function After<S, Key>(ix: Index<S, Key>, targets: set<nat>, alive: nat -> bool): Index<S, Key> {
    Index(map id | id in ix.subscribes && id !in Dead(targets, alive) ::
            if id in targets then Bumped(ix.subscribes[id]) else ix.subscribes[id],
          map k | k in ix.mappings :: ix.mappings[k] - Dead(targets, alive))
  }

  // `frames` holds exactly one frame for each of `targets`, made from its entry in `ix`.
  ghost predicate Attempts<S, Key, D>(streamCode: nat, frames: seq<Frame<D>>, ix: Index<S, Key>, targets: set<nat>, data: Subscriber<S> -> Option<D>) {
    && (forall i :: 0 <= i < |frames| ==> MadeFor(streamCode, frames[i], ix, targets, data))
    && (forall id :: id in targets ==> exists i :: 0 <= i < |frames| && frames[i].to == id)
    && (forall i, j :: 0 <= i < j < |frames| ==> frames[i].to != frames[j].to)
  }

  ghost predicate MadeFor<S, Key, D>(streamCode: nat, f: Frame<D>, ix: Index<S, Key>, targets: set<nat>, data: Subscriber<S> -> Option<D>) {
    && f.to in targets
    && f.to in ix.subscribes
    && data(ix.subscribes[f.to]).Some?
    && f == FrameFor(streamCode, ix.subscribes[f.to], data(ix.subscribes[f.to]).value)
  }

  function Union<Key>(mappings: map<Key, set<nat>>, keys: seq<Key>): set<nat> {
    if keys == [] then {}
    else Union(mappings, keys[..|keys| - 1]) + (if keys[|keys| - 1] in mappings then mappings[keys[|keys| - 1]] else {})
  }

  lemma SameSets<Key>(m: map<Key, set<nat>>, m': map<Key, set<nat>>)
    requires m.Keys == m'.Keys && forall k :: k in m ==> m[k] == m'[k]
    ensures m == m'
  {
  }

  lemma AfterNobody<S, Key>(ix: Index<S, Key>, alive: nat -> bool)
    ensures After(ix, {}, alive) == ix
  {
    SameSets(After(ix, {}, alive).mappings, ix.mappings);
    assert After(ix, {}, alive).subscribes == ix.subscribes;
  }

  // Attempts to different connections add up.
  lemma AfterOneMore<S, Key>(ix: Index<S, Key>, targets: set<nat>, id: nat, alive: nat -> bool)
    requires id !in targets
    ensures After(After(ix, targets, alive), {id}, alive) == After(ix, targets + {id}, alive)
  {
    var l, r := After(After(ix, targets, alive), {id}, alive), After(ix, targets + {id}, alive);
    assert Dead(targets + {id}, alive) == Dead(targets, alive) + Dead({id}, alive);
    assert l.subscribes.Keys == r.subscribes.Keys;
    assert l.mappings.Keys == r.mappings.Keys;
    assert forall k :: k in l.mappings ==> l.mappings[k] == r.mappings[k];
    assert l.subscribes == r.subscribes;
    assert l.mappings == r.mappings;
  }

  lemma AfterKeepsValid<S, Key(!new)>(ix: Index<S, Key>, targets: set<nat>, alive: nat -> bool)
    requires Valid(ix)
    ensures Valid(After(ix, targets, alive))
  {
  }

  lemma OneMoreAttempt<S, Key, D>(streamCode: nat, frames: seq<Frame<D>>, ix: Index<S, Key>, targets: set<nat>,
                                  data: Subscriber<S> -> Option<D>, f: Frame<D>, id: nat)
    requires Attempts(streamCode, frames, ix, targets, data) && id !in targets && id in ix.subscribes
    requires data(ix.subscribes[id]).Some? && f == FrameFor(streamCode, ix.subscribes[id], data(ix.subscribes[id]).value)
    requires ix.subscribes[id].connection == id
    ensures Attempts(streamCode, frames + [f], ix, targets + {id}, data)
  {
    var frames' := frames + [f];
    forall x | x in targets + {id}
      ensures exists i :: 0 <= i < |frames'| && frames'[i].to == x
    {
      if x == id {
        assert frames'[|frames|].to == x;
      } else {
        var i :| 0 <= i < |frames| && frames[i].to == x;
        assert frames'[i].to == x;
      }
    }
    forall i | 0 <= i < |frames'|
      ensures MadeFor(streamCode, frames'[i], ix, targets + {id}, data)
    {
      if i < |frames| {
        assert MadeFor(streamCode, frames[i], ix, targets, data);
      }
    }
    assert forall i :: 0 <= i < |frames| ==> MadeFor(streamCode, frames[i], ix, targets, data) && frames[i].to != id;
    hide MadeFor;
  }

  // A publication of `data` under way: it began at `ix`, has tried `published`, and is now at `now`.
  ghost predicate Published<S, Key(!new), D>(streamCode: nat, now: Index<S, Key>, frames: seq<Frame<D>>, ix: Index<S, Key>,
                                             published: set<nat>, data: Option<D>, alive: nat -> bool) {
    var targets := if data.Some? then published else {};
    && now == After(ix, targets, alive)
    && Valid(now)
    && Attempts(streamCode, frames, ix, targets, _ => data)
  }

  lemma PublishedMeans<S, Key(!new), D>(streamCode: nat, now: Index<S, Key>, frames: seq<Frame<D>>, ix: Index<S, Key>,
                                        published: set<nat>, data: Option<D>, alive: nat -> bool)
    requires Published(streamCode, now, frames, ix, published, data, alive)
    ensures var targets := if data.Some? then published else {};
            now == After(ix, targets, alive) && Valid(now) && Attempts(streamCode, frames, ix, targets, _ => data)
  {
  }

  // What is left of a set, and of a subscriber that was not tried.
  lemma MappingAfter<S, Key(!new), D>(streamCode: nat, now: Index<S, Key>, frames: seq<Frame<D>>, ix: Index<S, Key>,
                                      published: set<nat>, data: Option<D>, alive: nat -> bool, k: Key)
    requires Valid(ix) && Published(streamCode, now, frames, ix, published, data, alive)
    ensures k in now.mappings <==> k in ix.mappings
    ensures k in now.mappings ==> now.mappings[k] <= ix.mappings[k] <= now.mappings[k] + published && now.mappings[k] <= ix.subscribes.Keys
  {
    hide Attempts;
  }

  lemma SubscriberAfter<S, Key(!new)>(ix: Index<S, Key>, targets: set<nat>, alive: nat -> bool, id: nat)
    requires Valid(ix) && id in ix.subscribes && id !in targets
    ensures var ix' := After(ix, targets, alive);
            id in ix'.subscribes && ix'.subscribes[id] == ix.subscribes[id] && ix.subscribes[id].connection == id
  {
  }

  // A filtered publication under way: `rest` is still to be looked at.
  ghost predicate Filtered<S, Key(!new), D>(streamCode: nat, subscribes: map<nat, Subscriber<S>>, frames: seq<Frame<D>>, ix: Index<S, Key>,
                                            rest: set<nat>, dead: set<nat>, filter: Subscriber<S> -> Option<D>, alive: nat -> bool) {
    var done := set id | id in ix.subscribes && id !in rest && filter(ix.subscribes[id]).Some?;
    && subscribes.Keys == ix.subscribes.Keys
    && (forall id :: id in subscribes ==> subscribes[id] == if id in done then Bumped(ix.subscribes[id]) else ix.subscribes[id])
    && dead == Dead(done, alive)
    && Attempts(streamCode, frames, ix, done, filter)
  }

  lemma FilteredMore<S, Key(!new), D>(streamCode: nat, subscribes: map<nat, Subscriber<S>>, frames: seq<Frame<D>>, ix: Index<S, Key>,
                                      rest: set<nat>, dead: set<nat>, filter: Subscriber<S> -> Option<D>, alive: nat -> bool, id: nat)
    requires Valid(ix) && Filtered(streamCode, subscribes, frames, ix, rest, dead, filter, alive)
    requires id in rest && rest <= ix.subscribes.Keys
    ensures id in subscribes && subscribes[id] == ix.subscribes[id] && subscribes[id].connection == id
    ensures filter(subscribes[id]).None? ==> Filtered(streamCode, subscribes, frames, ix, rest - {id}, dead, filter, alive)
    ensures filter(subscribes[id]).Some? ==>
      Filtered(streamCode, subscribes[id := Bumped(subscribes[id])], frames + [FrameFor(streamCode, subscribes[id], filter(subscribes[id]).value)],
               ix, rest - {id}, if alive(id) then dead else dead + {id}, filter, alive)
  {
    var done := set x | x in ix.subscribes && x !in rest && filter(ix.subscribes[x]).Some?;
    var done' := set x | x in ix.subscribes && x !in rest - {id} && filter(ix.subscribes[x]).Some?;
    assert id in ix.subscribes && id !in done;
    if filter(ix.subscribes[id]).Some? {
      assert done' == done + {id};
      OneMoreAttempt(streamCode, frames, ix, done, filter, FrameFor(streamCode, ix.subscribes[id], filter(ix.subscribes[id]).value), id);
      assert Dead(done', alive) == if alive(id) then Dead(done, alive) else Dead(done, alive) + {id};
    } else {
      assert done' == done;
    }
    hide Attempts, Valid;
  }

  lemma FilteredEnds<S, Key(!new), D>(streamCode: nat, subscribes: map<nat, Subscriber<S>>, frames: seq<Frame<D>>, ix: Index<S, Key>,
                                      dead: set<nat>, filter: Subscriber<S> -> Option<D>, alive: nat -> bool)
    requires Filtered(streamCode, subscribes, frames, ix, {}, dead, filter, alive)
    ensures var targets := set id | id in ix.subscribes && filter(ix.subscribes[id]).Some?;
      && Attempts(streamCode, frames, ix, targets, filter)
      && subscribes - dead == After(ix, targets, alive).subscribes
      && dead == Dead(targets, alive)
      && After(ix, targets, alive).mappings.Keys == ix.mappings.Keys
      && (forall k :: k in ix.mappings ==> After(ix, targets, alive).mappings[k] == ix.mappings[k] - dead)
  {
    var targets := set id | id in ix.subscribes && filter(ix.subscribes[id]).Some?;
    assert targets == set id | id in ix.subscribes && id !in {} && filter(ix.subscribes[id]).Some?;
    hide Attempts;
    assert subscribes - dead == After(ix, targets, alive).subscribes;
  }

  // Whether `unsubscribe_with` keeps the index whole is up to its closure: exactly when it changes
  // no id, and, if it removes the subscriber, lists every key the subscriber is mapped under.
  lemma UnsubscribeWithKeepsIff<S, Key(!new)>(ix: Index<S, Key>, id: nat, remove: Subscriber<S> -> (Subscriber<S>, bool, seq<Key>))
    requires Valid(ix) && id in ix.subscribes
    ensures var (sub, gone, keys) := remove(ix.subscribes[id]);
            Valid(UnsubscribedWith(ix, id, remove)) <==>
              if gone then forall k :: k in ix.mappings && id in ix.mappings[k] ==> k in keys else sub.connection == id
  {
    var (sub, gone, keys) := remove(ix.subscribes[id]);
    var ix' := UnsubscribedWith(ix, id, remove);
    if gone {
      assert ix'.subscribes == ix.subscribes - {id};
      if Valid(ix') {
        forall k | k in ix.mappings && id in ix.mappings[k]
          ensures k in keys
        {
          var members := if k in ix'.mappings then ix'.mappings[k] else {};
          assert k in keys || id in members;
        }
      }
    } else {
      assert ix'.subscribes == ix.subscribes[id := sub];
      assert id in ix'.subscribes && ix'.subscribes[id] == sub;
    }
  }

  lemma SubscribedKeepsValid<S, Key(!new)>(ix: Index<S, Key>, entrant: Subscriber<S>, keys: seq<Key>, change: Subscriber<S> -> Subscriber<S>)
    requires Valid(ix)
    requires entrant.connection in ix.subscribes ==> change(ix.subscribes[entrant.connection]).connection == entrant.connection
    ensures Valid(Subscribed(ix, entrant, keys, change))
  {
  }

  lemma UnsubscribedKeepsValid<S, Key(!new)>(ix: Index<S, Key>, id: nat)
    requires Valid(ix)
    ensures Valid(Unsubscribed(ix, id))
  {
  }

  class SubscriptionManager<S, Key(==, !new)> {
    const streamCode: nat
    var subscribes: map<nat, Subscriber<S>>
    var mappings: map<Key, set<nat>>

    function Contents(): Index<S, Key>
      reads this
    {
      Index(subscribes, mappings)
    }

    constructor (streamCode: nat)
      ensures Contents() == Index(map[], map[]) && this.streamCode == streamCode
    {
      this.streamCode := streamCode;
      subscribes, mappings := map[], map[];
    }

    method SubscribeWith(connection: nat, seqNo: nat, callee: nat, keys: seq<Key>, settings: S, change: Subscriber<S> -> Subscriber<S>)
      modifies this
      ensures Contents() == Subscribed(old(Contents()), Subscriber(connection, seqNo, callee, 0, settings), keys, change)
    {
      if connection in subscribes {
        subscribes := subscribes[connection := change(subscribes[connection])];
      } else {
        subscribes := subscribes[connection := Subscriber(connection, seqNo, callee, 0, settings)];
      }
      ghost var before := old(mappings);
      for i := 0 to |keys|
        invariant subscribes == Subscribed(old(Contents()), Subscriber(connection, seqNo, callee, 0, settings), keys, change).subscribes
        invariant forall k :: k in mappings <==> k in before || k in keys[..i]
        invariant forall k :: k in mappings ==>
          mappings[k] == (if k in before then before[k] else {}) + (if k in keys[..i] then {connection} else {})
      {
        var members := if keys[i] in mappings then mappings[keys[i]] else {};
        mappings := mappings[keys[i] := members + {connection}];
        assert forall k :: k in keys[..i + 1] <==> k in keys[..i] || k == keys[i];
      }
      assert keys[..|keys|] == keys;
      SameSets(mappings, Subscribed(old(Contents()), Subscriber(connection, seqNo, callee, 0, settings), keys, change).mappings);
    }

    method Unsubscribe(id: nat)
      modifies this
      ensures Contents() == Unsubscribed(old(Contents()), id)
    {
      subscribes := subscribes - {id};
      var rest := mappings.Keys;
      while rest != {}
        invariant subscribes == old(subscribes) - {id}
        invariant mappings.Keys == old(mappings).Keys && rest <= mappings.Keys
        invariant forall k :: k in mappings ==> mappings[k] == if k in rest then old(mappings)[k] else old(mappings)[k] - {id}
        decreases |rest|
      {
        var k :| k in rest;
        mappings := mappings[k := mappings[k] - {id}];
        rest := rest - {k};
      }
    }

    method UnsubscribeWith(id: nat, remove: Subscriber<S> -> (Subscriber<S>, bool, seq<Key>))
      modifies this
      ensures Contents() == UnsubscribedWith(old(Contents()), id, remove)
    {
      if id !in subscribes {
        return;
      }
      var (sub, gone, keys) := remove(subscribes[id]);
      subscribes := subscribes[id := sub];
      if gone {
        subscribes := subscribes - {id};
      }
      ghost var before := old(mappings);
      for i := 0 to |keys|
        invariant subscribes == UnsubscribedWith(old(Contents()), id, remove).subscribes
        invariant forall k :: k in mappings <==> k in before && (k in keys[..i] ==> before[k] - {id} != {})
        invariant forall k :: k in mappings ==> mappings[k] == if k in keys[..i] then before[k] - {id} else before[k]
      {
        var k := keys[i];
        if k in mappings {
          mappings := mappings[k := mappings[k] - {id}];
          if mappings[k] == {} {
            mappings := mappings - {k};
          }
        }
        assert forall x :: x in keys[..i + 1] <==> x in keys[..i] || x == k;
      }
      assert keys[..|keys|] == keys;
    }

    method PublishTo<D>(alive: nat -> bool, id: nat, data: Option<D>) returns (frames: seq<Frame<D>>)
      requires Valid(Contents())
      modifies this
      ensures var ix := old(Contents());
              var targets := if data.Some? && id in ix.subscribes then {id} else {};
              && Contents() == After(ix, targets, alive)
              && frames == if targets == {} then [] else [FrameFor(streamCode, ix.subscribes[id], data.value)]
      ensures Valid(Contents())
    {
      AfterNobody(Contents(), alive);
      AfterKeepsValid(Contents(), {id}, alive);
      if id !in subscribes || data.None? {
        return [];
      }
      var sub := subscribes[id];
      frames := [FrameFor(streamCode, sub, data.value)];
      subscribes := subscribes[id := Bumped(sub)];
      if !alive(sub.connection) {
        Unsubscribe(sub.connection);
      }
      assert Dead({id}, alive) == if alive(id) then {} else {id};
      SameSets(mappings, After(old(Contents()), {id}, alive).mappings);
      assert subscribes == After(old(Contents()), {id}, alive).subscribes;
    }

    // One frame to each subscriber found under any of the keys, and none twice, although the
    // sets shrink under the walk whenever a connection turns out to be dead.
    method PublishToKeys<D>(alive: nat -> bool, keys: seq<Key>, data: Option<D>) returns (frames: seq<Frame<D>>)
      requires Valid(Contents())
      modifies this
      ensures var ix := old(Contents());
              var targets := if data.Some? then Union(ix.mappings, keys) else {};
              && Contents() == After(ix, targets, alive)
              && Attempts(streamCode, frames, ix, targets, _ => data)
      ensures Valid(Contents())
    {
      ghost var ix := Contents();
      AfterNobody(ix, alive);
      frames := [];
      var published: set<nat> := {};
      assert Published(streamCode, Contents(), frames, ix, {}, data, alive);
      hide Published, Union;
      for i := 0 to |keys|
        invariant published == Union(ix.mappings, keys[..i])
        invariant Published(streamCode, Contents(), frames, ix, published, data, alive)
      {
        MappingAfter(streamCode, Contents(), frames, ix, published, data, alive, keys[i]);
        if keys[i] in mappings {
          var more;
          published, more := PublishToSet(alive, mappings[keys[i]], published, data, ix, frames);
          frames := frames + more;
        }
        UnionGrows(ix.mappings, keys, i);
        assert published == Union(ix.mappings, keys[..i + 1]);
      }
      assert keys[..|keys|] == keys;
      PublishedMeans(streamCode, Contents(), frames, ix, published, data, alive);
    }

    method PublishToKey<D>(alive: nat -> bool, key: Key, data: Option<D>) returns (frames: seq<Frame<D>>)
      requires Valid(Contents())
      modifies this
      ensures var ix := old(Contents());
              var targets := if data.Some? && key in ix.mappings then ix.mappings[key] else {};
              && Contents() == After(ix, targets, alive)
              && Attempts(streamCode, frames, ix, targets, _ => data)
      ensures Valid(Contents())
    {
      ghost var ix := Contents();
      AfterNobody(ix, alive);
      frames := [];
      assert Published(streamCode, Contents(), frames, ix, {}, data, alive);
      var published: set<nat> := {};
      if key in mappings {
        MappingAfter(streamCode, Contents(), frames, ix, {}, data, alive, key);
        published, frames := PublishToSet(alive, mappings[key], {}, data, ix, []);
        assert [] + frames == frames && published == ix.mappings[key];
        PublishedMeans(streamCode, Contents(), frames, ix, published, data, alive);
      }
    }

    // The walk over one set, skipping whom an earlier one reached.
    method PublishToSet<D>(alive: nat -> bool, ids: set<nat>, published: set<nat>, data: Option<D>,
                           ghost ix: Index<S, Key>, ghost sent: seq<Frame<D>>)
      returns (published': set<nat>, frames: seq<Frame<D>>)
      requires Valid(ix) && ids <= ix.subscribes.Keys
      requires Published(streamCode, Contents(), sent, ix, published, data, alive)
      modifies this
      ensures published' == published + ids
      ensures Published(streamCode, Contents(), sent + frames, ix, published', data, alive)
    {
      hide Published, Valid;
      var rest := ids;
      published', frames := published, [];
      assert sent + frames == sent;
      while rest != {}
        invariant rest <= ids && published' == published + (ids - rest)
        invariant Published(streamCode, Contents(), sent + frames, ix, published', data, alive)
        decreases |rest|
      {
        var id :| id in rest;
        if id !in published' {
          var more := PublishFirst(alive, id, published', data, ix, sent + frames);
          assert sent + frames + more == sent + (frames + more);
          frames := frames + more;
          published' := published' + {id};
        }
        rest := rest - {id};
      }
    }

    // The first attempt to a connection, seen from the index the whole publication started with.
    method PublishFirst<D>(alive: nat -> bool, id: nat, ghost published: set<nat>, data: Option<D>,
                           ghost ix: Index<S, Key>, ghost sent: seq<Frame<D>>)
      returns (frames: seq<Frame<D>>)
      requires Valid(ix) && id in ix.subscribes && id !in published
      requires Published(streamCode, Contents(), sent, ix, published, data, alive)
      modifies this
      ensures Published(streamCode, Contents(), sent + frames, ix, published + {id}, data, alive)
    {
      hide After, Attempts, Valid;
      ghost var targets := if data.Some? then published else {};
      SubscriberAfter(ix, targets, alive, id);
      frames := PublishTo(alive, id, data);
      if data.Some? {
        AfterOneMore(ix, targets, id, alive);
        OneMoreAttempt(streamCode, sent, ix, targets, _ => data, frames[0], id);
      } else {
        AfterNobody(ix, alive);
        AfterNobody(old(Contents()), alive);
        assert sent + frames == sent;
      }
    }

    // Every subscriber the filter has data for, dead or alive, is tried once; the dead ones are
    // unsubscribed afterwards.
    method PublishWithFilter<D>(alive: nat -> bool, filter: Subscriber<S> -> Option<D>) returns (frames: seq<Frame<D>>)
      requires Valid(Contents())
      modifies this
      ensures var ix := old(Contents());
              var targets := set id | id in ix.subscribes && filter(ix.subscribes[id]).Some?;
              && Contents() == After(ix, targets, alive)
              && Attempts(streamCode, frames, ix, targets, filter)
      ensures Valid(Contents())
    {
      ghost var ix := Contents();
      var dead: set<nat> := {};
      var rest := subscribes.Keys;
      frames := [];
      assert Filtered(streamCode, subscribes, frames, ix, rest, dead, filter, alive);
      hide Filtered, Attempts, After;
      while rest != {}
        invariant rest <= ix.subscribes.Keys
        invariant mappings == ix.mappings
        invariant Filtered(streamCode, subscribes, frames, ix, rest, dead, filter, alive)
        decreases |rest|
      {
        var id :| id in rest;
        FilteredMore(streamCode, subscribes, frames, ix, rest, dead, filter, alive, id);
        var sub := subscribes[id];
        rest := rest - {id};
        var data := filter(sub);
        if data.Some? {
          frames := frames + [FrameFor(streamCode, sub, data.value)];
          subscribes := subscribes[id := Bumped(sub)];
          if !alive(sub.connection) {
            dead := dead + {sub.connection};
          }
        }
      }
      FilteredEnds(streamCode, subscribes, frames, ix, dead, filter, alive);
      UnsubscribeAll(dead);
      ghost var targets := set id | id in ix.subscribes && filter(ix.subscribes[id]).Some?;
      AfterKeepsValid(ix, targets, alive);
      SameSets(mappings, After(ix, targets, alive).mappings);
      assert Contents() == After(ix, targets, alive);
    }

    method UnsubscribeAll(dead: set<nat>)
      modifies this
      ensures subscribes == old(subscribes) - dead
      ensures mappings.Keys == old(mappings).Keys
      ensures forall k :: k in mappings ==> mappings[k] == old(mappings)[k] - dead
    {
      var rest := dead;
      while rest != {}
        invariant rest <= dead
        invariant subscribes == old(subscribes) - (dead - rest)
        invariant mappings.Keys == old(mappings).Keys
        invariant forall k :: k in mappings ==> mappings[k] == old(mappings)[k] - (dead - rest)
        decreases |rest|
      {
        var id :| id in rest;
        rest := rest - {id};
        assert dead - rest == (dead - (rest + {id})) + {id};
        Unsubscribe(id);
      }
    }
  }

  lemma UnionGrows<Key>(mappings: map<Key, set<nat>>, keys: seq<Key>, i: nat)
    requires i < |keys|
    ensures Union(mappings, keys[..i + 1]) == Union(mappings, keys[..i]) + (if keys[i] in mappings then mappings[keys[i]] else {})
  {
    assert keys[..i + 1][..i] == keys[..i];
  }

  // Runs: every publication is an `After` of some targets, as the methods above say.
  datatype Op<!S, !Key> =
    | Subscribe(entrant: Subscriber<S>, keys: seq<Key>, change: Subscriber<S> -> Subscriber<S>)
    | Leave(id: nat)
    | LeaveWith(id: nat, remove: Subscriber<S> -> (Subscriber<S>, bool, seq<Key>))
    | Publish(targets: set<nat>, alive: nat -> bool)

  function Next<S, Key>(ix: Index<S, Key>, op: Op<S, Key>): Index<S, Key> {
    match op
    case Subscribe(entrant, keys, change) => Subscribed(ix, entrant, keys, change)
    case Leave(id) => Unsubscribed(ix, id)
    case LeaveWith(id, remove) => UnsubscribedWith(ix, id, remove)
    case Publish(targets, alive) => After(ix, targets, alive)
  }

  // A new subscriber starts at zero, and the closures leave ids and sequence numbers alone; one
  // that removes the subscriber lists all its keys.
  ghost predicate Proper<S, Key(!new)>(ix: Index<S, Key>, op: Op<S, Key>) {
    match op
    case Subscribe(entrant, _, change) =>
      && entrant.streamSeq == 0
      && (entrant.connection in ix.subscribes ==>
            var sub := ix.subscribes[entrant.connection];
            change(sub).connection == sub.connection && change(sub).streamSeq == sub.streamSeq)
    case Leave(_) => true
    case LeaveWith(id, remove) =>
      id in ix.subscribes ==>
        var (sub, gone, keys) := remove(ix.subscribes[id]);
        && sub.connection == id && sub.streamSeq == ix.subscribes[id].streamSeq
        && (gone ==> forall k :: k in ix.mappings && id in ix.mappings[k] ==> k in keys)
    case Publish(targets, _) => targets <= ix.subscribes.Keys
  }

  // The stream numbers each current subscription has been sent, in order.
  function Sent<S, Key>(ix: Index<S, Key>, history: map<nat, seq<nat>>, op: Op<S, Key>): map<nat, seq<nat>> {
    map id | id in Next(ix, op).subscribes ::
      if id !in ix.subscribes || id !in history then []
      else if op.Publish? && id in op.targets then history[id] + [ix.subscribes[id].streamSeq]
      else history[id]
  }

  ghost predicate Numbered<S, Key>(ix: Index<S, Key>, history: map<nat, seq<nat>>) {
    && history.Keys == ix.subscribes.Keys
    && (forall id :: id in history ==> ix.subscribes[id].streamSeq == |history[id]| % SEQ_SPAN)
    && (forall id, i :: id in history && 0 <= i < |history[id]| ==> history[id][i] == i % SEQ_SPAN)
  }

  lemma NextKeepsValid<S, Key(!new)>(ix: Index<S, Key>, op: Op<S, Key>)
    requires Valid(ix) && Proper(ix, op)
    ensures Valid(Next(ix, op))
  {
    match op
    case Subscribe(entrant, keys, change) => SubscribedKeepsValid(ix, entrant, keys, change);
    case Leave(id) => UnsubscribedKeepsValid(ix, id);
    case LeaveWith(id, remove) => if id in ix.subscribes { UnsubscribeWithKeepsIff(ix, id, remove); }
    case Publish(targets, alive) => AfterKeepsValid(ix, targets, alive);
  }

  lemma NextKeepsNumbers<S, Key(!new)>(ix: Index<S, Key>, history: map<nat, seq<nat>>, op: Op<S, Key>)
    requires Proper(ix, op) && Numbered(ix, history)
    ensures Numbered(Next(ix, op), Sent(ix, history, op))
  {
    var ix', history' := Next(ix, op), Sent(ix, history, op);
    assert history'.Keys == ix'.subscribes.Keys;
    forall id | id in history'
      ensures ix'.subscribes[id].streamSeq == |history'[id]| % SEQ_SPAN
      ensures forall i :: 0 <= i < |history'[id]| ==> history'[id][i] == i % SEQ_SPAN
    {
      if id in history {
        SeqWraps(|history[id]|);
      }
    }
  }

  lemma SeqWraps(n: nat)
    ensures (n % SEQ_SPAN + 1) % SEQ_SPAN == (n + 1) % SEQ_SPAN
  {
  }

  // Over every run: the index stays whole, and the frames of one subscription, whichever way they
  // were published, are numbered 0, 1, 2, ... modulo 2^32.
  lemma {:induction false} RunNumbers<S, Key(!new)>(run: seq<Index<S, Key>>, histories: seq<map<nat, seq<nat>>>, ops: seq<Op<S, Key>>, i: nat)
    requires |run| == |histories| == |ops| + 1 && i < |run|
    requires run[0] == Index(map[], map[]) && histories[0] == map[]
    requires forall j :: 0 <= j < |ops| ==>
      Proper(run[j], ops[j]) && run[j + 1] == Next(run[j], ops[j]) && histories[j + 1] == Sent(run[j], histories[j], ops[j])
    ensures Valid(run[i]) && Numbered(run[i], histories[i])
  {
    if i > 0 {
      RunNumbers(run, histories, ops, i - 1);
      NextKeepsValid(run[i - 1], ops[i - 1]);
      NextKeepsNumbers(run[i - 1], histories[i - 1], ops[i - 1]);
      hide Valid, Numbered, Next, Proper;
    }
  }
}
