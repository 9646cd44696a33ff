/**
 The in-process event fan-out: one bounded queue per subscriber, a bounded replay ring, and
 caps on the number of subscribers.
 */
module Broadcaster {
  import opened Wrappers
  import opened Events

  datatype Scope = Global | PerIp

  /** One connected client.  `taken`, `lost` and `born` only record what happened. */
  class Subscriber {
    const filter: Filter
    const capacity: int
    const remoteIp: Option<string>
    var queue: seq<Event>
    var dropped: nat
    ghost const born: nat
    ghost var taken: seq<Event>
    ghost var lost: seq<Event>

    ghost function View(): Sub
      reads this
    {
      Sub(filter, capacity, born, queue, dropped, taken, lost)
    }

    constructor (maxQueue: int, components: Option<set<int>>, sessionId: Option<string>,
                 types: Option<set<string>>, remoteIp: Option<string>, ghost born: nat)
      ensures View() == NewSub(Filter(NonEmpty(types), NonEmpty(components), sessionId), maxQueue, born)
      ensures this.remoteIp == remoteIp
      ensures filter.types == if types.Some? && types.value != {} then types else None
      ensures filter.components == if components.Some? && components.value != {} then components else None
      ensures filter.sessionId == sessionId && capacity == maxQueue
      ensures queue == [] && dropped == 0
    {
      this.filter := Filter(NonEmpty(types), NonEmpty(components), sessionId);
      this.capacity := maxQueue;
      this.remoteIp := remoteIp;
      this.queue, this.dropped := [], 0;
      this.born, this.taken, this.lost := born, [], [];
    }

    /** Non-blocking enqueue; drops the oldest event on overflow. */
    method TryEnqueue(e: Event)
      modifies this
      ensures View() == Enqueue(old(View()), e)
    {
      if 0 < capacity <= |queue| {
        lost := lost + [queue[0]];
        queue := queue[1..];
        queue := queue + [e];
        dropped := dropped + 1;
      } else {
        queue := queue + [e];
      }
    }

    /** The next queued event, or `None` (a keep-alive tick) when none arrived in time. */
    method Next() returns (e: Option<Event>)
      modifies this
      ensures e.None? <==> old(queue) == []
      ensures e.None? ==> View() == old(View())
      ensures e.Some? ==> e.value == old(queue)[0] && View() == Take(old(View()))
    {
      if queue == [] {
        return None;
      }
      e := Some(queue[0]);
      taken := taken + [queue[0]];
      queue := queue[1..];
    }
  }

  /** How many of `subs` connected from `ip`. */
  function CountFrom(subs: seq<Subscriber>, ip: string): (n: nat)
    ensures n <= |subs|
  {
    if subs == [] then 0
    else CountFrom(subs[..|subs| - 1], ip) + (if subs[|subs| - 1].remoteIp == Some(ip) then 1 else 0)
  }

  /** The count is that of the positions that hold a subscriber from `ip`. */
  lemma {:induction false} CountFromIs(subs: seq<Subscriber>, ip: string)
    ensures CountFrom(subs, ip) == |set i | 0 <= i < |subs| && subs[i].remoteIp == Some(ip)|
  {
    var at := set i | 0 <= i < |subs| && subs[i].remoteIp == Some(ip);
    if subs != [] {
      var n := |subs| - 1;
      CountFromIs(subs[..n], ip);
      assert CountFrom(subs, ip) == CountFrom(subs[..n], ip) + (if subs[n].remoteIp == Some(ip) then 1 else 0);
      hide CountFrom;
      var before := set i | 0 <= i < n && subs[..n][i].remoteIp == Some(ip);
      assert at == before + (if subs[n].remoteIp == Some(ip) then {n} else {});
    }
  }

  lemma {:induction false} CountFromConcat(a: seq<Subscriber>, b: seq<Subscriber>, ip: string)
    ensures CountFrom(a + b, ip) == CountFrom(a, ip) + CountFrom(b, ip)
  {
    if b == [] {
      assert a + b == a;
    } else {
      assert (a + b)[..|a + b| - 1] == a + b[..|b| - 1];
      CountFromConcat(a, b[..|b| - 1], ip);
    }
  }

  lemma CountFromAppend(subs: seq<Subscriber>, sub: Subscriber, ip: string)
    ensures CountFrom(subs + [sub], ip) == CountFrom(subs, ip) + (if sub.remoteIp == Some(ip) then 1 else 0)
  {
    assert (subs + [sub])[..|subs|] == subs;
  }

  /** How many of `subs` want `e`. */
  function CountMatching(subs: seq<Subscriber>, e: Event): nat {
    if subs == [] then 0
    else CountMatching(subs[..|subs| - 1], e) + (if Matches(subs[|subs| - 1].filter, e) then 1 else 0)
  }

  lemma {:induction false} CountMatchingIs(subs: seq<Subscriber>, e: Event)
    ensures CountMatching(subs, e) == |set i | 0 <= i < |subs| && Matches(subs[i].filter, e)|
  {
    hide Matches;
    var at := set i | 0 <= i < |subs| && Matches(subs[i].filter, e);
    if subs != [] {
      var n := |subs| - 1;
      var before := set i | 0 <= i < n && Matches(subs[..n][i].filter, e);
      CountMatchingIs(subs[..n], e);
      assert at == before + (if Matches(subs[n].filter, e) then {n} else {});
    }
  }

  class EventBroadcaster {
    const maxQueue: int
    const maxSubscribers: int
    const maxPerIp: int
    const replayCapacity: nat
    var subs: seq<Subscriber>
    var replay: seq<Event>
    var published: nat
    /** Every event ever published, in order. */
    ghost var history: seq<Event>

    /** Holds in every state the methods below can reach. */
    ghost predicate Valid()
      reads this, subs
    {
      && published == |history|
      && replay == LastN(history, replayCapacity)
      && (forall i, j :: 0 <= i < j < |subs| ==> subs[i] != subs[j])
      && (forall s :: s in subs ==> Accounted(history, s.View()))
      && (|subs| <= maxSubscribers || subs == [])
      && (forall ip :: CountFrom(subs, ip) <= maxPerIp || CountFrom(subs, ip) == 0)
    }

    constructor (maxQueue: int, maxSubscribers: int, maxPerIp: int, replayCapacity: nat)
      ensures Valid() && subs == [] && history == []
      ensures this.maxQueue == maxQueue
      ensures this.maxSubscribers == maxSubscribers
      ensures this.maxPerIp == maxPerIp
      ensures this.replayCapacity == replayCapacity
    {
      this.maxQueue, this.maxSubscribers, this.maxPerIp := maxQueue, maxSubscribers, maxPerIp;
      this.replayCapacity := replayCapacity;
      this.subs, this.replay, this.published, this.history := [], [], 0, [];
    }

    /** Admit a subscriber unless the global cap, then the per-address cap, refuses it. */
    method Register(components: Option<set<int>>, sessionId: Option<string>,
                    types: Option<set<string>>, remoteIp: Option<string>)
      returns (r: Result<Subscriber, Scope>)
      requires Valid()
      modifies this`subs
      ensures Valid()
      ensures r == Err(Global) <==> |old(subs)| >= maxSubscribers
      ensures r == Err(PerIp) <==> |old(subs)| < maxSubscribers && remoteIp.Some?
                                   && |set i | 0 <= i < |old(subs)| && old(subs)[i].remoteIp == remoteIp| >= maxPerIp
      ensures r.Err? ==> subs == old(subs)
      ensures r.Ok? ==> fresh(r.value) && subs == old(subs) + [r.value] && r.value.remoteIp == remoteIp
                        && r.value.View() == NewSub(Filter(NonEmpty(types), NonEmpty(components), sessionId),
                                                    maxQueue, |history|)
    {
      hide Accounted, CountFrom, LastN;
      var sub := new Subscriber(maxQueue, components, sessionId, types, remoteIp, |history|);
      if |subs| >= maxSubscribers {
        return Err(Global);
      }
      if remoteIp.Some? {
        var sameIp := CountFrom(subs, remoteIp.value);
        CountFromIs(subs, remoteIp.value);
        if sameIp >= maxPerIp {
          return Err(PerIp);
        }
      }
      NewSubAccounted(history, sub.filter, maxQueue);
      forall ip ensures CountFrom(subs + [sub], ip) <= maxPerIp || CountFrom(subs + [sub], ip) == 0 {
        CountFromAppend(subs, sub, ip);
      }
      subs := subs + [sub];
      r := Ok(sub);
    }

    /** Forget a subscriber; one that is not registered is ignored. */
    method Unregister(sub: Subscriber)
      requires Valid()
      modifies this`subs
      ensures Valid() && sub !in subs
      ensures sub !in old(subs) ==> subs == old(subs)
      ensures sub in old(subs) ==>
                exists i :: 0 <= i < |old(subs)| && old(subs)[i] == sub && subs == old(subs)[..i] + old(subs)[i + 1..]
    {
      hide Accounted;
      var i := 0;
      while i < |subs|
        invariant 0 <= i <= |subs| && subs == old(subs) && Valid()
        invariant sub !in subs[..i]
      {
        if subs[i] == sub {
          var rest := subs[..i] + subs[i + 1..];
          forall ip ensures CountFrom(rest, ip) <= maxPerIp || CountFrom(rest, ip) == 0 {
            assert subs == subs[..i] + ([subs[i]] + subs[i + 1..]);
            CountFromConcat(subs[..i], [subs[i]] + subs[i + 1..], ip);
            CountFromConcat([subs[i]], subs[i + 1..], ip);
            CountFromConcat(subs[..i], subs[i + 1..], ip);
          }
          subs := rest;
          assert forall j :: 0 <= j < |subs| ==> subs[j] == old(subs)[if j < i then j else j + 1];
          return;
        }
        i := i + 1;
      }
    }

    /** Hand `e` to every matching subscriber. */
    method FanOut(e: Event) returns (delivered: nat)
      requires forall i, j :: 0 <= i < j < |subs| ==> subs[i] != subs[j]
      modifies subs
      ensures forall s :: s in subs ==> s.View() == Offer(old(s.View()), e)
      ensures delivered == |set i | 0 <= i < |subs| && Matches(subs[i].filter, e)|
    {
      hide Matches, Enqueue;
      delivered := 0;
      var k := 0;
      while k < |subs|
        invariant 0 <= k <= |subs|
        invariant delivered == CountMatching(subs[..k], e)
        invariant forall i :: 0 <= i < k ==> subs[i].View() == Offer(old(subs[i].View()), e)
        invariant forall i :: k <= i < |subs| ==> unchanged(subs[i])
      {
        assert subs[..k + 1][..k] == subs[..k];
        if Matches(subs[k].filter, e) {
          subs[k].TryEnqueue(e);
          delivered := delivered + 1;
        }
        k := k + 1;
      }
      assert subs[..k] == subs;
      CountMatchingIs(subs, e);
    }

    /** Record `e` in the ring and hand it to every subscriber that asked for it: one whose types hold
        its type, whose components hold its component, and whose session is its own or which it does
        not name.  `delivered` counts those; each keeps the newest events its queue can hold, and no
        other subscriber changes. */
    method Publish(e: Event) returns (delivered: nat)
      requires Valid()
      modifies this`replay, this`published, this`history, subs
      ensures Valid() && history == old(history) + [e]
      ensures replay == LastN(history, replayCapacity)
      ensures forall s :: s in subs ==> s.View() == Offer(old(s.View()), e)
      ensures forall s :: s in subs ==>
                (s.View() != old(s.View()) <==>
                  && (s.filter.types == None || e.eventType in s.filter.types.value)
                  && (s.filter.components == None
                      || (e.component.Some? && e.component.value in s.filter.components.value))
                  && (s.filter.sessionId == None || e.sessionId == None || e.sessionId == s.filter.sessionId))
      ensures forall s :: s in subs && s.View() != old(s.View()) ==>
                s.queue == if s.capacity > 0 then LastN(old(s.queue) + [e], s.capacity) else old(s.queue) + [e]
      ensures delivered == |set i | 0 <= i < |subs| && subs[i].View() != old(subs[i].View())|
    {
      hide Accounted, Offer, PushRing, LastN, CountFrom, Enqueue, Matches;
      published := published + 1;
      RingHoldsMostRecent(history, replayCapacity, e);
      replay := PushRing(replay, replayCapacity, e);
      delivered := FanOut(e);
      assert forall s :: s in subs ==> s.View().filter == old(s.View()).filter;
      forall s | s in subs ensures Accounted(history + [e], s.View()) {
        OfferAccounted(history, old(s.View()), e);
      }
      history := history + [e];
      forall s: Subscriber | s in subs ensures Took(old(s.View()), s.View(), e) {
        OfferMeans(old(history), old(s.View()), e);
      }
      assert (set i | 0 <= i < |subs| && Matches(subs[i].filter, e))
          == (set i | 0 <= i < |subs| && subs[i].View() != old(subs[i].View()));
    }

    /** Every buffered event newer than `lastId` that `matcher`, when given, wants. */
    method Replay(lastId: string, matcher: Option<Filter>) returns (tail: seq<Event>)
      requires Valid()
      ensures tail == ReplaySince(LastN(history, replayCapacity), lastId, matcher)
    {
      hide Accounted, CountFrom, Select;
      var start: Option<nat> := None;
      var idx := 0;
      while idx < |replay|
        invariant 0 <= idx <= |replay| && start.None?
        invariant forall i :: 0 <= i < idx ==> replay[i].id != lastId
      {
        if replay[idx].id == lastId {
          start := Some(idx + 1);
          break;
        }
        idx := idx + 1;
      }
      assert start == if IndexOfId(replay, lastId).None? then None else Some(IndexOfId(replay, lastId).value + 1);
      hide IndexOfId, LastN;
      tail := if start.None? then replay else replay[start.value..];
      if matcher.Some? {
        tail := Select(matcher.value, tail);
      }
    }

    /** The next event of a registered subscriber's stream. */
    method NextFor(sub: Subscriber) returns (e: Option<Event>)
      requires Valid() && sub in subs
      modifies sub
      ensures Valid()
      ensures e.None? <==> old(sub.queue) == []
      ensures e.Some? ==> e.value == old(sub.queue)[0] && sub.View() == Take(old(sub.View()))
      ensures e.None? ==> sub.View() == old(sub.View())
    {
      hide Accounted, Take, LastN, CountFrom;
      if sub.queue != [] {
        TakeAccounted(history, sub.View());
      }
      e := sub.Next();
    }
  }
}
