/**
 Events, the filter one subscriber applies to them, the bounded drop-oldest queue of a
 subscriber and the bounded replay ring, on values.  `Broadcaster` implements these on
 objects; `StreamProtocol` runs them over whole connections.
 */
module Events {
  import opened Wrappers

  /** One broadcast event.  `data` stands for everything `to_dict` serialises besides the
      fields the broadcaster itself reads. */
  datatype Event = Event(
    eventType: string,
    data: string,
    component: Option<int>,
    sessionId: Option<string>,
    id: string)

  /** What one subscriber asked for; `None` means "any". */
  datatype Filter = Filter(
    types: Option<set<string>>,
    components: Option<set<int>>,
    sessionId: Option<string>)

  /** An empty collection asks for nothing in particular, so it is stored as `None`. */
  function NonEmpty<T>(s: Option<set<T>>): Option<set<T>> {
    if s.Some? && s.value != {} then s else None
  }

  predicate Matches(f: Filter, e: Event) {
    if f.types.Some? && e.eventType !in f.types.value then false
    else if f.components.Some? && (e.component.None? || e.component.value !in f.components.value) then false
    else if f.sessionId.Some? && e.sessionId.Some? && e.sessionId != f.sessionId then false
    else true
  }

  /** What passes: an event of a type that was asked for, about a component that was asked for, and
      of the session that was asked for or of none. */
  lemma MatchesMeans(f: Filter, e: Event)
    ensures Matches(f, e) <==>
              && (f.types == None || e.eventType in f.types.value)
              && (f.components == None || (e.component.Some? && e.component.value in f.components.value))
              && (f.sessionId == None || e.sessionId == None || e.sessionId == f.sessionId)
  {
  }

  /** The events of `es` that pass the filter, in order. */
  function Select(f: Filter, es: seq<Event>): (r: seq<Event>)
    ensures |r| <= |es|
  {
    if es == [] then []
    else (if Matches(f, es[0]) then [es[0]] else []) + Select(f, es[1..])
  }

  lemma {:induction false} SelectConcat(f: Filter, a: seq<Event>, b: seq<Event>)
    ensures Select(f, a + b) == Select(f, a) + Select(f, b)
  {
    if a == [] {
      assert a + b == b;
    } else {
      var head := if Matches(f, a[0]) then [a[0]] else [];
      calc {
        Select(f, a + b);
        { assert (a + b)[1..] == a[1..] + b; }
        head + Select(f, a[1..] + b);
        { SelectConcat(f, a[1..], b); }
        head + (Select(f, a[1..]) + Select(f, b));
        (head + Select(f, a[1..])) + Select(f, b);
      }
    }
  }

  lemma SelectAppend(f: Filter, es: seq<Event>, e: Event)
    ensures Select(f, es + [e]) == Select(f, es) + (if Matches(f, e) then [e] else [])
  {
    SelectConcat(f, es, [e]);
    assert [e][1..] == [];
  }

  lemma {:induction false} SelectMembers(f: Filter, es: seq<Event>)
    ensures forall e :: e in Select(f, es) <==> e in es && Matches(f, e)
  {
    if es != [] {
      SelectMembers(f, es[1..]);
      assert es == [es[0]] + es[1..];
    }
  }

  lemma {:induction false} SelectEmptyIff(f: Filter, es: seq<Event>)
    ensures |Select(f, es)| == 0 <==> forall i :: 0 <= i < |es| ==> !Matches(f, es[i])
  {
    if es != [] {
      SelectEmptyIff(f, es[1..]);
      assert forall i :: 0 < i < |es| ==> es[i] == es[1..][i - 1];
      assert forall i :: 0 <= i < |es| - 1 ==> es[1..][i] == es[i + 1];
    }
  }

  /** Event ids never repeat and are never empty (they are fresh 12-digit hex strings). */
  ghost predicate UniqueIds(h: seq<Event>) {
    && (forall i :: 0 <= i < |h| ==> h[i].id != "")
    && (forall i, j :: 0 <= i < j < |h| ==> h[i].id != h[j].id)
  }

  // ---------------------------------------------------------------------------
  // The replay ring
  // ---------------------------------------------------------------------------

  /** Appending to a `deque(maxlen=capacity)`. */
  function PushRing(ring: seq<Event>, capacity: nat, e: Event): seq<Event> {
    if |ring| < capacity then ring + [e]
    else if capacity == 0 then []
    else ring[1..] + [e]
  }

  /** The ring always holds the most recent `capacity` events of the whole history. */
  lemma RingHoldsMostRecent(h: seq<Event>, capacity: nat, e: Event)
    ensures PushRing(LastN(h, capacity), capacity, e) == LastN(h + [e], capacity)
  {
    if |h| >= capacity > 0 {
      assert LastN(h, capacity) == h[|h| - capacity..];
      assert (h + [e])[|h| + 1 - capacity..] == h[|h| - capacity..][1..] + [e];
    }
  }

  /** Index of the first event with this id, or `None`. */
  function IndexOfId(es: seq<Event>, id: string): (r: Option<nat>)
    ensures r.None? ==> forall i :: 0 <= i < |es| ==> es[i].id != id
    ensures r.Some? ==> r.value < |es| && es[r.value].id == id
                        && forall i :: 0 <= i < r.value ==> es[i].id != id
  {
    if es == [] then None
    else if es[0].id == id then Some(0)
    else
      var rest := IndexOfId(es[1..], id);
      if rest.None? then
        assert forall i :: 0 < i < |es| ==> es[i] == es[1..][i - 1];
        None
      else
        assert forall i :: 0 < i <= rest.value ==> es[i] == es[1..][i - 1];
        Some(rest.value + 1)
  }

  /** Every buffered event newer than `lastId`; the whole buffer when `lastId` is not in it. */
  function ReplayTail(ring: seq<Event>, lastId: string): seq<Event> {
    var at := IndexOfId(ring, lastId);
    if at.None? then ring else ring[at.value + 1..]
  }

  function ReplaySince(ring: seq<Event>, lastId: string, f: Option<Filter>): seq<Event> {
    var tail := ReplayTail(ring, lastId);
    if f.None? then tail else Select(f.value, tail)
  }

  /** Index in the history of the oldest event still in the ring. */
  function RingStart(h: seq<Event>, capacity: nat): (r: nat)
    ensures r <= |h|
  {
    if |h| <= capacity then 0 else |h| - capacity
  }

  /** What a reconnecting client is sent: everything after its cursor when the cursor is
      still buffered, otherwise everything that is still buffered. */
  lemma ReplayTailIs(h: seq<Event>, capacity: nat, p: nat)
    requires UniqueIds(h) && p < |h|
    ensures ReplayTail(LastN(h, capacity), h[p].id)
            == h[if p + 1 < RingStart(h, capacity) then RingStart(h, capacity) else p + 1..]
  {
    var ring, start := LastN(h, capacity), RingStart(h, capacity);
    assert ring == h[start..];
    if p >= start {
      assert ring[p - start] == h[p];
      assert IndexOfId(ring, h[p].id) == Some(p - start);
      assert ring[p - start + 1..] == h[p + 1..];
    } else {
      assert forall i :: 0 <= i < |ring| ==> ring[i] == h[start + i];
      assert IndexOfId(ring, h[p].id).None?;
    }
  }

  /** A replay misses nothing exactly when no matching event after the cursor has left the ring. */
  lemma ReplayCompleteIff(h: seq<Event>, capacity: nat, p: nat, f: Filter)
    requires UniqueIds(h) && p < |h|
    ensures ReplaySince(LastN(h, capacity), h[p].id, Some(f)) == Select(f, h[p + 1..])
            <==> forall i :: p < i < RingStart(h, capacity) ==> !Matches(f, h[i])
  {
    hide Select, Matches, LastN;
    ReplayTailIs(h, capacity, p);
    var start := RingStart(h, capacity);
    if p + 1 < start {
      var gone, rest := h[p + 1..start], Select(f, h[start..]);
      assert h[p + 1..] == gone + h[start..];
      SelectConcat(f, gone, h[start..]);
      assert Select(f, gone) + rest == rest <==> |Select(f, gone)| == 0;
      SelectEmptyIff(f, gone);
      assert forall i :: p < i < start ==> h[i] == gone[i - p - 1];
    }
  }

  // ---------------------------------------------------------------------------
  // One subscriber's queue
  // ---------------------------------------------------------------------------

  /** A registered subscriber.  `taken` and `lost` are history variables: the events handed
      to the stream handler and the events dropped on overflow, each in order. */
  datatype Sub = Sub(
    filter: Filter,
    capacity: int,
    born: nat,
    queue: seq<Event>,
    dropped: nat,
    taken: seq<Event>,
    lost: seq<Event>)

  function NewSub(f: Filter, capacity: int, born: nat): Sub {
    Sub(f, capacity, born, [], 0, [], [])
  }

  /** A queue with a capacity of zero or less is unbounded. */
  predicate Full(s: Sub) {
    0 < s.capacity <= |s.queue|
  }

  /** Enqueue, dropping the oldest queued event when the queue is full. */
  function Enqueue(s: Sub, e: Event): Sub {
    if !Full(s) then s.(queue := s.queue + [e])
    else s.(queue := s.queue[1..] + [e], dropped := s.dropped + 1, lost := s.lost + [s.queue[0]])
  }

  function Offer(s: Sub, e: Event): Sub {
    if Matches(s.filter, e) then Enqueue(s, e) else s
  }

  function Take(s: Sub): Sub
    requires s.queue != []
  {
    s.(queue := s.queue[1..], taken := s.taken + [s.queue[0]])
  }

  /** `xs` is an order-preserving merge of `a` and `b`. */
  ghost predicate Merge<T(!new)>(xs: seq<T>, a: seq<T>, b: seq<T>)
    decreases |xs|
  {
    if xs == [] then a == [] && b == []
    else
      var n := |xs| - 1;
      || (a != [] && a[|a| - 1] == xs[n] && Merge(xs[..n], a[..|a| - 1], b))
      || (b != [] && b[|b| - 1] == xs[n] && Merge(xs[..n], a, b[..|b| - 1]))
  }

  lemma MergeOne<T(!new)>(xs: seq<T>, a: seq<T>, b: seq<T>, x: T)
    requires Merge(xs, a, b)
    ensures Merge(xs + [x], a + [x], b)
    ensures Merge(xs + [x], a, b + [x])
  {
    assert (xs + [x])[..|xs|] == xs && (a + [x])[..|a|] == a && (b + [x])[..|b|] == b;
  }

  lemma {:induction false} MergeFacts<T(!new)>(xs: seq<T>, a: seq<T>, b: seq<T>)
    requires Merge(xs, a, b)
    ensures |xs| == |a| + |b|
    ensures forall x :: x in xs <==> x in a || x in b
    ensures b == [] ==> xs == a
    decreases |xs|
  {
    if xs != [] {
      var n := |xs| - 1;
      assert xs == xs[..n] + [xs[n]];
      if a != [] && a[|a| - 1] == xs[n] && Merge(xs[..n], a[..|a| - 1], b) {
        MergeFacts(xs[..n], a[..|a| - 1], b);
        assert a == a[..|a| - 1] + [xs[n]];
      } else {
        MergeFacts(xs[..n], a, b[..|b| - 1]);
        assert b == b[..|b| - 1] + [xs[n]];
      }
    }
  }

  /** `at` are strictly increasing positions of `xs` at which `a` is found. */
  ghost predicate PositionsOf<T>(xs: seq<T>, a: seq<T>, at: seq<nat>) {
    && |at| == |a|
    && (forall i :: 0 <= i < |at| ==> at[i] < |xs| && xs[at[i]] == a[i])
    && (forall i, j :: 0 <= i < j < |at| ==> at[i] < at[j])
  }

  /** Each side of a merge is an in-order subsequence that uses no position twice. */
  lemma {:induction false} MergeIsSubsequence<T(!new)>(xs: seq<T>, a: seq<T>, b: seq<T>) returns (at: seq<nat>)
    requires Merge(xs, a, b)
    ensures PositionsOf(xs, a, at)
    decreases |xs|
  {
    if xs == [] {
      at := [];
    } else {
      var n := |xs| - 1;
      if a != [] && a[|a| - 1] == xs[n] && Merge(xs[..n], a[..|a| - 1], b) {
        var rest := MergeIsSubsequence(xs[..n], a[..|a| - 1], b);
        at := rest + [n];
      } else {
        at := MergeIsSubsequence(xs[..n], a, b[..|b| - 1]);
      }
    }
  }

  /** The matching events published since the subscriber registered. */
  ghost function Matched(h: seq<Event>, s: Sub): seq<Event>
    requires s.born <= |h|
  {
    Select(s.filter, h[s.born..])
  }

  /** Conservation: the matching events are those handed out merged with those dropped,
      followed by those queued. */
  ghost predicate Accounted(h: seq<Event>, s: Sub) {
    && s.born <= |h|
    && s.dropped == |s.lost|
    && (s.capacity > 0 ==> |s.queue| <= s.capacity)
    && var m := Matched(h, s);
    && |s.queue| <= |m|
    && s.queue == m[|m| - |s.queue|..]
    && Merge(m[..|m| - |s.queue|], s.taken, s.lost)
  }

  lemma NewSubAccounted(h: seq<Event>, f: Filter, capacity: int)
    ensures Accounted(h, NewSub(f, capacity, |h|))
  {
    assert h[|h|..] == [];
  }

  lemma AccountedBySplit(h: seq<Event>, s: Sub, gone: seq<Event>)
    requires s.born <= |h| && s.dropped == |s.lost|
    requires s.capacity > 0 ==> |s.queue| <= s.capacity
    requires Matched(h, s) == gone + s.queue && Merge(gone, s.taken, s.lost)
    ensures Accounted(h, s)
  {
    var m := Matched(h, s);
    assert m[..|m| - |s.queue|] == gone;
    assert m[|m| - |s.queue|..] == s.queue;
  }

  /** What has left the queue, one way or the other. */
  ghost function Gone(h: seq<Event>, s: Sub): (gone: seq<Event>)
    requires Accounted(h, s)
    ensures Matched(h, s) == gone + s.queue
    ensures Merge(gone, s.taken, s.lost)
  {
    var m := Matched(h, s);
    var n := |m| - |s.queue|;
    assert m == m[..n] + m[n..];
    m[..n]
  }

  lemma MatchedAppend(h: seq<Event>, s: Sub, e: Event)
    requires s.born <= |h|
    ensures Matched(h + [e], s) == Matched(h, s) + (if Matches(s.filter, e) then [e] else [])
  {
    assert (h + [e])[s.born..] == h[s.born..] + [e];
    SelectAppend(s.filter, h[s.born..], e);
  }

  /** Conservation survives every publish. */
  lemma OfferAccounted(h: seq<Event>, s: Sub, e: Event)
    requires Accounted(h, s)
    ensures Accounted(h + [e], Offer(s, e))
  {
    hide Merge, Select, Matches;
    var gone, s' := Gone(h, s), Offer(s, e);
    MatchedAppend(h, s, e);
    if Matches(s.filter, e) && Full(s) {
      MergeOne(gone, s.taken, s.lost, s.queue[0]);
      assert Matched(h + [e], s') == (gone + [s.queue[0]]) + s'.queue;
      AccountedBySplit(h + [e], s', gone + [s.queue[0]]);
    } else {
      assert Matched(h + [e], s') == gone + s'.queue;
      AccountedBySplit(h + [e], s', gone);
    }
  }

  /** What offering `e` does to a subscriber: nothing, or one more event in its queue. */
  ghost predicate Took(was: Sub, now: Sub, e: Event) {
    && (now != was <==> Matches(was.filter, e))
    && (now != was <==>
          && (was.filter.types == None || e.eventType in was.filter.types.value)
          && (was.filter.components == None || (e.component.Some? && e.component.value in was.filter.components.value))
          && (was.filter.sessionId == None || e.sessionId == None || e.sessionId == was.filter.sessionId))
    && (now != was ==>
          now.queue == if was.capacity > 0 then LastN(was.queue + [e], was.capacity) else was.queue + [e])
  }

  lemma OfferMeans(h: seq<Event>, s: Sub, e: Event)
    requires Accounted(h, s)
    ensures Took(s, Offer(s, e), e)
  {
    hide Merge, Select, Matches;
    MatchesMeans(s.filter, e);
  }

  /** Conservation survives every hand-out. */
  lemma TakeAccounted(h: seq<Event>, s: Sub)
    requires Accounted(h, s) && s.queue != []
    ensures Accounted(h, Take(s))
  {
    hide Merge, Select;
    var gone, s' := Gone(h, s), Take(s);
    MergeOne(gone, s.taken, s.lost, s.queue[0]);
    assert Matched(h, s') == (gone + [s.queue[0]]) + s'.queue;
    AccountedBySplit(h, s', gone + [s.queue[0]]);
  }

  /** What the accounting means for one subscriber: the counters add up, and what was handed
      out is an in-order, repeat-free selection of the matching events. */
  lemma QueueConservation(h: seq<Event>, s: Sub) returns (at: seq<nat>)
    requires Accounted(h, s)
    ensures |Matched(h, s)| == |s.taken| + |s.queue| + s.dropped
    ensures PositionsOf(Matched(h, s), s.taken, at)
    ensures forall i :: 0 <= i < |at| ==> at[i] < |Matched(h, s)| - |s.queue|
    ensures s.dropped == 0 ==> Matched(h, s) == s.taken + s.queue
  {
    var gone := Gone(h, s);
    MergeFacts(gone, s.taken, s.lost);
    at := MergeIsSubsequence(gone, s.taken, s.lost);
  }
}
