/**
 What is on its way to a client of the event stream is complete and in order.

 A client that has just received an event reports its id when it comes back, so an event is safe only
 while everything that precedes it is received, counted as dropped, or further ahead in the pipe of
 frames on the wire, events still to be replayed and events queued.  Here that is an invariant, and
 every step of the protocol is shown to keep it as long as replays start from resumable cursors.
 */
module StreamOrder {
  import opened Wrappers
  import opened Events
  import opened StreamProtocol

  /** The presented cursor still allows a full replay: no matching event after it has left the
      ring.  A client with no cursor must not have missed a matching event. */
  ghost predicate Resumable(c: Config, s: State) {
    && s.link.Opening? && s.start.Some?
    && if s.link.cursor == "" then
      forall i :: s.start.value <= i < s.link.sub.born && i < |s.history| ==> !Matches(c.filter, s.history[i])
    else
      var at := IndexOfId(s.history, s.link.cursor);
      && at.Some?
      && forall i :: at.value < i < RingStart(s.history, c.ringCapacity) ==> !Matches(c.filter, s.history[i])
  }

  function WireEvents(wire: seq<Frame>): seq<Event> {
    if wire == [] then []
    else (if wire[0].Carry? then [wire[0].event] else []) + WireEvents(wire[1..])
  }

  lemma {:induction false} WireAppend(wire: seq<Frame>, f: Frame)
    ensures WireEvents(wire + [f]) == WireEvents(wire) + (if f.Carry? then [f.event] else [])
  {
    if wire == [] {
      assert [f][1..] == [];
    } else {
      var head := if wire[0].Carry? then [wire[0].event] else [];
      assert (wire + [f])[1..] == wire[1..] + [f];
      WireAppend(wire[1..], f);
      assert head + (WireEvents(wire[1..]) + (if f.Carry? then [f.event] else []))
          == (head + WireEvents(wire[1..])) + (if f.Carry? then [f.event] else []);
    }
  }

  /** Everything on its way to the client, in the order it will arrive. */
  function Pipe(s: State): seq<Event>
    requires s.link.Streaming?
  {
    WireEvents(s.wire) + s.link.pending + s.link.sub.queue
  }

  function LostSoFar(s: State): seq<Event> {
    if s.link.Offline? then s.lost else s.lost + s.link.sub.lost
  }

  function DroppedSoFar(s: State): nat {
    if s.link.Offline? then s.dropped else s.dropped + s.link.sub.dropped
  }

  /** Received at least once, or counted as dropped. */
  predicate SettledIn(s: State, e: Event) {
    e in s.received || e in LostSoFar(s)
  }

  function Settled(s: State): set<Event> {
    (set e | e in s.received) + (set e | e in LostSoFar(s))
  }

  /** Position just after the event a cursor names. */
  function Floor(h: seq<Event>, start: nat, id: string): nat {
    var at := IndexOfId(h, id);
    if at.None? then start else at.value + 1
  }

  ghost predicate CoveredUpTo(h: seq<Event>, f: Filter, start: nat, base: set<Event>, n: nat) {
    forall i :: start <= i < n && i < |h| && Matches(f, h[i]) ==> h[i] in base
  }

  /** Whatever is on its way, everything that precedes it is settled or ahead of it. */
  ghost predicate InOrder(h: seq<Event>, f: Filter, start: nat, base: set<Event>, pipe: seq<Event>) {
    && (forall k :: 0 <= k < |pipe| ==> pipe[k] in h)
    && (forall k, j, i :: 0 <= k < |pipe| && start <= i < j < |h| && pipe[k] == h[j] && Matches(f, h[i])
          ==> h[i] in base || h[i] in pipe[..k])
  }

  ghost predicate Complete(h: seq<Event>, f: Filter, start: nat, base: set<Event>, pipe: seq<Event>) {
    forall i :: start <= i < |h| && Matches(f, h[i]) ==> h[i] in base || h[i] in pipe
  }

  lemma WithoutOne(pipe: seq<Event>, k: nat, m: nat, x: Event)
    requires k < |pipe| && m < |pipe| - 1
    ensures var pipe', m0 := pipe[..k] + pipe[k + 1..], if m < k then m else m + 1;
            pipe'[m] == pipe[m0] && (x in pipe[..m0] ==> x == pipe[k] || x in pipe'[..m])
  {
    var pipe', m0 := pipe[..k] + pipe[k + 1..], if m < k then m else m + 1;
    if x in pipe[..m0] && x != pipe[k] {
      var y :| 0 <= y < m0 && pipe[y] == x;
      assert pipe'[..m][if y < k then y else y - 1] == x;
    }
  }

  /** Settling the `k`-th event on its way keeps the rest in order. */
  lemma SettleOne(h: seq<Event>, f: Filter, start: nat, base: set<Event>, pipe: seq<Event>, k: nat)
    requires InOrder(h, f, start, base, pipe) && Complete(h, f, start, base, pipe) && k < |pipe|
    ensures InOrder(h, f, start, base + {pipe[k]}, pipe[..k] + pipe[k + 1..])
    ensures Complete(h, f, start, base + {pipe[k]}, pipe[..k] + pipe[k + 1..])
  {
    hide Matches;
    var base', pipe' := base + {pipe[k]}, pipe[..k] + pipe[k + 1..];
    assert forall x :: x in pipe ==> x == pipe[k] || x in pipe';
    assert forall x :: x in pipe' ==> x in pipe;
    forall m, j, i | 0 <= m < |pipe'| && start <= i < j < |h| && pipe'[m] == h[j] && Matches(f, h[i])
      ensures h[i] in base' || h[i] in pipe'[..m]
    {
      WithoutOne(pipe, k, m, h[i]);
    }
  }

  /** A newly published matching event joins at the end. */
  lemma JoinOne(h: seq<Event>, f: Filter, start: nat, base: set<Event>, pipe: seq<Event>, e: Event)
    requires UniqueIds(h + [e])
    requires InOrder(h, f, start, base, pipe) && Complete(h, f, start, base, pipe)
    ensures var pipe' := pipe + (if Matches(f, e) then [e] else []);
            InOrder(h + [e], f, start, base, pipe') && Complete(h + [e], f, start, base, pipe')
  {
    hide Matches;
    var h', pipe' := h + [e], pipe + (if Matches(f, e) then [e] else []);
    assert forall i :: 0 <= i < |h| ==> h'[i] == h[i] && h[i] in h';
    assert h'[|h|] == e;
    forall k, j, i | 0 <= k < |pipe'| && start <= i < j < |h'| && pipe'[k] == h'[j] && Matches(f, h'[i])
      ensures h'[i] in base || h'[i] in pipe'[..k]
    {
      assert h'[i] == h[i];
      if k < |pipe| {
        var j0 :| 0 <= j0 < |h| && pipe[k] == h[j0];
        assert h'[j0].id == h'[j].id;
        assert j == j0 && pipe'[..k] == pipe[..k];
      } else {
        assert pipe'[..k] == pipe;
      }
    }
  }

  lemma SelectOrder(f: Filter, es: seq<Event>, k: nat, i: nat, j: nat)
    requires UniqueIds(es) && k < |Select(f, es)| && i < j < |es| && Select(f, es)[k] == es[j] && Matches(f, es[i])
    ensures es[i] in Select(f, es)[..k]
  {
    hide Matches;
    var front, back := es[..j], es[j..];
    assert es == front + back;
    SelectConcat(f, front, back);
    SelectMembers(f, front);
    assert front[i] == es[i];
    assert es[j] !in front by {
      assert forall x :: 0 <= x < j ==> front[x] == es[x] && es[x].id != es[j].id;
    }
    assert forall x :: 0 <= x < |Select(f, front)| ==> Select(f, es)[x] == Select(f, front)[x];
    assert forall x :: 0 <= x < |Select(f, front)| ==> Select(f, front)[x] in Select(f, front);
    assert Select(f, es)[..|Select(f, front)|] == Select(f, front);
    assert Select(f, front) <= Select(f, es)[..k];
  }

  lemma UniqueSlice(h: seq<Event>, a: nat, b: nat)
    requires UniqueIds(h) && a <= b <= |h|
    ensures UniqueIds(h[a..b])
  {
  }

  /** Selecting from a slice of the history: members and order. */
  lemma SliceOrder(f: Filter, h: seq<Event>, a: nat, m: seq<Event>)
    requires UniqueIds(h) && a <= |h| && m == Select(f, h[a..])
    ensures forall k :: 0 <= k < |m| ==> m[k] in h
    ensures forall i :: a <= i < |h| && Matches(f, h[i]) ==> h[i] in m
    ensures forall k, j, i :: 0 <= k < |m| && a <= i < j < |h| && m[k] == h[j] && Matches(f, h[i]) ==> h[i] in m[..k]
  {
    hide Select, Matches, UniqueIds;
    var es := h[a..];
    UniqueSlice(h, a, |h|);
    assert h[a..|h|] == es;
    SelectMembers(f, es);
    assert forall e :: e in es ==> e in h;
    assert forall k :: 0 <= k < |m| ==> m[k] in m;
    forall i | a <= i < |h| && Matches(f, h[i]) ensures h[i] in m {
      assert es[i - a] == h[i];
    }
    forall k, j, i | 0 <= k < |m| && a <= i < j < |h| && m[k] == h[j] && Matches(f, h[i]) ensures h[i] in m[..k] {
      assert es[i - a] == h[i] && es[j - a] == h[j];
      SelectOrder(f, es, k, i - a, j - a);
    }
  }

  ghost predicate KnownId(h: seq<Event>, id: string) {
    id == "" || IndexOfId(h, id).Some?
  }

  /** What every step keeps. */
  ghost predicate Inv(c: Config, s: State) {
    && UniqueIds(s.history)
    && s.dropped == |s.lost|
    && KnownId(s.history, s.lastId)
    && KnownId(s.history, s.buffer)
    && (s.start.None? ==> s.link.Offline? && s.lastId == "")
    && (s.start.Some? ==>
          && s.start.value <= |s.history|
          && CoveredUpTo(s.history, c.filter, s.start.value, Settled(s), Floor(s.history, s.start.value, s.lastId))
          && CoveredUpTo(s.history, c.filter, s.start.value, Settled(s), Floor(s.history, s.start.value, s.buffer)))
    && LinkInv(c, s)
  }

  ghost predicate LinkInv(c: Config, s: State) {
    if s.link.Offline? then s.wire == []
    else
      && s.start.Some? && s.start.value <= s.link.sub.born
      && s.link.sub.filter == c.filter
      && Accounted(s.history, s.link.sub)
      && (s.link.Opening? ==> s.wire == [] && s.link.cursor == s.lastId && s.link.sub.taken == [])
      && (s.link.Streaming? ==>
            && InOrder(s.history, c.filter, s.start.value, Settled(s), Pipe(s))
            && Complete(s.history, c.filter, s.start.value, Settled(s), Pipe(s)))
  }

  lemma IndexOfIdAppend(h: seq<Event>, e: Event, id: string)
    requires KnownId(h, id) && UniqueIds(h + [e])
    ensures IndexOfId(h + [e], id) == IndexOfId(h, id)
  {
    var at, at' := IndexOfId(h, id), IndexOfId(h + [e], id);
    assert forall i :: 0 <= i < |h| ==> (h + [e])[i] == h[i];
  }

  lemma UniqueAppend(h: seq<Event>, e: Event)
    requires UniqueIds(h) && e.id != "" && IndexOfId(h, e.id).None?
    ensures UniqueIds(h + [e])
  {
  }

  // --- each step keeps the invariant -------------------------------------------

  lemma LogFacts(h: seq<Event>, s: Sub)
    requires Accounted(h, s)
    ensures |s.lost| == s.dropped && s.born <= |h|
  {
  }

  lemma CoveredAppend(h: seq<Event>, e: Event, f: Filter, start: nat, base: set<Event>, base': set<Event>, id: string)
    requires UniqueIds(h + [e]) && KnownId(h, id) && base <= base' && start <= |h|
    requires CoveredUpTo(h, f, start, base, Floor(h, start, id))
    ensures CoveredUpTo(h + [e], f, start, base', Floor(h + [e], start, id))
    ensures KnownId(h + [e], id)
  {
    hide Matches;
    IndexOfIdAppend(h, e, id);
    forall i | start <= i < Floor(h, start, id) && i < |h + [e]| && Matches(f, (h + [e])[i])
      ensures (h + [e])[i] in base'
    {
      assert i < |h| && (h + [e])[i] == h[i];
    }
  }

  /** What a publish does to the queue of a streaming subscriber, seen from the whole pipe. */
  lemma PublishPipe(c: Config, s: State, e: Event)
    requires Inv(c, s) && Enabled(s, Publish(e)) && s.link.Streaming?
    ensures LinkInv(c, Apply(c, s, Publish(e)))
  {
    hide Matches, Accounted, Select, InOrder, Complete, CoveredUpTo, UniqueIds, IndexOfId, KnownId;
    var sub, t := s.link.sub, Apply(c, s, Publish(e));
    var h, f, start, base, pipe := s.history, c.filter, s.start.value, Settled(s), Pipe(s);
    UniqueAppend(h, e);
    OfferAccounted(h, sub, e);
    if Matches(f, e) && Full(sub) {
      var ahead := WireEvents(s.wire) + s.link.pending;
      var n := |ahead|;
      assert pipe == ahead + sub.queue && pipe[n] == sub.queue[0];
      SettleOne(h, f, start, base, pipe, n);
      var pipe1 := pipe[..n] + pipe[n + 1..];
      assert pipe1 == ahead + sub.queue[1..];
      JoinOne(h, f, start, base + {pipe[n]}, pipe1, e);
      assert Pipe(t) == pipe1 + [e];
      assert Settled(t) == base + {pipe[n]};
    } else {
      JoinOne(h, f, start, base, pipe, e);
      assert Pipe(t) == pipe + (if Matches(f, e) then [e] else []);
      assert Settled(t) == base;
    }
  }

  lemma PublishKeeps(c: Config, s: State, e: Event)
    requires Inv(c, s) && Enabled(s, Publish(e))
    ensures Inv(c, Apply(c, s, Publish(e)))
  {
    hide Matches, Accounted, Select, InOrder, Complete, CoveredUpTo;
    var t := Apply(c, s, Publish(e));
    UniqueAppend(s.history, e);
    IndexOfIdAppend(s.history, e, s.lastId);
    IndexOfIdAppend(s.history, e, s.buffer);
    assert Settled(s) <= Settled(t);
    if s.start.Some? {
      CoveredAppend(s.history, e, c.filter, s.start.value, Settled(s), Settled(t), s.lastId);
      CoveredAppend(s.history, e, c.filter, s.start.value, Settled(s), Settled(t), s.buffer);
    }
    if s.link.Streaming? {
      PublishPipe(c, s, e);
    } else if s.link.Opening? {
      OfferAccounted(s.history, s.link.sub, e);
    }
  }

  lemma ConnectKeeps(c: Config, s: State)
    requires Inv(c, s) && Enabled(s, Connect)
    ensures Inv(c, Apply(c, s, Connect))
  {
    hide Accounted, InOrder, Complete;
    NewSubAccounted(s.history, c.filter, c.queueCapacity);
    var t := Apply(c, s, Connect);
    assert Settled(t) == Settled(s);
    assert IndexOfId(s.history, "").None?;
    assert IndexOfId(s.history, s.lastId).None? ==> s.lastId == "";
  }

  lemma DisconnectKeeps(c: Config, s: State)
    requires Inv(c, s) && Enabled(s, Disconnect)
    ensures Inv(c, Apply(c, s, Disconnect))
  {
    hide Accounted, InOrder, Complete, CoveredUpTo;
    LogFacts(s.history, s.link.sub);
    assert Settled(Apply(c, s, Disconnect)) == Settled(s);
  }

  lemma WriteKeeps(c: Config, s: State)
    requires Inv(c, s) && Enabled(s, Write)
    ensures Inv(c, Apply(c, s, Write))
    ensures Pipe(Apply(c, s, Write)) == Pipe(s)
  {
    hide Accounted, InOrder, Complete, CoveredUpTo;
    var t, k := Apply(c, s, Write), s.link;
    if k.pending != [] {
      WireAppend(s.wire, Carry(k.pending[0]));
    } else if !k.greeted {
      WireAppend(s.wire, Hello);
    } else {
      WireAppend(s.wire, Carry(k.sub.queue[0]));
      TakeAccounted(s.history, k.sub);
    }
    assert Pipe(t) == Pipe(s);
    assert Settled(t) == Settled(s);
  }

  lemma TickKeeps(c: Config, s: State)
    requires Inv(c, s) && Enabled(s, Tick)
    ensures Inv(c, Apply(c, s, Tick))
  {
    hide Accounted, InOrder, Complete, CoveredUpTo;
    WireAppend(s.wire, KeepAlive);
    assert Pipe(Apply(c, s, Tick)) == Pipe(s);
    assert Settled(Apply(c, s, Tick)) == Settled(s);
  }

  /** Receiving the head of the pipe settles everything up to it. */
  lemma HeadCovered(h: seq<Event>, f: Filter, start: nat, base: set<Event>, pipe: seq<Event>) returns (j: nat)
    requires UniqueIds(h) && pipe != [] && InOrder(h, f, start, base, pipe)
    ensures j < |h|
    ensures h[j] == pipe[0]
    ensures IndexOfId(h, pipe[0].id) == Some(j)
    ensures CoveredUpTo(h, f, start, base + {pipe[0]}, j + 1)
  {
    hide Matches;
    assert pipe[0] in h;
    j :| 0 <= j < |h| && h[j] == pipe[0];
    assert pipe[..0] == [];
  }

  lemma SettleHead(h: seq<Event>, f: Filter, start: nat, base: set<Event>, pipe: seq<Event>)
    requires pipe != [] && InOrder(h, f, start, base, pipe) && Complete(h, f, start, base, pipe)
    ensures InOrder(h, f, start, base + {pipe[0]}, pipe[1..])
    ensures Complete(h, f, start, base + {pipe[0]}, pipe[1..])
  {
    hide InOrder, Complete;
    SettleOne(h, f, start, base, pipe, 0);
    assert pipe[..0] + pipe[1..] == pipe[1..];
  }

  lemma ArriveEvent(c: Config, s: State, e: Event)
    requires Inv(c, s) && Enabled(s, Arrive) && s.wire[0] == Carry(e)
    ensures Inv(c, Apply(c, s, Arrive))
  {
    hide Accounted, Matches, InOrder, Complete, CoveredUpTo, UniqueIds, IndexOfId;
    var t, pipe, h := Apply(c, s, Arrive), Pipe(s), s.history;
    assert pipe[0] == e;
    assert Pipe(t) == pipe[1..];
    assert Settled(t) == Settled(s) + {e};
    SettleHead(h, c.filter, s.start.value, Settled(s), pipe);
    var j := HeadCovered(h, c.filter, s.start.value, Settled(s), pipe);
  }

  lemma ArriveOther(c: Config, s: State)
    requires Inv(c, s) && Enabled(s, Arrive) && !s.wire[0].Carry?
    ensures Inv(c, Apply(c, s, Arrive))
  {
    hide Accounted, Matches, InOrder, Complete, CoveredUpTo;
    var t := Apply(c, s, Arrive);
    assert Pipe(t) == Pipe(s);
    assert Settled(t) == Settled(s);
  }

  lemma ReplayPipe(c: Config, s: State, m: seq<Event>, from: nat)
    requires s.link.Opening? && s.start.Some? && from <= |s.history| && UniqueIds(s.history)
    requires Accounted(s.history, s.link.sub) && s.link.sub.filter == c.filter
    requires CoveredUpTo(s.history, c.filter, s.start.value, Settled(s), from)
    requires m == Select(c.filter, s.history[from..])
    ensures var pipe := m + s.link.sub.queue;
            && InOrder(s.history, c.filter, s.start.value, Settled(s), pipe)
            && Complete(s.history, c.filter, s.start.value, Settled(s), pipe)
  {
    hide Matches, Select, Merge;
    var h, f, start, base, q := s.history, c.filter, s.start.value, Settled(s), s.link.sub.queue;
    var pipe := m + q;
    SliceOrder(f, h, from, m);
    SliceOrder(f, h, s.link.sub.born, Matched(h, s.link.sub));
    forall k, j, i | 0 <= k < |pipe| && start <= i < j < |h| && pipe[k] == h[j] && Matches(f, h[i])
      ensures h[i] in base || h[i] in pipe[..k]
    {
      if i >= from {
        assert h[i] in m;
        if k < |m| {
          assert pipe[..k] == m[..k];
        } else {
          assert pipe[..k] == m + q[..k - |m|];
        }
      }
    }
  }

  lemma FreshOrder(h: seq<Event>, f: Filter, start: nat, born: nat, base: set<Event>, gone: seq<Event>, q: seq<Event>)
    requires UniqueIds(h) && born <= |h| && gone + q == Select(f, h[born..])
    requires forall i :: start <= i < born && Matches(f, h[i]) ==> h[i] in base
    requires forall k :: 0 <= k < |gone| ==> gone[k] in base
    ensures InOrder(h, f, start, base, q)
    ensures Complete(h, f, start, base, q)
  {
    hide Matches, Select;
    var m := gone + q;
    SliceOrder(f, h, born, m);
    forall k | 0 <= k < |q| ensures q[k] in h {
      assert m[|gone| + k] == q[k];
    }
    forall k, j, i | 0 <= k < |q| && start <= i < j < |h| && q[k] == h[j] && Matches(f, h[i])
      ensures h[i] in base || h[i] in q[..k]
    {
      assert m[|gone| + k] == h[j];
      assert m[..|gone| + k] == gone + q[..k];
    }
  }

  /** A first connection, or one whose client had nothing to miss, streams from its registration. */
  lemma FreshPipe(c: Config, s: State)
    requires Inv(c, s) && s.link.Opening? && s.link.cursor == "" && Resumable(c, s)
    ensures InOrder(s.history, c.filter, s.start.value, Settled(s), s.link.sub.queue)
    ensures Complete(s.history, c.filter, s.start.value, Settled(s), s.link.sub.queue)
  {
    hide Matches, Select, Merge;
    var sub := s.link.sub;
    var gone := Gone(s.history, sub);
    MergeFacts(gone, sub.taken, sub.lost);
    FreshOrder(s.history, c.filter, s.start.value, sub.born, Settled(s), gone, sub.queue);
  }

  lemma ReplayFreshKeeps(c: Config, s: State)
    requires Inv(c, s) && Enabled(s, Replay) && Resumable(c, s) && s.link.cursor == ""
    ensures Inv(c, Apply(c, s, Replay))
  {
    FreshPipe(c, s);
    hide Accounted, InOrder, Complete, CoveredUpTo, Resumable;
    var t := Apply(c, s, Replay);
    assert Settled(t) == Settled(s);
    assert Pipe(t) == s.link.sub.queue;
  }

  lemma ReplayCursorKeeps(c: Config, s: State)
    requires Inv(c, s) && Enabled(s, Replay) && Resumable(c, s) && s.link.cursor != ""
    ensures Inv(c, Apply(c, s, Replay))
  {
    hide Accounted, InOrder, Complete, Select, CoveredUpTo, ReplaySince, LastN, Matches;
    var t, h := Apply(c, s, Replay), s.history;
    assert Settled(t) == Settled(s);
    var p := IndexOfId(h, s.link.cursor).value;
    ReplayCompleteIff(h, c.ringCapacity, p, c.filter);
    ReplayPipe(c, s, t.link.pending, p + 1);
    assert Pipe(t) == t.link.pending + s.link.sub.queue;
  }

  lemma StepKeeps(c: Config, s: State, step: Step)
    requires Inv(c, s) && Enabled(s, step)
    requires step == Replay ==> Resumable(c, s)
    ensures Inv(c, Apply(c, s, step))
  {
    hide Inv, Apply, Resumable;
    match step
    case Publish(e) => PublishKeeps(c, s, e);
    case Connect => ConnectKeeps(c, s);
    case Replay =>
      if s.link.cursor == "" {
        ReplayFreshKeeps(c, s);
      } else {
        ReplayCursorKeeps(c, s);
      }
    case Write => WriteKeeps(c, s);
    case Tick => TickKeeps(c, s);
    case Arrive =>
      if s.wire[0].Carry? {
        ArriveEvent(c, s, s.wire[0].event);
      } else {
        ArriveOther(c, s);
      }
    case Disconnect => DisconnectKeeps(c, s);
  }
}
