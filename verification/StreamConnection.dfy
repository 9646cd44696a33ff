/**
 What one connection delivers: the replay, the live queue behind it, and their overlap.
 */
module StreamConnection {
  import opened Wrappers
  import opened Events
  import opened StreamProtocol
  import opened StreamOrder
  import opened StreamRepeats

  /** Everything from the earlier of `from` and `born`, in publish order. */
  function Covered(f: Filter, h: seq<Event>, from: nat, born: nat): seq<Event>
    requires from <= |h| && born <= |h|
  {
    Select(f, h[if from <= born then from else born..])
  }

  /** The replay starts no later than the registration, or nothing matching lies on one side of its
      start. */
  predicate Ordered(f: Filter, h: seq<Event>, from: nat, born: nat, upTo: nat)
    requires from <= upTo <= |h| && born <= upTo
  {
    from <= born || Select(f, h[born..from]) == [] || Select(f, h[from..upTo]) == []
  }

  /** Replaying `[from, upTo)` and then streaming from `born`, for every position of the three: with
      repeats removed the stream is everything from the earlier of the two starts in publish order
      exactly when it is `Ordered`, and otherwise the replayed part comes before what is queued ahead
      of it; the repeats are exactly what both cover. */
  lemma OverlapIsExact(f: Filter, h: seq<Event>, from: nat, born: nat, upTo: nat)
    requires UniqueIds(h) && from <= upTo <= |h| && born <= upTo
    ensures var all := Select(f, h[from..upTo]) + Select(f, h[born..]);
            && (FirstSeen(all, {}) == Covered(f, h, from, born) <==> Ordered(f, h, from, born, upTo))
            && (from > born ==> FirstSeen(all, {}) == Select(f, h[from..upTo])
                                                      + (Select(f, h[born..from]) + Select(f, h[upTo..])))
            && Repeats(all, {}) == Select(f, h[if from <= born then born else from..upTo])
  {
    if from <= born {
      OverlapInTime(f, h, from, born, upTo);
    } else {
      OverlapLate(f, h, from, born, upTo);
    }
  }

  lemma OverlapInTime(f: Filter, h: seq<Event>, from: nat, born: nat, upTo: nat)
    requires UniqueIds(h) && from <= born <= upTo <= |h|
    ensures var all := Select(f, h[from..upTo]) + Select(f, h[born..]);
            FirstSeen(all, {}) == Select(f, h[from..]) && Repeats(all, {}) == Select(f, h[born..upTo])
  {
    hide Select, Matches, FirstSeen, Repeats;
    var a, b, d := Select(f, h[from..born]), Select(f, h[born..upTo]), Select(f, h[upTo..]);
    assert h[from..upTo] == h[from..born] + h[born..upTo];
    assert h[born..] == h[born..upTo] + h[upTo..];
    assert h[from..] == h[from..upTo] + h[upTo..];
    SelectConcat(f, h[from..born], h[born..upTo]);
    SelectConcat(f, h[born..upTo], h[upTo..]);
    SelectConcat(f, h[from..upTo], h[upTo..]);
    UniqueSlice(h, from, |h|);
    SelectDistinct(f, h[from..]);
    MembersConcat(a, b);
    OverlapSeen(a + b, b, d);
  }

  lemma OverlapLate(f: Filter, h: seq<Event>, from: nat, born: nat, upTo: nat)
    requires UniqueIds(h) && born < from <= upTo <= |h|
    ensures var a, b, all := Select(f, h[born..from]), Select(f, h[from..upTo]), Select(f, h[from..upTo]) + Select(f, h[born..]);
            && (FirstSeen(all, {}) == Select(f, h[born..]) <==> a == [] || b == [])
            && FirstSeen(all, {}) == b + (a + Select(f, h[upTo..]))
            && Repeats(all, {}) == b
  {
    hide Select, Matches, FirstSeen, Repeats;
    var a, b, d := Select(f, h[born..from]), Select(f, h[from..upTo]), Select(f, h[upTo..]);
    assert h[from..] == h[from..upTo] + h[upTo..];
    assert h[born..] == h[born..from] + h[from..];
    SelectConcat(f, h[from..upTo], h[upTo..]);
    SelectConcat(f, h[born..from], h[from..]);
    UniqueSlice(h, born, |h|);
    SelectDistinct(f, h[born..]);
    OverlapTurned(a, b, d);
    SwappedIff(a, b, d);
  }

  /** What one connection has delivered and will deliver, whatever its cursor was. */
  ghost predicate ConnectionInv(c: Config, s: State) {
    && UniqueIds(s.history)
    && (!s.link.Streaming? ==> s.wire == [])
    && (!s.link.Offline? ==> Accounted(s.history, s.link.sub) && s.link.sub.filter == c.filter)
    && (s.link.Opening? ==> s.link.sub.taken == [])
    && (s.link.Streaming? ==>
          var k := s.link;
          && k.from <= k.upTo <= |s.history|
          && k.sub.born <= k.upTo
          && (k.pending != [] ==> k.sub.taken == [])
          && k.got + WireEvents(s.wire) + k.pending == Select(c.filter, s.history[k.from..k.upTo]) + k.sub.taken)
  }

  lemma ConnectionWrite(c: Config, s: State)
    requires ConnectionInv(c, s) && Enabled(s, Write)
    ensures ConnectionInv(c, Apply(c, s, Write))
  {
    hide Accounted, Select;
    var t, k := Apply(c, s, Write), s.link;
    var sent := k.got + WireEvents(s.wire);
    if k.pending != [] {
      WireAppend(s.wire, Carry(k.pending[0]));
      assert t.link.got + WireEvents(t.wire) + t.link.pending == sent + ([k.pending[0]] + k.pending[1..]);
    } else if !k.greeted {
      WireAppend(s.wire, Hello);
      assert t.link.got + WireEvents(t.wire) == sent;
    } else {
      WireAppend(s.wire, Carry(k.sub.queue[0]));
      TakeAccounted(s.history, k.sub);
      assert sent + [] == sent;
      assert t.link.got + WireEvents(t.wire) + t.link.pending == sent + [k.sub.queue[0]];
      assert Select(c.filter, s.history[k.from..k.upTo]) + (k.sub.taken + [k.sub.queue[0]])
          == (Select(c.filter, s.history[k.from..k.upTo]) + k.sub.taken) + [k.sub.queue[0]];
    }
  }

  /** Whatever the cursor, what a replay reads from the ring is a suffix of the history. */
  lemma TailIsSuffix(c: Config, h: seq<Event>, cursor: string)
    requires UniqueIds(h)
    ensures ReplayFrom(c, h, cursor) <= |h|
    ensures ReplayTail(LastN(h, c.ringCapacity), cursor) == h[ReplayFrom(c, h, cursor)..]
  {
    var at, ring, start := IndexOfId(h, cursor), LastN(h, c.ringCapacity), RingStart(h, c.ringCapacity);
    if at.Some? {
      ReplayTailIs(h, c.ringCapacity, at.value);
    } else {
      assert ring == h[start..];
      assert forall i :: 0 <= i < |ring| ==> ring[i] == h[start + i];
      assert IndexOfId(ring, cursor).None?;
    }
  }

  lemma ConnectionReplay(c: Config, s: State)
    requires ConnectionInv(c, s) && Enabled(s, Replay)
    ensures ConnectionInv(c, Apply(c, s, Replay))
  {
    hide Accounted, Matches, LastN, ReplayFrom, UniqueIds, ReplayTail;
    var t, h, k := Apply(c, s, Replay), s.history, s.link;
    LogFacts(h, k.sub);
    assert h[k.sub.born..k.sub.born] == [];
    TailIsSuffix(c, h, k.cursor);
    var from := ReplayFrom(c, h, k.cursor);
    assert h[from..|h|] == h[from..];
    assert [] + [] + t.link.pending == t.link.pending + [];
  }

  lemma ConnectionArrive(c: Config, s: State)
    requires ConnectionInv(c, s) && Enabled(s, Arrive)
    ensures ConnectionInv(c, Apply(c, s, Arrive))
  {
    hide Accounted, Select, UniqueIds;
    if s.wire[0].Carry? {
      var e, k, rest := s.wire[0].event, s.link, WireEvents(s.wire[1..]);
      assert (k.got + [e]) + rest + k.pending == k.got + ([e] + rest) + k.pending;
    }
  }

  lemma ConnectionStep(c: Config, s: State, step: Step)
    requires ConnectionInv(c, s) && Enabled(s, step)
    ensures ConnectionInv(c, Apply(c, s, step))
  {
    hide Accounted, Select, Matches, UniqueIds, Merge;
    match step
    case Publish(e) =>
      UniqueAppend(s.history, e);
      if !s.link.Offline? {
        OfferAccounted(s.history, s.link.sub, e);
      }
      if s.link.Streaming? {
        assert (s.history + [e])[s.link.from..s.link.upTo] == s.history[s.link.from..s.link.upTo];
      }
    case Connect => NewSubAccounted(s.history, c.filter, c.queueCapacity);
    case Replay => ConnectionReplay(c, s);
    case Write => ConnectionWrite(c, s);
    case Tick => WireAppend(s.wire, KeepAlive);
    case Arrive =>
      ConnectionArrive(c, s);
    case Disconnect =>
  }

  lemma ConnectionSteps(c: Config)
    ensures forall s, step :: ConnectionInv(c, s) && Enabled(s, step) ==> ConnectionInv(c, Apply(c, s, step))
  {
    hide ConnectionInv, Apply, Enabled;
    forall s, step | ConnectionInv(c, s) && Enabled(s, step) ensures ConnectionInv(c, Apply(c, s, step)) {
      ConnectionStep(c, s, step);
    }
  }

  lemma Regroup(g: seq<Event>, w: seq<Event>, p: seq<Event>, q: seq<Event>, r: seq<Event>, t: seq<Event>)
    requires g + w + p == r + t
    ensures g + (w + p + q) == r + (t + q)
  {
    assert g + (w + p + q) == (g + w + p) + q;
    assert (r + t) + q == r + (t + q);
  }

  lemma ConnectionStream(c: Config, s: State)
    requires ConnectionInv(c, s) && s.link.Streaming? && s.link.sub.lost == []
    ensures s.link.sub.born <= s.link.upTo <= |s.history|
    ensures s.link.from <= s.link.upTo
    ensures s.link.got + Pipe(s) == Select(c.filter, s.history[s.link.from..s.link.upTo])
                                    + Select(c.filter, s.history[s.link.sub.born..])
  {
    hide Select, Accounted, WireEvents, Merge, UniqueIds;
    var k := s.link;
    LogFacts(s.history, k.sub);
    var at := QueueConservation(s.history, k.sub);
    Regroup(k.got, WireEvents(s.wire), k.pending, k.sub.queue,
            Select(c.filter, s.history[k.from..k.upTo]), k.sub.taken);
  }

  /** Over every run, on a connection whose queue has not overflowed: what the client has and will be
      given is, with repeats removed, exactly the matching events from the earlier of replay start
      and registration on, in publish order, if and only if the two are `Ordered`; and the repeats
      are exactly the matching events that both the replay and the queue cover. */
  lemma OneConnection(c: Config, h: seq<Event>, steps: seq<Step>)
    requires UniqueIds(h) && Runs(c, Initial(h), steps)
    ensures var s := After(c, Initial(h), steps);
            s.link.Streaming? && s.link.sub.lost == [] ==>
              var all, from, born, upTo := s.link.got + Pipe(s), s.link.from, s.link.sub.born, s.link.upTo;
              && from <= upTo <= |s.history| && born <= upTo
              && (FirstSeen(all, {}) == Covered(c.filter, s.history, from, born)
                  <==> Ordered(c.filter, s.history, from, born, upTo))
              && Repeats(all, {}) == Select(c.filter, s.history[if from <= born then born else from..upTo])
  {
    ConnectionSteps(c);
    Invariant(c, s => ConnectionInv(c, s), Initial(h), steps);
    hide Apply, Enabled, Select, Accounted, FirstSeen, Repeats, WireEvents, Pipe, After, Runs, Ordered, Covered;
    var s := After(c, Initial(h), steps);
    if s.link.Streaming? && s.link.sub.lost == [] {
      ConnectionStream(c, s);
      OverlapIsExact(c.filter, s.history, s.link.from, s.link.sub.born, s.link.upTo);
    }
  }
}
