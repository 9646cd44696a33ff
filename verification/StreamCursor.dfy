/**
 What the id-less greeting does to a client's cursor, and so to delivery.
 */
module StreamCursor {
  import opened Wrappers
  import opened Events
  import opened StreamProtocol
  import opened StreamOrder

  // ---------------------------------------------------------------------------
  // A client that carries its cursor
  // ---------------------------------------------------------------------------

  /** Every event on its way is named, and a client with a cursor has an id in its buffer. */
  ghost predicate CursorInv(s: State) {
    && UniqueIds(s.history)
    && (s.lastId != "" && !s.link.Offline? ==> s.buffer != "")
    && (forall e :: e in WireEvents(s.wire) ==> e.id != "")
    && (!s.link.Offline? ==> forall e :: e in s.link.sub.queue ==> e.id != "")
    && (s.link.Streaming? ==> forall e :: e in s.link.pending ==> e.id != "")
  }

  lemma CursorReplay(c: Config, s: State)
    requires CursorInv(s) && Enabled(s, Replay)
    ensures CursorInv(Apply(c, s, Replay))
  {
    hide Matches, Select;
    var ring := LastN(s.history, c.ringCapacity);
    assert forall e :: e in ring ==> e in s.history;
    assert forall e :: e in ReplayTail(ring, s.link.cursor) ==> e in ring;
    SelectMembers(s.link.sub.filter, ReplayTail(ring, s.link.cursor));
  }

  lemma CursorStep(c: Config, s: State, step: Step)
    requires c.carries && CursorInv(s) && Enabled(s, step)
    ensures CursorInv(Apply(c, s, step))
    ensures (s.lastId != "" ==> Apply(c, s, step).lastId != "")
  {
    hide Matches, ReplaySince;
    match step
    case Publish(e) => UniqueAppend(s.history, e);
    case Replay => CursorReplay(c, s);
    case Write =>
      WireAppend(s.wire, if s.link.pending != [] then Carry(s.link.pending[0])
                         else if !s.link.greeted then Hello else Carry(s.link.sub.queue[0]));
    case Tick => WireAppend(s.wire, KeepAlive);
    case _ =>
  }

  /** A client that carries its cursor into each new stream never loses it again. */
  lemma {:induction false} CarriedCursorStays(c: Config, s: State, steps: seq<Step>)
    requires c.carries && CursorInv(s) && Runs(c, s, steps)
    ensures CursorInv(After(c, s, steps))
    ensures (s.lastId != "" ==> After(c, s, steps).lastId != "")
    decreases |steps|
  {
    if steps != [] {
      hide Apply, Enabled, CursorInv;
      CursorStep(c, s, steps[0]);
      CarriedCursorStays(c, Apply(c, s, steps[0]), steps[1..]);
    }
  }

  // ---------------------------------------------------------------------------
  // A client that starts each stream with an empty buffer
  // ---------------------------------------------------------------------------

  /** Connecting, finding nothing to replay, being greeted and disconnecting leaves a client that
      starts each stream with an empty id buffer without a cursor. */
  lemma GreetingResetsCursor(c: Config, s: State)
    requires !c.carries && s.link.Offline? && s.wire == [] && s.lastId != ""
    requires ReplaySince(LastN(s.history, c.ringCapacity), s.lastId, Some(c.filter)) == []
    ensures Runs(c, s, [Connect, Replay, Write, Arrive, Disconnect])
    ensures var t := After(c, s, [Connect, Replay, Write, Arrive, Disconnect]);
            && t == s.(lastId := "", buffer := "", start := t.start)
  {
    hide ReplaySince, LastN, Matches, Runs, After;
    RunOne(c, s, Connect);
    RunThen(c, s, [Connect], Replay);
    assert [Connect] + [Replay] == [Connect, Replay];
    RunThen(c, s, [Connect, Replay], Write);
    assert [Connect, Replay] + [Write] == [Connect, Replay, Write];
    RunThen(c, s, [Connect, Replay, Write], Arrive);
    assert [Connect, Replay, Write] + [Arrive] == [Connect, Replay, Write, Arrive];
    RunThen(c, s, [Connect, Replay, Write, Arrive], Disconnect);
    assert [Connect, Replay, Write, Arrive] + [Disconnect] == [Connect, Replay, Write, Arrive, Disconnect];
  }

  /** The event was published, but is neither received, nor counted, nor on its way. */
  predicate Overlooked(t: State, e: Event) {
    t.link.Streaming? && Pipe(t) == [] && e in t.history && !SettledIn(t, e)
  }

  /** So the delivery guarantee needs a client that keeps its cursor: for one that does not, an
      event published after an uneventful reconnect is neither delivered nor counted. */
  lemma GreetingCanLoseEvents(c: Config, s: State, e: Event)
    requires !c.carries && s.link.Offline? && s.wire == [] && s.lastId != ""
    requires ReplaySince(LastN(s.history, c.ringCapacity), s.lastId, Some(c.filter)) == []
    requires Enabled(s, Publish(e)) && Matches(c.filter, e) && e !in s.received && e !in s.lost
    ensures var steps := [Connect, Replay, Write, Arrive, Disconnect] + [Publish(e), Connect, Replay];
            Runs(c, s, steps) && Overlooked(After(c, s, steps), e)
  {
    hide ReplaySince, LastN, Matches, Runs, After;
    GreetingResetsCursor(c, s);
    var u := After(c, s, [Connect, Replay, Write, Arrive, Disconnect]);
    RunOne(c, u, Publish(e));
    RunThen(c, u, [Publish(e)], Connect);
    assert [Publish(e)] + [Connect] == [Publish(e), Connect];
    RunThen(c, u, [Publish(e), Connect], Replay);
    assert [Publish(e), Connect] + [Replay] == [Publish(e), Connect, Replay];
    RunConcat(c, s, [Connect, Replay, Write, Arrive, Disconnect], [Publish(e), Connect, Replay]);
  }

  /** A first connection that is given one event and then lost. */
  function FirstVisit(e: Event): seq<Step> {
    [Connect, Replay, Publish(e), Write, Write, Arrive, Arrive, Disconnect]
  }

  /** Halfway: greeted, with the event queued. */
  function Halfway(c: Config, e: Event): State {
    var sub := Sub(c.filter, c.queueCapacity, 0, [e], 0, [], []);
    State([e], Streaming(sub, [], true, [], 0, 0), [Hello], [], "", "", Some(0), [], 0)
  }

  lemma FirstHalf(c: Config, e: Event)
    requires e.id != "" && Matches(c.filter, e)
    ensures Runs(c, Initial([]), [Connect, Replay, Publish(e), Write])
    ensures After(c, Initial([]), [Connect, Replay, Publish(e), Write]) == Halfway(c, e)
  {
    hide Matches, Runs, After, ReplaySince, LastN;
    var s := Initial([]);
    assert IndexOfId([], e.id).None?;
    assert [] + [e] == [e] && [] + [Hello] == [Hello];
    RunOne(c, s, Connect);
    RunThen(c, s, [Connect], Replay);
    assert [Connect] + [Replay] == [Connect, Replay];
    RunThen(c, s, [Connect, Replay], Publish(e));
    assert [Connect, Replay] + [Publish(e)] == [Connect, Replay, Publish(e)];
    RunThen(c, s, [Connect, Replay, Publish(e)], Write);
    assert [Connect, Replay, Publish(e)] + [Write] == [Connect, Replay, Publish(e), Write];
  }

  lemma SecondHalf(c: Config, e: Event)
    ensures Runs(c, Halfway(c, e), [Write, Arrive, Arrive, Disconnect])
    ensures After(c, Halfway(c, e), [Write, Arrive, Arrive, Disconnect])
            == State([e], Offline, [], [e], e.id, e.id, Some(0), [], 0)
  {
    hide Matches, Runs, After, ReplaySince, LastN;
    var s := Halfway(c, e);
    RunOne(c, s, Write);
    RunThen(c, s, [Write], Arrive);
    assert [Write] + [Arrive] == [Write, Arrive];
    RunThen(c, s, [Write, Arrive], Arrive);
    assert [Write, Arrive] + [Arrive] == [Write, Arrive, Arrive];
    RunThen(c, s, [Write, Arrive, Arrive], Disconnect);
    assert [Write, Arrive, Arrive] + [Disconnect] == [Write, Arrive, Arrive, Disconnect];
  }

  lemma FirstVisitEnds(c: Config, e: Event)
    requires e.id != "" && Matches(c.filter, e)
    ensures Runs(c, Initial([]), FirstVisit(e))
    ensures After(c, Initial([]), FirstVisit(e)) == State([e], Offline, [], [e], e.id, e.id, Some(0), [], 0)
  {
    hide Matches, Runs, After, Halfway;
    FirstHalf(c, e);
    SecondHalf(c, e);
    RunConcat(c, Initial([]), [Connect, Replay, Publish(e), Write], [Write, Arrive, Arrive, Disconnect]);
    assert [Connect, Replay, Publish(e), Write] + [Write, Arrive, Arrive, Disconnect] == FirstVisit(e);
  }

  lemma NothingMissed(e: Event, capacity: nat, f: Filter)
    ensures ReplaySince(LastN([e], capacity), e.id, Some(f)) == []
  {
    assert LastN([e], capacity) == if capacity == 0 then [] else [e];
  }

  /** And such a loss is reachable: from an empty history, one event received, an uneventful
      reconnect, and the next matching event is neither delivered nor counted. */
  lemma LossIsReachable(c: Config, e: Event, next: Event)
    requires !c.carries && Matches(c.filter, e) && Matches(c.filter, next)
    requires e.id != "" && next.id != "" && e.id != next.id
    ensures exists steps :: Runs(c, Initial([]), steps) && Overlooked(After(c, Initial([]), steps), next)
  {
    hide Matches, Runs, After, ReplaySince, LastN, Overlooked;
    FirstVisitEnds(c, e);
    NothingMissed(e, c.ringCapacity, c.filter);
    var s := After(c, Initial([]), FirstVisit(e));
    assert IndexOfId([e], next.id).None?;
    GreetingCanLoseEvents(c, s, next);
    var rest := [Connect, Replay, Write, Arrive, Disconnect] + [Publish(next), Connect, Replay];
    RunConcat(c, Initial([]), FirstVisit(e), rest);
    assert Runs(c, Initial([]), FirstVisit(e) + rest);
  }

  // ---------------------------------------------------------------------------
  // Exactly which clients keep their cursor
  // ---------------------------------------------------------------------------

  /** In every run, a client that has a cursor has one ever after. */
  ghost predicate KeepsCursor(c: Config) {
    forall h, a, b :: UniqueIds(h) && Runs(c, Initial(h), a) && After(c, Initial(h), a).lastId != ""
                      && Runs(c, After(c, Initial(h), a), b)
                      ==> After(c, After(c, Initial(h), a), b).lastId != ""
  }

  /** No event at all passes the filter. */
  ghost predicate Deaf(f: Filter) {
    forall e: Event :: e.id != "" ==> !Matches(f, e)
  }

  /** Nothing is ever on its way to a client whose filter lets nothing pass. */
  ghost predicate Idle(c: Config, s: State) {
    && UniqueIds(s.history)
    && s.lastId == ""
    && s.buffer == ""
    && WireEvents(s.wire) == []
    && (!s.link.Offline? ==> s.link.sub.queue == [] && s.link.sub.filter == c.filter)
    && (s.link.Opening? ==> s.link.cursor == "")
    && (s.link.Streaming? ==> s.link.pending == [])
  }

  lemma IdleStep(c: Config, s: State, step: Step)
    requires Deaf(c.filter) && Idle(c, s) && Enabled(s, step)
    ensures Idle(c, Apply(c, s, step))
  {
    hide Matches, ReplaySince;
    match step
    case Publish(e) => UniqueAppend(s.history, e);
    case Write => WireAppend(s.wire, Hello);
    case Tick => WireAppend(s.wire, KeepAlive);
    case _ =>
  }

  lemma {:induction false} IdleAlways(c: Config, s: State, steps: seq<Step>)
    requires Deaf(c.filter) && Idle(c, s) && Runs(c, s, steps)
    ensures After(c, s, steps).lastId == ""
    decreases |steps|
  {
    if steps != [] {
      hide Apply, Enabled, Idle, Deaf;
      IdleStep(c, s, steps[0]);
      IdleAlways(c, Apply(c, s, steps[0]), steps[1..]);
    }
  }

  /** A client keeps its cursor over every run exactly when it carries the cursor into each stream,
      or never receives an event. */
  lemma CursorKeptIff(c: Config)
    ensures KeepsCursor(c) <==> c.carries || Deaf(c.filter)
  {
    hide Matches, Runs, After;
    if c.carries {
      forall h, a, b | UniqueIds(h) && Runs(c, Initial(h), a) && After(c, Initial(h), a).lastId != ""
                       && Runs(c, After(c, Initial(h), a), b)
        ensures After(c, After(c, Initial(h), a), b).lastId != ""
      {
        CarriedCursorStays(c, Initial(h), a);
        CarriedCursorStays(c, After(c, Initial(h), a), b);
      }
    } else if Deaf(c.filter) {
      forall h, a | UniqueIds(h) && Runs(c, Initial(h), a) ensures After(c, Initial(h), a).lastId == "" {
        IdleAlways(c, Initial(h), a);
      }
    } else {
      var e: Event :| e.id != "" && Matches(c.filter, e);
      FirstVisitEnds(c, e);
      NothingMissed(e, c.ringCapacity, c.filter);
      GreetingResetsCursor(c, After(c, Initial([]), FirstVisit(e)));
    }
  }

  lemma Inhabited<T>(s: set<T>) returns (x: T)
    requires s != {}
    ensures x in s
  {
    x :| x in s;
  }

  /** A subscriber's filter, built from what was asked for, always lets some event pass. */
  lemma BuiltFiltersHear(types: Option<set<string>>, components: Option<set<int>>, sessionId: Option<string>)
    ensures !Deaf(Filter(NonEmpty(types), NonEmpty(components), sessionId))
  {
    var t, k := "", None;
    if NonEmpty(types).Some? {
      t := Inhabited(types.value);
    }
    if NonEmpty(components).Some? {
      var x := Inhabited(components.value);
      k := Some(x);
    }
    var e := Event(t, "", k, None, "1");
    assert Matches(Filter(NonEmpty(types), NonEmpty(components), sessionId), e);
  }
}
