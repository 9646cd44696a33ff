/**
 Which replays lose nothing however the run goes on.
 */
module StreamLasting {
  import opened Wrappers
  import opened Events
  import opened StreamProtocol
  import opened StreamOrder
  import opened StreamDelivery
  import opened StreamConnection
  import opened StreamLoss
  import opened StreamCursor
  import opened StreamRuns

  // ---------------------------------------------------------------------------
  // A cursor in the ring
  // ---------------------------------------------------------------------------

  /** After any run: a replay from a cursor that is still in the ring starts just after it, and no
      later than the registration; so its stream is `Ordered`. */
  lemma BufferedCursorInTime(c: Config, h: seq<Event>, steps: seq<Step>, k: nat)
    requires UniqueIds(h) && Runs(c, Initial(h), steps) && After(c, Initial(h), steps).link.Opening?
    requires var s := After(c, Initial(h), steps);
             && k < |LastN(s.history, c.ringCapacity)|
             && s.link.cursor != ""
             && LastN(s.history, c.ringCapacity)[k].id == s.link.cursor
    ensures var s := After(c, Initial(h), steps);
            var t := Apply(c, s, Replay);
            && t.link.Streaming?
            && t.link.from == RingStart(s.history, c.ringCapacity) + k + 1 <= t.link.sub.born
  {
    RunFacts(c, h, steps);
    hide Runs, After, RunInv, ConnectionInv, OpenInv, Apply;
    FoundInTime(c, After(c, Initial(h), steps), k);
  }

  lemma FoundInTime(c: Config, s: State, k: nat)
    requires RunInv(s) && s.link.Opening? && s.link.cursor != ""
    requires k < |LastN(s.history, c.ringCapacity)| && LastN(s.history, c.ringCapacity)[k].id == s.link.cursor
    ensures var t := Apply(c, s, Replay);
            && t.link.Streaming?
            && t.link.from == RingStart(s.history, c.ringCapacity) + k + 1 <= t.link.sub.born
  {
    hide Within, ReplaySince, UniqueIds, IndexOfId;
    var p := RingStart(s.history, c.ringCapacity) + k;
    assert s.history[p].id == s.link.cursor;
    PositionOf(s.history, p);
    hide LastN;
  }

  // ---------------------------------------------------------------------------
  // Exactly which replays lose nothing
  // ---------------------------------------------------------------------------

  /** A matching event from between the registration and the start of the replay. */
  predicate AheadOfReplay(c: Config, s: State, i: int)
    requires s.link.Opening?
  {
    s.link.sub.born <= i < ReplayFrom(c, s.history, s.link.cursor) && i < |s.history| && Matches(c.filter, s.history[i])
  }

  /** A replay that starts after the registration sends nothing, or every matching event queued ahead
      of its start was received or counted already. */
  ghost predicate OrderKept(c: Config, s: State)
    requires s.link.Opening? && s.start.Some?
  {
    || s.link.cursor == "" || Apply(c, s, Replay).link.pending == []
    || forall i :: AheadOfReplay(c, s, i) ==> SettledIn(s, s.history[i])
  }

  lemma InvAccounts(c: Config, s: State)
    requires Inv(c, s) && s.start.Some?
    ensures AllAccountedFor(c, s)
  {
    hide Matches, Accounted, InOrder;
  }

  /** The cursor a replay starts from stands before what the replay and the queue cover. */
  lemma CursorBeforeCover(c: Config, s: State)
    requires RunInv(s) && s.link.Opening?
    ensures Floor(s.history, s.start.value, s.link.cursor) <= CoverStart(c, s)
  {
    assert IndexOfId(s.history, "").None?;
  }

  lemma GapCovers(c: Config, s: State, n: nat)
    requires s.link.Opening? && s.start.Some? && GapSettled(c, s) && n <= CoverStart(c, s)
    ensures CoveredUpTo(s.history, c.filter, s.start.value, Settled(s), n)
  {
    hide Matches, ReplayFrom;
  }

  lemma OrderCovers(c: Config, s: State)
    requires s.link.Opening? && s.start.Some? && GapSettled(c, s) && OrderKept(c, s)
    requires s.link.cursor != "" && Apply(c, s, Replay).link.pending != []
    ensures CoveredUpTo(s.history, c.filter, s.start.value, Settled(s), ReplayFrom(c, s.history, s.link.cursor))
  {
    hide Matches, ReplayFrom, ReplaySince, LastN;
  }

  /** What is on its way after such a replay is complete and in order. */
  lemma PipeKept(c: Config, s: State)
    requires RunInv(s) && ConnectionInv(c, s) && s.link.Opening? && GapSettled(c, s) && OrderKept(c, s)
    ensures var t := Apply(c, s, Replay);
            && InOrder(s.history, c.filter, s.start.value, Settled(s), Pipe(t))
            && Complete(s.history, c.filter, s.start.value, Settled(s), Pipe(t))
  {
    hide Matches, Select, Merge, InOrder, Complete, CoveredUpTo, Within, UniqueIds, NamesBefore, Accounted;
    hide GapSettled, OrderKept, ReplaySince, ReplayFrom, Settled, Pipe;
    ReplaySends(c, s);
    var t, h, sub := Apply(c, s, Replay), s.history, s.link.sub;
    if s.link.cursor != "" && t.link.pending != [] {
      OrderCovers(c, s);
      TailIsSuffix(c, h, s.link.cursor);
      ReplayPipe(c, s, t.link.pending, ReplayFrom(c, h, s.link.cursor));
    } else {
      NothingReplayed(c, s);
      assert t.link.pending + sub.queue == sub.queue;
    }
  }

  lemma NothingReplayed(c: Config, s: State)
    requires RunInv(s) && ConnectionInv(c, s) && s.link.Opening? && GapSettled(c, s)
    requires s.link.cursor == "" || Apply(c, s, Replay).link.pending == []
    ensures InOrder(s.history, c.filter, s.start.value, Settled(s), s.link.sub.queue)
    ensures Complete(s.history, c.filter, s.start.value, Settled(s), s.link.sub.queue)
  {
    hide Matches, Select, Within, NamesBefore, InOrder, Complete;
    var h, sub := s.history, s.link.sub;
    var gone := Gone(h, sub);
    MergeFacts(gone, sub.taken, sub.lost);
    forall i | s.start.value <= i < sub.born && Matches(c.filter, h[i]) ensures h[i] in Settled(s) {
      NothingBetween(c, s, i);
    }
    FreshOrder(h, c.filter, s.start.value, sub.born, Settled(s), gone, sub.queue);
  }

  /** Where nothing is replayed, everything from before the registration was settled. */
  lemma NothingBetween(c: Config, s: State, i: nat)
    requires RunInv(s) && ConnectionInv(c, s) && s.link.Opening? && GapSettled(c, s)
    requires s.link.cursor == "" || Apply(c, s, Replay).link.pending == []
    requires s.start.value <= i < s.link.sub.born && Matches(c.filter, s.history[i])
    ensures s.history[i] in Settled(s)
  {
    hide Matches, Select, Within, NamesBefore, Accounted, Merge, UniqueIds;
    if i >= CoverStart(c, s) {
      ReplaySends(c, s);
      TailIsSuffix(c, s.history, s.link.cursor);
      FromMembers(c.filter, s.history, ReplayFrom(c, s.history, s.link.cursor), i);
    }
  }

  lemma ReplayEstablishes(c: Config, s: State)
    requires RunInv(s) && ConnectionInv(c, s) && OpenInv(s) && s.link.Opening?
    requires GapSettled(c, s) && OrderKept(c, s)
    ensures Inv(c, Apply(c, s, Replay))
  {
    hide Matches, Accounted, InOrder, Complete, GapSettled, OrderKept, Settled, Pipe;
    hide Within, UniqueIds, ReplaySince, Floor, CoverStart;
    PipeKept(c, s);
    ReplaySends(c, s);
    CursorBeforeCover(c, s);
    GapCovers(c, s, Floor(s.history, s.start.value, s.link.cursor));
    FloorOfNone(s.history, s.start.value);
  }

  lemma FloorOfNone(h: seq<Event>, start: nat)
    requires UniqueIds(h)
    ensures Floor(h, start, "") == start
  {
    assert IndexOfId(h, "").None?;
  }

  lemma {:induction false} NoReplayResumes(c: Config, s: State, steps: seq<Step>)
    requires Runs(c, s, steps) && Replay !in steps
    ensures Resumes(c, s, steps)
    decreases |steps|
  {
    if steps != [] {
      hide Apply, Enabled, Resumable;
      assert steps[0] in steps;
      NoReplayResumes(c, Apply(c, s, steps[0]), steps[1..]);
    }
  }

  /** The first replayed event arrives, and the connection is lost. */
  const CUT := [Write, Arrive, Disconnect]

  function AfterCut(t: State, e: Event): State
    requires t.link.Streaming?
  {
    t.(received := t.received + [e], lastId := e.id, buffer := e.id, link := Offline,
       lost := t.lost + t.link.sub.lost, dropped := t.dropped + t.link.sub.dropped)
  }

  lemma CutRuns(c: Config, t: State)
    requires t.link.Streaming? && t.wire == [] && t.link.pending != []
    ensures Runs(c, t, CUT)
    ensures After(c, t, CUT) == AfterCut(t, t.link.pending[0])
  {
    hide Runs, After, Matches;
    RunOne(c, t, Write);
    RunThen(c, t, [Write], Arrive);
    assert [Write] + [Arrive] == [Write, Arrive];
    RunThen(c, t, [Write, Arrive], Disconnect);
    assert [Write, Arrive] + [Disconnect] == CUT;
  }

  /** The first event of a replay stands at or after its start. */
  lemma FirstReplayed(c: Config, s: State) returns (j: nat)
    requires RunInv(s) && ConnectionInv(c, s) && s.link.Opening? && s.link.cursor != ""
    requires Apply(c, s, Replay).link.pending != []
    ensures var e := Apply(c, s, Replay).link.pending[0];
            ReplayFrom(c, s.history, s.link.cursor) <= j < |s.history| && s.history[j] == e
            && IndexOfId(s.history, e.id) == Some(j)
  {
    hide Matches, Select, Within, NamesBefore, Accounted, Merge, ReplayFrom, UniqueIds, IndexOfId, ReplaySince;
    var h, from := s.history, ReplayFrom(c, s.history, s.link.cursor);
    ReplaySends(c, s);
    TailIsSuffix(c, h, s.link.cursor);
    SelectMembers(c.filter, h[from..]);
    var e := Apply(c, s, Replay).link.pending[0];
    assert e in h[from..];
    var k :| 0 <= k < |h[from..]| && h[from..][k] == e;
    j := from + k;
    PositionOf(h, j);
  }

  lemma PositionOf(h: seq<Event>, j: nat)
    requires UniqueIds(h) && j < |h|
    ensures IndexOfId(h, h[j].id) == Some(j)
  {
  }

  /** Otherwise the client's cursor can pass an event that is then lost. */
  lemma CutLoses(c: Config, s: State, i: nat)
    requires RunInv(s) && ConnectionInv(c, s) && OpenInv(s) && s.link.Opening? && s.link.cursor != ""
    requires Apply(c, s, Replay).link.pending != [] && AheadOfReplay(c, s, i) && !SettledIn(s, s.history[i])
    ensures var t := Apply(c, s, Replay);
            Runs(c, t, CUT) && Resumes(c, t, CUT) && !AllAccountedFor(c, After(c, t, CUT))
  {
    hide Matches, Within, NamesBefore, Accounted, Merge, ReplayFrom, Runs, After, Resumes, Select, IndexOfId, ReplaySince;
    var t := Apply(c, s, Replay);
    ReplaySends(c, s);
    CutRuns(c, t);
    NoReplayResumes(c, t, CUT);
    var j := FirstReplayed(c, s);
    var u := After(c, t, CUT);
    if s.history[i] == s.history[j] {
      SameEvent(s.history, i, j);
    }
    assert !AccountedFor(c, u, i);
  }

  /** After any run, whatever the cursors so far: a replay loses nothing, however the run goes on with
      resumable replays, exactly when every matching event from before what it and the queue cover was
      received or counted already, and so was every one queued ahead of its start unless it sends
      nothing. */
  lemma ReplayLastsIff(c: Config, h: seq<Event>, steps: seq<Step>)
    requires UniqueIds(h) && Runs(c, Initial(h), steps) && After(c, Initial(h), steps).link.Opening?
    ensures var s := After(c, Initial(h), steps);
            var t := Apply(c, s, Replay);
            && s.start.Some?
            && ((forall more :: Runs(c, t, more) && Resumes(c, t, more) ==> AllAccountedFor(c, After(c, t, more)))
                <==> GapSettled(c, s) && OrderKept(c, s))
  {
    RunFacts(c, h, steps);
    hide Runs, After, RunInv, ConnectionInv, Resumes, Apply, Matches;
    var s := After(c, Initial(h), steps);
    Lasts(c, s);
  }

  lemma Lasts(c: Config, s: State)
    requires RunInv(s) && ConnectionInv(c, s) && OpenInv(s) && s.link.Opening?
    ensures var t := Apply(c, s, Replay);
            (forall more :: Runs(c, t, more) && Resumes(c, t, more) ==> AllAccountedFor(c, After(c, t, more)))
            <==> GapSettled(c, s) && OrderKept(c, s)
  {
    hide RunInv, ConnectionInv, Resumes, Matches, Inv, AllAccountedFor, GapSettled, Runs, After, ReplaySince;
    var t := Apply(c, s, Replay);
    NoSteps(c, t);
    ReplayAccounts(c, s);
    if GapSettled(c, s) && OrderKept(c, s) {
      ReplayEstablishes(c, s);
      StepsKeep(c);
      forall more | Runs(c, t, more) && Resumes(c, t, more) ensures AllAccountedFor(c, After(c, t, more)) {
        ResumingInvariant(c, u => Inv(c, u), t, more);
        Invariant(c, (u: State) => u.start.Some?, t, more);
        InvAccounts(c, After(c, t, more));
      }
    } else if GapSettled(c, s) {
      var i: nat :| AheadOfReplay(c, s, i) && !SettledIn(s, s.history[i]);
      CutLoses(c, s, i);
    }
  }

  lemma NoSteps(c: Config, t: State)
    ensures Runs(c, t, [])
    ensures Resumes(c, t, [])
    ensures After(c, t, []) == t
  {
  }

  // ---------------------------------------------------------------------------
  // A ring that turns over between registration and replay
  // ---------------------------------------------------------------------------

  /** Without overflow, the connection has delivered and will deliver this. */
  predicate Carries(t: State, stream: seq<Event>) {
    t.link.Streaming? && t.link.sub.lost == [] && t.link.got + Pipe(t) == stream
  }

  /** A client that has seen the first of three events, registered before the other two. */
  function Turned(c: Config, e0: Event, e1: Event, e2: Event): State {
    State([e0, e1, e2], Opening(Sub(c.filter, c.queueCapacity, 1, [e1, e2], 0, [], []), e0.id), [], [e0], e0.id,
          if c.carries then e0.id else "", Some(0), [], 0)
  }

  lemma TurnedRuns(c: Config, e0: Event, e1: Event, e2: Event)
    requires c.queueCapacity <= 0 && Matches(c.filter, e1) && Matches(c.filter, e2)
    requires e1.id != "" && e2.id != "" && e0.id != e1.id && e0.id != e2.id && e1.id != e2.id
    ensures var s := State([e0], Offline, [], [e0], e0.id, e0.id, Some(0), [], 0);
            && Runs(c, s, [Connect, Publish(e1), Publish(e2)])
            && After(c, s, [Connect, Publish(e1), Publish(e2)]) == Turned(c, e0, e1, e2)
  {
    hide Matches, Runs, After;
    var s := State([e0], Offline, [], [e0], e0.id, e0.id, Some(0), [], 0);
    assert [e0] + [e1] == [e0, e1] && [e0, e1] + [e2] == [e0, e1, e2];
    assert [] + [e1] == [e1] && [e1] + [e2] == [e1, e2];
    RunOne(c, s, Connect);
    RunThen(c, s, [Connect], Publish(e1));
    assert [Connect] + [Publish(e1)] == [Connect, Publish(e1)];
    RunThen(c, s, [Connect, Publish(e1)], Publish(e2));
    assert [Connect, Publish(e1)] + [Publish(e2)] == [Connect, Publish(e1), Publish(e2)];
  }

  lemma TurnedReplays(c: Config, e0: Event, e1: Event, e2: Event)
    requires c.ringCapacity == 1 && Matches(c.filter, e2) && e0.id != "" && e0.id != e2.id
    ensures Carries(Apply(c, Turned(c, e0, e1, e2), Replay), [e2, e1, e2])
  {
    var h := [e0, e1, e2];
    assert LastN(h, 1) == [e2];
    assert IndexOfId([e2], e0.id).None?;
    assert ReplayTail([e2], e0.id) == [e2];
    SelectAppend(c.filter, [], e2);
    assert [] + [e2] == [e2];
    hide Matches, Select, ReplayTail, LastN;
    var t := Apply(c, Turned(c, e0, e1, e2), Replay);
    assert t.link.pending == [e2];
    assert WireEvents([]) == [] && [] + ([] + [e2] + [e1, e2]) == [e2, e1, e2];
  }

  /** So publish order can fail without any overflow: with a ring of one, two events published between
      registration and replay arrive as the second, the first, the second again. */
  lemma OrderCanFail(c: Config, e0: Event, e1: Event, e2: Event)
    requires c.ringCapacity == 1 && c.queueCapacity <= 0
    requires Matches(c.filter, e0) && Matches(c.filter, e1) && Matches(c.filter, e2)
    requires e0.id != "" && e1.id != "" && e2.id != "" && e0.id != e1.id && e0.id != e2.id && e1.id != e2.id
    ensures exists steps :: Runs(c, Initial([]), steps) && Carries(After(c, Initial([]), steps), [e2, e1, e2])
  {
    hide Matches, Runs, After, Apply, Carries;
    FirstVisitEnds(c, e0);
    TurnedRuns(c, e0, e1, e2);
    TurnedReplays(c, e0, e1, e2);
    var more := [Connect, Publish(e1), Publish(e2)];
    RunConcat(c, Initial([]), FirstVisit(e0), more);
    RunThen(c, Initial([]), FirstVisit(e0) + more, Replay);
    assert Runs(c, Initial([]), FirstVisit(e0) + more + [Replay]);
  }
}
