/**
 Over whole runs, nothing is lost over reconnects.
 */
module StreamDelivery {
  import opened Wrappers
  import opened Events
  import opened StreamProtocol
  import opened StreamOrder

  /** A cursor that is still in the ring is always good enough. */
  lemma BufferedCursorIsResumable(c: Config, s: State, k: nat)
    requires s.link.Opening? && s.start.Some? && s.link.cursor != "" && UniqueIds(s.history)
    requires k < |LastN(s.history, c.ringCapacity)| && LastN(s.history, c.ringCapacity)[k].id == s.link.cursor
    ensures Resumable(c, s)
  {
    var p := RingStart(s.history, c.ringCapacity) + k;
    assert s.history[p].id == s.link.cursor;
    assert IndexOfId(s.history, s.link.cursor) == Some(p);
  }

  /** Every replay in the run is from a resumable cursor. */
  ghost predicate Resumes(c: Config, s: State, steps: seq<Step>)
    requires Runs(c, s, steps)
    decreases |steps|
  {
    steps == [] ||
    (&& (steps[0] == Replay ==> Resumable(c, s))
     && Resumes(c, Apply(c, s, steps[0]), steps[1..]))
  }

  /** What every step keeps, replays from resumable cursors included, holds after such a run. */
  lemma {:induction false} ResumingInvariant(c: Config, inv: State -> bool, s: State, steps: seq<Step>)
    requires inv(s) && Runs(c, s, steps) && Resumes(c, s, steps)
    requires forall t, step :: inv(t) && Enabled(t, step) && (step == Replay ==> Resumable(c, t))
                               ==> inv(Apply(c, t, step))
    ensures inv(After(c, s, steps))
    decreases |steps|
  {
    if steps != [] {
      hide Apply, Enabled, Resumable;
      ResumingInvariant(c, inv, Apply(c, s, steps[0]), steps[1..]);
    }
  }

  lemma StepsKeep(c: Config)
    ensures forall t, step :: Inv(c, t) && Enabled(t, step) && (step == Replay ==> Resumable(c, t))
                              ==> Inv(c, Apply(c, t, step))
  {
    hide Inv, Apply, Enabled, Resumable;
    forall t, step | Inv(c, t) && Enabled(t, step) && (step == Replay ==> Resumable(c, t))
      ensures Inv(c, Apply(c, t, step))
    {
      StepKeeps(c, t, step);
    }
  }

  /** Whether event `i` of the history has reached the client, been counted as dropped, or is on
      its way; while no stream is open, whether it can still be asked for. */
  ghost predicate AccountedFor(c: Config, s: State, i: nat)
    requires i < |s.history| && s.start.Some?
  {
    || SettledIn(s, s.history[i])
    || (s.link.Streaming? && s.history[i] in Pipe(s))
    || (!s.link.Streaming? && i >= Floor(s.history, s.start.value, s.lastId))
  }

  /** The main delivery guarantee.  Over every run in which each replay is from a resumable
      cursor, no event published since the first registration that the client asked for (by type, by
      component, and by session or without one) goes missing: it has been received, has been counted
      as dropped, or is still on its way.  Once nothing is on its way, every one has been received or
      counted, and the counter counts exactly the drops. */
  lemma ResumeWithoutLoss(c: Config, h: seq<Event>, steps: seq<Step>)
    requires UniqueIds(h) && Runs(c, Initial(h), steps) && Resumes(c, Initial(h), steps)
    ensures var s, f := After(c, Initial(h), steps), c.filter;
            && DroppedSoFar(s) == |LostSoFar(s)|
            && (s.start.Some? ==>
                  forall i :: s.start.value <= i < |s.history|
                              && (f.types == None || s.history[i].eventType in f.types.value)
                              && (f.components == None || (s.history[i].component.Some?
                                                           && s.history[i].component.value in f.components.value))
                              && (f.sessionId == None || s.history[i].sessionId in {None, f.sessionId})
                    ==> AccountedFor(c, s, i)
                        && (s.link.Streaming? && Pipe(s) == [] ==> SettledIn(s, s.history[i])))
  {
    hide Apply, Enabled, Resumable, Matches;
    assert h + [] == h;
    StepsKeep(c);
    ResumingInvariant(c, t => Inv(c, t), Initial(h), steps);
    var s := After(c, Initial(h), steps);
    if !s.link.Offline? {
      LogFacts(s.history, s.link.sub);
    }
    forall e: Event { MatchesMeans(c.filter, e); }
  }

  // ---------------------------------------------------------------------------
  // Nothing else arrives
  // ---------------------------------------------------------------------------

  ghost predicate AllMatch(f: Filter, es: seq<Event>) {
    forall e :: e in es ==> Matches(f, e)
  }

  ghost predicate OnlyAskedFor(c: Config, s: State) {
    && AllMatch(c.filter, s.received)
    && AllMatch(c.filter, WireEvents(s.wire))
    && (!s.link.Offline? ==> s.link.sub.filter == c.filter && AllMatch(c.filter, s.link.sub.queue))
    && (s.link.Streaming? ==> AllMatch(c.filter, s.link.pending))
  }

  lemma OnlyAskedForStep(c: Config, s: State, step: Step)
    requires OnlyAskedFor(c, s) && Enabled(s, step)
    ensures OnlyAskedFor(c, Apply(c, s, step))
  {
    hide Matches, Select, LastN, ReplayFrom, IndexOfId, ReplayTail;
    match step
    case Replay => SelectMembers(s.link.sub.filter, ReplayTail(LastN(s.history, c.ringCapacity), s.link.cursor));
    case Write =>
      WireAppend(s.wire, if s.link.pending != [] then Carry(s.link.pending[0])
                         else if !s.link.greeted then Hello else Carry(s.link.sub.queue[0]));
    case Tick => WireAppend(s.wire, KeepAlive);
    case _ =>
  }

  /** Over every run, resumable or not, a client receives only what it asked for: never an event of
      another type or about another component, and never one of another session. */
  lemma ReceivedWasAskedFor(c: Config, h: seq<Event>, steps: seq<Step>)
    requires Runs(c, Initial(h), steps)
    ensures forall e :: e in After(c, Initial(h), steps).received ==>
              && (c.filter.types == None || e.eventType in c.filter.types.value)
              && (c.filter.components == None || (e.component.Some? && e.component.value in c.filter.components.value))
              && (c.filter.sessionId == None || e.sessionId in {None, c.filter.sessionId})
  {
    hide Apply, Enabled, Matches;
    forall t, step | OnlyAskedFor(c, t) && Enabled(t, step) ensures OnlyAskedFor(c, Apply(c, t, step)) {
      OnlyAskedForStep(c, t, step);
    }
    Invariant(c, t => OnlyAskedFor(c, t), Initial(h), steps);
    forall e: Event { MatchesMeans(c.filter, e); }
  }
}
