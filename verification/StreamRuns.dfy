/**
 What holds of one client after every run, whatever cursors it presented: the ids it remembers and the
 cursor it presents name events of the history, a cursor being presented names one from before the
 registration, and everything pending, queued or on the wire was published. Unlike the invariant of
 the resumable runs this needs no hypothesis on the cursors; it is what the exact statement about
 lasting replays starts from.
 */
module StreamRuns {
  import opened Wrappers
  import opened Events
  import opened StreamProtocol
  import opened StreamOrder
  import opened StreamConnection
  import opened StreamLoss

  /** The id is empty or names one of the first `n` events. */
  predicate NamesBefore(h: seq<Event>, id: string, n: nat) {
    id == "" || (IndexOfId(h, id).Some? && IndexOfId(h, id).value < n)
  }

  predicate Within(h: seq<Event>, es: seq<Event>) {
    forall e :: e in es ==> e in h
  }

  /** What every step keeps. */
  ghost predicate RunInv(s: State) {
    && UniqueIds(s.history) && s.dropped == |s.lost|
    && NamesBefore(s.history, s.lastId, |s.history|)
    && NamesBefore(s.history, s.buffer, |s.history|)
    && (s.start.None? ==> s.link.Offline? && s.lastId == "")
    && (s.start.Some? ==> s.start.value <= |s.history|)
    && Within(s.history, WireEvents(s.wire))
    && (!s.link.Offline? ==>
          && s.start.Some?
          && s.start.value <= s.link.sub.born <= |s.history|
          && s.link.sub.dropped == |s.link.sub.lost|
          && Within(s.history, s.link.sub.queue))
    && (s.link.Opening? ==> NamesBefore(s.history, s.link.cursor, s.link.sub.born))
    && (s.link.Streaming? ==> Within(s.history, s.link.pending))
  }

  lemma NamesAppend(h: seq<Event>, e: Event, id: string, n: nat)
    requires UniqueIds(h + [e]) && n <= |h| && NamesBefore(h, id, n)
    ensures NamesBefore(h + [e], id, n)
    ensures NamesBefore(h + [e], id, |h| + 1)
  {
    if id != "" {
      IndexOfIdAppend(h, e, id);
    }
  }

  lemma WithinAppend(h: seq<Event>, e: Event)
    ensures forall es :: Within(h, es) ==> Within(h + [e], es) && Within(h + [e], es + [e])
    ensures forall es :: es != [] && Within(h, es) ==> Within(h, es[1..])
  {
  }

  lemma PublishRuns(c: Config, s: State, e: Event)
    requires RunInv(s) && Enabled(s, Publish(e))
    ensures RunInv(Apply(c, s, Publish(e)))
  {
    hide Matches, UniqueIds, IndexOfId, NamesBefore, Within;
    UniqueAppend(s.history, e);
    WithinAppend(s.history, e);
    NamesAppend(s.history, e, s.lastId, |s.history|);
    NamesAppend(s.history, e, s.buffer, |s.history|);
    if s.link.Opening? {
      NamesAppend(s.history, e, s.link.cursor, s.link.sub.born);
    }
  }

  lemma ReplayWithin(c: Config, h: seq<Event>, cursor: string, f: Filter)
    ensures Within(h, ReplaySince(LastN(h, c.ringCapacity), cursor, Some(f)))
  {
    hide Matches, Select;
    var ring := LastN(h, c.ringCapacity);
    assert forall e :: e in ring ==> e in h;
    assert forall e :: e in ReplayTail(ring, cursor) ==> e in ring;
    SelectMembers(f, ReplayTail(ring, cursor));
  }

  lemma ArriveNames(h: seq<Event>, e: Event)
    requires UniqueIds(h) && e in h
    ensures NamesBefore(h, e.id, |h|)
  {
    var j :| 0 <= j < |h| && h[j] == e;
    assert IndexOfId(h, e.id).Some?;
  }

  lemma ReplayRuns(c: Config, s: State)
    requires RunInv(s) && Enabled(s, Replay)
    ensures RunInv(Apply(c, s, Replay))
  {
    hide Matches, UniqueIds, IndexOfId, NamesBefore, ReplaySince, LastN, ReplayFrom;
    ReplayWithin(c, s.history, s.link.cursor, s.link.sub.filter);
  }

  lemma WriteRuns(c: Config, s: State)
    requires RunInv(s) && Enabled(s, Write)
    ensures RunInv(Apply(c, s, Write))
  {
    hide Matches, UniqueIds, IndexOfId, NamesBefore;
    WireAppend(s.wire, if s.link.pending != [] then Carry(s.link.pending[0])
                       else if !s.link.greeted then Hello else Carry(s.link.sub.queue[0]));
  }

  lemma ArriveRuns(c: Config, s: State)
    requires RunInv(s) && Enabled(s, Arrive)
    ensures RunInv(Apply(c, s, Arrive))
  {
    hide Matches, UniqueIds, IndexOfId;
    if s.wire[0].Carry? {
      ArriveNames(s.history, s.wire[0].event);
    }
  }

  lemma LinkRuns(c: Config, s: State, step: Step)
    requires RunInv(s) && Enabled(s, step) && (step.Connect? || step.Tick? || step.Disconnect?)
    ensures RunInv(Apply(c, s, step))
  {
    hide Matches, UniqueIds, IndexOfId;
    WireAppend(s.wire, KeepAlive);
  }

  lemma RunStep(c: Config, s: State, step: Step)
    requires RunInv(s) && Enabled(s, step)
    ensures RunInv(Apply(c, s, step))
  {
    hide RunInv, Apply, Enabled;
    match step
    case Publish(e) => PublishRuns(c, s, e);
    case Replay => ReplayRuns(c, s);
    case Write => WriteRuns(c, s);
    case Arrive => ArriveRuns(c, s);
    case _ => LinkRuns(c, s, step);
  }

  /** What any run from the start leaves. */
  lemma RunFacts(c: Config, h: seq<Event>, steps: seq<Step>)
    requires UniqueIds(h) && Runs(c, Initial(h), steps)
    ensures var s := After(c, Initial(h), steps); RunInv(s) && ConnectionInv(c, s) && OpenInv(s)
  {
    var s := Initial(h);
    assert RunInv(s) && ConnectionInv(c, s) && OpenInv(s);
    hide RunInv, ConnectionInv, OpenInv, Apply, Enabled, Runs, After;
    forall t, step | RunInv(t) && Enabled(t, step) ensures RunInv(Apply(c, t, step)) {
      RunStep(c, t, step);
    }
    ConnectionSteps(c);
    OpenSteps(c);
    Invariant(c, t => RunInv(t), s, steps);
    Invariant(c, t => ConnectionInv(c, t), s, steps);
    Invariant(c, t => OpenInv(t), s, steps);
  }
}
