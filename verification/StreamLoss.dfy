/**
 What a replay that reaches back too little loses, and that it is lost for good.
 */
module StreamLoss {
  import opened Wrappers
  import opened Events
  import opened StreamProtocol
  import opened StreamOrder
  import opened StreamDelivery
  import opened StreamConnection

  // ---------------------------------------------------------------------------
  // Exactly what a replay leaves out
  // ---------------------------------------------------------------------------

  /** Where what the replay and the queue of a connection cover together begins. */
  function CoverStart(c: Config, s: State): nat
    requires s.link.Opening?
  {
    var born := s.link.sub.born;
    if s.link.cursor == "" then born
    else
      var from := ReplayFrom(c, s.history, s.link.cursor);
      if from < born then from else born
  }

  /** Every matching event since the first registration is received, counted, on its way, or can
      still be asked for. */
  ghost predicate AllAccountedFor(c: Config, s: State) {
    s.start.Some? && forall i :: s.start.value <= i < |s.history| && Matches(c.filter, s.history[i]) ==> AccountedFor(c, s, i)
  }

  /** Every matching event from before the cover was received or counted already. */
  ghost predicate GapSettled(c: Config, s: State)
    requires s.link.Opening? && s.start.Some?
  {
    forall i :: s.start.value <= i < CoverStart(c, s) && i < |s.history| && Matches(c.filter, s.history[i])
                ==> SettledIn(s, s.history[i])
  }

  /** What a subscriber was offered is in its queue or has left it. */
  lemma QueuedOrSettled(c: Config, s: State)
    requires ConnectionInv(c, s) && s.link.Opening?
    ensures s.link.sub.born <= |s.history|
    ensures forall i :: s.link.sub.born <= i < |s.history| && Matches(c.filter, s.history[i])
                        ==> s.history[i] in s.link.sub.queue || s.history[i] in s.link.sub.lost
    ensures forall e :: e in s.link.sub.queue ==> exists j :: s.link.sub.born <= j < |s.history| && s.history[j] == e
  {
    hide Matches, Select;
    var h, sub := s.history, s.link.sub;
    LogFacts(h, sub);
    var gone := Gone(h, sub);
    hide Accounted;
    MergeFacts(gone, sub.taken, sub.lost);
    var es := h[sub.born..];
    SelectMembers(sub.filter, es);
    forall i | sub.born <= i < |h| && Matches(c.filter, h[i]) ensures h[i] in sub.queue || h[i] in sub.lost {
      assert es[i - sub.born] == h[i];
      assert h[i] in gone + sub.queue;
    }
    forall e | e in sub.queue ensures exists j :: sub.born <= j < |h| && h[j] == e {
      assert e in gone + sub.queue;
      var k :| 0 <= k < |es| && es[k] == e;
      assert h[sub.born + k] == e;
    }
  }

  /** What a replay sends. */
  lemma ReplaySends(c: Config, s: State)
    requires ConnectionInv(c, s) && s.link.Opening?
    ensures var t := Apply(c, s, Replay);
            && t.link.Streaming?
            && t.wire == []
            && t.link.sub == s.link.sub
            && t.history == s.history
            && Settled(t) == Settled(s)
            && Pipe(t) == t.link.pending + s.link.sub.queue
            && t.link.pending == if s.link.cursor == "" then []
                                 else Select(c.filter, s.history[ReplayFrom(c, s.history, s.link.cursor)..])
  {
    hide Accounted, Select, LastN, ReplayFrom, UniqueIds, ReplayTail;
    TailIsSuffix(c, s.history, s.link.cursor);
    var t := Apply(c, s, Replay);
    assert WireEvents(t.wire) == [];
    assert [] + t.link.pending + s.link.sub.queue == t.link.pending + s.link.sub.queue;
  }

  lemma SameEvent(h: seq<Event>, i: nat, j: nat)
    requires UniqueIds(h) && i < |h| && j < |h| && h[i] == h[j]
    ensures i == j
  {
  }

  lemma FromMembers(f: Filter, h: seq<Event>, from: nat, i: nat)
    requires UniqueIds(h) && from <= |h| && i < |h|
    ensures h[i] in Select(f, h[from..]) <==> i >= from && Matches(f, h[i])
  {
    hide Matches, Select;
    SelectMembers(f, h[from..]);
    if h[i] in h[from..] {
      var k :| 0 <= k < |h[from..]| && h[from..][k] == h[i];
      SameEvent(h, i, from + k);
    }
    if i >= from {
      assert h[from..][i - from] == h[i];
    }
  }

  /** Which events a connection that has just replayed still has on their way. */
  lemma OnTheirWay(c: Config, s: State, i: nat)
    requires ConnectionInv(c, s) && s.link.Opening? && i < |s.history| && Matches(c.filter, s.history[i])
    ensures i < CoverStart(c, s) ==> s.history[i] !in Pipe(Apply(c, s, Replay))
    ensures i >= CoverStart(c, s) ==> s.history[i] in Pipe(Apply(c, s, Replay)) || s.history[i] in s.link.sub.lost
  {
    hide Matches, Select, Accounted, Merge, Apply, Pipe, UniqueIds;
    var h := s.history;
    ReplaySends(c, s);
    QueuedOrSettled(c, s);
    TailIsSuffix(c, h, s.link.cursor);
    if s.link.cursor != "" {
      FromMembers(c.filter, h, ReplayFrom(c, h, s.link.cursor), i);
    }
    if h[i] in s.link.sub.queue {
      var j :| s.link.sub.born <= j < |h| && h[j] == h[i];
      SameEvent(h, i, j);
    }
  }

  /** After any run, whatever the cursor: at the moment after a replay every matching event is
      accounted for exactly when those from before what it and the queue cover were received or
      counted already.  How long that lasts is `ReplayLastsIff`. */
  lemma ReplayAccountsIff(c: Config, h: seq<Event>, steps: seq<Step>)
    requires UniqueIds(h) && Runs(c, Initial(h), steps) && After(c, Initial(h), steps).link.Opening?
    ensures var s := After(c, Initial(h), steps);
            s.start.Some? && (AllAccountedFor(c, Apply(c, s, Replay)) <==> GapSettled(c, s))
  {
    assert ConnectionInv(c, Initial(h));
    hide Runs, After, Accounted, Select, Matches, ConnectionInv, CoverStart, Pipe, Settled, SettledIn, ReplaySince;
    ConnectionSteps(c);
    OpenSteps(c);
    Invariant(c, s => ConnectionInv(c, s), Initial(h), steps);
    Invariant(c, s => OpenInv(s), Initial(h), steps);
    var s := After(c, Initial(h), steps);
    ReplayAccounts(c, s);
  }

  lemma ReplayAccounts(c: Config, s: State)
    requires ConnectionInv(c, s) && s.link.Opening? && s.start.Some? && Apply(c, s, Replay).start == s.start
    ensures AllAccountedFor(c, Apply(c, s, Replay)) <==> GapSettled(c, s)
  {
    hide Matches, Select, Accounted, Merge, Apply, Pipe, CoverStart, ConnectionInv;
    ReplaySends(c, s);
    var t := Apply(c, s, Replay);
    assert forall e :: SettledIn(t, e) <==> e in Settled(t);
    assert forall e :: SettledIn(s, e) <==> e in Settled(s);
    forall i: nat | i < |s.history| && Matches(c.filter, s.history[i])
      ensures AccountedFor(c, t, i) <==> i >= CoverStart(c, s) || SettledIn(s, s.history[i])
    {
      OnTheirWay(c, s, i);
    }
  }

  // ---------------------------------------------------------------------------
  // Lost for good
  // ---------------------------------------------------------------------------

  /** What holds of an opening connection in every run. */
  ghost predicate OpenInv(s: State) {
    && (s.link.Opening? ==> s.link.cursor == s.lastId && (s.buffer == s.lastId || s.buffer == ""))
    && (!s.link.Offline? ==> s.start.Some?)
    && (!s.link.Streaming? ==> s.wire == [])
  }

  lemma OpenSteps(c: Config)
    ensures forall s, step :: OpenInv(s) && Enabled(s, step) ==> OpenInv(Apply(c, s, step))
  {
    hide OpenInv, Apply, Enabled;
    forall s, step | OpenInv(s) && Enabled(s, step) ensures OpenInv(Apply(c, s, step)) {
      OpenStep(c, s, step);
    }
  }

  lemma OpenStep(c: Config, s: State, step: Step)
    requires OpenInv(s) && Enabled(s, step)
    ensures OpenInv(Apply(c, s, step))
  {
    hide ReplaySince, LastN, ReplayFrom, Matches;
  }

  /** The event stands somewhere after position `i`. */
  ghost predicate Later(h: seq<Event>, i: nat, e: Event) {
    exists j :: i < j < |h| && h[j] == e
  }

  /** A replay from this cursor starts after position `i`. */
  predicate Past(c: Config, h: seq<Event>, id: string, i: nat) {
    id == "" || i < ReplayFrom(c, h, id)
  }

  /** Event `i` was neither received nor counted, and nothing leads back to it. */
  ghost predicate Missed(c: Config, s: State, i: nat) {
    && UniqueIds(s.history)
    && i < |s.history|
    && !SettledIn(s, s.history[i])
    && Past(c, s.history, s.lastId, i)
    && Past(c, s.history, s.buffer, i)
    && (!s.link.Offline? ==> i < s.link.sub.born && forall e :: e in s.link.sub.queue ==> Later(s.history, i, e))
    && (s.link.Opening? ==> s.link.cursor == s.lastId)
    && (forall e :: e in WireEvents(s.wire) ==> Later(s.history, i, e))
    && (s.link.Streaming? ==> forall e :: e in s.link.pending ==> Later(s.history, i, e))
  }

  lemma LaterIsOther(h: seq<Event>, i: nat, e: Event)
    requires UniqueIds(h) && i < |h| && Later(h, i, e)
    ensures e != h[i]
  {
  }

  lemma LaterAppend(h: seq<Event>, e: Event, i: nat)
    requires i < |h|
    ensures forall x :: Later(h, i, x) ==> Later(h + [e], i, x)
    ensures Later(h + [e], i, e)
  {
    forall x | Later(h, i, x) ensures Later(h + [e], i, x) {
      var j :| i < j < |h| && h[j] == x;
      assert (h + [e])[j] == x;
    }
    assert (h + [e])[|h|] == e;
  }

  lemma PastAppend(c: Config, h: seq<Event>, e: Event, id: string, i: nat)
    requires UniqueIds(h + [e]) && i < |h| && Past(c, h, id, i)
    ensures Past(c, h + [e], id, i)
  {
    var at, at' := IndexOfId(h, id), IndexOfId(h + [e], id);
    assert forall k :: 0 <= k < |h| ==> (h + [e])[k] == h[k];
    assert at.Some? ==> at' == at;
  }

  lemma PastLater(c: Config, h: seq<Event>, i: nat, e: Event)
    requires UniqueIds(h) && Later(h, i, e)
    ensures Past(c, h, e.id, i)
  {
    var j :| i < j < |h| && h[j] == e;
    assert IndexOfId(h, e.id) == Some(j);
  }

  lemma MissedPublish(c: Config, s: State, e: Event, i: nat)
    requires Missed(c, s, i) && Enabled(s, Publish(e))
    ensures Missed(c, Apply(c, s, Publish(e)), i)
  {
    hide Matches, UniqueIds, Later, Past, IndexOfId;
    UniqueAppend(s.history, e);
    LaterAppend(s.history, e, i);
    PastAppend(c, s.history, e, s.lastId, i);
    PastAppend(c, s.history, e, s.buffer, i);
    if !s.link.Offline? && s.link.sub.queue != [] {
      LaterIsOther(s.history, i, s.link.sub.queue[0]);
    }
  }

  lemma MissedReplay(c: Config, s: State, i: nat)
    requires Missed(c, s, i) && Enabled(s, Replay)
    ensures Missed(c, Apply(c, s, Replay), i)
  {
    hide Matches, Select, LastN, ReplayTail, ReplayFrom;
    var h := s.history;
    if s.link.cursor != "" {
      TailIsSuffix(c, h, s.link.cursor);
      var from := ReplayFrom(c, h, s.link.cursor);
      SelectMembers(s.link.sub.filter, h[from..]);
      forall e | e in h[from..] ensures Later(h, i, e) {
        var k :| 0 <= k < |h[from..]| && h[from..][k] == e;
        assert h[from + k] == e;
      }
    }
  }

  lemma MissedStep(c: Config, s: State, step: Step, i: nat)
    requires Missed(c, s, i) && Enabled(s, step)
    ensures Missed(c, Apply(c, s, step), i)
    ensures Apply(c, s, step).history[i] == s.history[i]
  {
    assert Past(c, s.history, "", i);
    hide Matches, UniqueIds, Later, Past, ReplaySince, ReplayFrom;
    match step
    case Publish(e) => MissedPublish(c, s, e, i);
    case Replay => MissedReplay(c, s, i);
    case Write =>
      WireAppend(s.wire, if s.link.pending != [] then Carry(s.link.pending[0])
                         else if !s.link.greeted then Hello else Carry(s.link.sub.queue[0]));
    case Tick => WireAppend(s.wire, KeepAlive);
    case Arrive =>
      if s.wire[0].Carry? {
        LaterIsOther(s.history, i, s.wire[0].event);
        PastLater(c, s.history, i, s.wire[0].event);
      }
    case Connect =>
    case Disconnect =>
  }

  /** `e` is event `i` of the history, and missed. */
  ghost predicate MissedEvent(c: Config, s: State, i: nat, e: Event) {
    Missed(c, s, i) && s.history[i] == e
  }

  lemma MissedSteps(c: Config, i: nat, e: Event)
    ensures forall s, step :: MissedEvent(c, s, i, e) && Enabled(s, step) ==> MissedEvent(c, Apply(c, s, step), i, e)
  {
    hide Missed, Apply, Enabled;
    forall s, step | MissedEvent(c, s, i, e) && Enabled(s, step) ensures MissedEvent(c, Apply(c, s, step), i, e) {
      MissedStep(c, s, step, i);
    }
  }

  /** An event a replay leaves out is never received or counted in any continuation, reconnects
      included. */
  lemma LeftOutIsLost(c: Config, h: seq<Event>, steps: seq<Step>, i: nat, more: seq<Step>)
    requires UniqueIds(h) && Runs(c, Initial(h), steps) && After(c, Initial(h), steps).link.Opening?
    requires var s := After(c, Initial(h), steps);
             && i < CoverStart(c, s)
             && i < |s.history|
             && !SettledIn(s, s.history[i])
             && Runs(c, Apply(c, s, Replay), more)
    ensures var s, t := After(c, Initial(h), steps), After(c, Apply(c, After(c, Initial(h), steps), Replay), more);
            i < |t.history| && t.history[i] == s.history[i] && !SettledIn(t, t.history[i])
  {
    assert ConnectionInv(c, Initial(h));
    hide Runs, After, Apply, Accounted, Select, Matches, ConnectionInv, UniqueIds;
    ConnectionSteps(c);
    OpenSteps(c);
    Invariant(c, s => ConnectionInv(c, s), Initial(h), steps);
    Invariant(c, s => OpenInv(s), Initial(h), steps);
    var s := After(c, Initial(h), steps);
    LeftOutIsMissed(c, s, i);
    MissedStep(c, s, Replay, i);
    MissedMeans(c, Apply(c, s, Replay), i);
    MissedSteps(c, i, s.history[i]);
    Invariant(c, t => MissedEvent(c, t, i, s.history[i]), Apply(c, s, Replay), more);
    hide Missed;
    MissedMeans(c, After(c, Apply(c, s, Replay), more), i);
  }

  lemma MissedMeans(c: Config, s: State, i: nat)
    requires Missed(c, s, i)
    ensures i < |s.history| && !SettledIn(s, s.history[i])
  {
  }

  lemma LeftOutIsMissed(c: Config, s: State, i: nat)
    requires ConnectionInv(c, s) && OpenInv(s) && s.link.Opening?
    requires i < CoverStart(c, s) && i < |s.history| && !SettledIn(s, s.history[i])
    ensures Missed(c, s, i)
  {
    hide Matches, Select, Accounted, Merge, ReplayFrom;
    QueuedOrSettled(c, s);
    forall e | e in s.link.sub.queue ensures Later(s.history, i, e) {
      var j :| s.link.sub.born <= j < |s.history| && s.history[j] == e;
    }
  }
}
