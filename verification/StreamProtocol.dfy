/**
 Whole runs of one client of the event stream: publishing, connecting, replaying from
 `Last-Event-ID`, streaming, losing the connection and reconnecting.  The server side is
 `_handle_event_stream`; the client side is an event source that reports the id of the last
 event it was given (section 9.2.4 of the WHATWG HTML Living Standard).
 */
module StreamProtocol {
  import opened Wrappers
  import opened Events
  import SseFormat

  /** What the server writes: an event, the id-less `stream.opened` greeting, or a comment. */
  datatype Frame = Hello | KeepAlive | Carry(event: Event)

  /** `carries`: whether the client starts a new stream's id buffer from its cursor (as browsers
      do) or empty (as section 9.2.6 of the standard words it). */
  datatype Config = Config(filter: Filter, queueCapacity: int, ringCapacity: nat, carries: bool)

  /** The connection as the handler sees it.  `got`, `from` and `upTo` only record what happened:
      the events that reached the client on this connection, and the bounds of the history slice
      that was replayed. */
  datatype Link =
    | Offline
    | Opening(sub: Sub, cursor: string)
    | Streaming(sub: Sub, pending: seq<Event>, greeted: bool, got: seq<Event>, from: nat, upTo: nat)

  /** `wire` holds frames written but not yet received; a lost connection loses them.
      `start` is the length of the history at the first registration. `lost` and `dropped`
      total the overflow of finished connections. */
  datatype State = State(
    history: seq<Event>,
    link: Link,
    wire: seq<Frame>,
    received: seq<Event>,
    lastId: string,
    buffer: string,
    start: Option<nat>,
    lost: seq<Event>,
    dropped: nat)

  datatype Step = Publish(event: Event) | Connect | Replay | Write | Tick | Arrive | Disconnect

  function Initial(h: seq<Event>): State {
    State(h, Offline, [], [], "", "", None, [], 0)
  }

  predicate Enabled(s: State, step: Step) {
    match step
    case Publish(e) => e.id != "" && IndexOfId(s.history, e.id).None?
    case Connect => s.link.Offline?
    case Replay => s.link.Opening?
    case Write => s.link.Streaming? && (s.link.pending != [] || !s.link.greeted || s.link.sub.queue != [])
    case Tick => s.link.Streaming? && s.link.pending == [] && s.link.greeted && s.link.sub.queue == []
    case Arrive => s.link.Streaming? && s.wire != []
    case Disconnect => !s.link.Offline?
  }

  /** Start of the history slice a replay from `cursor` covers. */
  function ReplayFrom(c: Config, h: seq<Event>, cursor: string): nat {
    var at, ringStart := IndexOfId(h, cursor), RingStart(h, c.ringCapacity);
    if at.Some? && at.value + 1 >= ringStart then at.value + 1 else ringStart
  }

  function OfferTo(link: Link, e: Event): Link {
    if link.Offline? then link else link.(sub := Offer(link.sub, e))
  }

  function WriteNext(s: State): State
    requires Enabled(s, Write)
  {
    var k := s.link;
    if k.pending != [] then s.(wire := s.wire + [Carry(k.pending[0])], link := k.(pending := k.pending[1..]))
    else if !k.greeted then s.(wire := s.wire + [Hello], link := k.(greeted := true))
    else s.(wire := s.wire + [Carry(k.sub.queue[0])], link := k.(sub := Take(k.sub)))
  }

  /** The client processes a frame: an event moves its id buffer, and every frame's closing
      blank line copies the buffer to the cursor. */
  function Receive(s: State): State
    requires Enabled(s, Arrive)
  {
    var rest := s.(wire := s.wire[1..]);
    match s.wire[0]
    case Carry(e) =>
      rest.(received := s.received + [e], buffer := e.id, lastId := e.id, link := s.link.(got := s.link.got + [e]))
    case _ => rest.(lastId := s.buffer)
  }

  function Apply(c: Config, s: State, step: Step): State
    requires Enabled(s, step)
  {
    match step
    case Publish(e) => s.(history := s.history + [e], link := OfferTo(s.link, e))
    case Connect =>
      s.(link := Opening(NewSub(c.filter, c.queueCapacity, |s.history|), s.lastId),
         buffer := if c.carries then s.lastId else "",
         start := if s.start.None? then Some(|s.history|) else s.start)
    case Replay =>
      var k := s.link;
      if k.cursor == "" then s.(link := Streaming(k.sub, [], false, [], k.sub.born, k.sub.born))
      else
        var missed := ReplaySince(LastN(s.history, c.ringCapacity), k.cursor, Some(k.sub.filter));
        s.(link := Streaming(k.sub, missed, false, [], ReplayFrom(c, s.history, k.cursor), |s.history|))
    case Write => WriteNext(s)
    case Tick => s.(wire := s.wire + [KeepAlive])
    case Arrive => Receive(s)
    case Disconnect =>
      s.(link := Offline, wire := [], lost := s.lost + s.link.sub.lost, dropped := s.dropped + s.link.sub.dropped)
  }

  predicate Runs(c: Config, s: State, steps: seq<Step>)
    decreases |steps|
  {
    steps == [] || (Enabled(s, steps[0]) && Runs(c, Apply(c, s, steps[0]), steps[1..]))
  }

  function After(c: Config, s: State, steps: seq<Step>): State
    requires Runs(c, s, steps)
    decreases |steps|
  {
    if steps == [] then s else After(c, Apply(c, s, steps[0]), steps[1..])
  }

  lemma RunOne(c: Config, s: State, step: Step)
    requires Enabled(s, step)
    ensures Runs(c, s, [step])
    ensures After(c, s, [step]) == Apply(c, s, step)
  {
    hide Apply, Enabled;
    assert [step][1..] == [];
  }

  lemma {:induction false} RunConcat(c: Config, s: State, a: seq<Step>, b: seq<Step>)
    requires Runs(c, s, a) && Runs(c, After(c, s, a), b)
    ensures Runs(c, s, a + b)
    ensures After(c, s, a + b) == After(c, After(c, s, a), b)
    decreases |a|
  {
    hide Apply, Enabled;
    if a == [] {
      assert a + b == b;
    } else {
      assert (a + b)[1..] == a[1..] + b;
      RunConcat(c, Apply(c, s, a[0]), a[1..], b);
    }
  }

  /** Extends a run by one step. */
  lemma RunThen(c: Config, s: State, a: seq<Step>, step: Step)
    requires Runs(c, s, a) && Enabled(After(c, s, a), step)
    ensures Runs(c, s, a + [step])
    ensures After(c, s, a + [step]) == Apply(c, After(c, s, a), step)
  {
    RunOne(c, After(c, s, a), step);
    RunConcat(c, s, a, [step]);
  }

  /** What every step keeps holds after every run. */
  lemma {:induction false} Invariant(c: Config, inv: State -> bool, s: State, steps: seq<Step>)
    requires inv(s) && Runs(c, s, steps)
    requires forall t, step :: inv(t) && Enabled(t, step) ==> inv(Apply(c, t, step))
    ensures inv(After(c, s, steps))
    decreases |steps|
  {
    if steps != [] {
      hide Apply, Enabled;
      Invariant(c, inv, Apply(c, s, steps[0]), steps[1..]);
    }
  }

  // ---------------------------------------------------------------------------
  // The client step is the standard's parser
  // ---------------------------------------------------------------------------

  function Written(f: Frame, greeting: string): SseFormat.Chunk {
    match f
    case Carry(e) => SseFormat.Frame(e.eventType, e.data, e.id)
    case Hello => SseFormat.Frame("stream.opened", greeting, "")
    case KeepAlive => SseFormat.Comment
  }

  /** Parsing the written bytes of a frame moves the id buffer and the cursor as `Receive` does. */
  lemma ReceiveIsParse(s: State, greeting: string)
    requires Enabled(s, Arrive) && SseFormat.Clean(Written(s.wire[0], greeting))
    requires s.wire[0].Carry? ==> s.wire[0].event.id != ""
    ensures SseFormat.ProcessLines(SseFormat.Idle(s.buffer, s.lastId),
                                   SseFormat.ChunkLines(Written(s.wire[0], greeting))).0
            == SseFormat.Idle(Receive(s).buffer, Receive(s).lastId)
  {
    hide SseFormat.ProcessLines, SseFormat.ChunkLines;
    if s.wire[0].KeepAlive? {
      SseFormat.CommentParses(s.buffer, s.lastId);
    } else {
      SseFormat.FrameParses(Written(s.wire[0], greeting), s.buffer, s.lastId);
    }
  }
}
