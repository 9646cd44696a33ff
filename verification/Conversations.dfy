/**
 The gateway's conversation path: a working set of recent conversations over the memory manager's
 own cache over the store.  `ClaimStore` says what each operation means without any cache; here
 the cached form is proved to mean the same.
 */
module Conversations {
  import opened Wrappers
  import opened OrderedDict
  import opened ClaimStore

  /** A conversation in the memory manager's cache. */
  datatype Cached = Cached(messages: seq<Message>, owner: string)

  datatype Gateway = Gateway(store: Store, cache: Dict<Cached>, working: Dict<seq<Message>>)

  /** The two cache sizes; both are clamped to at least one. */
  datatype Caps = Caps(memory: nat, working: nat)

  ghost predicate CapsOk(c: Caps) {
    c.memory >= 1 && c.working >= 1
  }

  // --- the memory manager --------------------------------------------------------

  /** Lazy load: a cached conversation is touched, another is read from the store. */
  function Load(c: Caps, g: Gateway, sid: string): Gateway {
    if sid in g.cache.held then g.(cache := Touch(g.cache, sid, g.cache.held[sid]))
    else g.(cache := Evict(Set(g.cache, sid, Cached(StoredIn(g.store, sid), OwnerIn(g.store, sid))), sid, c.memory))
  }

  function CachedMessages(g: Gateway, sid: string): seq<Message> {
    if sid in g.cache.held then g.cache.held[sid].messages else []
  }

  function CachedOwner(g: Gateway, sid: string): string {
    if sid in g.cache.held then g.cache.held[sid].owner else ""
  }

  function ClaimConversation(c: Caps, g: Gateway, sid: string, owner: string): Gateway {
    var g1 := Load(c, g, sid);
    if owner == "" || CachedOwner(g1, sid) != "" then g1
    else
      var store := ClaimFor(g1.store, sid, owner);
      Gateway(store, Set(g1.cache, sid, Cached(CachedMessages(g1, sid), OwnerIn(store, sid))), g1.working)
  }

  function SaveConversation(c: Caps, g: Gateway, sid: string, messages: seq<Message>, claim: Claim): (Gateway, bool) {
    var (store, saved) := Save(g.store, sid, messages, claim);
    if !saved then (g.(cache := Pop(g.cache, sid)), false)
    else
      (g.(store := store,
          cache := Evict(Touch(g.cache, sid, Cached(messages, OwnerIn(store, sid))), sid, c.memory)), true)
  }

  /** The ids whose cached copy says the account owns them. */
  function CachedIds(g: Gateway, owner: string): set<string> {
    set sid | sid in g.cache.held && g.cache.held[sid].owner == owner
  }

  function HeldIds(g: Gateway, owner: string): set<string> {
    if owner == "" then {} else OwnedIds(g.store, owner) + CachedIds(g, owner)
  }

  // --- the gateway ---------------------------------------------------------------

  function OpenCached(c: Caps, g: Gateway, sid: string, identity: string): (Gateway, Answer) {
    if NamesAnother(sid, identity) then (g, Admission(None, true))
    else
      var claim := CurrentClaim(g.store, sid);
      if claim.owner == "" && identity != "" then
        var g1 := ClaimConversation(c, g, sid, identity);
        var claim1 := CurrentClaim(g1.store, sid);
        (g1, Admission(Some(claim1), claim1.owner != "" && claim1.owner != identity))
      else (g, Admission(Some(claim), claim.owner != "" && claim.owner != identity))
  }

  /** The completed turns of a conversation: the working-set entry, hydrated on a miss. */
  function ShowCached(c: Caps, g: Gateway, sid: string): (Gateway, seq<Message>) {
    if sid in g.working.held then
      var h := g.working.held[sid];
      (g.(working := Evict(Touch(g.working, sid, h), sid, c.working)), h)
    else
      var g1 := Load(c, g, sid);
      var h := CachedMessages(g1, sid);
      (g1.(working := Evict(Touch(g1.working, sid, h), sid, c.working)), h)
  }

  function RecordCached(c: Caps, g: Gateway, sid: string, message: string, reply: string, claim: Claim, fails: bool): Gateway {
    var (g1, h) := ShowCached(c, g, sid);
    var h1 := WithTurn(h, message, reply);
    var g2 := g1.(working := Set(g1.working, sid, h1));
    if fails then g2.(working := Pop(g2.working, sid))
    else
      var (g3, saved) := SaveConversation(c, g2, sid, h1, claim);
      if saved then g3 else g3.(working := Pop(g3.working, sid))
  }

  /** Account erasure, and the dropping of this process's copies that follows it either way. */
  function EraseCached(g: Gateway, owner: string, now: real, fails: bool): Gateway {
    var ids := HeldIds(g, owner);
    var g1 := if fails || owner == "" then g
              else g.(store := Erase(g.store, owner, ids, now), cache := Forget(g.cache, ids));
    g1.(working := Forget(g1.working, ids))
  }

  function CachedStep(c: Caps, g: Gateway, op: Op): (Gateway, Answer) {
    match op
    case Open(sid, identity) => OpenCached(c, g, sid, identity)
    case Show(sid) => var r := ShowCached(c, g, sid); (r.0, History(r.1))
    case Record(sid, message, reply, claim, fails) => (RecordCached(c, g, sid, message, reply, claim, fails), Silent)
    case EraseAccount(owner, now, fails) => (EraseCached(g, owner, now, fails), Silent)
    case PruneLog(now, window) => (g.(store := Prune(g.store, now, window)), Silent)
  }

  // ---------------------------------------------------------------------------
  // The caches are transparent
  // ---------------------------------------------------------------------------

  /** Every cached copy equals what the store holds, and no cache exceeds its cap. */
  ghost predicate Coherent(c: Caps, g: Gateway) {
    && StoreOk(g.store)
    && Valid(g.cache) && Valid(g.working)
    && |g.cache.order| <= c.memory
    && |g.working.order| <= c.working
    && CacheTrue(g.store, g.cache)
    && WorkingTrue(g.store, g.working)
  }

  ghost predicate CacheTrue(s: Store, d: Dict<Cached>) {
    forall sid :: sid in d.held ==> d.held[sid] == Cached(StoredIn(s, sid), OwnerIn(s, sid))
  }

  ghost predicate WorkingTrue(s: Store, d: Dict<seq<Message>>) {
    forall sid :: sid in d.held ==> d.held[sid] == StoredIn(s, sid)
  }

  lemma TouchEvict<V>(d: Dict<V>, sid: string, v: V, cap: nat)
    requires Valid(d) && cap >= 1
    ensures var e := Evict(Touch(d, sid, v), sid, cap);
            && Valid(e)
            && |e.order| <= cap
            && sid in e.held
            && e.held[sid] == v
            && (forall k :: k in e.held && k != sid ==> k in d.held && e.held[k] == d.held[k])
  {
    hide Evict, Touch, Valid, LastN;
    TouchValid(d, sid, v);
    EvictKeepsRecent(Touch(d, sid, v), sid, cap);
  }

  lemma SetNewIsTouch<V>(d: Dict<V>, sid: string, v: V)
    requires sid !in d.held
    ensures Set(d, sid, v) == Touch(d, sid, v)
  {
  }

  lemma SetOld<V>(d: Dict<V>, sid: string, v: V)
    requires Valid(d) && sid in d.held
    ensures Valid(Set(d, sid, v))
    ensures Set(d, sid, v).order == d.order
    ensures Set(d, sid, v).held == d.held[sid := v]
  {
  }

  lemma TouchSame<V>(d: Dict<V>, sid: string)
    requires Valid(d) && sid in d.held
    ensures var t := Touch(d, sid, d.held[sid]);
            Valid(t) && t.held == d.held && |t.order| == |d.order|
  {
    TouchOrder(d, sid, d.held[sid]);
    TouchValid(d, sid, d.held[sid]);
    ValidMembers(d);
    assert sid in d.order;
    MinusOne(d.order, sid);
    hide Touch;
    assert d.held[sid := d.held[sid]] == d.held;
  }

  lemma LoadKeeps(c: Caps, g: Gateway, sid: string)
    requires CapsOk(c) && Coherent(c, g)
    ensures var g1 := Load(c, g, sid);
            && Coherent(c, g1)
            && g1.store == g.store
            && g1.working == g.working
            && sid in g1.cache.held
            && CachedMessages(g1, sid) == StoredIn(g.store, sid)
            && CachedOwner(g1, sid) == OwnerIn(g.store, sid)
  {
    hide Evict, Touch, Set, Valid, StoreOk, WorkingTrue;
    if sid in g.cache.held {
      TouchSame(g.cache, sid);
    } else {
      var v := Cached(StoredIn(g.store, sid), OwnerIn(g.store, sid));
      SetNewIsTouch(g.cache, sid, v);
      TouchEvict(g.cache, sid, v, c.memory);
    }
  }

  lemma ClaimForFacts(s: Store, sid: string, owner: string)
    requires StoreOk(s) && owner != "" && OwnerIn(s, sid) == ""
    ensures var t := ClaimFor(s, sid, owner);
            && StoreOk(t)
            && (forall k :: StoredIn(t, k) == StoredIn(s, k))
            && (forall k :: OwnerIn(t, k) == if k == sid then owner else OwnerIn(s, k))
  {
  }

  lemma ClaimKeeps(c: Caps, g: Gateway, sid: string, owner: string)
    requires CapsOk(c) && Coherent(c, g) && owner != "" && OwnerIn(g.store, sid) == ""
    ensures var g1 := ClaimConversation(c, g, sid, owner);
            Coherent(c, g1) && g1.store == ClaimFor(g.store, sid, owner)
  {
    hide Load, Set, Valid, StoreOk, ClaimFor, StoredIn, OwnerIn;
    LoadKeeps(c, g, sid);
    var g1 := Load(c, g, sid);
    ClaimForFacts(g.store, sid, owner);
    SetOld(g1.cache, sid, Cached(CachedMessages(g1, sid), OwnerIn(ClaimFor(g1.store, sid, owner), sid)));
  }

  lemma OpenKeeps(c: Caps, g: Gateway, sid: string, identity: string)
    requires CapsOk(c) && Coherent(c, g)
    ensures var r := OpenCached(c, g, sid, identity);
            && Coherent(c, r.0)
            && r.0.store == OpenTurn(g.store, sid, identity).0
            && r.1 == OpenTurn(g.store, sid, identity).1
  {
    hide ClaimConversation, Coherent, ClaimFor, NamesAnother;
    if !NamesAnother(sid, identity) && OwnerIn(g.store, sid) == "" && identity != "" {
      ClaimKeeps(c, g, sid, identity);
    }
  }

  lemma ShowKeeps(c: Caps, g: Gateway, sid: string)
    requires CapsOk(c) && Coherent(c, g)
    ensures var r := ShowCached(c, g, sid);
            && Coherent(c, r.0)
            && r.0.store == g.store
            && r.1 == StoredIn(g.store, sid)
            && sid in r.0.working.held
            && r.0.working.held[sid] == r.1
  {
    hide Load, Evict, Touch, Valid, StoreOk, StoredIn, OwnerIn, CacheTrue;
    if sid in g.working.held {
      TouchEvict(g.working, sid, g.working.held[sid], c.working);
    } else {
      LoadKeeps(c, g, sid);
      TouchEvict(g.working, sid, CachedMessages(Load(c, g, sid), sid), c.working);
    }
  }

  lemma SaveFacts(s: Store, sid: string, messages: seq<Message>, claim: Claim)
    requires StoreOk(s) && messages != []
    ensures var (t, saved) := Save(s, sid, messages, claim);
            && StoreOk(t)
            && (forall k :: OwnerIn(t, k) == OwnerIn(s, k))
            && (forall k :: k != sid ==> StoredIn(t, k) == StoredIn(s, k))
            && (saved ==> StoredIn(t, sid) == messages)
            && (!saved ==> t == s)
  {
    hide Stands;
  }

  lemma RecordKeeps(c: Caps, g: Gateway, sid: string, message: string, reply: string, claim: Claim, fails: bool)
    requires CapsOk(c) && Coherent(c, g)
    ensures var g1 := RecordCached(c, g, sid, message, reply, claim, fails);
            var (store, saved) := RecordTurn(g.store, sid, message, reply, claim, fails);
            && Coherent(c, g1)
            && g1.store == store
            && (!saved ==> sid !in g1.working.held)
  {
    hide ShowCached, Evict, Touch, Set, Pop, Valid, StoreOk, StoredIn, OwnerIn, Save, WithTurn;
    ShowKeeps(c, g, sid);
    var (g1, h) := ShowCached(c, g, sid);
    var h1 := WithTurn(h, message, reply);
    TurnIsNotEmpty(h, message, reply);
    SetOld(g1.working, sid, h1);
    PopValid(Set(g1.working, sid, h1), sid);
    SaveFacts(g.store, sid, h1, claim);
    PopValid(g1.cache, sid);
    TouchEvict(g1.cache, sid, Cached(h1, OwnerIn(Save(g.store, sid, h1, claim).0, sid)), c.memory);
  }

  lemma EraseFacts(s: Store, owner: string, ids: set<string>, now: real)
    requires StoreOk(s) && owner != "" && ids == OwnedIds(s, owner)
    ensures var t := Erase(s, owner, ids, now);
            && StoreOk(t)
            && (forall k :: k !in ids ==> StoredIn(t, k) == StoredIn(s, k) && OwnerIn(t, k) == OwnerIn(s, k))
  {
    OwnedAre(s, owner);
    EraseKeeps(s, owner, now);
  }

  lemma HeldAreOwned(c: Caps, g: Gateway, owner: string)
    requires Coherent(c, g) && owner != ""
    ensures HeldIds(g, owner) == OwnedIds(g.store, owner)
  {
    OwnedAre(g.store, owner);
  }

  lemma EraseCachedKeeps(c: Caps, g: Gateway, owner: string, now: real, fails: bool)
    requires CapsOk(c) && Coherent(c, g)
    ensures var g1 := EraseCached(g, owner, now, fails);
            && Coherent(c, g1)
            && g1.store == (if fails || owner == "" then g.store else Erase(g.store, owner, OwnedIds(g.store, owner), now))
            && (forall sid :: owner != "" && OwnerIn(g.store, sid) == owner ==> sid !in g1.working.held)
  {
    hide Forget, Erase, Valid;
    var ids := HeldIds(g, owner);
    ForgetValid(g.working, ids);
    ForgetValid(g.cache, ids);
    if owner != "" {
      HeldAreOwned(c, g, owner);
      OwnedAre(g.store, owner);
      EraseFacts(g.store, owner, ids, now);
    }
    hide StoreOk, StoredIn, OwnerIn, HeldIds, OwnedIds;
  }

  /** One operation: the cached gateway answers, and leaves the store, as the store alone would. */
  lemma StepTransparent(c: Caps, g: Gateway, op: Op)
    requires CapsOk(c) && Coherent(c, g)
    ensures var r := CachedStep(c, g, op);
            && Coherent(c, r.0)
            && r.0.store == StoreStep(g.store, op).0
            && r.1 == StoreStep(g.store, op).1
  {
    hide Coherent, OpenCached, ShowCached, RecordCached, EraseCached, OpenTurn, RecordTurn, Erase, Prune, OwnedIds;
    match op
    case Open(sid, identity) => OpenKeeps(c, g, sid, identity);
    case Show(sid) => ShowKeeps(c, g, sid);
    case Record(sid, message, reply, claim, fails) => RecordKeeps(c, g, sid, message, reply, claim, fails);
    case EraseAccount(owner, now, fails) => EraseCachedKeeps(c, g, owner, now, fails);
    case PruneLog(now, window) => PruneTransparent(c, g, now, window);
  }

  lemma PruneTransparent(c: Caps, g: Gateway, now: real, window: real)
    requires Coherent(c, g)
    ensures Coherent(c, g.(store := Prune(g.store, now, window)))
  {
    hide Valid;
    PruneKeeps(g.store, now, window);
  }

  function CachedRun(c: Caps, g: Gateway, ops: seq<Op>): (Gateway, seq<Answer>)
    decreases |ops|
  {
    if ops == [] then (g, [])
    else
      var r := CachedStep(c, g, ops[0]);
      var rest := CachedRun(c, r.0, ops[1..]);
      (rest.0, [r.1] + rest.1)
  }

  function StoreAnswers(s: Store, ops: seq<Op>): seq<Answer>
    decreases |ops|
  {
    if ops == [] then []
    else [StoreStep(s, ops[0]).1] + StoreAnswers(StoreStep(s, ops[0]).0, ops[1..])
  }

  /** Over every run, with caches of any size, every turn is admitted, refused and shown exactly
      what it would be with no cache at all, the store goes through the same states, and every
      cached copy stays equal to the stored conversation. */
  lemma {:induction false} CachesAreTransparent(c: Caps, g: Gateway, ops: seq<Op>)
    requires CapsOk(c) && Coherent(c, g)
    ensures var r := CachedRun(c, g, ops);
            && Coherent(c, r.0)
            && r.0.store == StoreRun(g.store, ops)
            && r.1 == StoreAnswers(g.store, ops)
    decreases |ops|
  {
    if ops != [] {
      hide Coherent, CachedStep, StoreStep;
      StepTransparent(c, g, ops[0]);
      CachesAreTransparent(c, CachedStep(c, g, ops[0]).0, ops[1..]);
    }
  }

  /** A late turn reaches neither the store nor the working set. */
  lemma LateTurnLeavesNoCopy(c: Caps, g: Gateway, sid: string, ops: seq<Op>, message: string, reply: string, fails: bool)
    requires CapsOk(c) && Coherent(c, g)
    requires ErasedDuring(g.store, ops, sid) || ClaimIdIn(StoreRun(g.store, ops), sid) != ClaimIdIn(g.store, sid)
    ensures var h := CachedRun(c, g, ops).0;
            var after := RecordCached(c, h, sid, message, reply, CurrentClaim(g.store, sid), fails);
            after.store == h.store && sid !in after.working.held
  {
    assert StoreOk(g.store);
    hide Coherent, ErasedDuring, StoreRun, CachedRun, RecordCached, RecordTurn;
    CachesAreTransparent(c, g, ops);
    LateTurnAddsNothing(g.store, sid, ops, message, reply, fails);
    RecordKeeps(c, CachedRun(c, g, ops).0, sid, message, reply, CurrentClaim(g.store, sid), fails);
  }

  // ---------------------------------------------------------------------------
  // Which conversations the working set retains
  // ---------------------------------------------------------------------------

  /** How one operation uses the working set: every turn touches its conversation; a refused or
      failed save and an erasure drop theirs. */
  function UsesOf(g: Gateway, op: Op): seq<Use> {
    match op
    case Show(sid) => [Touched(sid)]
    case Record(sid, message, reply, claim, fails) =>
      [Touched(sid)]
      + (if RecordTurn(g.store, sid, message, reply, claim, fails).1 then [] else [Dropped({sid})])
    case EraseAccount(owner, _, _) => [Dropped(HeldIds(g, owner))]
    case _ => []
  }

  function UsesDuring(c: Caps, g: Gateway, ops: seq<Op>): seq<Use>
    decreases |ops|
  {
    if ops == [] then [] else UsesOf(g, ops[0]) + UsesDuring(c, CachedStep(c, g, ops[0]).0, ops[1..])
  }

  lemma OneUse(o: seq<string>, u: Use, cap: nat)
    ensures OrderAfter(o, [u], cap) == UseOrder(o, u, cap)
  {
    hide UseOrder;
    assert [u][..0] == [];
  }

  lemma ShowOrder(c: Caps, g: Gateway, sid: string)
    requires CapsOk(c) && Coherent(c, g)
    ensures ShowCached(c, g, sid).0.working.order == UseOrder(g.working.order, Touched(sid), c.working)
    ensures Valid(ShowCached(c, g, sid).0.working)
    ensures sid in ShowCached(c, g, sid).0.working.held
  {
    ShowKeeps(c, g, sid);
    var h := ShowCached(c, g, sid).1;
    if sid !in g.working.held {
      LoadKeeps(c, g, sid);
    }
    hide Load, Evict, Touch, Valid, CacheTrue, WorkingTrue, LastN, Minus;
    TouchOrder(g.working, sid, h);
    TouchValid(g.working, sid, h);
    EvictKeepsRecent(Touch(g.working, sid, h), sid, c.working);
  }

  lemma RecordOrder(c: Caps, g: Gateway, sid: string, message: string, reply: string, claim: Claim, fails: bool)
    requires CapsOk(c) && Coherent(c, g)
    ensures RecordCached(c, g, sid, message, reply, claim, fails).working.order
            == OrderAfter(g.working.order, UsesOf(g, Record(sid, message, reply, claim, fails)), c.working)
  {
    hide Coherent, ShowCached, Pop, Valid, Save, WithTurn, Evict, Touch, UseOrder, Set, StoredIn;
    ShowKeeps(c, g, sid);
    ShowOrder(c, g, sid);
    OneUse(g.working.order, Touched(sid), c.working);
    var (g1, h) := ShowCached(c, g, sid);
    var h1 := WithTurn(h, message, reply);
    SetOld(g1.working, sid, h1);
    PopOrder(Set(g1.working, sid, h1), sid);
    OneUse(g1.working.order, Dropped({sid}), c.working);
    DroppedOrder(g1.working.order, {sid}, c.working);
    OrderAfterConcat(g.working.order, [Touched(sid)], [Dropped({sid})], c.working);
  }

  lemma DroppedOrder(o: seq<string>, gone: set<string>, cap: nat)
    ensures UseOrder(o, Dropped(gone), cap) == Minus(o, gone)
  {
  }

  lemma StepOrder(c: Caps, g: Gateway, op: Op)
    requires CapsOk(c) && Coherent(c, g)
    ensures CachedStep(c, g, op).0.working.order == OrderAfter(g.working.order, UsesOf(g, op), c.working)
  {
    hide Coherent, ShowCached, RecordCached, UseOrder, Load;
    match op
    case Show(sid) =>
      ShowOrder(c, g, sid);
      OneUse(g.working.order, Touched(sid), c.working);
    case Record(sid, message, reply, claim, fails) => RecordOrder(c, g, sid, message, reply, claim, fails);
    case EraseAccount(owner, now, fails) =>
      OneUse(g.working.order, Dropped(HeldIds(g, owner)), c.working);
      DroppedOrder(g.working.order, HeldIds(g, owner), c.working);
    case Open(sid, identity) => ClaimLeavesWorking(c, g, sid, identity);
    case PruneLog(now, window) =>
  }

  lemma ClaimLeavesWorking(c: Caps, g: Gateway, sid: string, owner: string)
    ensures ClaimConversation(c, g, sid, owner).working == g.working
  {
  }

  lemma {:induction false} RunOrder(c: Caps, g: Gateway, ops: seq<Op>)
    requires CapsOk(c) && Coherent(c, g)
    ensures CachedRun(c, g, ops).0.working.order == OrderAfter(g.working.order, UsesDuring(c, g, ops), c.working)
    decreases |ops|
  {
    if ops != [] {
      hide Coherent, CachedStep, StoreStep, UsesOf, OrderAfter;
      StepTransparent(c, g, ops[0]);
      StepOrder(c, g, ops[0]);
      RunOrder(c, CachedStep(c, g, ops[0]).0, ops[1..]);
      OrderAfterConcat(g.working.order, UsesOf(g, ops[0]), UsesDuring(c, CachedStep(c, g, ops[0]).0, ops[1..]), c.working);
    }
  }

  const START := Gateway(EMPTY, Empty(), Empty())

  /** From a fresh process, after any run: the working set holds exactly the conversations touched
      and, at every moment since, among the newest `cap` of those not dropped by a refusal, a failed
      save or an erasure; it holds them in order of recency, never more than the cap, each equal to
      the stored conversation. */
  lemma WorkingSetIsMostRecent(c: Caps, ops: seq<Op>)
    requires CapsOk(c)
    ensures var g, uses := CachedRun(c, START, ops).0, UsesDuring(c, START, ops);
            && (forall sid :: sid in g.working.held <==> StillRecent(uses, c.working, sid))
            && (forall sid :: sid in g.working.order <==> sid in g.working.held)
            && |g.working.order| <= c.working
            && Suffix(g.working.order, Recency(uses))
            && ((forall i :: 0 <= i < |uses| ==> uses[i].Touched?) ==> g.working.order == LastN(Recency(uses), c.working))
            && g.store == StoreRun(EMPTY, ops)
            && (forall sid :: sid in g.working.held ==> g.working.held[sid] == StoredIn(g.store, sid))
  {
    assert Coherent(c, START);
    RunOrder(c, START, ops);
    CachesAreTransparent(c, START, ops);
    var uses := UsesDuring(c, START, ops);
    RetainsMostRecent(uses, c.working);
    hide CachedRun, UsesDuring, OrderAfter, Recency, StoreRun, StillRecent;
    forall sid ensures sid in OrderAfter([], uses, c.working) <==> StillRecent(uses, c.working, sid) {
      RetainedIff(uses, c.working, sid);
    }
  }
}
