/**
 The memory manager and the gateway server as objects whose methods update their caches in place.
 Each method is proved against the function of `Conversations` that says what it does.
 */
module Server {
  import opened Wrappers
  import opened OrderedDict
  import opened ClaimStore
  import opened Conversations

  lemma {:induction false} MinusTwice(o: seq<string>, a: set<string>, b: set<string>)
    ensures Minus(Minus(o, a), b) == Minus(o, a + b)
  {
    if o != [] {
      MinusTwice(o[1..], a, b);
      var rest := Minus(o[1..], a);
      if o[0] in a {
        assert [] + rest == rest;
        assert [] + Minus(o[1..], a + b) == Minus(o[1..], a + b);
      } else {
        assert ([o[0]] + rest)[1..] == rest;
      }
    }
  }

  lemma PopHeld<V>(f: Dict<V>, k: string)
    ensures Pop(f, k).held == (map j | j in f.held && j != k :: f.held[j])
  {
    if k !in f.held {
      assert (map j | j in f.held && j != k :: f.held[j]) == f.held;
    }
  }

  lemma ForgetFields<V>(d: Dict<V>, gone: set<string>)
    ensures Forget(d, gone).order == Minus(d.order, gone)
    ensures Forget(d, gone).held == (map j | j in d.held && j !in gone :: d.held[j])
  {
  }

  /** Popping one more key forgets one more key. */
  lemma PopForgets<V>(d: Dict<V>, gone: set<string>, k: string)
    requires Valid(d)
    ensures Pop(Forget(d, gone), k) == Forget(d, gone + {k})
  {
    hide Minus, Pop, Valid, Forget;
    var f := Forget(d, gone);
    ForgetValid(d, gone);
    ForgetFields(d, gone);
    ForgetFields(d, gone + {k});
    PopOrder(f, k);
    PopHeld(f, k);
    MinusTwice(d.order, gone, {k});
    assert Pop(f, k).held == Forget(d, gone + {k}).held;
  }

  lemma ForgetNothing<V>(d: Dict<V>)
    ensures Forget(d, {}) == d
  {
    MinusAbsent(d.order, {});
    assert (map j | j in d.held && j !in {} :: d.held[j]) == d.held;
  }

  class MemoryManager {
    const cap: nat
    var store: Store
    var cache: Dict<Cached>

    ghost function State(): Gateway
      reads this
    {
      Gateway(store, cache, Empty())
    }

    constructor (conversationCache: int)
      ensures cap == (if conversationCache < 1 then 1 else conversationCache)
      ensures State() == START
    {
      cap := if conversationCache < 1 then 1 else conversationCache;
      store := EMPTY;
      cache := Empty();
    }

    /** Drop the least recently used conversations past the cap, never `keep`. */
    method EvictConversations(keep: string)
      modifies this`cache
      ensures cache == Evict(old(cache), keep, cap)
    {
      while |cache.order| > cap
        invariant Evict(cache, keep, cap) == Evict(old(cache), keep, cap)
        decreases |cache.order|
      {
        if cache.order[0] == keep {
          break;
        }
        cache := DropOldest(cache);
      }
    }

    method LoadConversationSync(sid: string)
      modifies this`cache
      ensures State() == Load(Caps(cap, 1), old(State()), sid)
    {
      if sid in cache.held {
        var entry := cache.held[sid];
        cache := Pop(cache, sid);
        cache := Set(cache, sid, entry);
        return;
      }
      cache := Set(cache, sid, Cached(StoredIn(store, sid), OwnerIn(store, sid)));
      EvictConversations(sid);
    }

    /** Cached messages of a conversation, loaded from the store if needed. */
    method LoadConversation(sid: string) returns (messages: seq<Message>)
      modifies this`cache
      ensures State() == Load(Caps(cap, 1), old(State()), sid)
      ensures messages == CachedMessages(State(), sid)
    {
      LoadConversationSync(sid);
      messages := if sid in cache.held then cache.held[sid].messages else [];
    }

    /** Bind an unclaimed conversation to `owner`. */
    method Claim(sid: string, owner: string)
      modifies this
      ensures State() == ClaimConversation(Caps(cap, 1), old(State()), sid, owner)
    {
      LoadConversationSync(sid);
      var cachedOwner := if sid in cache.held then cache.held[sid].owner else "";
      if owner == "" || cachedOwner != "" {
        return;
      }
      var messages := if sid in cache.held then cache.held[sid].messages else [];
      store := ClaimFor(store, sid, owner);
      cache := Set(cache, sid, Cached(messages, OwnerIn(store, sid)));
    }

    /** Replace a conversation if the claim stands; a failing store raises and changes nothing. */
    method Write(sid: string, messages: seq<Message>, claim: ClaimStore.Claim, fails: bool) returns (r: Option<bool>)
      modifies this
      ensures r.None? <==> fails
      ensures fails ==> State() == old(State())
      ensures !fails ==> var (g, saved) := SaveConversation(Caps(cap, 1), old(State()), sid, messages, claim);
                         State() == g && r == Some(saved)
    {
      if fails {
        return None;
      }
      var (after, saved) := Save(store, sid, messages, claim);
      if !saved {
        cache := Pop(cache, sid);
        return Some(false);
      }
      store := after;
      cache := Pop(cache, sid);
      cache := Set(cache, sid, Cached(messages, OwnerIn(store, sid)));
      EvictConversations(sid);
      r := Some(true);
    }

    /** Every conversation id `owner` holds, in the store or by a cached copy. */
    method OwnerConversationIds(owner: string) returns (ids: set<string>)
      ensures ids == HeldIds(State(), owner)
    {
      if owner == "" {
        return {};
      }
      ids := OwnedIds(store, owner) + set sid | sid in cache.held && cache.held[sid].owner == owner;
    }

    /** Delete everything `owner` holds, in one transaction; a failing store raises and changes
        nothing. */
    method EraseOwner(owner: string, now: real, fails: bool) returns (erased: Option<set<string>>)
      requires Valid(cache)
      modifies this
      ensures fails && owner != "" ==> erased.None? && State() == old(State())
      ensures owner == "" ==> erased == Some({}) && State() == old(State())
      ensures !fails && owner != "" ==>
                var ids := HeldIds(old(State()), owner);
                erased == Some(ids) && store == Erase(old(store), owner, ids, now) && cache == Forget(old(cache), ids)
    {
      hide Erase, Forget, Pop, Valid, OwnedIds;
      if owner == "" {
        return Some({});
      }
      if fails {
        return None;
      }
      var ids := OwnerConversationIds(owner);
      store := Erase(store, owner, ids, now);
      var left := ids;
      ForgetNothing(cache);
      assert ids - left == {};
      while left != {}
        invariant left <= ids && store == Erase(old(store), owner, ids, now)
        invariant cache == Forget(old(cache), ids - left)
        decreases |left|
      {
        var sid :| sid in left;
        PopForgets(old(cache), ids - left, sid);
        assert ids - left + {sid} == ids - (left - {sid});
        cache := Pop(cache, sid);
        left := left - {sid};
      }
      assert ids - left == ids;
      erased := Some(ids);
    }

    method PruneErasureLog(now: real, window: real)
      modifies this`store
      ensures State() == old(State()).(store := Prune(old(store), now, window))
    {
      store := Prune(store, now, window);
    }
  }

  class GatewayServer {
    const memory: MemoryManager
    const cap: nat
    var conversations: Dict<seq<Message>>

    ghost function View(): Gateway
      reads this, memory
    {
      Gateway(memory.store, memory.cache, conversations)
    }

    ghost function Sizes(): Caps {
      Caps(memory.cap, cap)
    }

    constructor (memory: MemoryManager, conversationCap: int)
      ensures this.memory == memory
      ensures cap == (if conversationCap < 1 then 1 else conversationCap)
      ensures conversations == Empty()
    {
      this.memory := memory;
      cap := if conversationCap < 1 then 1 else conversationCap;
      conversations := Empty();
    }

    /** The claim a turn on `sid` is admitted under, and whether it is refused. */
    method OpenTurn(sid: string, identity: string) returns (claim: Option<ClaimStore.Claim>, refused: bool)
      modifies memory
      ensures var (g, a) := OpenCached(Sizes(), old(View()), sid, identity);
              View() == g && a == Admission(claim, refused)
    {
      if NamesAnother(sid, identity) {
        return None, true;
      }
      var held := CurrentClaim(memory.store, sid);
      if held.owner == "" && identity != "" {
        memory.Claim(sid, identity);
        held := CurrentClaim(memory.store, sid);
      }
      return Some(held), held.owner != "" && held.owner != identity;
    }

    /** The completed turns of `sid`: the working-set entry, hydrated from the store on a miss. */
    method ConversationHistory(sid: string) returns (history: seq<Message>)
      modifies this`conversations, memory`cache
      ensures ShowCached(Sizes(), old(View()), sid) == (View(), history)
    {
      if sid in conversations.held {
        history := conversations.held[sid];
        conversations := Pop(conversations, sid);
      } else {
        history := memory.LoadConversation(sid);
        conversations := Pop(conversations, sid);
      }
      conversations := Set(conversations, sid, history);
      ghost var touched := conversations;
      while |conversations.order| > cap
        invariant Evict(conversations, sid, cap) == Evict(touched, sid, cap)
        invariant memory.State() == if sid in old(conversations).held then old(memory.State())
                                    else Load(Caps(memory.cap, 1), old(memory.State()), sid)
        decreases |conversations.order|
      {
        if conversations.order[0] == sid {
          break;
        }
        conversations := DropOldest(conversations);
      }
    }

    /** What the model sees for this turn. */
    method TurnConversation(sid: string, message: string) returns (seen: seq<Message>)
      modifies this`conversations, memory`cache
      ensures var (g, h) := ShowCached(Sizes(), old(View()), sid);
              View() == g && seen == h + [Message(User, message)]
    {
      var history := ConversationHistory(sid);
      seen := history + [Message(User, message)];
    }

    /** Append a completed turn, trim, and write it through while `claim` stands. */
    method RecordTurn(sid: string, message: string, reply: string, claim: ClaimStore.Claim, fails: bool)
      modifies this`conversations, memory
      ensures View() == RecordCached(Sizes(), old(View()), sid, message, reply, claim, fails)
    {
      hide ShowCached, Save, Stands, Evict;
      var history := ConversationHistory(sid);
      history := history + [Message(User, message)];
      history := history + [Message(Assistant, reply)];
      if |history| > 100 {
        history := history[|history| - 50..];
      }
      conversations := Set(conversations, sid, history);
      var stored := memory.Write(sid, history, claim, fails);
      if stored.None? {
        conversations := Pop(conversations, sid);
        return;
      }
      if !stored.value {
        conversations := Pop(conversations, sid);
      }
    }

    /** Drop the working-set copies of `ids`. */
    method ForgetConversations(ids: set<string>)
      requires Valid(conversations)
      modifies this`conversations
      ensures conversations == Forget(old(conversations), ids)
    {
      hide Forget, Pop, Valid;
      var left := ids;
      ForgetNothing(conversations);
      assert ids - left == {};
      while left != {}
        invariant left <= ids && conversations == Forget(old(conversations), ids - left)
        decreases |left|
      {
        var sid :| sid in left;
        PopForgets(old(conversations), ids - left, sid);
        assert ids - left + {sid} == ids - (left - {sid});
        conversations := Pop(conversations, sid);
        left := left - {sid};
      }
      assert ids - left == ids;
    }

    /** The erasure step of an account deletion: erase, and drop this process's copies either way. */
    method EraseAccount(owner: string, now: real, fails: bool) returns (ok: bool)
      requires Valid(conversations) && Valid(memory.cache)
      modifies this`conversations, memory
      ensures View() == EraseCached(old(View()), owner, now, fails)
      ensures ok <==> owner == "" || !fails
    {
      var holding := memory.OwnerConversationIds(owner);
      var erased := memory.EraseOwner(owner, now, fails);
      ok := erased.Some?;
      var ids := holding + (if erased.Some? then erased.value else {});
      assert ids == holding;
      ForgetConversations(ids);
    }
  }
}
