/**
 Account deletion: a sequence of store updates each of which can fail, and the retries that are
 to finish the job.  Conversations are those of `ClaimStore`; devices and sessions are added.
 */
module AccountDeletion {
  import opened Wrappers
  import opened OrderedDict
  import opened ClaimStore
  import opened Conversations
  import opened Server

  /** A registered push token: the session id it is filed under and its owner ("" when none is
      recorded). */
  datatype Device = Device(sid: string, owner: string)

  /** Live sessions are read from the in-process cache; the disk copy is what a restart reloads. */
  datatype Sessions = Sessions(cache: map<string, string>, disk: map<string, string>)

  datatype World = World(store: Store, devices: map<string, Device>, sessions: Sessions)

  /** Which calls of one attempt fail.  A failing adoption or removal may have got part of the
      way: it has then reached exactly the listed devices. */
  datatype Faults = Faults(naming: bool, adopt: Option<set<string>>, erase: bool, remove: Option<set<string>>, session: bool)

  const NO_FAULTS := Faults(false, None, false, None, false)

  datatype Outcome = SessionRequired | StorageFailure | Success

  /** The ids a device of the account may be filed under. */
  function FiledUnder(subject: string, holding: set<string>, token: string): set<string> {
    set sid | sid in holding + {token, Take("user:" + subject, 100)} && sid != ""
  }

  predicate Adoptable(d: Device, filed: set<string>) {
    d.owner == "" && d.sid in filed
  }

  /** Record the owner on ownerless devices filed under one of the ids; `reached` limits it. */
  function Adopt(ds: map<string, Device>, owner: string, filed: set<string>, reached: Option<set<string>>): map<string, Device> {
    map t | t in ds ::
      if Adoptable(ds[t], filed) && (reached.None? || t in reached.value) then ds[t].(owner := owner) else ds[t]
  }

  /** Remove the owner's devices and the ownerless ones filed under one of the ids. */
  function RemoveFor(ds: map<string, Device>, owner: string, filed: set<string>, reached: Option<set<string>>): map<string, Device> {
    map t | t in ds && !((ds[t].owner == owner || Adoptable(ds[t], filed)) && (reached.None? || t in reached.value))
      :: ds[t]
  }

  /** Upsert of a device; registering without an owner keeps the one recorded. */
  function Register(ds: map<string, Device>, token: string, sid: string, owner: string): map<string, Device> {
    ds[token := Device(sid, if owner != "" then owner else if token in ds then ds[token].owner else "")]
  }

  /** One deletion attempt. `adopting` is false only to ask what the adoption is for. */
  function Attempt(w: World, token: string, now: real, f: Faults, adopting: bool): (World, Outcome) {
    if token !in w.sessions.cache || w.sessions.cache[token] == "" then (w, SessionRequired)
    else
      var subject := w.sessions.cache[token];
      if f.naming then (w, StorageFailure)
      else
        var holding := OwnedIds(w.store, subject);
        var filed := FiledUnder(subject, holding, token);
        var w1 := if adopting then w.(devices := Adopt(w.devices, subject, filed, f.adopt)) else w;
        if f.adopt.Some? then (w1, StorageFailure)
        else if f.erase then (w1, StorageFailure)
        else
          var w2 := w1.(store := Erase(w1.store, subject, holding, now));
          var w3 := w2.(devices := RemoveFor(w2.devices, subject, filed, f.remove));
          if f.remove.Some? then (w3, StorageFailure)
          else
            var cache := map t | t in w.sessions.cache && t != token :: w.sessions.cache[t];
            if f.session then (w3.(sessions := w3.sessions.(cache := cache)), StorageFailure)
            else
              (w3.(sessions := Sessions(cache, map t | t in w.sessions.disk && t != token :: w.sessions.disk[t])), Success)
  }

  /** Whether an attempt gets as far as trying to erase. */
  predicate Erases(w: World, token: string, f: Faults) {
    token in w.sessions.cache && w.sessions.cache[token] != "" && !f.naming && f.adopt.None?
  }

  /** The handler as the source runs it, step by step. */
  class AccountService {
    const gateway: GatewayServer
    var devices: map<string, Device>
    var sessions: Sessions

    ghost function View(): World
      reads this, gateway, gateway.memory
    {
      World(gateway.memory.store, devices, sessions)
    }

    ghost predicate Valid()
      reads gateway, gateway.memory
    {
      CapsOk(gateway.Sizes()) && Coherent(gateway.Sizes(), gateway.View())
    }

    constructor (gateway: GatewayServer, devices: map<string, Device>, sessions: Sessions)
      ensures this.gateway == gateway
      ensures View() == World(gateway.memory.store, devices, sessions)
    {
      this.gateway, this.devices, this.sessions := gateway, devices, sessions;
    }

    /** Besides the outcome: both caches stay coherent, and once the erasure was tried this process
        keeps no working-set copy of the account's conversations, whether or not it failed. */
    method HandleAccountDelete(token: string, now: real, f: Faults) returns (answer: Outcome)
      requires Valid()
      modifies this`devices, this`sessions, gateway`conversations, gateway.memory
      ensures Valid()
      ensures (View(), answer) == Attempt(old(View()), token, now, f, true)
      ensures Erases(old(View()), token, f) ==>
                forall sid :: OwnerIn(old(View()).store, sid) == old(sessions).cache[token] ==>
                  sid !in gateway.conversations.held
    {
      assert OrderedDict.Valid(gateway.memory.cache) && OrderedDict.Valid(gateway.conversations);
      hide Erase, OwnedIds, RemoveFor, Adopt, FiledUnder, HeldIds, EraseCached, Coherent, OwnerIn;
      var subject := if token in sessions.cache then sessions.cache[token] else "";
      if subject == "" {
        return SessionRequired;
      }
      if f.naming {
        return StorageFailure;
      }
      var holding := gateway.memory.OwnerConversationIds(subject);
      HoldingIsOwned(gateway.Sizes(), gateway.View(), gateway.memory.State(), subject);
      devices := Adopt(devices, subject, FiledUnder(subject, holding, token), f.adopt);
      if f.adopt.Some? {
        return StorageFailure;
      }
      EraseCachedKeeps(gateway.Sizes(), gateway.View(), subject, now, f.erase);
      var erased := gateway.EraseAccount(subject, now, f.erase);
      if !erased {
        return StorageFailure;
      }
      devices := RemoveFor(devices, subject, FiledUnder(subject, holding, token), f.remove);
      if f.remove.Some? {
        return StorageFailure;
      }
      sessions := sessions.(cache := map t | t in sessions.cache && t != token :: sessions.cache[t]);
      if f.session {
        return StorageFailure;
      }
      sessions := sessions.(disk := map t | t in sessions.disk && t != token :: sessions.disk[t]);
      return Success;
    }
  }

  lemma HoldingIsOwned(c: Caps, g: Gateway, m: Gateway, subject: string)
    requires Coherent(c, g) && subject != "" && m.store == g.store && m.cache == g.cache
    ensures HeldIds(m, subject) == OwnedIds(g.store, subject)
  {
    HeldAreOwned(c, g, subject);
    hide Coherent, OwnedIds;
  }

  // ---------------------------------------------------------------------------
  // One attempt
  // ---------------------------------------------------------------------------

  /** Whether the device is the account's to delete: it owns it, or nobody does and it is filed
      under one of the account's ids. */
  predicate IsOf(d: Device, subject: string, filed: set<string>) {
    d.owner == subject || Adoptable(d, filed)
  }

  function FiledNow(w: World, subject: string, token: string): set<string> {
    FiledUnder(subject, OwnedIds(w.store, subject), token)
  }

  /** The same in the account's own terms: the account is recorded on the device, or nobody is and the
      device is filed under the presented token, under "user:" and the account's name (cut to a hundred
      characters), or under a conversation the account holds. */
  predicate Belongs(s: Store, d: Device, subject: string, token: string) {
    || d.owner == subject
    || (d.owner == "" && d.sid != ""
        && (d.sid == token
            || d.sid == "user:" + (if |subject| <= 95 then subject else subject[..95])
            || OwnerIn(s, d.sid) == subject))
  }

  lemma BelongsIff(w: World, d: Device, subject: string, token: string)
    requires WorldOk(w) && subject != ""
    ensures IsOf(d, subject, FiledNow(w, subject, token)) <==> Belongs(w.store, d, subject, token)
  {
    OwnedAre(w.store, subject);
    assert |subject| > 95 ==> ("user:" + subject)[..100] == "user:" + subject[..95];
    hide OwnedIds, StoreOk, OwnerIn;
  }

  ghost predicate WorldOk(w: World) {
    StoreOk(w.store)
  }

  /** What success means: nothing of the account is left, and nothing else has gone. */
  lemma SuccessIsComplete(w: World, token: string, now: real, f: Faults)
    requires WorldOk(w) && Attempt(w, token, now, f, true).1 == Success
    ensures var subject, after := w.sessions.cache[token], Attempt(w, token, now, f, true).0;
            && OwnedIds(after.store, subject) == {}
            && (forall t :: t in after.devices <==> t in w.devices && !Belongs(w.store, w.devices[t], subject, token))
            && (forall t :: t in after.devices ==> after.devices[t] == w.devices[t])
            && token !in after.sessions.cache
            && token !in after.sessions.disk
            && (forall sid :: OwnerIn(w.store, sid) != subject ==>
                  StoredIn(after.store, sid) == StoredIn(w.store, sid) && OwnerIn(after.store, sid) == OwnerIn(w.store, sid))
  {
    hide Erase, OwnedIds, FiledUnder, StoredIn, OwnerIn, StoreOk, Belongs;
    EraseIsExact(w.store, w.sessions.cache[token], now);
    forall d: Device { BelongsIff(w, d, w.sessions.cache[token], token); }
  }

  lemma EraseIsExact(s: Store, subject: string, now: real)
    requires StoreOk(s) && subject != ""
    ensures var t := Erase(s, subject, OwnedIds(s, subject), now);
            && StoreOk(t) && OwnedIds(t, subject) == {}
            && (forall sid :: OwnerIn(s, sid) != subject ==>
                  StoredIn(t, sid) == StoredIn(s, sid) && OwnerIn(t, sid) == OwnerIn(s, sid))
  {
    OwnedAre(s, subject);
    EraseKeeps(s, subject, now);
    var t := Erase(s, subject, OwnedIds(s, subject), now);
    OwnedAre(t, subject);
    assert forall sid :: sid !in OwnedIds(t, subject);
  }

  /** The call that failed, of an attempt that named its account. */
  predicate FailedAtSession(f: Faults) {
    !f.naming && f.adopt.None? && !f.erase && f.remove.None? && f.session
  }

  /** After a failed attempt the session still opens the account exactly when the failing call was
      not the removal of the session itself, which drops the live copy before it writes. */
  lemma SessionUsableIff(w: World, token: string, now: real, f: Faults)
    requires Attempt(w, token, now, f, true).1 == StorageFailure
    ensures var after := Attempt(w, token, now, f, true).0;
            && (token in after.sessions.cache <==> !FailedAtSession(f))
            && after.sessions.disk == w.sessions.disk
            && (FailedAtSession(f) ==> Attempt(after, token, now, NO_FAULTS, true).1 == SessionRequired)
  {
  }

  // ---------------------------------------------------------------------------
  // Retries
  // ---------------------------------------------------------------------------

  /** What can happen between and including the attempts: deletions by any session, device
      registrations, conversation traffic, and restarts. */
  datatype Event =
    | Delete(token: string, now: real, faults: Faults)
    | RegisterDevice(device: string, sid: string, owner: string)
    | Traffic(op: Op)
    | Restart

  function Happen(w: World, e: Event): (World, Option<Outcome>) {
    match e
    case Delete(token, now, f) => var r := Attempt(w, token, now, f, true); (r.0, Some(r.1))
    case RegisterDevice(device, sid, owner) => (w.(devices := Register(w.devices, device, sid, owner)), None)
    case Traffic(op) => (w.(store := StoreStep(w.store, op).0), None)
    case Restart => (w.(sessions := w.sessions.(cache := w.sessions.disk)), None)
  }

  function RunEvents(w: World, es: seq<Event>): World
    decreases |es|
  {
    if es == [] then w else RunEvents(Happen(w, es[0]).0, es[1..])
  }

  lemma {:induction false} RunEventsNext(w: World, es: seq<Event>, e: Event)
    ensures RunEvents(w, es + [e]) == Happen(RunEvents(w, es), e).0
    decreases |es|
  {
    hide Happen;
    if es == [] {
      assert [] + [e] == [e] && [e][1..] == [];
    } else {
      assert (es + [e])[1..] == es[1..] + [e];
      RunEventsNext(Happen(w, es[0]).0, es[1..], e);
    }
  }

  /** Wherever the token is known, it names this account. */
  predicate NamesOnly(w: World, token: string, subject: string) {
    && (token in w.sessions.cache ==> w.sessions.cache[token] == subject)
    && (token in w.sessions.disk ==> w.sessions.disk[token] == subject)
  }

  predicate Bystander(op: Op, subject: string) {
    op.EraseAccount? ==> op.owner != subject
  }

  /** An attempt by another account's session does not reach the device: it is not that account's. */
  predicate LeavesAlone(w: World, token: string, subject: string, device: string) {
    token in w.sessions.cache && w.sessions.cache[token] !in {"", subject}
    && device in w.devices && w.devices[device].owner == "" ==>
      !Belongs(w.store, w.devices[device], w.sessions.cache[token], token)
  }

  /** The device is only registered again for the account, or without an owner while the account is
      recorded on it; other accounts' attempts leave it alone, and only attempts erase this account. */
  predicate Harmless(w: World, e: Event, subject: string, device: string) {
    match e
    case Delete(token, _, _) => LeavesAlone(w, token, subject, device)
    case RegisterDevice(d, _, owner) =>
      d != device || owner == subject || (owner == "" && d in w.devices && w.devices[d].owner == subject)
    case Traffic(op) => Bystander(op, subject)
    case Restart => true
  }

  predicate HarmlessRun(w: World, es: seq<Event>, subject: string, device: string)
    decreases |es|
  {
    es == [] || (Harmless(w, es[0], subject, device) && HarmlessRun(Happen(w, es[0]).0, es[1..], subject, device))
  }

  /** What a run keeps about a session of the account and about one of its devices. */
  ghost predicate Hunted(w: World, token: string, subject: string, device: string) {
    && WorldOk(w)
    && subject != ""
    && NamesOnly(w, token, subject)
    && (device in w.devices ==> IsOf(w.devices[device], subject, FiledNow(w, subject, token)))
  }

  lemma HoldingOnlyGrows(s: Store, op: Op, subject: string)
    requires StoreOk(s) && subject != "" && Bystander(op, subject)
    ensures OwnedIds(s, subject) <= OwnedIds(StoreStep(s, op).0, subject)
  {
    StepKeeps(s, op);
    OwnedAre(s, subject);
    OwnedAre(StoreStep(s, op).0, subject);
    if op.EraseAccount? && !op.fails && op.owner != "" {
      EraseKeeps(s, op.owner, op.now);
      hide Erase;
    }
    hide OwnedIds, StoreOk, WithTurn, NamesAnother, Stands, StaleThrough, KeepAfter;
    forall sid | OwnerIn(s, sid) == subject ensures OwnerIn(StoreStep(s, op).0, sid) == subject {
    }
  }

  lemma AdoptAt(ds: map<string, Device>, owner: string, filed: set<string>, reached: Option<set<string>>, t: string)
    ensures var r := Adopt(ds, owner, filed, reached);
            && (t in r <==> t in ds)
            && (t in ds ==>
                  r[t] == if Adoptable(ds[t], filed) && (reached.None? || t in reached.value) then ds[t].(owner := owner)
                          else ds[t])
  {
  }

  lemma RemoveAt(ds: map<string, Device>, owner: string, filed: set<string>, reached: Option<set<string>>, t: string)
    ensures var r := RemoveFor(ds, owner, filed, reached);
            && (t in r <==> t in ds && !(IsOf(ds[t], owner, filed) && (reached.None? || t in reached.value)))
            && (t in r ==> r[t] == ds[t])
  {
  }

  /** An attempt by any session of the account keeps the device within the account's reach: it is
      adopted before the erasure takes the conversation it is filed under. */
  lemma HuntedOwn(w: World, token: string, own: string, subject: string, device: string, now: real, f: Faults)
    requires Hunted(w, token, subject, device) && (own in w.sessions.cache ==> w.sessions.cache[own] == subject)
    ensures Hunted(Attempt(w, own, now, f, true).0, token, subject, device)
    ensures own == token && Attempt(w, own, now, f, true).1 == Success ==> device !in Attempt(w, own, now, f, true).0.devices
  {
    hide Erase, StoreOk, Adopt, RemoveFor, OwnedIds;
    var filed := FiledNow(w, subject, own);
    AdoptAt(w.devices, subject, filed, f.adopt, device);
    if Erases(w, own, f) && !f.erase {
      EraseIsExact(w.store, subject, now);
      RemoveAt(Adopt(w.devices, subject, filed, f.adopt), subject, filed, f.remove, device);
    }
  }

  /** Conversation ownership is exclusive, and erasing one account leaves another's alone. */
  lemma OwnershipIsExclusive(s: Store, subject: string, other: string, now: real)
    requires StoreOk(s) && subject != "" && other != "" && subject != other
    ensures OwnedIds(s, subject) !! OwnedIds(s, other)
    ensures var t := Erase(s, other, OwnedIds(s, other), now);
            StoreOk(t) && OwnedIds(t, subject) == OwnedIds(s, subject)
  {
    OwnedAre(s, subject);
    OwnedAre(s, other);
    EraseKeeps(s, other, now);
    var t := Erase(s, other, OwnedIds(s, other), now);
    OwnedAre(t, subject);
    hide Erase, StoreOk, OwnedIds;
    assert forall sid :: sid in OwnedIds(t, subject) <==> sid in OwnedIds(s, subject);
  }

  lemma HuntedByOther(w: World, token: string, theirs: string, subject: string, device: string, now: real, f: Faults)
    requires Hunted(w, token, subject, device) && LeavesAlone(w, theirs, subject, device)
    requires theirs in w.sessions.cache && w.sessions.cache[theirs] !in {"", subject}
    ensures Hunted(Attempt(w, theirs, now, f, true).0, token, subject, device)
  {
    hide Erase, StoreOk, Adopt, RemoveFor, OwnedIds;
    var other := w.sessions.cache[theirs];
    var filed := FiledNow(w, other, theirs);
    if device in w.devices {
      BelongsIff(w, w.devices[device], other, theirs);
    }
    hide Belongs;
    OwnershipIsExclusive(w.store, subject, other, now);
    AdoptAt(w.devices, other, filed, f.adopt, device);
    RemoveAt(Adopt(w.devices, other, filed, f.adopt), other, filed, f.remove, device);
  }

  lemma HuntedStep(w: World, token: string, subject: string, device: string, e: Event)
    requires Hunted(w, token, subject, device) && Harmless(w, e, subject, device)
    ensures Hunted(Happen(w, e).0, token, subject, device)
  {
    hide Belongs;
    match e
    case Delete(presented, now, f) =>
      if presented in w.sessions.cache && w.sessions.cache[presented] !in {"", subject} {
        HuntedByOther(w, token, presented, subject, device, now, f);
      } else if presented in w.sessions.cache && w.sessions.cache[presented] == subject {
        HuntedOwn(w, token, presented, subject, device, now, f);
      }
    case Traffic(op) =>
      StepKeeps(w.store, op);
      HoldingOnlyGrows(w.store, op, subject);
      hide StoreStep, OwnedIds, StoreOk, Bystander;
    case _ =>
  }

  lemma {:induction false} HuntedRun(w: World, token: string, subject: string, device: string, es: seq<Event>)
    requires Hunted(w, token, subject, device) && HarmlessRun(w, es, subject, device)
    ensures Hunted(RunEvents(w, es), token, subject, device)
    decreases |es|
  {
    if es != [] {
      hide Hunted, Happen, Harmless;
      HuntedStep(w, token, subject, device, es[0]);
      HuntedRun(Happen(w, es[0]).0, token, subject, device, es[1..]);
    }
  }

  /** Retried deletion finishes the job.  Whatever sequence of attempts, failing or not, of
      registrations, traffic and restarts came before: when an attempt of the account answers success,
      every device that was the account's at the start, was not registered away from it and was left
      alone by other accounts' deletions is gone, no conversation is owned by the account, and the
      presented session is gone from the process and the disk. */
  lemma RetriedDeletionFinishes(w: World, token: string, es: seq<Event>, now: real, f: Faults, device: string,
                                subject: string)
    requires WorldOk(w) && subject != "" && NamesOnly(w, token, subject)
    requires HarmlessRun(w, es, subject, device)
    requires device in w.devices && Belongs(w.store, w.devices[device], subject, token)
    requires Attempt(RunEvents(w, es), token, now, f, true).1 == Success
    ensures var after := RunEvents(w, es + [Delete(token, now, f)]);
            && device !in after.devices
            && OwnedIds(after.store, subject) == {}
            && token !in after.sessions.cache
            && token !in after.sessions.disk
  {
    RunEventsNext(w, es, Delete(token, now, f));
    BelongsIff(w, w.devices[device], subject, token);
    HuntedRun(w, token, subject, device, es);
    var before := RunEvents(w, es);
    hide RunEvents, Erase, OwnedIds, StoreOk;
    HuntedOwn(before, token, token, subject, device, now, f);
    SuccessIsComplete(before, token, now, f);
  }

  /** What the adoption before the erasure is for: without it, a device filed under one of the
      account's conversations with no owner recorded survives a retried deletion that answers
      success. */
  lemma WithoutAdoptionADeviceSurvives(w: World, token: string, now: real, device: string)
    requires WorldOk(w) && token in w.sessions.cache && w.sessions.cache[token] != "" && device in w.devices
    requires var subject := w.sessions.cache[token];
             && w.devices[device].owner == ""
             && OwnerIn(w.store, w.devices[device].sid) == subject
             && w.devices[device].sid != token
             && w.devices[device].sid != "user:" + (if |subject| <= 95 then subject else subject[..95])
    ensures var first := Attempt(w, token, now, NO_FAULTS.(remove := Some({})), false);
            var second := Attempt(first.0, token, now, NO_FAULTS, false);
            first.1 == StorageFailure && second.1 == Success && device in second.0.devices
  {
    var subject := w.sessions.cache[token];
    EraseIsExact(w.store, subject, now);
    hide Erase, OwnedIds, StoreOk, StoredIn, OwnerIn;
    var first := Attempt(w, token, now, NO_FAULTS.(remove := Some({})), false).0;
    assert first.devices == w.devices;
  }
}
