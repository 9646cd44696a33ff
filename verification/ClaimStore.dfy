/**
 The durable half of the memory manager: stored conversations, the claims on them, and the log
 of erasures that gives the unclaimed state an identity.  Every operation is one transaction.
 */
module ClaimStore {
  import opened Wrappers

  datatype Role = User | Assistant

  datatype Message = Message(role: Role, content: string)

  /** A row of `conversation_owners`; claim ids are never reused. */
  datatype Held = Held(owner: string, claimId: nat)

  /** The rows of one conversation; all of them carry the same owner ("" when nobody's). */
  datatype Rows = Rows(messages: seq<Message>, owner: string)

  /** The ids one erasure logged. */
  datatype Erasure = Erasure(seqNo: nat, ids: set<string>, at: real)

  datatype Store = Store(
    owners: map<string, Held>,
    turns: map<string, Rows>,
    log: seq<Erasure>,
    seqNo: nat,
    prunedThrough: nat,
    nextClaim: nat)

  /** What a turn was admitted under; `claimId` 0 means unclaimed. */
  datatype Claim = Claim(sid: string, owner: string, claimId: nat, seqNo: nat)

  const EMPTY := Store(map[], map[], [], 0, 0, 1)

  /** `user:<subject>` ids belong to the account they name. */
  predicate IsAccountId(sid: string) {
    "user:" <= sid
  }

  function OwnerIn(s: Store, sid: string): string {
    if sid in s.owners then s.owners[sid].owner else ""
  }

  function ClaimIdIn(s: Store, sid: string): nat {
    if sid in s.owners then s.owners[sid].claimId else 0
  }

  function StoredIn(s: Store, sid: string): seq<Message> {
    if sid in s.turns then s.turns[sid].messages else []
  }

  function CurrentClaim(s: Store, sid: string): Claim {
    Claim(sid, OwnerIn(s, sid), ClaimIdIn(s, sid), s.seqNo)
  }

  predicate LoggedAfter(log: seq<Erasure>, sid: string, seqNo: nat) {
    exists k :: 0 <= k < |log| && log[k].seqNo > seqNo && sid in log[k].ids
  }

  /** Whether a claim still stands. */
  predicate Stands(s: Store, c: Claim) {
    if (OwnerIn(s, c.sid), ClaimIdIn(s, c.sid)) != (c.owner, c.claimId) then false
    else if c.owner != "" then true
    else if IsAccountId(c.sid) then false
    else if s.seqNo == c.seqNo then true
    else if s.seqNo < c.seqNo || s.prunedThrough > c.seqNo then false
    else !LoggedAfter(s.log, c.sid, c.seqNo)
  }

  /** Claim an unclaimed conversation, and its ownerless rows; the first claim wins. */
  function ClaimFor(s: Store, sid: string, owner: string): Store {
    var s1 := if sid in s.owners then s.(nextClaim := s.nextClaim + 1)
              else s.(owners := s.owners[sid := Held(owner, s.nextClaim)], nextClaim := s.nextClaim + 1);
    if sid in s1.turns && s1.turns[sid].owner == "" then
      s1.(turns := s1.turns[sid := s1.turns[sid].(owner := OwnerIn(s1, sid))])
    else s1
  }

  /** Replace the rows of a conversation, if the claim stands. */
  function Save(s: Store, sid: string, messages: seq<Message>, c: Claim): (Store, bool) {
    if c.sid != sid || !Stands(s, c) then (s, false)
    else if messages == [] then (s.(turns := map k | k in s.turns && k != sid :: s.turns[k]), true)
    else (s.(turns := s.turns[sid := Rows(messages, OwnerIn(s, sid))]), true)
  }

  /** The conversations an account holds. */
  function OwnedIds(s: Store, owner: string): set<string> {
    (set sid | sid in s.owners && s.owners[sid].owner == owner)
    + (set sid | sid in s.turns && s.turns[sid].owner == owner)
  }

  /** Delete an account's conversations (`ids`), rows and claims, and log the erasure. */
  function Erase(s: Store, owner: string, ids: set<string>, now: real): Store {
    var s1 := s.(turns := map sid | sid in s.turns && s.turns[sid].owner != owner && sid !in ids :: s.turns[sid],
                 owners := map sid | sid in s.owners && s.owners[sid].owner != owner :: s.owners[sid]);
    if ids == {} then s1
    else s1.(seqNo := s.seqNo + 1, log := s.log + [Erasure(s.seqNo + 1, (set sid | sid in ids && !IsAccountId(sid)), now)])
  }

  /** The highest sequence number among logged ids older than the cutoff, 0 when there is none. */
  function StaleThrough(log: seq<Erasure>, cutoff: real): nat {
    if log == [] then 0
    else
      var rest, last := StaleThrough(log[..|log| - 1], cutoff), log[|log| - 1];
      if last.ids != {} && last.at < cutoff && last.seqNo > rest then last.seqNo else rest
  }

  function KeepAfter(log: seq<Erasure>, through: nat): seq<Erasure> {
    if log == [] then []
    else
      KeepAfter(log[..|log| - 1], through)
      + (if log[|log| - 1].seqNo > through then [log[|log| - 1]] else [])
  }

  /** Drop log entries older than the retention window. */
  function Prune(s: Store, now: real, window: real): Store {
    var through := StaleThrough(s.log, now - window);
    if through == 0 then s
    else s.(log := KeepAfter(s.log, through),
            prunedThrough := if s.prunedThrough > through then s.prunedThrough else through)
  }

  // ---------------------------------------------------------------------------
  // Operations of one gateway, read straight from the store
  // ---------------------------------------------------------------------------

  datatype Op =
    | Open(sid: string, identity: string)
    | Show(sid: string)
    | Record(sid: string, message: string, reply: string, claim: Claim, fails: bool)
    | EraseAccount(owner: string, now: real, fails: bool)
    | PruneLog(now: real, window: real)

  datatype Answer = Admission(claim: Option<Claim>, refused: bool) | History(messages: seq<Message>) | Silent

  function Take(s: string, n: nat): string {
    if |s| <= n then s else s[..n]
  }

  /** A `user:<subject>` id that names someone other than the caller. */
  predicate NamesAnother(sid: string, identity: string) {
    "user:" <= sid && sid != Take("user:" + identity, 100)
  }

  /** Check and claim: the claim a turn runs under, or a refusal. */
  function OpenTurn(s: Store, sid: string, identity: string): (Store, Answer) {
    if NamesAnother(sid, identity) then (s, Admission(None, true))
    else
      var c := CurrentClaim(s, sid);
      if c.owner == "" && identity != "" then
        var s1 := ClaimFor(s, sid, identity);
        var c1 := CurrentClaim(s1, sid);
        (s1, Admission(Some(c1), c1.owner != "" && c1.owner != identity))
      else (s, Admission(Some(c), c.owner != "" && c.owner != identity))
  }

  /** Keep the last fifty messages once there are more than a hundred. */
  function Trim(h: seq<Message>): seq<Message> {
    if |h| > 100 then h[|h| - 50..] else h
  }

  function WithTurn(h: seq<Message>, message: string, reply: string): seq<Message> {
    Trim(h + [Message(User, message)] + [Message(Assistant, reply)])
  }

  function RecordTurn(s: Store, sid: string, message: string, reply: string, c: Claim, fails: bool): (Store, bool) {
    if fails then (s, false) else Save(s, sid, WithTurn(StoredIn(s, sid), message, reply), c)
  }

  function StoreStep(s: Store, op: Op): (Store, Answer) {
    match op
    case Open(sid, identity) => OpenTurn(s, sid, identity)
    case Show(sid) => (s, History(StoredIn(s, sid)))
    case Record(sid, message, reply, c, fails) => (RecordTurn(s, sid, message, reply, c, fails).0, Silent)
    case EraseAccount(owner, now, fails) =>
      (if fails || owner == "" then s else Erase(s, owner, OwnedIds(s, owner), now), Silent)
    case PruneLog(now, window) => (Prune(s, now, window), Silent)
  }

  function StoreRun(s: Store, ops: seq<Op>): Store
    decreases |ops|
  {
    if ops == [] then s else StoreRun(StoreStep(s, ops[0]).0, ops[1..])
  }

  // ---------------------------------------------------------------------------
  // What every operation keeps
  // ---------------------------------------------------------------------------

  ghost predicate StoreOk(s: Store) {
    && (forall sid :: sid in s.owners ==> s.owners[sid].owner != "" && 0 < s.owners[sid].claimId < s.nextClaim)
    && (forall sid :: sid in s.turns ==> s.turns[sid].owner == OwnerIn(s, sid) && s.turns[sid].messages != [])
    && (forall k :: 0 <= k < |s.log| ==> 0 < s.log[k].seqNo <= s.seqNo)
    && s.prunedThrough <= s.seqNo && s.nextClaim > 0
  }

  lemma OwnedAre(s: Store, owner: string)
    requires StoreOk(s) && owner != ""
    ensures forall sid :: sid in OwnedIds(s, owner) <==> OwnerIn(s, sid) == owner
  {
  }

  lemma {:induction false} StaleBound(log: seq<Erasure>, cutoff: real, top: nat)
    requires forall k :: 0 <= k < |log| ==> log[k].seqNo <= top
    ensures StaleThrough(log, cutoff) <= top
  {
    if log != [] {
      StaleBound(log[..|log| - 1], cutoff, top);
    }
  }

  lemma {:induction false} KeptAre(log: seq<Erasure>, through: nat)
    ensures forall e :: e in KeepAfter(log, through) <==> e in log && e.seqNo > through
  {
    if log != [] {
      KeptAre(log[..|log| - 1], through);
      assert log == log[..|log| - 1] + [log[|log| - 1]];
    }
  }

  /** An erasure that logged something before the cutoff. */
  predicate Stale(e: Erasure, cutoff: real) {
    e.ids != {} && e.at < cutoff
  }

  lemma {:induction false} StaleIs(log: seq<Erasure>, cutoff: real)
    ensures forall k :: 0 <= k < |log| && Stale(log[k], cutoff) ==> log[k].seqNo <= StaleThrough(log, cutoff)
    ensures StaleThrough(log, cutoff) == 0
            || exists k :: 0 <= k < |log| && Stale(log[k], cutoff) && log[k].seqNo == StaleThrough(log, cutoff)
  {
    if log != [] {
      var n := |log| - 1;
      StaleIs(log[..n], cutoff);
      assert forall k :: 0 <= k < n ==> log[..n][k] == log[k];
    }
  }

  lemma PruneKeeps(s: Store, now: real, window: real)
    requires StoreOk(s)
    ensures var t := Prune(s, now, window);
            StoreOk(t) && t.owners == s.owners && t.turns == s.turns && t.seqNo == s.seqNo
  {
    var through := StaleThrough(s.log, now - window);
    StaleBound(s.log, now - window, s.seqNo);
    KeptAre(s.log, through);
    var kept := KeepAfter(s.log, through);
    assert forall k :: 0 <= k < |kept| ==> kept[k] in kept;
  }

  /** Pruning drops exactly the erasures up to the newest stale one, and remembers how far it has gone. */
  lemma PruneMeans(s: Store, now: real, window: real, e: Erasure, n: nat)
    requires StoreOk(s)
    ensures var t, cutoff := Prune(s, now, window), now - window;
            && (e in t.log <==>
                  e in s.log && forall k :: 0 <= k < |s.log| && Stale(s.log[k], cutoff) ==> s.log[k].seqNo < e.seqNo)
            && (t.prunedThrough > n <==>
                  s.prunedThrough > n || exists k :: 0 <= k < |s.log| && Stale(s.log[k], cutoff) && s.log[k].seqNo > n)
  {
    var cutoff := now - window;
    var through := StaleThrough(s.log, cutoff);
    StaleIs(s.log, cutoff);
    KeptAre(s.log, through);
    hide StaleThrough, KeepAfter, Stale;
    if e in s.log {
      var k :| 0 <= k < |s.log| && s.log[k] == e;
    }
  }

  /** An erasure frees and empties exactly the account's conversations. */
  lemma EraseKeeps(s: Store, owner: string, now: real)
    requires StoreOk(s) && owner != ""
    ensures var t := Erase(s, owner, OwnedIds(s, owner), now);
            && StoreOk(t)
            && (forall sid :: OwnerIn(t, sid) == if OwnerIn(s, sid) == owner then "" else OwnerIn(s, sid))
            && (forall sid :: ClaimIdIn(t, sid) == if OwnerIn(s, sid) == owner then 0 else ClaimIdIn(s, sid))
            && (forall sid :: StoredIn(t, sid) == if OwnerIn(s, sid) == owner then [] else StoredIn(s, sid))
  {
    OwnedAre(s, owner);
    hide OwnedIds;
  }

  /** It is logged, under a new number, exactly when there are any; and what is logged is exactly those
      of them that do not name an account. */
  lemma EraseLogs(s: Store, owner: string, now: real)
    requires StoreOk(s) && owner != ""
    ensures var t := Erase(s, owner, OwnedIds(s, owner), now);
            && ((forall sid :: OwnerIn(s, sid) != owner) ==> t.log == s.log && t.seqNo == s.seqNo)
            && ((exists sid :: OwnerIn(s, sid) == owner) ==> t.seqNo == s.seqNo + 1 && |t.log| == |s.log| + 1)
            && (|t.log| > |s.log| ==>
                  var last := t.log[|s.log|];
                  && t.log == s.log + [last] && last.seqNo == t.seqNo && last.at == now
                  && forall sid :: sid in last.ids <==>
                       OwnerIn(s, sid) == owner && !(|sid| >= 5 && sid[..5] == "user:"))
  {
    OwnedAre(s, owner);
    hide OwnedIds, StoreOk, OwnerIn;
    var ids := OwnedIds(s, owner);
    if ids != {} {
      var sid :| sid in ids;
      assert OwnerIn(s, sid) == owner;
    }
  }

  lemma ClaimForKeeps(s: Store, sid: string, owner: string)
    requires StoreOk(s) && owner != ""
    ensures StoreOk(ClaimFor(s, sid, owner))
  {
  }

  /** A save happens exactly when the claim is for that conversation and stands, and changes nothing
      but that conversation's messages. */
  lemma SaveKeeps(s: Store, sid: string, messages: seq<Message>, c: Claim)
    requires StoreOk(s)
    ensures var (t, saved) := Save(s, sid, messages, c);
            && StoreOk(t)
            && (saved <==> c.sid == sid && Stands(s, c))
            && (forall k :: StoredIn(t, k) == if saved && k == sid then messages else StoredIn(s, k))
            && t == s.(turns := t.turns)
  {
    hide Stands;
  }

  lemma StepKeeps(s: Store, op: Op)
    requires StoreOk(s)
    ensures StoreOk(StoreStep(s, op).0)
  {
    hide WithTurn, NamesAnother, Erase, OwnedIds, Prune, IsAccountId, Save, ClaimFor;
    match op
    case Open(sid, identity) =>
      if identity != "" {
        ClaimForKeeps(s, sid, identity);
      }
    case EraseAccount(owner, now, fails) =>
      if !fails && owner != "" {
        EraseKeeps(s, owner, now);
      }
    case PruneLog(now, window) => PruneKeeps(s, now, window);
    case Record(sid, message, reply, c, fails) => SaveKeeps(s, sid, WithTurn(StoredIn(s, sid), message, reply), c);
    case Show(sid) =>
  }

  /** What every operation keeps holds after every run. */
  lemma {:induction false} StoreInvariant(inv: Store -> bool, s: Store, ops: seq<Op>)
    requires inv(s) && forall t, op :: inv(t) ==> inv(StoreStep(t, op).0)
    ensures inv(StoreRun(s, ops))
    decreases |ops|
  {
    if ops != [] {
      hide StoreStep;
      StoreInvariant(inv, StoreStep(s, ops[0]).0, ops[1..]);
    }
  }

  // ---------------------------------------------------------------------------
  // Who is admitted
  // ---------------------------------------------------------------------------

  /** A turn is refused exactly when the conversation is, by name or by claim, another account's; an
      admitted one runs under the claim that stands, which is the caller's own when it has an identity
      and nobody's when it has none.  A name is another account's when it starts with "user:" and is
      not that followed by the caller's identity, cut to a hundred characters. */
  lemma AdmissionExact(s: Store, sid: string, identity: string)
    requires StoreOk(s)
    ensures var (t, a) := OpenTurn(s, sid, identity);
            && a.Admission?
            && (a.refused <==>
                  || (|sid| >= 5 && sid[..5] == "user:"
                      && (if |identity| <= 95 then sid != "user:" + identity else sid != "user:" + identity[..95]))
                  || (OwnerIn(s, sid) != "" && OwnerIn(s, sid) != identity))
            && (!a.refused ==> a.claim == Some(CurrentClaim(t, sid)) && OwnerIn(t, sid) == identity)
            && (a.refused ==> t == s)
            && (forall k :: StoredIn(t, k) == StoredIn(s, k))
            && (forall k :: k != sid ==> OwnerIn(t, k) == OwnerIn(s, k))
  {
    NamesAnotherMeans(sid, identity);
    hide NamesAnother;
  }

  lemma NamesAnotherMeans(sid: string, identity: string)
    ensures NamesAnother(sid, identity) <==>
              |sid| >= 5 && sid[..5] == "user:" && sid != "user:" + (if |identity| <= 95 then identity else identity[..95])
  {
    assert |identity| > 95 ==> ("user:" + identity)[..100] == "user:" + identity[..95];
  }

  /** An account's own conversation is nobody's or its own. */
  ghost predicate OwnIdsAreOwn(s: Store) {
    forall sid :: |sid| >= 5 && sid[..5] == "user:" && OwnerIn(s, sid) != "" ==>
      var owner := OwnerIn(s, sid);
      sid == "user:" + (if |owner| <= 95 then owner else owner[..95])
  }

  lemma OwnIdsStep(s: Store, op: Op)
    requires StoreOk(s) && OwnIdsAreOwn(s)
    ensures OwnIdsAreOwn(StoreStep(s, op).0)
  {
    hide StoreOk, Erase, WithTurn, Stands, StaleThrough, KeepAfter, NamesAnother, OpenTurn;
    match op
    case Open(sid, identity) => AdmissionExact(s, sid, identity);
    case EraseAccount(owner, now, fails) =>
      if !fails && owner != "" {
        EraseKeeps(s, owner, now);
      }
    case _ =>
  }

  /** Over every run, whoever else tries first: while the name fits, the conversation named after an
      account is nobody's or that account's, is never refused to it, and is refused to everyone else. */
  lemma OwnConversationIsKept(ops: seq<Op>, subject: string, other: string)
    requires |subject| < 95
    ensures var t := StoreRun(EMPTY, ops);
            && OwnerIn(t, "user:" + subject) in {"", subject}
            && !OpenTurn(t, "user:" + subject, subject).1.refused
            && (other != subject ==> OpenTurn(t, "user:" + subject, other).1.refused)
  {
    hide StoreRun, StoreStep, OpenTurn, NamesAnother;
    forall s, op | StoreOk(s) && OwnIdsAreOwn(s) ensures StoreOk(StoreStep(s, op).0) && OwnIdsAreOwn(StoreStep(s, op).0) {
      StepKeeps(s, op);
      OwnIdsStep(s, op);
    }
    StoreInvariant(s => StoreOk(s) && OwnIdsAreOwn(s), EMPTY, ops);
    var t, sid := StoreRun(EMPTY, ops), "user:" + subject;
    var cut := (name: string) => if |name| <= 95 then name else name[..95];
    assert forall name: string :: "user:" + cut(name) == sid ==> ("user:" + cut(name))[5..] == cut(name) == sid[5..] == subject;
    AdmissionExact(t, sid, subject);
    AdmissionExact(t, sid, other);
  }

  /** And only while it fits: a longer name is cut, and then another account with the same first
      ninety-five characters can take the conversation, after which it is refused to the first. */
  lemma OwnConversationIff(subject: string)
    ensures var sid := "user:" + (if |subject| <= 95 then subject else subject[..95]);
            (forall ops :: !OpenTurn(StoreRun(EMPTY, ops), sid, subject).1.refused) <==> |subject| < 95
  {
    hide StoreRun, ClaimFor, CurrentClaim, NamesAnother;
    if |subject| < 95 {
      forall ops ensures !OpenTurn(StoreRun(EMPTY, ops), "user:" + subject, subject).1.refused {
        OwnConversationIsKept(ops, subject, subject);
      }
    } else {
      var sid, other := "user:" + subject[..95], subject[..95] + (if |subject| == 96 && subject[95] == 'a' then "b" else "a");
      assert |subject| == 95 ==> subject[..95] == subject;
      AnotherTakesIt(sid, subject, other);
    }
  }

  lemma AnotherTakesIt(sid: string, subject: string, other: string)
    requires |subject| >= 95 && |other| > 95 && subject != other && subject[..95] == other[..95]
    requires sid == "user:" + subject[..95]
    ensures OpenTurn(StoreRun(EMPTY, [Open(sid, other)]), sid, subject).1.refused
  {
    hide OpenTurn, NamesAnother;
    var t := StoreStep(EMPTY, Open(sid, other)).0;
    assert StoreRun(EMPTY, [Open(sid, other)]) == StoreRun(t, []) == t;
    AdmissionExact(EMPTY, sid, other);
    StepKeeps(EMPTY, Open(sid, other));
    AdmissionExact(t, sid, subject);
  }

  // ---------------------------------------------------------------------------
  // Late turns cannot write back
  // ---------------------------------------------------------------------------

  /** Whether this operation erases the conversation. */
  predicate ErasedBy(s: Store, op: Op, sid: string) {
    op.EraseAccount? && !op.fails && op.owner != "" && OwnerIn(s, sid) == op.owner
  }

  /** Whether the run erases the conversation at some point. */
  predicate ErasedDuring(s: Store, ops: seq<Op>, sid: string)
    decreases |ops|
  {
    ops != [] && (ErasedBy(s, ops[0], sid) || ErasedDuring(StoreStep(s, ops[0]).0, ops[1..], sid))
  }

  /** What is known of a claim while a run goes on; `erased` says whether its conversation has
      been erased since the claim was read. */
  ghost predicate Tracked(s: Store, c: Claim, erased: bool) {
    && StoreOk(s)
    && c.seqNo <= s.seqNo
    && c.claimId < s.nextClaim
    && (erased ==> c.sid !in s.owners || s.owners[c.sid].claimId > c.claimId)
    && (c.owner != "" <==> c.claimId > 0)
    && (!IsAccountId(c.sid) ==>
          && (erased ==> c.seqNo < s.seqNo && (s.prunedThrough > c.seqNo || LoggedAfter(s.log, c.sid, c.seqNo)))
          && (!erased ==> !LoggedAfter(s.log, c.sid, c.seqNo)))
  }

  lemma ClaimedIff(s: Store, sid: string)
    requires StoreOk(s)
    ensures sid in s.owners <==> OwnerIn(s, sid) != ""
  {
  }

  lemma LoggedAppend(log: seq<Erasure>, last: Erasure, sid: string, seqNo: nat)
    ensures LoggedAfter(log + [last], sid, seqNo)
            <==> LoggedAfter(log, sid, seqNo) || (last.seqNo > seqNo && sid in last.ids)
  {
    var all := log + [last];
    if k :| 0 <= k < |log| && log[k].seqNo > seqNo && sid in log[k].ids {
      assert all[k] == log[k];
    }
    if last.seqNo > seqNo && sid in last.ids {
      assert all[|log|] == last;
    }
  }

  lemma TrackedErase(s: Store, c: Claim, erased: bool, op: Op)
    requires Tracked(s, c, erased) && op.EraseAccount? && !op.fails && op.owner != ""
    ensures Tracked(StoreStep(s, op).0, c, erased || ErasedBy(s, op, c.sid))
  {
    hide LoggedAfter, OwnedIds, StoreOk;
    var t := StoreStep(s, op).0;
    assert t.nextClaim == s.nextClaim && t.prunedThrough == s.prunedThrough;
    EraseKeeps(s, op.owner, op.now);
    EraseLogs(s, op.owner, op.now);
    ClaimedIff(s, c.sid);
    ClaimedIff(t, c.sid);
    hide Erase, StoreStep;
    if |t.log| > |s.log| {
      LoggedAppend(s.log, t.log[|s.log|], c.sid, c.seqNo);
    }
  }

  lemma TrackedPrune(s: Store, c: Claim, erased: bool, now: real, window: real)
    requires Tracked(s, c, erased)
    ensures Tracked(Prune(s, now, window), c, erased)
  {
    PruneKeeps(s, now, window);
    var through := StaleThrough(s.log, now - window);
    var t := Prune(s, now, window);
    KeptAre(s.log, through);
    if through != 0 {
      if LoggedAfter(s.log, c.sid, c.seqNo) && t.prunedThrough <= c.seqNo {
        var k :| 0 <= k < |s.log| && s.log[k].seqNo > c.seqNo && c.sid in s.log[k].ids;
        assert s.log[k] in t.log;
        var j :| 0 <= j < |t.log| && t.log[j] == s.log[k];
      }
      if LoggedAfter(t.log, c.sid, c.seqNo) {
        var j :| 0 <= j < |t.log| && t.log[j].seqNo > c.seqNo && c.sid in t.log[j].ids;
        assert t.log[j] in s.log;
        var k :| 0 <= k < |s.log| && s.log[k] == t.log[j];
      }
    }
  }

  lemma TrackedStep(s: Store, c: Claim, erased: bool, op: Op)
    requires Tracked(s, c, erased)
    ensures Tracked(StoreStep(s, op).0, c, erased || ErasedBy(s, op, c.sid))
  {
    hide LoggedAfter, NamesAnother;
    StepKeeps(s, op);
    match op
    case EraseAccount(owner, now, fails) =>
      if !fails && owner != "" {
        TrackedErase(s, c, erased, op);
      }
    case PruneLog(now, window) => TrackedPrune(s, c, erased, now, window);
    case _ =>
  }

  lemma {:induction false} TrackedRun(s: Store, c: Claim, erased: bool, ops: seq<Op>)
    requires Tracked(s, c, erased)
    ensures Tracked(StoreRun(s, ops), c, erased || ErasedDuring(s, ops, c.sid))
    decreases |ops|
  {
    if ops != [] {
      hide Tracked, StoreStep, ErasedBy;
      TrackedStep(s, c, erased, ops[0]);
      TrackedRun(StoreStep(s, ops[0]).0, c, erased || ErasedBy(s, ops[0], c.sid), ops[1..]);
    }
  }

  /** Exactly when a claim read at admission still stands after any run: the conversation is held
      through that very claim; or it was and is unclaimed, is not an account's own id, has not been
      erased since, and the log still reaches back to the admission. */
  lemma StandsIff(s: Store, sid: string, ops: seq<Op>)
    requires StoreOk(s)
    ensures var c, t := CurrentClaim(s, sid), StoreRun(s, ops);
            Stands(t, c) <==>
              && ClaimIdIn(t, sid) == c.claimId
              && (c.owner != "" || (!(|sid| >= 5 && sid[..5] == "user:") && !ErasedDuring(s, ops, sid)
                                    && t.prunedThrough <= c.seqNo))
    ensures var c, t := CurrentClaim(s, sid), StoreRun(s, ops);
            Stands(t, c) ==> !ErasedDuring(s, ops, sid)
  {
    assert Tracked(s, CurrentClaim(s, sid), false);
    hide ErasedDuring, StoreRun;
    TrackedRun(s, CurrentClaim(s, sid), false, ops);
    ClaimIdentifiesOwner(s, sid, ops);
  }

  /** A claim id is only ever held by the owner it was made for. */
  ghost predicate SameHolder(s: Store, c: Claim) {
    c.claimId > 0 && c.sid in s.owners && s.owners[c.sid].claimId == c.claimId ==> s.owners[c.sid].owner == c.owner
  }

  lemma SameHolderStep(s: Store, c: Claim, op: Op)
    requires StoreOk(s) && c.claimId < s.nextClaim && SameHolder(s, c)
    ensures SameHolder(StoreStep(s, op).0, c)
    ensures c.claimId < StoreStep(s, op).0.nextClaim
  {
    hide NamesAnother, StaleThrough, KeepAfter, OwnedIds;
  }

  lemma ClaimIdentifiesOwner(s: Store, sid: string, ops: seq<Op>)
    requires StoreOk(s)
    ensures SameHolder(StoreRun(s, ops), CurrentClaim(s, sid))
  {
    var c := CurrentClaim(s, sid);
    var inv := (t: Store) => StoreOk(t) && c.claimId < t.nextClaim && SameHolder(t, c);
    assert inv(s);
    hide SameHolder, StoreOk, StoreStep;
    forall t, op | inv(t) ensures inv(StoreStep(t, op).0) {
      SameHolderStep(t, c, op);
      StepKeeps(t, op);
    }
    StoreInvariant(inv, s, ops);
  }

  /** A turn admitted before its conversation was erased or claimed anew adds nothing, however the
      run went on, even when the same subject has claimed the id again. */
  lemma LateTurnAddsNothing(s: Store, sid: string, ops: seq<Op>, message: string, reply: string, fails: bool)
    requires StoreOk(s)
    requires ErasedDuring(s, ops, sid) || ClaimIdIn(StoreRun(s, ops), sid) != ClaimIdIn(s, sid)
    ensures RecordTurn(StoreRun(s, ops), sid, message, reply, CurrentClaim(s, sid), fails) == (StoreRun(s, ops), false)
  {
    hide ErasedDuring, StoreRun;
    StandsIff(s, sid, ops);
  }

  /** A turn whose conversation nobody touched is stored: giving the unclaimed state an identity
      refuses no bystander while the log reaches back to its admission. */
  lemma UndisturbedTurnIsStored(s: Store, sid: string, ops: seq<Op>, message: string, reply: string)
    requires StoreOk(s)
    requires ClaimIdIn(StoreRun(s, ops), sid) == ClaimIdIn(s, sid)
    requires OwnerIn(s, sid) != "" || (!IsAccountId(sid) && !ErasedDuring(s, ops, sid)
                                       && StoreRun(s, ops).prunedThrough <= s.seqNo)
    ensures var t := StoreRun(s, ops);
            var (u, stored) := RecordTurn(t, sid, message, reply, CurrentClaim(s, sid), false);
            && stored
            && StoredIn(u, sid) == WithTurn(StoredIn(t, sid), message, reply)
            && (forall k :: k != sid ==> StoredIn(u, k) == StoredIn(t, k))
  {
    hide ErasedDuring, StoreRun;
    StandsIff(s, sid, ops);
    assert |WithTurn(StoredIn(StoreRun(s, ops), sid), message, reply)| > 0;
  }

  // ---------------------------------------------------------------------------
  // What the stored history is
  // ---------------------------------------------------------------------------

  /** Every turn stored for the conversation since it began or was last erased. */
  function RecordedAfter(s: Store, so: seq<Message>, op: Op, sid: string): seq<Message> {
    if ErasedBy(s, op, sid) then []
    else if op.Record? && op.sid == sid && RecordTurn(s, sid, op.message, op.reply, op.claim, op.fails).1 then
      so + [Message(User, op.message)] + [Message(Assistant, op.reply)]
    else so
  }

  function Recorded(s: Store, so: seq<Message>, ops: seq<Op>, sid: string): seq<Message>
    decreases |ops|
  {
    if ops == [] then so
    else Recorded(StoreStep(s, ops[0]).0, RecordedAfter(s, so, ops[0], sid), ops[1..], sid)
  }

  /** Users and assistants take turns, a user first. */
  ghost predicate Alternates(h: seq<Message>) {
    forall i :: 0 <= i < |h| ==> h[i].role == if i % 2 == 0 then User else Assistant
  }

  /** How much is held of `n` messages recorded: all of them up to a hundred, then the last fifty and
      those recorded since, cut again whenever there are a hundred and two. */
  function HeldOf(n: nat): (r: nat)
    ensures r <= n
  {
    if n <= 100 then n else 50 + (n - 102) % 52
  }

  /** The end of everything recorded, as long as it has to be; users and assistants alternate. */
  ghost predicate TrimmedFrom(h: seq<Message>, all: seq<Message>) {
    && |all| % 2 == 0
    && Alternates(all)
    && h == all[|all| - HeldOf(|all|)..]
  }

  lemma HeldStep(n: nat)
    requires n % 2 == 0
    ensures HeldOf(n + 2) == if HeldOf(n) + 2 > 100 then 50 else HeldOf(n) + 2
  {
    if n > 100 {
      var q, r := (n - 102) / 52, (n - 102) % 52;
      assert n - 102 == 52 * q + r && r % 2 == 0;
      assert n - 100 == 52 * (if r == 50 then q + 1 else q) + (if r == 50 then 0 else r + 2);
    }
  }

  lemma AlternatesOn(all: seq<Message>, message: string, reply: string)
    requires Alternates(all) && |all| % 2 == 0
    ensures Alternates(all + [Message(User, message), Message(Assistant, reply)])
  {
  }

  lemma TrimStep(h: seq<Message>, all: seq<Message>, message: string, reply: string)
    requires TrimmedFrom(h, all)
    ensures TrimmedFrom(WithTurn(h, message, reply), all + [Message(User, message)] + [Message(Assistant, reply)])
  {
    hide Alternates, HeldOf, Trim;
    var pair := [Message(User, message), Message(Assistant, reply)];
    assert all + [Message(User, message)] + [Message(Assistant, reply)] == all + pair;
    assert h + [Message(User, message)] + [Message(Assistant, reply)] == h + pair;
    AlternatesOn(all, message, reply);
    HeldStep(|all|);
    TrimIsEnd(all, HeldOf(|all|), pair);
  }

  lemma TrimIsEnd(all: seq<Message>, n: nat, pair: seq<Message>)
    requires n <= |all| && |pair| == 2
    ensures var m := if n + 2 > 100 then 50 else n + 2;
            Trim(all[|all| - n..] + pair) == (all + pair)[|all| + 2 - m..]
  {
    assert all[|all| - n..] + pair == (all + pair)[|all| - n..];
  }

  /** One operation erases a conversation, adds a turn to it, or leaves it alone. */
  lemma HistoryStep(s: Store, all: seq<Message>, op: Op, sid: string)
    requires StoreOk(s)
    ensures var stored, recorded := StoredIn(StoreStep(s, op).0, sid), RecordedAfter(s, all, op, sid);
            || (stored == [] && recorded == [])
            || (stored == StoredIn(s, sid) && recorded == all)
            || (op.Record? && stored == WithTurn(StoredIn(s, sid), op.message, op.reply)
                && recorded == all + [Message(User, op.message)] + [Message(Assistant, op.reply)])
  {
    hide WithTurn, NamesAnother, Stands, StaleThrough, KeepAfter;
    match op
    case Open(k, identity) => AdmissionExact(s, k, identity);
    case Record(k, message, reply, c, fails) => TurnIsNotEmpty(StoredIn(s, k), message, reply);
    case EraseAccount(owner, now, fails) =>
      if !fails && owner != "" {
        OwnedAre(s, owner);
        hide OwnedIds;
      }
    case _ =>
  }

  lemma TurnIsNotEmpty(h: seq<Message>, message: string, reply: string)
    ensures WithTurn(h, message, reply) != []
  {
    assert |WithTurn(h, message, reply)| > 0;
  }

  lemma NothingIsTrimmed()
    ensures TrimmedFrom([], [])
  {
  }

  /** Over every run from an empty store, the stored history of a conversation is the end of everything
      recorded since it began or was last erased, whose roles alternate, a user first: all of it up to a
      hundred messages, after that exactly the last `HeldOf`. */
  lemma {:induction false} StoredHistory(s: Store, all: seq<Message>, ops: seq<Op>, sid: string)
    requires StoreOk(s) && TrimmedFrom(StoredIn(s, sid), all)
    ensures TrimmedFrom(StoredIn(StoreRun(s, ops), sid), Recorded(s, all, ops, sid))
    decreases |ops|
  {
    if ops != [] {
      hide TrimmedFrom, StoreStep, StoreOk, RecordedAfter;
      HistoryStep(s, all, ops[0], sid);
      NothingIsTrimmed();
      if ops[0].Record? {
        TrimStep(StoredIn(s, sid), all, ops[0].message, ops[0].reply);
      }
      StepKeeps(s, ops[0]);
      StoredHistory(StoreStep(s, ops[0]).0, RecordedAfter(s, all, ops[0], sid), ops[1..], sid);
    }
  }

  lemma StoredHistoryFromEmpty(ops: seq<Op>, sid: string)
    ensures TrimmedFrom(StoredIn(StoreRun(EMPTY, ops), sid), Recorded(EMPTY, [], ops, sid))
  {
    assert StoreOk(EMPTY) && StoredIn(EMPTY, sid) == [];
    NothingIsTrimmed();
    hide TrimmedFrom, StoreRun, Recorded, StoreOk, StoredIn;
    StoredHistory(EMPTY, [], ops, sid);
  }

  // ---------------------------------------------------------------------------
  // Whose turns a history holds
  // ---------------------------------------------------------------------------

  /** The identities whose turns have been stored in the conversation since it began or was last
      erased; a turn's identity is the owner of the claim it was admitted under. */
  function AuthorsAfter(s: Store, authors: set<string>, op: Op, sid: string): set<string> {
    if ErasedBy(s, op, sid) then {}
    else if op.Record? && op.sid == sid && RecordTurn(s, sid, op.message, op.reply, op.claim, op.fails).1 then
      authors + {op.claim.owner}
    else authors
  }

  function Authors(s: Store, authors: set<string>, ops: seq<Op>, sid: string): set<string>
    decreases |ops|
  {
    if ops == [] then authors
    else Authors(StoreStep(s, ops[0]).0, AuthorsAfter(s, authors, ops[0], sid), ops[1..], sid)
  }

  lemma AuthorsStep(s: Store, authors: set<string>, op: Op, sid: string)
    requires StoreOk(s) && authors <= {"", OwnerIn(s, sid)}
    ensures AuthorsAfter(s, authors, op, sid) <= {"", OwnerIn(StoreStep(s, op).0, sid)}
  {
    hide NamesAnother, WithTurn, LoggedAfter, StaleThrough, KeepAfter;
    if op.EraseAccount? && !op.fails && op.owner != "" {
      EraseKeeps(s, op.owner, op.now);
      hide Erase;
    }
  }

  lemma {:induction false} AuthorsRun(s: Store, authors: set<string>, ops: seq<Op>, sid: string)
    requires StoreOk(s) && authors <= {"", OwnerIn(s, sid)}
    ensures Authors(s, authors, ops, sid) <= {"", OwnerIn(StoreRun(s, ops), sid)}
    decreases |ops|
  {
    if ops != [] {
      hide StoreStep, StoreOk, AuthorsAfter, OwnerIn;
      AuthorsStep(s, authors, ops[0], sid);
      StepKeeps(s, ops[0]);
      AuthorsRun(StoreStep(s, ops[0]).0, AuthorsAfter(s, authors, ops[0], sid), ops[1..], sid);
    }
  }

  /** Over every run from an empty store: whoever a turn is admitted for, the history it is shown
      holds only that account's turns and turns from before anyone had claimed the conversation. */
  lemma ShownOnlyOwnTurns(ops: seq<Op>, sid: string, identity: string)
    ensures var t := StoreRun(EMPTY, ops);
            !OpenTurn(t, sid, identity).1.refused ==> Authors(EMPTY, {}, ops, sid) <= {"", identity}
  {
    hide StoreRun, Authors, ClaimFor, CurrentClaim;
    forall s, op | StoreOk(s) ensures StoreOk(StoreStep(s, op).0) {
      StepKeeps(s, op);
    }
    StoreInvariant(s => StoreOk(s), EMPTY, ops);
    AuthorsRun(EMPTY, {}, ops, sid);
    AdmissionExact(StoreRun(EMPTY, ops), sid, identity);
  }
}
