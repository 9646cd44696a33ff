/**
 The owner's approval of a component export, and the deployer behind it.

 A decision is a shared object: the request's polling loop, every `approve` call suspended at its
 authorisation and every `reject` hold references to it.  `D` stands for those references.
 */
module Approval {
  import opened Wrappers
  import Sanitizer

  datatype Status = Pending | Approved | Rejected | Expired

  datatype Decision = Decision(
    component: string,
    version: string,
    requestId: string,
    status: Status,
    decidedAt: Option<real>,
    reason: string)

  const MAX_WAIT := 3600.0

  function RequestId(component: string, version: string, second: string): string {
    "approval_" + component + "_" + version + "_" + second
  }

  /** Which requests share an id: those of the same second whose component and version read the same;
      so, when versions hold no underscore, only requests for one component and version. */
  lemma SharedIdIff(c: string, v: string, s: string, c': string, v': string, s': string)
    requires '_' !in s && '_' !in s'
    ensures RequestId(c, v, s) == RequestId(c', v', s') <==> s == s' && c + "_" + v == c' + "_" + v'
    ensures '_' !in v && '_' !in v' ==> (RequestId(c, v, s) == RequestId(c', v', s') <==> (c, v, s) == (c', v', s'))
  {
    var a, b := "approval_" + (c + "_" + v), "approval_" + (c' + "_" + v');
    assert a[9..] == c + "_" + v && b[9..] == c' + "_" + v';
    assert RequestId(c, v, s) == a + "_" + s && RequestId(c', v', s') == b + "_" + s';
    if RequestId(c, v, s) == RequestId(c', v', s') {
      LastPart(a, s, b, s');
    }
    if '_' !in v && '_' !in v' && c + "_" + v == c' + "_" + v' {
      LastPart(c, v, c', v');
    }
  }

  lemma LastPart(a: string, x: string, b: string, y: string)
    requires a + "_" + x == b + "_" + y && '_' !in x && '_' !in y
    ensures a == b && x == y
  {
    var t := a + "_" + x;
    assert t[|a|] == '_' && t[|b|] == '_';
    assert forall i :: |a| < i < |t| ==> t[i] == x[i - |a| - 1];
    assert forall i :: |b| < i < |t| ==> t[i] == y[i - |b| - 1];
    assert t[..|a|] == a && t[..|b|] == b && t[|a| + 1..] == x && t[|b| + 1..] == y;
  }

  /** An underscore in a version can make two components share an id. */
  lemma AmbiguousIds(second: string)
    ensures RequestId("push", "1_2", second) == RequestId("push_1", "2", second)
  {
    assert "approval_" + "push" + "_" + "1_2" == "approval_" + "push_1" + "_" + "2";
  }

  /** `unowned`: no owner verification is configured.  `calls`: what each suspended `approve` call
      looked up before its await. */
  datatype Gate<D(==)> = Gate(
    unowned: bool,
    pending: map<string, D>,
    decisions: map<D, Decision>,
    calls: map<nat, D>)

  datatype Step<D> =
    | Request(d: D, component: string, version: string, second: string)
    | Lookup(call: nat, id: string)
    | Authorise(call: nat, ok: bool, denial: string, now: real)
    | Reject(id: string, reason: string, now: real)
    | Poll(d: D, waited: real)

  function NewDecision(component: string, version: string, second: string): Decision {
    Decision(component, version, RequestId(component, version, second), Pending, None, "")
  }

  function AfterApprove(c: Decision, ok: bool, denial: string, now: real): Decision {
    if ok then c.(status := Approved, decidedAt := Some(now), reason := "Approved by OTP-verified owner.")
    else c.(reason := denial)
  }

  function AfterReject(c: Decision, reason: string, now: real): Decision {
    c.(status := Rejected, decidedAt := Some(now), reason := if reason == "" then "Rejected." else reason)
  }

  function AfterPoll(c: Decision, waited: real): Decision {
    if c.status == Pending && waited >= MAX_WAIT then c.(status := Expired, reason := "No response after 3600s") else c
  }

  predicate Enabled<D(==)>(g: Gate<D>, s: Step<D>) {
    match s
    case Request(d, _, _, _) => d !in g.decisions
    case Lookup(call, _) => call !in g.calls
    case Authorise(call, _, _, _) => call in g.calls
    case Reject(_, _, _) => true
    case Poll(d, _) => d in g.decisions
  }

  function Change<D(==)>(g: Gate<D>, d: D, c: Decision): Gate<D> {
    g.(decisions := g.decisions[d := c])
  }

  function Apply<D(==)>(g: Gate<D>, s: Step<D>): Gate<D> {
    match s
    case Request(d, component, version, second) =>
      g.(pending := g.pending[RequestId(component, version, second) := d],
         decisions := g.decisions[d := NewDecision(component, version, second)])
    case Lookup(call, id) =>
      if id in g.pending && !g.unowned then g.(calls := g.calls[call := g.pending[id]]) else g
    case Authorise(call, ok, denial, now) =>
      if call in g.calls && g.calls[call] in g.decisions then
        Change(g, g.calls[call], AfterApprove(g.decisions[g.calls[call]], ok, denial, now)).(calls := g.calls - {call})
      else g
    case Reject(id, reason, now) =>
      if id in g.pending && g.pending[id] in g.decisions then
        Change(g, g.pending[id], AfterReject(g.decisions[g.pending[id]], reason, now))
      else g
    case Poll(d, waited) =>
      if d in g.decisions then Change(g, d, AfterPoll(g.decisions[d], waited)) else g
  }

  lemma ApplyAuthorise<D>(g: Gate<D>, call: nat, ok: bool, denial: string, now: real)
    requires call in g.calls && g.calls[call] in g.decisions
    ensures Apply(g, Authorise(call, ok, denial, now))
            == Change(g, g.calls[call], AfterApprove(g.decisions[g.calls[call]], ok, denial, now)).(calls := g.calls - {call})
  {
  }

  lemma ApplyReject<D>(g: Gate<D>, id: string, reason: string, now: real)
    requires id in g.pending ==> g.pending[id] in g.decisions
    ensures Apply(g, Reject(id, reason, now))
            == if id in g.pending then Change(g, g.pending[id], AfterReject(g.decisions[g.pending[id]], reason, now)) else g
  {
  }

  function After<D(==)>(unowned: bool, log: seq<Step<D>>): Gate<D> {
    if log == [] then Gate(unowned, map[], map[], map[])
    else Apply(After(unowned, log[..|log| - 1]), log[|log| - 1])
  }

  ghost predicate Possible<D>(unowned: bool, log: seq<Step<D>>) {
    log == [] || (Possible(unowned, log[..|log| - 1]) && Enabled(After(unowned, log[..|log| - 1]), log[|log| - 1]))
  }

  // ---------------------------------------------------------------------------
  // What a run of steps says about a decision, without the gate's state
  // ---------------------------------------------------------------------------

  /** The decision a request id stands for: that of its latest request. */
  function NamedBy<D>(log: seq<Step<D>>, id: string): Option<D> {
    if log == [] then None
    else
      var s := log[|log| - 1];
      if s.Request? && RequestId(s.component, s.version, s.second) == id then Some(s.d)
      else NamedBy(log[..|log| - 1], id)
  }

  /** The decision a suspended `approve` call acts on: the one its id stood for when it looked it up. */
  function Target<D>(unowned: bool, log: seq<Step<D>>, call: nat): Option<D> {
    if log == [] || unowned then None
    else
      var before, s := log[..|log| - 1], log[|log| - 1];
      if s.Lookup? && s.call == call && NamedBy(before, s.id).Some? then NamedBy(before, s.id)
      else if s.Authorise? && s.call == call then None
      else Target(unowned, before, call)
  }

  /** The last step is an authorised approval of `d` (true), or a rejection of it (false). */
  function StepVerdict<D(==)>(unowned: bool, log: seq<Step<D>>, d: D): Option<bool> {
    if log == [] then None
    else
      var before, s := log[..|log| - 1], log[|log| - 1];
      if s.Authorise? && s.ok && Target(unowned, before, s.call) == Some(d) then Some(true)
      else if s.Reject? && NamedBy(before, s.id) == Some(d) then Some(false)
      else None
  }

  predicate TimedOut<D(==)>(s: Step<D>, d: D) {
    s.Poll? && s.d == d && s.waited >= MAX_WAIT
  }

  /** The owner's last word on `d`. */
  function LastVerdict<D(==)>(unowned: bool, log: seq<Step<D>>, d: D): Option<bool> {
    if log == [] then None
    else if StepVerdict(unowned, log, d).Some? then StepVerdict(unowned, log, d)
    else LastVerdict(unowned, log[..|log| - 1], d)
  }

  predicate EverTimedOut<D(==)>(log: seq<Step<D>>, d: D) {
    log != [] && (TimedOut(log[|log| - 1], d) || EverTimedOut(log[..|log| - 1], d))
  }

  function StatusOf(verdict: Option<bool>, timedOut: bool): Status {
    match verdict
    case Some(approve) => if approve then Approved else Rejected
    case None => if timedOut then Expired else Pending
  }

  // ---------------------------------------------------------------------------
  // The state follows the log
  // ---------------------------------------------------------------------------

  ghost predicate NamesAgree<D>(g: Gate<D>, log: seq<Step<D>>) {
    && (forall id :: NamedBy(log, id) == if id in g.pending then Some(g.pending[id]) else None)
    && (forall id :: id in g.pending ==> g.pending[id] in g.decisions && g.decisions[g.pending[id]].requestId == id)
  }

  ghost predicate CallsAgree<D>(g: Gate<D>, log: seq<Step<D>>) {
    && (forall call :: Target(g.unowned, log, call) == if call in g.calls then Some(g.calls[call]) else None)
    && (forall call :: call in g.calls ==> g.calls[call] in g.decisions)
  }

  ghost predicate StatusAgrees<D>(g: Gate<D>, log: seq<Step<D>>, d: D) {
    && (d in g.decisions ==> g.decisions[d].status == StatusOf(LastVerdict(g.unowned, log, d), EverTimedOut(log, d)))
    && (d !in g.decisions ==> LastVerdict(g.unowned, log, d) == None && !EverTimedOut(log, d))
  }

  lemma NamedByStep<D>(log: seq<Step<D>>, s: Step<D>, id: string)
    ensures NamedBy(log + [s], id)
            == if s.Request? && RequestId(s.component, s.version, s.second) == id then Some(s.d) else NamedBy(log, id)
  {
    assert (log + [s])[..|log|] == log;
  }

  lemma TargetStep<D>(unowned: bool, log: seq<Step<D>>, s: Step<D>, call: nat)
    ensures Target(unowned, log + [s], call)
            == if s.Lookup? && s.call == call && !unowned && NamedBy(log, s.id).Some? then NamedBy(log, s.id)
               else if s.Authorise? && s.call == call then None
               else Target(unowned, log, call)
  {
    assert (log + [s])[..|log|] == log;
  }

  lemma NamesStep<D>(g: Gate<D>, log: seq<Step<D>>, s: Step<D>)
    requires NamesAgree(g, log) && Enabled(g, s)
    ensures NamesAgree(Apply(g, s), log + [s])
  {
    hide RequestId, NamedBy;
    forall id ensures NamedBy(log + [s], id)
                      == if id in Apply(g, s).pending then Some(Apply(g, s).pending[id]) else None {
      NamedByStep(log, s, id);
    }
  }

  lemma CallsStep<D>(g: Gate<D>, log: seq<Step<D>>, s: Step<D>)
    requires NamesAgree(g, log) && CallsAgree(g, log) && Enabled(g, s)
    ensures CallsAgree(Apply(g, s), log + [s])
  {
    hide RequestId, NamedBy, Target, NewDecision, AfterApprove, AfterReject, AfterPoll;
    forall call ensures Target(g.unowned, log + [s], call)
                        == if call in Apply(g, s).calls then Some(Apply(g, s).calls[call]) else None {
      TargetStep(g.unowned, log, s, call);
    }
  }

  lemma StatusStep<D>(g: Gate<D>, log: seq<Step<D>>, s: Step<D>, d: D)
    requires NamesAgree(g, log) && CallsAgree(g, log) && StatusAgrees(g, log, d) && Enabled(g, s)
    ensures StatusAgrees(Apply(g, s), log + [s], d)
  {
    hide RequestId, NamedBy, Target;
    assert (log + [s])[..|log|] == log;
  }

  lemma {:induction false} StateFollows<D>(unowned: bool, log: seq<Step<D>>, d: D)
    requires Possible(unowned, log)
    ensures var g := After(unowned, log);
            g.unowned == unowned && NamesAgree(g, log) && CallsAgree(g, log) && StatusAgrees(g, log, d)
  {
    if log != [] {
      hide NamesAgree, CallsAgree, StatusAgrees, Enabled, Apply;
      var n := |log| - 1;
      StateFollows(unowned, log[..n], d);
      assert log[..n] + [log[n]] == log;
      var g := After(unowned, log[..n]);
      NamesStep(g, log[..n], log[n]);
      CallsStep(g, log[..n], log[n]);
      StatusStep(g, log[..n], log[n], d);
      KeepsOwner(g, log[n]);
    }
  }

  lemma KeepsOwner<D>(g: Gate<D>, s: Step<D>)
    ensures Apply(g, s).unowned == g.unowned
  {
  }

  // ---------------------------------------------------------------------------
  // Approval over whole runs
  // ---------------------------------------------------------------------------

  /** Some step gave this verdict and no later one gave the other. */
  ghost predicate Stands<D>(unowned: bool, log: seq<Step<D>>, d: D, verdict: bool) {
    exists k :: 0 < k <= |log| && StepVerdict(unowned, log[..k], d) == Some(verdict)
                && forall j :: k < j <= |log| ==> StepVerdict(unowned, log[..j], d) != Some(!verdict)
  }

  ghost predicate Untouched<D>(unowned: bool, log: seq<Step<D>>, d: D) {
    forall k :: 0 < k <= |log| ==> StepVerdict(unowned, log[..k], d) == None
  }

  lemma {:induction false} VerdictAt<D>(unowned: bool, log: seq<Step<D>>, d: D)
    ensures LastVerdict(unowned, log, d) == None ==> Untouched(unowned, log, d)
    ensures LastVerdict(unowned, log, d).Some? ==> Stands(unowned, log, d, LastVerdict(unowned, log, d).value)
  {
    if log != [] {
      var before := log[..|log| - 1];
      VerdictAt(unowned, before, d);
      hide StepVerdict;
      assert log[..|log|] == log;
      assert forall k :: 0 <= k < |log| ==> before[..k] == log[..k];
    }
  }

  lemma {:induction false} TimeoutAt<D>(log: seq<Step<D>>, d: D)
    ensures EverTimedOut(log, d) <==> exists k :: 0 <= k < |log| && TimedOut(log[k], d)
  {
    if log != [] {
      TimeoutAt(log[..|log| - 1], d);
    }
  }

  /** In every interleaving, what a decision's status says: approved exactly when the owner's last
      word was an authorised approval, rejected exactly when it was a rejection, and otherwise
      expired or pending by whether its request saw the time run out.  So neither time nor a failed
      authorisation ever approves, and a later verdict replaces an earlier one or an expiry. */
  lemma StatusIsLastVerdict<D>(unowned: bool, log: seq<Step<D>>, d: D)
    requires Possible(unowned, log) && d in After(unowned, log).decisions
    ensures var status := After(unowned, log).decisions[d].status;
            && (status == Approved <==> Stands(unowned, log, d, true))
            && (status == Rejected <==> Stands(unowned, log, d, false))
            && (status in {Expired, Pending} <==> Untouched(unowned, log, d))
            && (status == Expired <==>
                  && Untouched(unowned, log, d)
                  && exists k :: 0 <= k < |log| && log[k].Poll? && log[k].d == d && log[k].waited >= 3600.0)
  {
    StateFollows(unowned, log, d);
    VerdictAt(unowned, log, d);
    TimeoutAt(log, d);
    hide StepVerdict, LastVerdict, EverTimedOut, After, Possible, NamesAgree, CallsAgree;
    assert !(Stands(unowned, log, d, true) && Stands(unowned, log, d, false));
    assert Untouched(unowned, log, d) ==> !Stands(unowned, log, d, true) && !Stands(unowned, log, d, false);
  }

  /** Without owner verification the gate approves nothing. */
  lemma UnownedNeverApproves<D>(log: seq<Step<D>>, d: D)
    requires Possible(true, log) && d in After(true, log).decisions
    ensures After(true, log).decisions[d].status != Approved
  {
    StatusIsLastVerdict(true, log, d);
    hide After, Possible;
  }

  /** An authorised approval needs a call that looked the decision up, under its own request id,
      while that id still stood for it. */
  lemma {:induction false} TargetWasNamed<D>(unowned: bool, log: seq<Step<D>>, call: nat)
    requires Target(unowned, log, call).Some?
    ensures exists b :: 0 <= b < |log| && log[b].Lookup? && log[b].call == call
                        && NamedBy(log[..b], log[b].id) == Target(unowned, log, call)
  {
    hide NamedBy;
    var n := |log| - 1;
    if log[n].Lookup? && log[n].call == call && NamedBy(log[..n], log[n].id).Some? {
      assert NamedBy(log[..n], log[n].id) == Target(unowned, log, call);
    } else {
      TargetWasNamed(unowned, log[..n], call);
      var b :| 0 <= b < n && log[..n][b].Lookup? && log[..n][b].call == call
               && NamedBy(log[..n][..b], log[..n][b].id) == Target(unowned, log[..n], call);
      assert log[..n][..b] == log[..b];
    }
  }

  /** No id and no suspended call leads to `d`. */
  ghost predicate Unreachable<D>(g: Gate<D>, d: D) {
    && d in g.decisions
    && (forall id :: id in g.pending ==> g.pending[id] != d)
    && (forall call :: call in g.calls ==> g.calls[call] != d)
  }

  /** A request replaced under the same id (same component and version within one second), with no
      `approve` call holding it, can never be approved or rejected again: only time can end it. */
  lemma {:induction false} ReplacedRequestOnlyExpires<D>(unowned: bool, log: seq<Step<D>>, more: seq<Step<D>>, d: D)
    requires Possible(unowned, log + more) && Unreachable(After(unowned, log), d)
    ensures Unreachable(After(unowned, log + more), d)
    ensures var was, now := After(unowned, log).decisions[d].status, After(unowned, log + more).decisions[d].status;
            now == was || (was == Pending && now == Expired)
    decreases |more|
  {
    if more == [] {
      assert log + more == log;
    } else {
      var n := |more| - 1;
      assert (log + more)[..|log + more| - 1] == log + more[..n];
      ReplacedRequestOnlyExpires(unowned, log, more[..n], d);
      hide Unreachable;
      UnreachableStep(After(unowned, log + more[..n]), more[n], d);
    }
  }

  lemma UnreachableStep<D>(g: Gate<D>, s: Step<D>, d: D)
    requires Unreachable(g, d) && Enabled(g, s)
    ensures Unreachable(Apply(g, s), d)
    ensures var was, now := g.decisions[d].status, Apply(g, s).decisions[d].status;
            now == was || (was == Pending && now == Expired)
  {
    hide RequestId, NewDecision;
  }

  // ---------------------------------------------------------------------------
  // The gate as objects
  // ---------------------------------------------------------------------------

  class ApprovalDecision {
    const component: string
    const version: string
    const requestId: string
    var status: Status
    var decidedAt: Option<real>
    var reason: string

    ghost function View(): Decision
      reads this
    {
      Decision(component, version, requestId, status, decidedAt, reason)
    }

    constructor (component: string, version: string, second: string)
      ensures View() == NewDecision(component, version, second)
    {
      this.component, this.version, this.requestId := component, version, RequestId(component, version, second);
      status, decidedAt, reason := Pending, None, "";
    }
  }

  /** `known` and `calls` only record which decisions exist and which calls hold them. */
  class ApprovalGate {
    const unowned: bool
    var pending: map<string, ApprovalDecision>
    ghost var known: set<ApprovalDecision>
    ghost var calls: map<nat, ApprovalDecision>

    ghost predicate Valid()
      reads this
    {
      && (forall id :: id in pending ==> pending[id] in known)
      && (forall call :: call in calls ==> calls[call] in known)
    }

    ghost function View(): Gate<ApprovalDecision>
      reads this, known
    {
      Gate(unowned, pending, map d | d in known :: d.View(), calls)
    }

    constructor (unowned: bool)
      ensures Valid() && View() == After(unowned, [])
    {
      this.unowned := unowned;
      pending, known, calls := map[], {}, map[];
    }

    /** `request_approval` up to its polling loop. */
    method Request(component: string, version: string, second: string) returns (d: ApprovalDecision)
      requires Valid()
      modifies this
      ensures Valid()
      ensures fresh(d)
      ensures known == old(known) + {d}
      ensures View() == Apply(old(View()), Step.Request(d, component, version, second))
    {
      d := new ApprovalDecision(component, version, second);
      pending := pending[d.requestId := d];
      known := known + {d};
    }

    /** One turn of the polling loop; `done` ends it. */
    method Poll(d: ApprovalDecision, waited: real) returns (done: bool)
      requires Valid() && d in known
      modifies d
      ensures Valid()
      ensures View() == Apply(old(View()), Step.Poll(d, waited))
      ensures done <==> d.status != Pending
    {
      if d.status == Pending {
        if waited >= MAX_WAIT {
          d.status := Expired;
          d.reason := "No response after 3600s";
          assert View().decisions == Apply(old(View()), Step.Poll(d, waited)).decisions;
          return true;
        }
        assert View().decisions == Apply(old(View()), Step.Poll(d, waited)).decisions;
        return false;
      }
      assert View().decisions == Apply(old(View()), Step.Poll(d, waited)).decisions;
      done := true;
    }

    /** `approve` up to its await; `held` is what the suspended call acts on. */
    method ApproveLookup(id: string, ghost call: nat) returns (found: Option<ApprovalDecision>, held: bool)
      requires Valid() && call !in calls
      modifies this`calls
      ensures Valid()
      ensures View() == Apply(old(View()), Lookup(call, id))
      ensures found == if id in pending then Some(pending[id]) else None
      ensures held <==> id in pending && !unowned
      ensures held ==> call in calls && calls[call] == found.value
    {
      if id !in pending {
        return None, false;
      }
      if unowned {
        return Some(pending[id]), false;
      }
      calls := calls[call := pending[id]];
      return Some(pending[id]), true;
    }

    /** `approve` after its await, on the decision it holds. */
    method ApproveFinish(d: ApprovalDecision, ghost call: nat, ok: bool, denial: string, now: real)
      requires Valid() && call in calls && calls[call] == d
      modifies this`calls, d
      ensures Valid()
      ensures View() == Apply(old(View()), Authorise(call, ok, denial, now))
    {
      hide Apply;
      ApplyAuthorise(View(), call, ok, denial, now);
      if !ok {
        d.reason := denial;
      } else {
        d.status := Approved;
        d.decidedAt := Some(now);
        d.reason := "Approved by OTP-verified owner.";
      }
      calls := calls - {call};
      assert View().decisions == Apply(old(View()), Authorise(call, ok, denial, now)).decisions;
    }

    method Reject(id: string, reason: string, now: real) returns (found: Option<ApprovalDecision>)
      requires Valid()
      modifies if id in pending then {pending[id]} else {}
      ensures Valid()
      ensures View() == Apply(old(View()), Step.Reject(id, reason, now))
      ensures found == if id in pending then Some(pending[id]) else None
    {
      hide Apply;
      ApplyReject(View(), id, reason, now);
      if id !in pending {
        return None;
      }
      var d := pending[id];
      d.status := Rejected;
      d.decidedAt := Some(now);
      d.reason := if reason == "" then "Rejected." else reason;
      assert View().decisions == Apply(old(View()), Step.Reject(id, reason, now)).decisions;
      found := Some(d);
    }
  }

  // ---------------------------------------------------------------------------
  // The deployer
  // ---------------------------------------------------------------------------

  datatype DeploymentResult = DeploymentResult(
    deploymentId: string,
    success: bool,
    targetPath: string,
    error: string,
    attested: bool,
    attestationUid: string)

  /** Why a deployment is refused or fails, `None` when it goes through. */
  datatype Refusal = NotClean | NotApproved | InstallFailed

  function Refuse(scan: Sanitizer.ScanResult, status: Status, installed: Result<string, string>): Option<Refusal> {
    if !scan.isClean then Some(NotClean)
    else if status != Approved then Some(NotApproved)
    else if installed.Err? then Some(InstallFailed)
    else None
  }

  /** `installed` and `attested` are what writing the files and recording the attestation came to. */
  method Deploy(scan: Sanitizer.ScanResult, approval: ApprovalDecision, deploymentId: string,
                installed: Result<string, string>, attested: Result<string, string>)
    returns (r: DeploymentResult, why: Option<Refusal>)
    ensures why == Refuse(scan, approval.status, installed)
    ensures r.success <==> scan.isClean && approval.status == Approved && installed.Ok?
    ensures r.success ==> r.targetPath == installed.value && r.error == ""
    ensures !r.success ==> r.targetPath == "" && r.error != "" && !r.attested
    ensures r.attested <==> r.success && attested.Ok?
    ensures r.attestationUid == if r.attested then attested.value else ""
    ensures r.deploymentId == deploymentId
  {
    if !scan.isClean {
      return DeploymentResult(deploymentId, false, "", "Cannot deploy: sanitizer found violations", false, ""), Some(NotClean);
    }
    if approval.status != Approved {
      return DeploymentResult(deploymentId, false, "", "Cannot deploy: not approved", false, ""), Some(NotApproved);
    }
    if installed.Err? {
      return DeploymentResult(deploymentId, false, "", "Installation failed: " + installed.error, false, ""),
             Some(InstallFailed);
    }
    r := DeploymentResult(deploymentId, true, installed.value, "", false, "");
    if attested.Ok? {
      r := r.(attested := true, attestationUid := attested.value);
    }
    why := None;
  }

  /** In every interleaving, a deployment goes through exactly when the scan was clean, the owner's
      last word on that decision was an authorised approval, and the files could be written. */
  lemma DeployNeedsTheOwner<D>(unowned: bool, log: seq<Step<D>>, d: D, scan: Sanitizer.ScanResult,
                               installed: Result<string, string>)
    requires Possible(unowned, log) && d in After(unowned, log).decisions
    ensures Refuse(scan, After(unowned, log).decisions[d].status, installed) == None
            <==> scan.isClean && Stands(unowned, log, d, true) && installed.Ok?
  {
    StatusIsLastVerdict(unowned, log, d);
  }
}
