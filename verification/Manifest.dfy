/**
 The bridge manifest: the list of component exports and the calls that move an entry through its
 lifecycle.
 */
module Manifest {
  import opened Wrappers

  datatype Entry = Entry(
    name: string,
    version: string,
    contentHash: string,
    sanitizer: string,
    approval: string,
    status: string,
    deploymentId: string,
    attestationUid: string,
    iosPackaged: bool)

  function NewEntry(name: string, version: string, contentHash: string): Entry {
    Entry(name, version, contentHash, "pending", "pending", "pending", "", "", false)
  }

  /** Not yet deployed. */
  predicate Active(e: Entry) {
    e.status == "pending" || e.status == "failed"
  }

  /** The last entry of a component, or its last active one. */
  function LastOf(es: seq<Entry>, name: string, active: bool): (r: Option<nat>)
    ensures r.Some? ==> r.value < |es| && es[r.value].name == name && (active ==> Active(es[r.value]))
                        && forall i :: r.value < i < |es| ==> !(es[i].name == name && (active ==> Active(es[i])))
    ensures r.None? ==> forall i :: 0 <= i < |es| ==> !(es[i].name == name && (active ==> Active(es[i])))
  {
    if es == [] then None
    else
      var n := |es| - 1;
      if es[n].name == name && (active ==> Active(es[n])) then Some(n) else LastOf(es[..n], name, active)
  }

  lemma LastOfStep(es: seq<Entry>, i: nat, name: string, active: bool)
    requires i < |es|
    ensures LastOf(es[..i + 1], name, active)
            == if es[i].name == name && (active ==> Active(es[i])) then Some(i) else LastOf(es[..i], name, active)
  {
    assert es[..i + 1][..i] == es[..i];
  }

  /** The entry a deployment update goes to: the active one, else the most recent. */
  function DeploymentTarget(es: seq<Entry>, name: string): Option<nat> {
    if LastOf(es, name, true).Some? then LastOf(es, name, true) else LastOf(es, name, false)
  }

  datatype Call =
    | Create(name: string, version: string, contentHash: string)
    | UpdateSanitizer(name: string, result: string)
    | UpdateApproval(name: string, status: string)
    | UpdateDeployment(name: string, status: string, deploymentId: string, attestationUid: string)
    | UpdateIosPackaged(name: string)

  /** The entry a call changes and what it makes of it; `None` when the call is refused. */
  function Change(es: seq<Entry>, c: Call): Option<(nat, Entry)> {
    match c
    case Create(_, _, _) => None
    case UpdateSanitizer(name, result) =>
      var at := LastOf(es, name, true);
      if at.None? then None else Some((at.value, es[at.value].(sanitizer := result)))
    case UpdateApproval(name, status) =>
      var at := LastOf(es, name, true);
      if at.None? then None else Some((at.value, es[at.value].(approval := status)))
    case UpdateDeployment(name, status, deploymentId, attestationUid) =>
      var at := DeploymentTarget(es, name);
      if at.None? || (status == "deployed" && es[at.value].approval != "approved") then None
      else
        var e := es[at.value].(status := status);
        var e1 := if deploymentId != "" then e.(deploymentId := deploymentId) else e;
        Some((at.value, if attestationUid != "" then e1.(attestationUid := attestationUid) else e1))
    case UpdateIosPackaged(name) =>
      var at := LastOf(es, name, false);
      if at.None? then None else Some((at.value, es[at.value].(iosPackaged := true)))
  }

  function Apply(es: seq<Entry>, c: Call): seq<Entry> {
    if c.Create? then
      if LastOf(es, c.name, true).Some? then es else es + [NewEntry(c.name, c.version, c.contentHash)]
    else
      var change := Change(es, c);
      if change.None? || change.value.0 >= |es| then es else es[change.value.0 := change.value.1]
  }

  function Run(es: seq<Entry>, calls: seq<Call>): seq<Entry>
    decreases |calls|
  {
    if calls == [] then es else Run(Apply(es, calls[0]), calls[1..])
  }

  function Count(es: seq<Entry>, wanted: set<string>): (n: nat)
    ensures n <= |es|
  {
    if es == [] then 0
    else Count(es[..|es| - 1], wanted) + (if es[|es| - 1].status in wanted then 1 else 0)
  }

  function CountIos(es: seq<Entry>): nat {
    if es == [] then 0 else CountIos(es[..|es| - 1]) + (if es[|es| - 1].iosPackaged then 1 else 0)
  }

  datatype Summary = Summary(total: nat, deployed: nat, pending: nat, failed: nat, iosPackaged: nat)

  function Summarise(es: seq<Entry>): Summary {
    Summary(|es|, Count(es, {"deployed", "attested"}), Count(es, {"pending"}), Count(es, {"failed"}), CountIos(es))
  }

  // ---------------------------------------------------------------------------
  // The manifest as objects
  // ---------------------------------------------------------------------------

  class ManifestEntry {
    const name: string
    const version: string
    const contentHash: string
    var sanitizer: string
    var approval: string
    var status: string
    var deploymentId: string
    var attestationUid: string
    var iosPackaged: bool

    ghost function View(): Entry
      reads this
    {
      Entry(name, version, contentHash, sanitizer, approval, status, deploymentId, attestationUid, iosPackaged)
    }

    constructor (name: string, version: string, contentHash: string)
      ensures View() == NewEntry(name, version, contentHash)
    {
      this.name, this.version, this.contentHash := name, version, contentHash;
      sanitizer, approval, status := "pending", "pending", "pending";
      deploymentId, attestationUid, iosPackaged := "", "", false;
    }
  }

  class ManifestManager {
    var entries: seq<ManifestEntry>

    ghost predicate Valid()
      reads this
    {
      forall i, j :: 0 <= i < j < |entries| ==> entries[i] != entries[j]
    }

    ghost function View(): (v: seq<Entry>)
      reads this, entries
      ensures |v| == |entries| && forall i :: 0 <= i < |v| ==> v[i] == entries[i].View()
    {
      seq(|entries|, i requires 0 <= i < |entries| reads this, entries => entries[i].View())
    }

    constructor ()
      ensures Valid() && View() == []
    {
      entries := [];
    }

    /** Search from the most recent entry back. */
    method Find(name: string, active: bool) returns (at: Option<nat>)
      ensures at == LastOf(View(), name, active)
      ensures at.Some? ==> at.value < |entries|
    {
      hide LastOf;
      ghost var v := View();
      assert v[..|entries|] == v;
      var i := |entries|;
      while i > 0
        invariant 0 <= i <= |entries|
        invariant LastOf(v, name, active) == LastOf(v[..i], name, active)
      {
        i := i - 1;
        LastOfStep(v, i, name, active);
        var e := entries[i];
        if e.name == name && (active ==> e.status in {"pending", "failed"}) {
          return Some(i);
        }
      }
      at := None;
      assert LastOf(v[..0], name, active).None? by {
        assert v[..0] == [];
      }
    }

    method CreateEntry(name: string, version: string, contentHash: string) returns (r: Result<ManifestEntry, string>)
      requires Valid()
      modifies this
      ensures Valid()
      ensures View() == Apply(old(View()), Create(name, version, contentHash))
      ensures r.Err? <==> LastOf(old(View()), name, true).Some?
      ensures r.Ok? ==> fresh(r.value) && entries == old(entries) + [r.value]
    {
      hide LastOf;
      var existing := Find(name, true);
      if existing.Some? {
        return Err(entries[existing.value].status);
      }
      var e := new ManifestEntry(name, version, contentHash);
      ghost var before := View();
      entries := entries + [e];
      assert View() == before + [e.View()];
      r := Ok(e);
    }

    method UpdateSanitizer(name: string, result: string) returns (e: Option<ManifestEntry>)
      requires Valid()
      modifies entries
      ensures View() == Apply(old(View()), Call.UpdateSanitizer(name, result))
      ensures e.None? <==> Change(old(View()), Call.UpdateSanitizer(name, result)).None?
    {
      hide LastOf;
      var at := Find(name, true);
      if at.None? {
        return None;
      }
      entries[at.value].sanitizer := result;
      assert View() == old(View())[at.value := entries[at.value].View()];
      e := Some(entries[at.value]);
    }

    method UpdateApproval(name: string, status: string) returns (e: Option<ManifestEntry>)
      requires Valid()
      modifies entries
      ensures View() == Apply(old(View()), Call.UpdateApproval(name, status))
      ensures e.None? <==> Change(old(View()), Call.UpdateApproval(name, status)).None?
    {
      hide LastOf;
      var at := Find(name, true);
      if at.None? {
        return None;
      }
      entries[at.value].approval := status;
      assert View() == old(View())[at.value := entries[at.value].View()];
      e := Some(entries[at.value]);
    }

    /** `get_active_entry(name) or get_entry(name)`. */
    method FindTarget(name: string) returns (at: Option<nat>)
      ensures at == DeploymentTarget(View(), name)
      ensures at.Some? ==> at.value < |entries|
    {
      at := Find(name, true);
      if at.None? {
        at := Find(name, false);
      }
    }

    method UpdateDeployment(name: string, status: string, deploymentId: string, attestationUid: string)
      returns (e: Option<ManifestEntry>)
      requires Valid()
      modifies entries
      ensures View() == Apply(old(View()), Call.UpdateDeployment(name, status, deploymentId, attestationUid))
      ensures e.None? <==> Change(old(View()), Call.UpdateDeployment(name, status, deploymentId, attestationUid)).None?
    {
      hide LastOf, DeploymentTarget;
      var at := FindTarget(name);
      if at.None? {
        return None;
      }
      var entry := entries[at.value];
      if status == "deployed" && entry.approval != "approved" {
        return None;
      }
      entry.status := status;
      if deploymentId != "" {
        entry.deploymentId := deploymentId;
      }
      if attestationUid != "" {
        entry.attestationUid := attestationUid;
      }
      assert View() == old(View())[at.value := entry.View()];
      e := Some(entry);
    }

    method UpdateIosPackaged(name: string) returns (e: Option<ManifestEntry>)
      requires Valid()
      modifies entries
      ensures View() == Apply(old(View()), Call.UpdateIosPackaged(name))
      ensures e.None? <==> Change(old(View()), Call.UpdateIosPackaged(name)).None?
    {
      hide LastOf;
      var at := Find(name, false);
      if at.None? {
        return None;
      }
      entries[at.value].iosPackaged := true;
      assert View() == old(View())[at.value := entries[at.value].View()];
      e := Some(entries[at.value]);
    }

    method GetSummary() returns (s: Summary)
      ensures s == Summarise(View())
    {
      ghost var v := View();
      var deployed, pending, failed, ios := 0, 0, 0, 0;
      var k := 0;
      while k < |entries|
        invariant 0 <= k <= |entries|
        invariant deployed == Count(v[..k], {"deployed", "attested"})
        invariant pending == Count(v[..k], {"pending"}) && failed == Count(v[..k], {"failed"})
        invariant ios == CountIos(v[..k])
      {
        assert v[..k + 1][..k] == v[..k];
        var e := entries[k];
        deployed := deployed + (if e.status == "deployed" || e.status == "attested" then 1 else 0);
        pending := pending + (if e.status == "pending" then 1 else 0);
        failed := failed + (if e.status == "failed" then 1 else 0);
        ios := ios + (if e.iosPackaged then 1 else 0);
        k := k + 1;
      }
      assert v[..k] == v;
      s := Summary(|entries|, deployed, pending, failed, ios);
    }
  }

  // ---------------------------------------------------------------------------
  // What every call keeps
  // ---------------------------------------------------------------------------

  /** Only the most recent entry of a component can be active, and a deployed entry is approved. */
  ghost predicate LifecycleOk(es: seq<Entry>) {
    && (forall i, j :: 0 <= i < j < |es| && es[i].name == es[j].name ==> !Active(es[i]))
    && (forall i :: 0 <= i < |es| && es[i].status == "deployed" ==> es[i].approval == "approved")
  }

  /** Entries are never removed or reordered, and what identifies them never changes. */
  ghost predicate Extends(es: seq<Entry>, later: seq<Entry>) {
    && |es| <= |later|
    && forall i :: 0 <= i < |es| ==> SameComponent(es[i], later[i])
  }

  /** An active entry is the component's most recent one, so both searches find it. */
  lemma ActiveIsLatest(es: seq<Entry>, name: string)
    requires LifecycleOk(es)
    ensures LastOf(es, name, true).Some? ==> LastOf(es, name, true) == LastOf(es, name, false)
    ensures DeploymentTarget(es, name) == LastOf(es, name, false)
    ensures forall i, j :: 0 <= i < |es| && 0 <= j < |es| && es[i].name == es[j].name == name && Active(es[i]) && Active(es[j])
                           ==> i == j
  {
  }

  /** A call changes at most the component's most recent entry. */
  lemma CallTouchesLatestOnly(es: seq<Entry>, c: Call)
    requires LifecycleOk(es)
    ensures Change(es, c).Some? ==> Some(Change(es, c).value.0) == LastOf(es, c.name, false)
  {
    ActiveIsLatest(es, c.name);
  }

  predicate SameComponent(e: Entry, f: Entry) {
    e.name == f.name && e.version == f.version && e.contentHash == f.contentHash
  }

  /** Changing the most recent entry of a component, but not what identifies it, keeps the lifecycle
      as long as a deployed entry is approved. */
  lemma ReplaceKeeps(es: seq<Entry>, at: nat, e: Entry)
    requires LifecycleOk(es) && at < |es| && SameComponent(es[at], e)
    requires forall j :: at < j < |es| ==> es[j].name != e.name
    requires e.status == "deployed" ==> e.approval == "approved"
    ensures LifecycleOk(es[at := e])
    ensures Extends(es, es[at := e])
  {
  }

  lemma AppendKeeps(es: seq<Entry>, name: string, version: string, contentHash: string)
    requires LifecycleOk(es) && LastOf(es, name, true).None?
    ensures var later := es + [NewEntry(name, version, contentHash)]; LifecycleOk(later) && Extends(es, later)
  {
  }

  /** What a call makes of an entry is still that entry, approved if it is deployed. */
  lemma ChangeFacts(es: seq<Entry>, c: Call)
    requires LifecycleOk(es) && Change(es, c).Some?
    ensures var (at, e) := Change(es, c).value;
            at < |es| && SameComponent(es[at], e) && e.name == c.name && (e.status == "deployed" ==> e.approval == "approved")
  {
    hide LastOf;
  }

  lemma CallKeeps(es: seq<Entry>, c: Call)
    requires LifecycleOk(es)
    ensures LifecycleOk(Apply(es, c))
    ensures Extends(es, Apply(es, c))
  {
    hide LifecycleOk, Change, LastOf, DeploymentTarget;
    if c.Create? {
      if LastOf(es, c.name, true).None? {
        AppendKeeps(es, c.name, c.version, c.contentHash);
      }
    } else if Change(es, c).Some? {
      CallTouchesLatestOnly(es, c);
      ChangeFacts(es, c);
      ReplaceKeeps(es, Change(es, c).value.0, Change(es, c).value.1);
    }
  }

  /** Over every sequence of calls from an empty manifest: a pending or failed entry is its
      component's most recent, a deployed entry is approved, and the audit trail only grows. */
  lemma {:induction false} LifecycleAlways(es: seq<Entry>, calls: seq<Call>)
    requires LifecycleOk(es)
    ensures LifecycleOk(Run(es, calls))
    ensures Extends(es, Run(es, calls))
    decreases |calls|
  {
    if calls != [] {
      hide LifecycleOk, Apply;
      CallKeeps(es, calls[0]);
      LifecycleAlways(Apply(es, calls[0]), calls[1..]);
    }
  }

  lemma LifecycleFromEmpty(calls: seq<Call>, k: nat)
    requires k <= |calls|
    ensures LifecycleOk(Run([], calls))
    ensures Extends(Run([], calls[..k]), Run([], calls))
  {
    LifecycleAlways([], calls);
    LifecycleAlways([], calls[..k]);
    hide LifecycleOk, Extends, Run;
    RunSplit([], calls[..k], calls[k..]);
    assert calls[..k] + calls[k..] == calls;
    LifecycleAlways(Run([], calls[..k]), calls[k..]);
  }

  lemma {:induction false} RunSplit(es: seq<Entry>, a: seq<Call>, b: seq<Call>)
    ensures Run(es, a + b) == Run(Run(es, a), b)
    decreases |a|
  {
    hide Apply;
    if a == [] {
      assert a + b == b;
    } else {
      assert (a + b)[1..] == a[1..] + b;
      RunSplit(Apply(es, a[0]), a[1..], b);
    }
  }

  // --- the approval guard -----------------------------------------------------------

  /** What the summary counts as deployed. */
  predicate Counted(e: Entry) {
    e.status in {"deployed", "attested"}
  }

  ghost predicate CountedApproved(es: seq<Entry>) {
    forall i :: 0 <= i < |es| && Counted(es[i]) ==> es[i].approval == "approved"
  }

  /** The call marks an entry attested that is not approved. */
  predicate Slips(es: seq<Entry>, c: Call) {
    && c.UpdateDeployment? && c.status == "attested"
    && var at := DeploymentTarget(es, c.name);
    at.Some? && at.value < |es| && es[at.value].approval != "approved"
  }

  /** What a call makes of an entry is counted and not approved only when the call slips. */
  lemma ChangeSlips(es: seq<Entry>, c: Call)
    requires CountedApproved(es) && Change(es, c).Some?
    ensures var (at, e) := Change(es, c).value;
            at < |es| && (Counted(e) && e.approval != "approved" <==> Slips(es, c))
  {
    hide LastOf;
  }

  /** One call keeps what is counted as deployed approved exactly when it does not slip. */
  lemma CountedStepIff(es: seq<Entry>, c: Call)
    requires CountedApproved(es)
    ensures CountedApproved(Apply(es, c)) <==> !Slips(es, c)
  {
    hide Change, Slips, LastOf, DeploymentTarget;
    if !c.Create? && Change(es, c).Some? {
      ChangeSlips(es, c);
      var (at, e) := Change(es, c).value;
      var later := es[at := e];
      assert Apply(es, c) == later && later[at] == e;
    } else {
      NothingSlips(es, c);
    }
  }

  lemma NothingSlips(es: seq<Entry>, c: Call)
    requires c.Create? || Change(es, c).None?
    ensures !Slips(es, c)
  {
    hide LastOf;
  }

  /** Over every run of calls from an empty manifest: everything the summary counts as deployed is
      approved, at every moment, exactly when no call marks an unapproved entry attested. */
  lemma CountedApprovedIff(calls: seq<Call>)
    ensures (forall k :: 0 <= k <= |calls| ==> CountedApproved(Run([], calls[..k])))
            <==> (forall k :: 0 <= k < |calls| ==> !Slips(Run([], calls[..k]), calls[k]))
  {
    CountedRunIff(calls, |calls|);
  }

  lemma {:induction false} CountedRunIff(calls: seq<Call>, n: nat)
    requires n <= |calls|
    ensures (forall k :: 0 <= k <= n ==> CountedApproved(Run([], calls[..k])))
            <==> (forall k :: 0 <= k < n ==> !Slips(Run([], calls[..k]), calls[k]))
  {
    if n == 0 {
      assert Run([], calls[..0]) == [];
    } else {
      CountedRunIff(calls, n - 1);
      hide CountedApproved, Slips, Apply, Run;
      RunLast(calls, n - 1);
      if CountedApproved(Run([], calls[..n - 1])) {
        CountedStepIff(Run([], calls[..n - 1]), calls[n - 1]);
      }
    }
  }

  lemma RunLast(calls: seq<Call>, k: nat)
    requires k < |calls|
    ensures Run([], calls[..k + 1]) == Apply(Run([], calls[..k]), calls[k])
  {
    hide Apply;
    assert calls[..k + 1] == calls[..k] + [calls[k]];
    RunSplit([], calls[..k], [calls[k]]);
    assert [calls[k]][1..] == [];
  }

  /** The guard does not cover "attested": an entry nobody approved can be marked attested, and the
      summary then counts it as deployed. */
  lemma AttestedWithoutApproval(name: string, version: string)
    ensures var es := Run([], [Create(name, version, ""), UpdateDeployment(name, "attested", "", "")]);
            && |es| == 1
            && es[0].status == "attested"
            && es[0].approval == "pending"
            && Summarise(es).deployed == 1
  {
    var first := [NewEntry(name, version, "")];
    assert Apply([], Create(name, version, "")) == first;
    var calls := [Create(name, version, ""), UpdateDeployment(name, "attested", "", "")];
    assert calls[1..] == [UpdateDeployment(name, "attested", "", "")];
    var second := Apply(first, UpdateDeployment(name, "attested", "", ""));
    assert second == [first[0].(status := "attested")];
    assert Run(first, calls[1..]) == Run(second, []);
    assert second[..0] == [];
  }

  // --- the summary ------------------------------------------------------------------

  const KNOWN := {"pending", "failed", "deployed", "attested"}

  lemma {:induction false} SummaryCounts(es: seq<Entry>)
    ensures var s := Summarise(es);
            && s.deployed + s.pending + s.failed == Count(es, KNOWN)
            && s.iosPackaged <= s.total
  {
    if es != [] {
      SummaryCounts(es[..|es| - 1]);
    }
  }

  lemma {:induction false} CountAll(es: seq<Entry>, wanted: set<string>)
    ensures Count(es, wanted) == |es| <==> forall i :: 0 <= i < |es| ==> es[i].status in wanted
  {
    if es != [] {
      CountAll(es[..|es| - 1], wanted);
    }
  }

  /** The three counts partition the total exactly when every status is one of the documented four. */
  lemma SummaryPartitionsIff(es: seq<Entry>)
    ensures var s := Summarise(es);
            s.deployed + s.pending + s.failed == s.total <==> forall i :: 0 <= i < |es| ==> es[i].status in KNOWN
  {
    SummaryCounts(es);
    CountAll(es, KNOWN);
  }

  /** Deployment updates use the documented statuses. */
  predicate Documented(calls: seq<Call>) {
    forall k :: 0 <= k < |calls| && calls[k].UpdateDeployment? ==> calls[k].status in {"deployed", "failed", "attested"}
  }

  lemma {:induction false} DocumentedStatuses(es: seq<Entry>, calls: seq<Call>)
    requires Documented(calls) && forall i :: 0 <= i < |es| ==> es[i].status in KNOWN
    ensures forall i :: 0 <= i < |Run(es, calls)| ==> Run(es, calls)[i].status in KNOWN
    decreases |calls|
  {
    if calls != [] {
      var next := Apply(es, calls[0]);
      assert forall k :: 0 <= k < |calls| - 1 ==> calls[1..][k] == calls[k + 1];
      assert forall i :: 0 <= i < |next| ==> next[i].status in KNOWN;
      DocumentedStatuses(next, calls[1..]);
    }
  }
}
