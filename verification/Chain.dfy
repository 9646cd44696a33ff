/**
 Checking a signing certificate chain against pinned roots.  Which certificate verifiably issued
 which (names and signature) is a relation the caller brings.
 */
module Chain {
  import opened Wrappers

  /** `basicCa` is the basic-constraints extension's flag, when the certificate has one. */
  datatype Cert = Cert(
    der: seq<int>,
    notBefore: int,
    notAfter: int,
    basicCa: Option<bool>,
    oids: seq<string>)

  datatype Error = NotConfigured | IapError(reason: string)

  const MARKER_OID := "1.2.840.113635.100.6.11.1"
  const MAX_CHAIN := 5

  type Issues = (Cert, Cert) -> bool

  predicate InWindow(c: Cert, now: real) {
    c.notBefore as real <= now <= c.notAfter as real
  }

  predicate IsCa(c: Cert) {
    c.basicCa == Some(true)
  }

  predicate HasOid(c: Cert, oid: string) {
    exists k :: 0 <= k < |c.oids| && c.oids[k] == oid
  }

  /** The certificate is a pinned root itself, or a root inside its window issued it. */
  predicate Anchored(issuedBy: Issues, c: Cert, roots: seq<Cert>, now: real) {
    || (exists k :: 0 <= k < |roots| && roots[k].der == c.der)
    || (exists k :: 0 <= k < |roots| && issuedBy(c, roots[k]) && InWindow(roots[k], now))
  }

  /** A certification path: an anchored certificate, or a certificate issued by the CA that starts a
      path.  Every certificate on it is inside its window. */
  predicate Path(issuedBy: Issues, certs: seq<Cert>, roots: seq<Cert>, now: real) {
    && certs != []
    && InWindow(certs[0], now)
    && if |certs| == 1 then Anchored(issuedBy, certs[0], roots, now)
       else issuedBy(certs[0], certs[1]) && IsCa(certs[1]) && Path(issuedBy, certs[1..], roots, now)
  }

  predicate Acceptable(issuedBy: Issues, certs: seq<Cert>, roots: seq<Cert>, now: real, checkOids: bool) {
    Path(issuedBy, certs, roots, now) && !IsCa(certs[0]) && (checkOids ==> HasOid(certs[0], MARKER_OID))
  }

  /** Acceptable, spelled out: every certificate inside its window, both ends included; a CA exactly
      where one must be and not at the leaf; each issued by the next; the last one pinned, or issued by
      a pinned root inside its window; and the marker on the leaf when it is asked for. */
  lemma AcceptableMeans(issuedBy: Issues, certs: seq<Cert>, roots: seq<Cert>, now: real, checkOids: bool)
    requires certs != []
    ensures Acceptable(issuedBy, certs, roots, now, checkOids) <==>
              && (forall k :: 0 <= k < |certs| ==> certs[k].notBefore as real <= now <= certs[k].notAfter as real)
              && certs[0].basicCa != Some(true)
              && (forall k :: 1 <= k < |certs| ==> certs[k].basicCa == Some(true) && issuedBy(certs[k - 1], certs[k]))
              && (exists r :: r in roots
                              && (r.der == certs[|certs| - 1].der
                                  || (issuedBy(certs[|certs| - 1], r) && r.notBefore as real <= now <= r.notAfter as real)))
              && (checkOids ==> "1.2.840.113635.100.6.11.1" in certs[0].oids)
  {
    hide Path;
    PathIsPointwise(issuedBy, certs, roots, now);
    var last := certs[|certs| - 1];
    if r :| r in roots && (r.der == last.der || (issuedBy(last, r) && r.notBefore as real <= now <= r.notAfter as real)) {
      var k :| 0 <= k < |roots| && roots[k] == r;
    }
  }

  /** The parsed certificates, when all of them parse. */
  predicate AllParse(pems: seq<Option<Cert>>) {
    forall k :: 0 <= k < |pems| ==> pems[k].Some?
  }

  function Parsed(pems: seq<Option<Cert>>): (certs: seq<Cert>)
    requires AllParse(pems)
    ensures |certs| == |pems|
  {
    seq(|pems|, k requires 0 <= k < |pems| => pems[k].value)
  }

  /** The chain of a header's x5c list: one to five certificates, all well-formed. */
  method LoadChain(x5c: Option<seq<Option<Cert>>>) returns (r: Result<seq<Cert>, Error>)
    ensures r.Ok? <==> x5c.Some? && 1 <= |x5c.value| <= MAX_CHAIN && AllParse(x5c.value)
    ensures r.Ok? ==> r.value == Parsed(x5c.value)
    ensures r.Err? ==> r.error.IapError?
  {
    if x5c.None? || |x5c.value| == 0 || |x5c.value| > MAX_CHAIN {
      return Err(IapError("missing or invalid x5c chain"));
    }
    r := LoadAll(x5c.value, "malformed certificate in x5c");
  }

  method LoadAll(pems: seq<Option<Cert>>, reason: string) returns (r: Result<seq<Cert>, Error>)
    ensures r.Ok? <==> AllParse(pems)
    ensures r == if AllParse(pems) then Ok(Parsed(pems)) else Err(IapError(reason))
  {
    var certs := [];
    for k := 0 to |pems|
      invariant |certs| == k && forall j :: 0 <= j < k ==> pems[j] == Some(certs[j])
    {
      if pems[k].None? {
        return Err(IapError(reason));
      }
      certs := certs + [pems[k].value];
    }
    assert certs == Parsed(pems);
    r := Ok(certs);
  }

  // ---------------------------------------------------------------------------
  // The check, loop by loop
  // ---------------------------------------------------------------------------

  /** The first thing wrong with a chain, in the order of the checks. */
  function WhyNot(issuedBy: Issues, certs: seq<Cert>, roots: seq<Cert>, now: real): string
    requires certs != []
  {
    if exists k :: 0 <= k < |certs| && !InWindow(certs[k], now) then "certificate outside validity window"
    else if IsCa(certs[0]) then "leaf certificate must not be a CA"
    else if exists k :: 1 <= k < |certs| && !IsCa(certs[k]) then "intermediate certificate must be a CA"
    else if exists k :: 1 <= k < |certs| && !issuedBy(certs[k - 1], certs[k]) then "broken certificate chain"
    else if !Anchored(issuedBy, certs[|certs| - 1], roots, now) then "chain does not terminate at a trusted root"
    else "leaf lacks the Apple App Store marker extension"
  }

  /** The leaf exactly when the presented list is an acceptable path to a pinned root; otherwise the
      first thing that is wrong. */
  method VerifyChain(issuedBy: Issues, certs: seq<Cert>, rootsPem: seq<Option<Cert>>, now: real, checkOids: bool)
    returns (r: Result<Cert, Error>)
    requires certs != []
    ensures r.Ok? <==> rootsPem != [] && AllParse(rootsPem)
                       && Acceptable(issuedBy, certs, Parsed(rootsPem), now, checkOids)
    ensures r.Ok? ==> r.value == certs[0]
    ensures r == Err(NotConfigured) <==> rootsPem == []
    ensures r == Err(IapError("bad trusted root configuration")) <==> !AllParse(rootsPem)
    ensures r.Err? && rootsPem != [] && AllParse(rootsPem) ==>
              r.error == IapError(WhyNot(issuedBy, certs, Parsed(rootsPem), now))
  {
    hide Path;
    var loaded := LoadAll(rootsPem, "bad trusted root configuration");
    if loaded.Err? {
      return Err(loaded.error);
    }
    var roots := loaded.value;
    if roots == [] {
      return Err(NotConfigured);
    }
    PathIsPointwise(issuedBy, certs, roots, now);
    for k := 0 to |certs|
      invariant forall j :: 0 <= j < k ==> InWindow(certs[j], now)
    {
      if !InWindow(certs[k], now) {
        return Err(IapError("certificate outside validity window"));
      }
    }
    var leaf := certs[0];
    if IsCa(leaf) {
      return Err(IapError("leaf certificate must not be a CA"));
    }
    for k := 1 to |certs|
      invariant forall j :: 1 <= j < k ==> IsCa(certs[j])
    {
      if !IsCa(certs[k]) {
        return Err(IapError("intermediate certificate must be a CA"));
      }
    }
    for k := 1 to |certs|
      invariant forall j :: 1 <= j < k ==> issuedBy(certs[j - 1], certs[j])
    {
      if !issuedBy(certs[k - 1], certs[k]) {
        return Err(IapError("broken certificate chain"));
      }
    }
    var last := certs[|certs| - 1];
    var anchored := IsAnchored(issuedBy, last, roots, now);
    if !anchored {
      return Err(IapError("chain does not terminate at a trusted root"));
    }
    if checkOids && !HasOid(leaf, MARKER_OID) {
      return Err(IapError("leaf lacks the Apple App Store marker extension"));
    }
    r := Ok(leaf);
  }

  method IsAnchored(issuedBy: Issues, last: Cert, roots: seq<Cert>, now: real) returns (anchored: bool)
    ensures anchored <==> Anchored(issuedBy, last, roots, now)
  {
    if exists k :: 0 <= k < |roots| && roots[k].der == last.der {
      return true;
    }
    anchored := false;
    for k := 0 to |roots|
      invariant !anchored
      invariant forall j :: 0 <= j < k ==> !(issuedBy(last, roots[j]) && InWindow(roots[j], now))
    {
      if issuedBy(last, roots[k]) && InWindow(roots[k], now) {
        anchored := true;
        break;
      }
    }
  }

  /** What the loops establish one by one is a path. */
  predicate Pointwise(issuedBy: Issues, certs: seq<Cert>, roots: seq<Cert>, now: real) {
    && certs != []
    && (forall j :: 0 <= j < |certs| ==> InWindow(certs[j], now))
    && (forall j :: 1 <= j < |certs| ==> IsCa(certs[j]) && issuedBy(certs[j - 1], certs[j]))
    && Anchored(issuedBy, certs[|certs| - 1], roots, now)
  }

  lemma {:induction false} PathIsPointwise(issuedBy: Issues, certs: seq<Cert>, roots: seq<Cert>, now: real)
    ensures Path(issuedBy, certs, roots, now) <==> Pointwise(issuedBy, certs, roots, now)
  {
    if |certs| > 1 {
      hide Anchored, InWindow, IsCa;
      var tail := certs[1..];
      PathIsPointwise(issuedBy, tail, roots, now);
      assert forall j :: 1 <= j < |certs| ==> certs[j] == tail[j - 1];
      assert forall j :: 0 <= j < |tail| ==> tail[j] == certs[j + 1];
      assert Pointwise(issuedBy, certs, roots, now)
             <==> Pointwise(issuedBy, tail, roots, now) && InWindow(certs[0], now)
                  && issuedBy(certs[0], certs[1])
                  && IsCa(certs[1]);
    }
  }

  // ---------------------------------------------------------------------------
  // Sound and complete
  // ---------------------------------------------------------------------------

  /** Trusted by induction on the number of steps, without a presented order: inside its window, and
      anchored or issued by a CA of the pool that is trusted in fewer steps. */
  ghost predicate Trusted(issuedBy: Issues, pool: set<Cert>, c: Cert, roots: seq<Cert>, now: real, n: nat)
    decreases n
  {
    && InWindow(c, now)
    && c in pool
    && (Anchored(issuedBy, c, roots, now)
        || (n > 0 && exists i :: i in pool && issuedBy(c, i) && IsCa(i) && Trusted(issuedBy, pool, i, roots, now, n - 1)))
  }

  lemma {:induction false} PathIsTrusted(issuedBy: Issues, pool: set<Cert>, certs: seq<Cert>, roots: seq<Cert>, now: real)
    requires Path(issuedBy, certs, roots, now) && forall k :: 0 <= k < |certs| ==> certs[k] in pool
    ensures Trusted(issuedBy, pool, certs[0], roots, now, |certs| - 1)
  {
    if |certs| > 1 {
      hide Anchored, InWindow, IsCa;
      PathIsTrusted(issuedBy, pool, certs[1..], roots, now);
    }
  }

  lemma {:induction false} TrustedHasPath(issuedBy: Issues, pool: set<Cert>, c: Cert, roots: seq<Cert>, now: real, n: nat)
    requires Trusted(issuedBy, pool, c, roots, now, n)
    ensures exists certs :: PresentedFrom(pool, c, certs, n) && Path(issuedBy, certs, roots, now)
    decreases n
  {
    hide Anchored, InWindow, IsCa;
    if Anchored(issuedBy, c, roots, now) {
      assert Path(issuedBy, [c], roots, now) && PresentedFrom(pool, c, [c], n);
    } else {
      var i :| i in pool && issuedBy(c, i) && IsCa(i) && Trusted(issuedBy, pool, i, roots, now, n - 1);
      TrustedHasPath(issuedBy, pool, i, roots, now, n - 1);
      var rest :| PresentedFrom(pool, i, rest, n - 1) && Path(issuedBy, rest, roots, now);
      var certs := [c] + rest;
      assert certs[1..] == rest;
      assert Path(issuedBy, certs, roots, now) && PresentedFrom(pool, c, certs, n);
    }
  }

  /** A list of at most `n + 1` certificates of the pool, the leaf first. */
  ghost predicate PresentedFrom(pool: set<Cert>, leaf: Cert, certs: seq<Cert>, n: nat) {
    0 < |certs| <= n + 1 && certs[0] == leaf && forall k :: 0 <= k < |certs| ==> certs[k] in pool
  }

  /** A leaf can be presented with certificates of the pool so that the check accepts it exactly
      when it is trusted, is not a CA and carries the marker. */
  lemma AcceptanceIsTrust(issuedBy: Issues, pool: set<Cert>, leaf: Cert, roots: seq<Cert>, now: real, checkOids: bool,
                          n: nat)
    ensures (exists certs :: PresentedFrom(pool, leaf, certs, n) && Acceptable(issuedBy, certs, roots, now, checkOids))
            <==> Trusted(issuedBy, pool, leaf, roots, now, n) && !IsCa(leaf) && (checkOids ==> HasOid(leaf, MARKER_OID))
  {
    hide Path, Trusted, IsCa, HasOid;
    if certs :| PresentedFrom(pool, leaf, certs, n) && Acceptable(issuedBy, certs, roots, now, checkOids) {
      PathIsTrusted(issuedBy, pool, certs, roots, now);
      MoreSteps(issuedBy, pool, leaf, roots, now, |certs| - 1, n);
    }
    if Trusted(issuedBy, pool, leaf, roots, now, n) && !IsCa(leaf) && (checkOids ==> HasOid(leaf, MARKER_OID)) {
      TrustedHasPath(issuedBy, pool, leaf, roots, now, n);
      var certs :| PresentedFrom(pool, leaf, certs, n) && Path(issuedBy, certs, roots, now);
      assert Acceptable(issuedBy, certs, roots, now, checkOids);
    }
  }

  lemma {:induction false} MoreSteps(issuedBy: Issues, pool: set<Cert>, c: Cert, roots: seq<Cert>, now: real, n: nat, m: nat)
    requires n <= m && Trusted(issuedBy, pool, c, roots, now, n)
    ensures Trusted(issuedBy, pool, c, roots, now, m)
    decreases n
  {
    hide Anchored, InWindow, IsCa;
    if !Anchored(issuedBy, c, roots, now) {
      var i :| i in pool && issuedBy(c, i) && IsCa(i) && Trusted(issuedBy, pool, i, roots, now, n - 1);
      MoreSteps(issuedBy, pool, i, roots, now, n - 1, m - 1);
    }
  }

  /** Pinning more roots, in any order, never refuses a chain that was accepted. */
  lemma {:induction false} MoreRootsAcceptMore(issuedBy: Issues, certs: seq<Cert>, roots: seq<Cert>, more: seq<Cert>, now: real,
                                               checkOids: bool)
    requires Acceptable(issuedBy, certs, roots, now, checkOids)
    requires forall k :: 0 <= k < |roots| ==> roots[k] in more
    ensures Acceptable(issuedBy, certs, more, now, checkOids)
  {
    PathIsPointwise(issuedBy, certs, roots, now);
    PathIsPointwise(issuedBy, certs, more, now);
  }
}
