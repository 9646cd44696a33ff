/**
 A dictionary that remembers insertion order, used as a bounded least-recently-used cache:
 a touch pops the key and re-inserts it, and the oldest keys past the cap are dropped.
 */
module OrderedDict {
  import opened Wrappers

  datatype Dict<V> = Dict(order: seq<string>, held: map<string, V>)

  ghost predicate Valid<V>(d: Dict<V>) {
    && (forall i, j :: 0 <= i < j < |d.order| ==> d.order[i] != d.order[j])
    && (forall k :: k in d.order <==> k in d.held)
  }

  function Empty<V>(): Dict<V> {
    Dict([], map[])
  }

  ghost predicate Distinct(o: seq<string>) {
    forall i, j :: 0 <= i < j < |o| ==> o[i] != o[j]
  }

  /** The keys not in `gone`, in order. */
  function Minus(order: seq<string>, gone: set<string>): seq<string> {
    if order == [] then []
    else (if order[0] in gone then [] else [order[0]]) + Minus(order[1..], gone)
  }

  /** `d.pop(k, None)` */
  function Pop<V>(d: Dict<V>, k: string): Dict<V> {
    if k in d.held then Dict(Minus(d.order, {k}), map j | j in d.held && j != k :: d.held[j]) else d
  }

  /** `d[k] = v`: a new key goes last, an existing one keeps its place. */
  function Set<V>(d: Dict<V>, k: string, v: V): Dict<V> {
    Dict(if k in d.held then d.order else d.order + [k], d.held[k := v])
  }

  /** Pop and re-insert: the key becomes the most recent. */
  function Touch<V>(d: Dict<V>, k: string, v: V): Dict<V> {
    Set(Pop(d, k), k, v)
  }

  /** `del d[next(iter(d))]` */
  function DropOldest<V>(d: Dict<V>): Dict<V>
    requires d.order != []
  {
    Dict(d.order[1..], map j | j in d.held && j != d.order[0] :: d.held[j])
  }

  /** Drop the oldest keys past the cap, but never `keep`. */
  function Evict<V>(d: Dict<V>, keep: string, cap: nat): Dict<V>
    decreases |d.order|
  {
    if |d.order| <= cap || d.order[0] == keep then d else Evict(DropOldest(d), keep, cap)
  }

  /** Drop a set of keys. */
  function Forget<V>(d: Dict<V>, gone: set<string>): Dict<V> {
    Dict(Minus(d.order, gone), map j | j in d.held && j !in gone :: d.held[j])
  }

  lemma {:induction false} MinusFacts(order: seq<string>, gone: set<string>)
    requires Distinct(order)
    ensures var r := Minus(order, gone);
            && Distinct(r)
            && (forall x :: x in r <==> x in order && x !in gone)
            && |r| <= |order|
  {
    if order != [] {
      var tail := Minus(order[1..], gone);
      MinusFacts(order[1..], gone);
      assert order == [order[0]] + order[1..];
      assert order[0] !in order[1..];
      assert forall i :: 0 <= i < |tail| ==> tail[i] in tail;
    }
  }

  lemma {:induction false} MinusOne(order: seq<string>, k: string)
    requires Distinct(order)
    ensures |Minus(order, {k})| == |order| - (if k in order then 1 else 0)
  {
    if order != [] {
      MinusOne(order[1..], k);
      assert order == [order[0]] + order[1..];
      assert order[0] !in order[1..];
    }
  }

  lemma {:induction false} MinusConcat(a: seq<string>, b: seq<string>, gone: set<string>)
    ensures Minus(a + b, gone) == Minus(a, gone) + Minus(b, gone)
  {
    if a == [] {
      assert a + b == b;
    } else {
      assert (a + b)[1..] == a[1..] + b;
      MinusConcat(a[1..], b, gone);
      var head := if a[0] in gone then [] else [a[0]];
      assert head + (Minus(a[1..], gone) + Minus(b, gone)) == (head + Minus(a[1..], gone)) + Minus(b, gone);
    }
  }

  lemma {:induction false} MinusAbsent(a: seq<string>, gone: set<string>)
    requires forall i :: 0 <= i < |a| ==> a[i] !in gone
    ensures Minus(a, gone) == a
  {
    if a != [] {
      MinusAbsent(a[1..], gone);
    }
  }

  lemma ForgetValid<V>(d: Dict<V>, gone: set<string>)
    requires Valid(d)
    ensures var f := Forget(d, gone);
            && Valid(f) && |f.order| <= |d.order|
            && (forall k :: k in f.held <==> k in d.held && k !in gone)
            && (forall k :: k in f.held ==> f.held[k] == d.held[k])
  {
    MinusFacts(d.order, gone);
  }

  lemma PopValid<V>(d: Dict<V>, k: string)
    requires Valid(d)
    ensures Valid(Pop(d, k))
    ensures k !in Pop(d, k).held
    ensures |Pop(d, k).order| <= |d.order|
    ensures forall j :: j in Pop(d, k).held <==> j in d.held && j != k
    ensures forall j :: j in Pop(d, k).held ==> Pop(d, k).held[j] == d.held[j]
  {
    MinusFacts(d.order, {k});
  }

  lemma TouchValid<V>(d: Dict<V>, k: string, v: V)
    requires Valid(d)
    ensures var t := Touch(d, k, v);
            && Valid(t)
            && t.order != []
            && t.order[|t.order| - 1] == k
            && t.held == d.held[k := v]
            && |t.order| <= |d.order| + 1
  {
    PopValid(d, k);
    assert Pop(d, k).held[k := v] == d.held[k := v];
    hide Pop;
    var p := Pop(d, k);
    assert forall i :: 0 <= i < |p.order| ==> p.order[i] in p.order;
    assert Touch(d, k, v).order == p.order + [k];
  }

  lemma DropOldestValid<V>(d: Dict<V>)
    requires Valid(d) && d.order != []
    ensures Valid(DropOldest(d))
    ensures forall k :: k in DropOldest(d).held ==> k in d.held && DropOldest(d).held[k] == d.held[k]
  {
    assert d.order == [d.order[0]] + d.order[1..];
    assert d.order[0] !in d.order[1..];
  }

  lemma EvictUnfolds<V>(d: Dict<V>, keep: string, cap: nat)
    ensures |d.order| <= cap ==> Evict(d, keep, cap) == d
    ensures |d.order| > cap && d.order[0] != keep ==> Evict(d, keep, cap) == Evict(DropOldest(d), keep, cap)
  {
  }

  lemma ValidMembers<V>(d: Dict<V>)
    requires Valid(d)
    ensures forall i, j :: 0 <= i < j < |d.order| ==> d.order[i] != d.order[j]
    ensures forall i :: 0 <= i < |d.order| ==> d.order[i] in d.held
  {
  }

  /** Eviction keeps exactly the most recent keys; the key just touched survives. */
  lemma {:induction false} EvictKeepsRecent<V>(d: Dict<V>, keep: string, cap: nat)
    requires Valid(d) && cap >= 1 && d.order != [] && d.order[|d.order| - 1] == keep
    ensures var e := Evict(d, keep, cap);
            && Valid(e)
            && keep in e.held
            && e.order != []
            && e.order[|e.order| - 1] == keep
            && e.order == LastN(d.order, cap)
            && (forall k :: k in e.held ==> k in d.held && e.held[k] == d.held[k])
    decreases |d.order|
  {
    hide Evict, DropOldest, Valid;
    EvictUnfolds(d, keep, cap);
    ValidMembers(d);
    if |d.order| > cap {
      DropOldestValid(d);
      OldestOrder(d);
      EvictKeepsRecent(DropOldest(d), keep, cap);
    }
  }

  lemma OldestOrder<V>(d: Dict<V>)
    requires d.order != []
    ensures DropOldest(d).order == d.order[1..]
  {
  }

  lemma PopOrder<V>(d: Dict<V>, k: string)
    requires Valid(d)
    ensures Pop(d, k).order == Minus(d.order, {k})
  {
    if k !in d.held {
      ValidMembers(d);
      MinusAbsent(d.order, {k});
    }
  }

  lemma TouchOrder<V>(d: Dict<V>, k: string, v: V)
    requires Valid(d)
    ensures Touch(d, k, v).order == Minus(d.order, {k}) + [k]
  {
    PopOrder(d, k);
    PopValid(d, k);
    hide Pop;
  }

  // ---------------------------------------------------------------------------
  // What a run of touches and drops retains
  // ---------------------------------------------------------------------------

  datatype Use = Touched(key: string) | Dropped(keys: set<string>)

  /** A touch re-inserts and evicts, a drop removes. */
  function UseOrder(o: seq<string>, u: Use, cap: nat): seq<string> {
    match u
    case Touched(k) => LastN(Minus(o, {k}) + [k], cap)
    case Dropped(ks) => Minus(o, ks)
  }

  /** The keys a cache retains after a run of uses, oldest first. */
  function OrderAfter(o: seq<string>, uses: seq<Use>, cap: nat): seq<string> {
    if uses == [] then o
    else UseOrder(OrderAfter(o, uses[..|uses| - 1], cap), uses[|uses| - 1], cap)
  }

  function UseOrderUncapped(r: seq<string>, u: Use): seq<string> {
    match u
    case Touched(k) => Minus(r, {k}) + [k]
    case Dropped(ks) => Minus(r, ks)
  }

  /** Without a cap: the keys touched and not dropped since, least recently touched first. */
  function Recency(uses: seq<Use>): seq<string> {
    if uses == [] then [] else UseOrderUncapped(Recency(uses[..|uses| - 1]), uses[|uses| - 1])
  }

  /** `o` is the tail of `r`. */
  ghost predicate Suffix(o: seq<string>, r: seq<string>) {
    |o| <= |r| && o == r[|r| - |o|..]
  }

  lemma SuffixSplit(o: seq<string>, r: seq<string>) returns (older: seq<string>)
    requires Suffix(o, r)
    ensures r == older + o
  {
    older := r[..|r| - |o|];
  }

  lemma SuffixOf(older: seq<string>, o: seq<string>)
    ensures Suffix(o, older + o)
  {
  }

  lemma DropStep(r: seq<string>, o: seq<string>, gone: set<string>)
    requires Suffix(o, r)
    ensures Suffix(Minus(o, gone), Minus(r, gone))
  {
    hide Suffix, Minus;
    var older := SuffixSplit(o, r);
    MinusConcat(older, o, gone);
    SuffixOf(Minus(older, gone), Minus(o, gone));
  }

  lemma NewestDistinct(m: seq<string>, k: string, cap: nat)
    requires k !in m && Distinct(m)
    ensures var n := LastN(m + [k], cap); Distinct(n)
  {
    var all := m + [k];
    assert forall i :: 0 <= i < |m| ==> m[i] in m;
    assert forall i, j :: 0 <= i < j < |all| ==> all[i] != all[j];
  }

  lemma LastOfConcat(a: seq<string>, b: seq<string>, n: nat)
    requires n <= |b|
    ensures b[|b| - n..] == (a + b)[|a + b| - n..]
  {
  }

  lemma NewestOfSuffix(older: seq<string>, m: seq<string>, cap: nat)
    ensures Suffix(LastN(m, cap), older + m)
    ensures |m| >= cap || older == [] ==> LastN(m, cap) == LastN(older + m, cap)
  {
    var n := if |m| <= cap then |m| else cap;
    LastOfConcat(older, m, n);
    assert LastN(m, cap) == m[|m| - n..];
    if older == [] {
      assert older + m == m;
    } else if |m| >= cap {
      assert LastN(older + m, cap) == (older + m)[|older + m| - n..];
    }
  }

  /** A touch of a cache that holds the most recent keys `o` of `older + o`. */
  lemma TouchSuffix(older: seq<string>, o: seq<string>, k: string, cap: nat)
    ensures Suffix(LastN(Minus(o, {k}) + [k], cap), Minus(older + o, {k}) + [k])
    ensures |Minus(o, {k}) + [k]| >= cap || older == [] ==>
              LastN(Minus(o, {k}) + [k], cap) == LastN(Minus(older + o, {k}) + [k], cap)
  {
    hide Suffix, LastN, Minus;
    var m := Minus(o, {k}) + [k];
    MinusConcat(older, o, {k});
    NewestOfSuffix(Minus(older, {k}), m, cap);
    assert Minus(older, {k}) + m == Minus(older + o, {k}) + [k];
    if older == [] {
      MinusAbsent(older, {k});
    }
  }

  /** What a bounded cache retains after any run: the most recently touched keys not dropped since
      (a suffix of the recency order), at most `cap` of them, and exactly the `cap` most recent
      when nothing was dropped. */
  lemma {:induction false} RetainsMostRecent(uses: seq<Use>, cap: nat)
    requires cap >= 1
    ensures var o, r := OrderAfter([], uses, cap), Recency(uses);
            && |o| <= cap && Suffix(o, r)
            && Distinct(o)
            && ((forall i :: 0 <= i < |uses| ==> uses[i].Touched?) ==> o == LastN(r, cap))
    decreases |uses|
  {
    if uses != [] {
      hide Suffix, LastN, Minus, Distinct;
      var n := |uses| - 1;
      RetainsMostRecent(uses[..n], cap);
      var o, r := OrderAfter([], uses[..n], cap), Recency(uses[..n]);
      assert OrderAfter([], uses, cap) == UseOrder(o, uses[n], cap) && Recency(uses) == UseOrderUncapped(r, uses[n]);
      hide OrderAfter, Recency;
      match uses[n]
      case Touched(k) =>
        var older := SuffixSplit(o, r);
        TouchSuffix(older, o, k, cap);
        MinusFacts(o, {k});
        MinusOne(o, k);
        NewestDistinct(Minus(o, {k}), k, cap);
      case Dropped(ks) =>
        DropStep(r, o, ks);
        MinusFacts(o, ks);
    }
  }

  // --- exactly which keys ---------------------------------------------------------------

  lemma {:induction false} MinusMember(order: seq<string>, gone: set<string>, k: string)
    ensures k in Minus(order, gone) <==> k in order && k !in gone
  {
    if order != [] {
      MinusMember(order[1..], gone, k);
      assert order == [order[0]] + order[1..];
    }
  }

  lemma SuffixIsNewest(o: seq<string>, r: seq<string>, cap: nat, k: string)
    requires Suffix(o, r) && |o| <= cap && k in o
    ensures k in LastN(r, cap)
  {
    var n := LastN(r, cap);
    assert o == n[|n| - |o|..];
  }

  lemma NewestFacts(m: seq<string>, cap: nat, k: string)
    ensures k in LastN(m, cap) ==> k in m
    ensures |m| <= cap ==> LastN(m, cap) == m
    ensures cap >= 1 ==> k in LastN(m + [k], cap)
  {
    var n := LastN(m + [k], cap);
    assert cap >= 1 ==> n[|n| - 1] == k;
  }

  /** One use: a key is retained when it is the one touched, or was retained and is still among the
      newest `cap`. */
  lemma RetainedStep(o: seq<string>, r: seq<string>, u: Use, cap: nat, k: string)
    requires cap >= 1 && Suffix(o, r) && |o| <= cap
    requires Suffix(UseOrder(o, u, cap), UseOrderUncapped(r, u)) && |UseOrder(o, u, cap)| <= cap
    ensures u == Touched(k) ==> k in LastN(UseOrderUncapped(r, u), cap)
    ensures k in UseOrder(o, u, cap) <==> u == Touched(k) || (k in o && k in LastN(UseOrderUncapped(r, u), cap))
  {
    hide Suffix, LastN, Minus;
    var r' := UseOrderUncapped(r, u);
    if k in UseOrder(o, u, cap) {
      SuffixIsNewest(UseOrder(o, u, cap), r', cap, k);
    }
    match u
    case Touched(j) =>
      var m := Minus(o, {j}) + [j];
      var older := SuffixSplit(o, r);
      MinusConcat(older, o, {j});
      assert Minus(older, {j}) + m == r';
      NewestOfSuffix(Minus(older, {j}), m, cap);
      MinusMember(o, {j}, k);
      NewestFacts(Minus(o, {j}), cap, j);
      NewestFacts(Minus(r, {j}), cap, j);
      NewestFacts(m, cap, k);
    case Dropped(ks) =>
      MinusMember(o, ks, k);
      MinusMember(r, ks, k);
      NewestFacts(r', cap, k);
  }

  /** After the first `j` uses, `k` is among the newest `cap` of the keys touched and not dropped. */
  predicate NewestAt(uses: seq<Use>, j: nat, cap: nat, k: string)
    requires j <= |uses|
  {
    k in LastN(Recency(uses[..j]), cap)
  }

  /** Touched by use `m - 1`, and at every moment since among the newest. */
  ghost predicate RecentSince(uses: seq<Use>, cap: nat, k: string, m: nat) {
    0 < m <= |uses| && uses[m - 1] == Touched(k) && forall j :: m <= j <= |uses| ==> NewestAt(uses, j, cap, k)
  }

  ghost predicate StillRecent(uses: seq<Use>, cap: nat, k: string) {
    exists m :: RecentSince(uses, cap, k, m)
  }

  lemma NewestBefore(uses: seq<Use>, n: nat, cap: nat, k: string)
    requires n <= |uses|
    ensures forall j :: 0 <= j <= n ==> NewestAt(uses[..n], j, cap, k) == NewestAt(uses, j, cap, k)
  {
    hide LastN, Recency;
    forall j | 0 <= j <= n ensures NewestAt(uses[..n], j, cap, k) == NewestAt(uses, j, cap, k) {
      assert uses[..n][..j] == uses[..j];
    }
  }

  lemma NewestNow(uses: seq<Use>, cap: nat, k: string)
    ensures NewestAt(uses, |uses|, cap, k) == (k in LastN(Recency(uses), cap))
  {
    assert uses[..|uses|] == uses;
  }

  lemma RecentOn(uses: seq<Use>, cap: nat, k: string, m: nat)
    requires uses != []
    ensures var n, now := |uses| - 1, k in LastN(Recency(uses), cap);
            && (m <= n ==> (RecentSince(uses, cap, k, m) <==> RecentSince(uses[..n], cap, k, m) && now))
            && (m == n + 1 ==> (RecentSince(uses, cap, k, m) <==> uses[n] == Touched(k) && now))
            && (RecentSince(uses, cap, k, m) ==> m <= n + 1)
            && (RecentSince(uses[..n], cap, k, m) ==> m <= n)
  {
    hide NewestAt, Recency, LastN;
    var n := |uses| - 1;
    NewestBefore(uses, n, cap, k);
    NewestNow(uses, cap, k);
  }

  lemma RecentStep(uses: seq<Use>, cap: nat, k: string)
    requires uses != []
    requires uses[|uses| - 1] == Touched(k) ==> k in LastN(Recency(uses), cap)
    ensures StillRecent(uses, cap, k)
            <==> uses[|uses| - 1] == Touched(k)
                 || (StillRecent(uses[..|uses| - 1], cap, k) && k in LastN(Recency(uses), cap))
  {
    hide RecentSince, Recency, LastN;
    var n := |uses| - 1;
    forall m ensures RecentSince(uses, cap, k, m)
                     <==> (m == n + 1 && uses[n] == Touched(k))
                          || (RecentSince(uses[..n], cap, k, m) && k in LastN(Recency(uses), cap)) {
      RecentOn(uses, cap, k, m);
    }
    if uses[n] == Touched(k) {
      assert RecentSince(uses, cap, k, n + 1);
    }
  }

  /** Exactly the keys a bounded cache retains after any run of touches and drops: those touched and,
      at every moment since, among the newest `cap` keys not dropped. */
  lemma {:induction false} RetainedIff(uses: seq<Use>, cap: nat, k: string)
    requires cap >= 1
    ensures k in OrderAfter([], uses, cap) <==> StillRecent(uses, cap, k)
    decreases |uses|
  {
    if uses != [] {
      hide Suffix, LastN, Minus, StillRecent, UseOrder;
      var n := |uses| - 1;
      RetainedIff(uses[..n], cap, k);
      RetainsMostRecent(uses[..n], cap);
      RetainsMostRecent(uses, cap);
      RetainedStep(OrderAfter([], uses[..n], cap), Recency(uses[..n]), uses[n], cap, k);
      RecentStep(uses, cap, k);
    }
  }

  lemma {:induction false} OrderAfterConcat(o: seq<string>, a: seq<Use>, b: seq<Use>, cap: nat)
    ensures OrderAfter(o, a + b, cap) == OrderAfter(OrderAfter(o, a, cap), b, cap)
    decreases |b|
  {
    hide UseOrder;
    if b == [] {
      assert a + b == a;
    } else {
      assert (a + b)[..|a + b| - 1] == a + b[..|b| - 1];
      OrderAfterConcat(o, a, b[..|b| - 1], cap);
    }
  }
}
