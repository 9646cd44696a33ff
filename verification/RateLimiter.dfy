/**
 The token-bucket rate limiter, in exact arithmetic: what it admits, and when pruning its
 buckets can be noticed.
 */
module RateLimiter {
  import opened Wrappers

  datatype Bucket = Bucket(tokens: real, last: real)

  datatype Limits = Limits(rpm: int, burst: int)

  function Burst(l: Limits): real {
    l.burst as real
  }

  /** Tokens per second. */
  function Rate(l: Limits): real {
    l.rpm as real / 60.0
  }

  /** Tokens refilled between two moments. */
  function Earned(l: Limits, a: real, b: real): real {
    (b - a) * Rate(l)
  }

  lemma EarnedAdds(l: Limits, a: real, b: real, c: real)
    ensures Earned(l, a, c) == Earned(l, a, b) + Earned(l, b, c)
    ensures Earned(l, a, a) == 0.0
  {
  }

  function Min(a: real, b: real): real {
    if a <= b then a else b
  }

  /** The bucket as refilled at `now`; a key without a bucket starts full. */
  function Refill(l: Limits, b: Option<Bucket>, now: real): Bucket {
    if b.None? then Bucket(Min(Burst(l), Burst(l)), now)
    else Bucket(Min(Burst(l), b.value.tokens + Earned(l, b.value.last, now)), now)
  }

  /** One request: the decision and the bucket it leaves. */
  function Touch(l: Limits, b: Option<Bucket>, now: real): (bool, Bucket) {
    var r := Refill(l, b, now);
    if r.tokens >= 1.0 then (true, r.(tokens := r.tokens - 1.0)) else (false, r)
  }

  function Look(bs: map<string, Bucket>, key: string): Option<Bucket> {
    if key in bs then Some(bs[key]) else None
  }

  function Pruned(bs: map<string, Bucket>, now: real): map<string, Bucket> {
    map k | k in bs && !(bs[k].last < now - 300.0) :: bs[k]
  }

  class Limiter {
    const limits: Limits
    var buckets: map<string, Bucket>

    constructor (rpm: int, burst: int)
      ensures limits == Limits(rpm, burst)
      ensures buckets == map[]
    {
      limits := Limits(rpm, burst);
      buckets := map[];
    }

    /** Count one request against `key`. */
    method Allow(key: string, now: real) returns (ok: bool)
      modifies this
      ensures ok == Touch(limits, Look(old(buckets), key), now).0
      ensures buckets == old(buckets)[key := Touch(limits, Look(old(buckets), key), now).1]
    {
      var burst := limits.burst as real;
      var bucket := if key in buckets then buckets[key] else Bucket(burst, now);
      var elapsed := now - bucket.last;
      bucket := bucket.(last := now);
      var refilled := bucket.tokens + elapsed * (limits.rpm as real / 60.0);
      bucket := bucket.(tokens := if burst <= refilled then burst else refilled);
      if bucket.tokens >= 1.0 {
        bucket := bucket.(tokens := bucket.tokens - 1.0);
        ok := true;
      } else {
        ok := false;
      }
      buckets := buckets[key := bucket];
    }

    /** Forget every bucket not touched for five minutes. */
    method Cleanup(now: real)
      modifies this
      ensures buckets == Pruned(old(buckets), now)
    {
      var cutoff := now - 300.0;
      var stale := set k | k in buckets && buckets[k].last < cutoff;
      ghost var all := stale;
      while stale != {}
        invariant stale <= all
        invariant buckets == map k | k in old(buckets) && (k in stale || k !in all) :: old(buckets)[k]
        decreases |stale|
      {
        var k :| k in stale;
        buckets := map j | j in buckets && j != k :: buckets[j];
        stale := stale - {k};
      }
      assert forall k :: k in buckets <==> k in Pruned(old(buckets), now);
    }
  }

  // ---------------------------------------------------------------------------
  // What one key is admitted
  // ---------------------------------------------------------------------------

  /** The bucket before request `n` of a key touched at `times`. */
  function BucketBefore(l: Limits, times: seq<real>, n: nat): Option<Bucket>
    requires n <= |times|
  {
    if n == 0 then None else Some(Touch(l, BucketBefore(l, times, n - 1), times[n - 1]).1)
  }

  /** Whether request `n` is admitted. */
  predicate Admitted(l: Limits, times: seq<real>, n: nat)
    requires n < |times|
  {
    Touch(l, BucketBefore(l, times, n), times[n]).0
  }

  /** How many of the requests `k .. n` are admitted. */
  function AdmittedBetween(l: Limits, times: seq<real>, k: nat, n: nat): nat
    requires k <= n <= |times|
  {
    if k == n then 0
    else AdmittedBetween(l, times, k, n - 1) + (if Admitted(l, times, n - 1) then 1 else 0)
  }

  /** What request `k` still leaves for request `n`. */
  function Headroom(l: Limits, times: seq<real>, k: nat, n: nat): real
    requires k <= n < |times|
  {
    Burst(l) + Earned(l, times[k], times[n]) - AdmittedBetween(l, times, k, n) as real
  }

  function TokensAt(l: Limits, times: seq<real>, n: nat): real
    requires n < |times|
  {
    Refill(l, BucketBefore(l, times, n), times[n]).tokens
  }

  /** The admitted requests from `k` on, and request `n`, fit into the burst and the refill. */
  predicate Fits(l: Limits, times: seq<real>, k: nat, n: nat)
    requires k <= n < |times|
  {
    AdmittedBetween(l, times, k, n) as real + 1.0 <= Burst(l) + Earned(l, times[k], times[n])
  }

  lemma FitsIsHeadroom(l: Limits, times: seq<real>, k: nat, n: nat)
    requires k <= n < |times|
    ensures Fits(l, times, k, n) <==> Headroom(l, times, k, n) >= 1.0
  {
  }

  lemma AdmittedIsToken(l: Limits, times: seq<real>, n: nat)
    requires n < |times|
    ensures Admitted(l, times, n) <==> TokensAt(l, times, n) >= 1.0
  {
    hide BucketBefore, Refill, Earned;
  }

  lemma HeadroomSelf(l: Limits, times: seq<real>, n: nat)
    requires n < |times|
    ensures Headroom(l, times, n, n) == Burst(l)
  {
    EarnedAdds(l, times[n], times[n], times[n]);
    hide Earned;
  }

  lemma HeadroomStep(l: Limits, times: seq<real>, k: nat, n: nat)
    requires k <= n && n + 1 < |times|
    ensures Headroom(l, times, k, n + 1)
            == Headroom(l, times, k, n) + Earned(l, times[n], times[n + 1]) - (if Admitted(l, times, n) then 1.0 else 0.0)
  {
    EarnedAdds(l, times[k], times[n], times[n + 1]);
    hide Earned, Burst, Admitted;
  }

  lemma TokensStep(l: Limits, times: seq<real>, n: nat)
    requires n + 1 < |times|
    ensures TokensAt(l, times, n + 1)
            == Min(Burst(l), TokensAt(l, times, n) - (if Admitted(l, times, n) then 1.0 else 0.0)
                             + Earned(l, times[n], times[n + 1]))
  {
    hide Earned, Burst;
    var b := BucketBefore(l, times, n);
    var after := Touch(l, b, times[n]).1;
    assert BucketBefore(l, times, n + 1) == Some(after);
    assert after.last == times[n];
  }

  /** The tokens a request finds are the least headroom over all requests up to it. */
  lemma {:induction false} TokensAreLeastHeadroom(l: Limits, times: seq<real>, n: nat) returns (at: nat)
    requires n < |times|
    ensures forall k :: 0 <= k <= n ==> TokensAt(l, times, n) <= Headroom(l, times, k, n)
    ensures at <= n
    ensures TokensAt(l, times, n) == Headroom(l, times, at, n)
  {
    hide Earned;
    HeadroomSelf(l, times, n);
    if n == 0 {
      at := 0;
    } else {
      hide Headroom, TokensAt, Burst, Admitted;
      at := TokensAreLeastHeadroom(l, times, n - 1);
      TokensStep(l, times, n - 1);
      forall k | 0 <= k < n ensures TokensAt(l, times, n) <= Headroom(l, times, k, n) {
        HeadroomStep(l, times, k, n - 1);
      }
      HeadroomStep(l, times, at, n - 1);
      if TokensAt(l, times, n) == Burst(l) {
        at := n;
      }
    }
  }

  /** Exact admission: a request is admitted exactly when, counted from every request up to it,
      the admitted ones and this one fit into the burst plus what has been refilled since. */
  lemma AdmissionExact(l: Limits, times: seq<real>, n: nat)
    requires n < |times|
    ensures Admitted(l, times, n) <==> forall k :: 0 <= k <= n ==> Fits(l, times, k, n)
  {
    hide Headroom, TokensAt, Admitted, Fits, Earned;
    var at := TokensAreLeastHeadroom(l, times, n);
    AdmittedIsToken(l, times, n);
    FitsIsHeadroom(l, times, at, n);
    forall k | 0 <= k <= n ensures Fits(l, times, k, n) <==> Headroom(l, times, k, n) >= 1.0 {
      FitsIsHeadroom(l, times, k, n);
    }
  }

  /** The rate guarantee: any window of requests ending in an admitted one admits no more than
      the burst plus the refill over the window. */
  lemma WindowBound(l: Limits, times: seq<real>, k: nat, n: nat)
    requires k <= n < |times| && Admitted(l, times, n)
    ensures AdmittedBetween(l, times, k, n + 1) as real <= Burst(l) + Earned(l, times[k], times[n])
  {
    hide Earned;
    AdmissionExact(l, times, n);
    assert Fits(l, times, k, n);
  }

  /** Without a burst of at least one, nothing is ever admitted. */
  lemma NoBurstNothing(l: Limits, b: Option<Bucket>, now: real)
    requires l.burst < 1
    ensures !Touch(l, b, now).0
  {
    assert Burst(l) <= 0.0;
  }

  /** A refused request only postpones the refill it would have been given anyway. */
  lemma RefusedStep(l: Limits, times: seq<real>, rest: seq<real>, k: nat)
    requires 0 < k && k + 1 < |times| && k < |rest|
    requires rest[..k] == times[..k] && rest[k] == times[k + 1]
    requires l.burst >= 1 && !Admitted(l, times, k)
    ensures TokensAt(l, times, k + 1) == TokensAt(l, rest, k)
  {
    hide Earned;
    SamePrefix(l, times, rest, k - 1);
    assert times[..k - 1] == times[..k][..k - 1] && rest[..k - 1] == rest[..k][..k - 1];
    assert times[k - 1] == times[..k][k - 1] == rest[k - 1];
    assert TokensAt(l, times, k - 1) == TokensAt(l, rest, k - 1);
    assert Admitted(l, times, k - 1) == Admitted(l, rest, k - 1);
    AdmittedIsToken(l, times, k);
    assert Burst(l) >= 1.0;
    hide TokensAt, Admitted, Burst, BucketBefore;
    TokensStep(l, times, k);
    TokensStep(l, times, k - 1);
    TokensStep(l, rest, k - 1);
    EarnedAdds(l, times[k - 1], times[k], times[k + 1]);
  }

  /** Removing a refused request, at any position, changes no later decision. */
  lemma {:induction false} RefusalLeavesNoTrace(l: Limits, times: seq<real>, k: nat, n: nat)
    requires k < n < |times| && !Admitted(l, times, k)
    ensures Admitted(l, times, n) == Admitted(l, times[..k] + times[k + 1..], n - 1)
    ensures l.burst >= 1 ==> TokensAt(l, times, n) == TokensAt(l, times[..k] + times[k + 1..], n - 1)
    decreases n
  {
    hide Earned;
    var rest := times[..k] + times[k + 1..];
    assert rest[n - 1] == times[n];
    if l.burst < 1 {
      NoBurstNothing(l, BucketBefore(l, times, n), times[n]);
      NoBurstNothing(l, BucketBefore(l, rest, n - 1), rest[n - 1]);
    } else {
      assert Burst(l) >= 1.0;
      AdmittedIsToken(l, times, k);
      AdmittedIsToken(l, times, n);
      AdmittedIsToken(l, rest, n - 1);
      if n == k + 1 {
        assert TokensAt(l, times, 0) == Burst(l);
        hide TokensAt, Admitted, Burst;
        assert rest[..k] == times[..k];
        RefusedStep(l, times, rest, k);
      } else {
        RefusalLeavesNoTrace(l, times, k, n - 1);
        assert rest[n - 2] == times[n - 1];
        hide TokensAt, Admitted, Burst;
        TokensStep(l, times, n - 1);
        TokensStep(l, rest, n - 2);
      }
    }
  }

  lemma {:induction false} SamePrefix(l: Limits, a: seq<real>, b: seq<real>, n: nat)
    requires n <= |a| && n <= |b| && a[..n] == b[..n]
    ensures BucketBefore(l, a, n) == BucketBefore(l, b, n)
  {
    if n > 0 {
      assert a[..n - 1] == a[..n][..n - 1] && b[..n - 1] == b[..n][..n - 1];
      assert a[n - 1] == a[..n][n - 1] && b[n - 1] == b[..n][n - 1];
      SamePrefix(l, a, b, n - 1);
    }
  }

  // ---------------------------------------------------------------------------
  // Many keys, and pruning
  // ---------------------------------------------------------------------------

  datatype Op = Request(key: string, at: real) | Sweep(at: real)

  /** The limiter's buckets before operation `n`; without `pruning` the sweeps do nothing. */
  function BucketsBefore(l: Limits, ops: seq<Op>, n: nat, pruning: bool): map<string, Bucket>
    requires n <= |ops|
  {
    if n == 0 then map[]
    else
      var bs := BucketsBefore(l, ops, n - 1, pruning);
      match ops[n - 1]
      case Request(key, at) => bs[key := Touch(l, Look(bs, key), at).1]
      case Sweep(at) => if pruning then Pruned(bs, at) else bs
  }

  /** The limiter's answer to request `n`. */
  predicate Answer(l: Limits, ops: seq<Op>, n: nat, pruning: bool)
    requires n < |ops| && ops[n].Request?
  {
    Touch(l, Look(BucketsBefore(l, ops, n, pruning), ops[n].key), ops[n].at).0
  }

  /** What one key sees of operation `op`. */
  predicate Concerns(op: Op, key: string) {
    op.Request? ==> op.key == key
  }

  function KeyStep(l: Limits, b: Option<Bucket>, op: Op, pruning: bool): Option<Bucket> {
    match op
    case Request(_, at) => Some(Touch(l, b, at).1)
    case Sweep(at) => if pruning && b.Some? && b.value.last < at - 300.0 then None else b
  }

  /** The bucket of `key` before operation `n`, from the operations that concern the key alone. */
  function KeyBucket(l: Limits, ops: seq<Op>, n: nat, key: string, pruning: bool): Option<Bucket>
    requires n <= |ops|
  {
    if n == 0 then None
    else
      var b := KeyBucket(l, ops, n - 1, key, pruning);
      if Concerns(ops[n - 1], key) then KeyStep(l, b, ops[n - 1], pruning) else b
  }

  /** Keys do not affect each other. */
  lemma {:induction false} KeysIndependent(l: Limits, ops: seq<Op>, n: nat, key: string, pruning: bool)
    requires n <= |ops|
    ensures Look(BucketsBefore(l, ops, n, pruning), key) == KeyBucket(l, ops, n, key, pruning)
  {
    if n > 0 {
      hide Touch;
      KeysIndependent(l, ops, n - 1, key, pruning);
    }
  }

  /** The times at which `key` was asked for since its bucket was created: a sweep more than five
      minutes after the last of them forgets them all. */
  function TimesOf(ops: seq<Op>, n: nat, key: string, pruning: bool): seq<real>
    requires n <= |ops|
  {
    if n == 0 then []
    else
      var times := TimesOf(ops, n - 1, key, pruning);
      match ops[n - 1]
      case Request(k, at) => if k == key then times + [at] else times
      case Sweep(at) => if pruning && times != [] && times[|times| - 1] < at - 300.0 then [] else times
  }

  lemma {:induction false} KeyBucketIsBucketBefore(l: Limits, ops: seq<Op>, n: nat, key: string, pruning: bool)
    requires n <= |ops|
    ensures KeyBucket(l, ops, n, key, pruning)
            == BucketBefore(l, TimesOf(ops, n, key, pruning), |TimesOf(ops, n, key, pruning)|)
  {
    if n > 0 {
      KeyBucketIsBucketBefore(l, ops, n - 1, key, pruning);
      var before, times := TimesOf(ops, n - 1, key, pruning), TimesOf(ops, n, key, pruning);
      LastTouch(l, before);
      hide Touch;
      if times != [] {
        SamePrefix(l, before, times, |before|);
      }
    }
  }

  /** A bucket remembers when it was last touched. */
  lemma LastTouch(l: Limits, times: seq<real>)
    ensures var b := BucketBefore(l, times, |times|);
            (b.Some? <==> times != []) && (b.Some? ==> b.value.last == times[|times| - 1])
  {
  }

  lemma AnswerAdmitted(l: Limits, ops: seq<Op>, n: nat, pruning: bool)
    requires n < |ops| && ops[n].Request?
    ensures var before := TimesOf(ops, n, ops[n].key, pruning);
            Answer(l, ops, n, pruning) == Admitted(l, before + [ops[n].at], |before|)
  {
    hide Touch;
    var key := ops[n].key;
    var before := TimesOf(ops, n, key, pruning);
    KeysIndependent(l, ops, n, key, pruning);
    KeyBucketIsBucketBefore(l, ops, n, key, pruning);
    SamePrefix(l, before, before + [ops[n].at], |before|);
  }

  /** With any number of keys interleaved, swept or not, a request is admitted exactly when, counted
      from every request of its key since the bucket was created, the admitted ones and itself fit
      into burst plus refill. */
  lemma AnswerIsAdmission(l: Limits, ops: seq<Op>, n: nat, pruning: bool)
    requires n < |ops| && ops[n].Request?
    ensures var before := TimesOf(ops, n, ops[n].key, pruning);
            Answer(l, ops, n, pruning) <==> forall k :: 0 <= k <= |before| ==> Fits(l, before + [ops[n].at], k, |before|)
  {
    hide Fits, Admitted, Answer;
    var before := TimesOf(ops, n, ops[n].key, pruning);
    AnswerAdmitted(l, ops, n, pruning);
    AdmissionExact(l, before + [ops[n].at], |before|);
  }

  /** The clock never runs backwards. */
  ghost predicate Monotone(ops: seq<Op>) {
    forall i, j :: 0 <= i <= j < |ops| ==> ops[i].at <= ops[j].at
  }

  lemma EarnedOverFiveMinutes(l: Limits, a: real, b: real)
    requires l.rpm >= 0 && b - a >= 300.0
    ensures Earned(l, a, b) >= 5.0 * (l.rpm as real)
  {
    var r := l.rpm as real;
    assert Rate(l) * 300.0 == 5.0 * r;
    assert (b - a - 300.0) * Rate(l) >= 0.0;
    assert (b - a) * Rate(l) == (b - a - 300.0) * Rate(l) + 300.0 * Rate(l);
  }

  lemma EarnedNonNegative(l: Limits, a: real, b: real)
    requires l.rpm >= 0 && a <= b
    ensures Earned(l, a, b) >= 0.0
  {
  }

  /** A pruned bucket and its surviving twin: equal, or the twin is due a full refill. */
  ghost predicate Twins(pruned: Option<Bucket>, full: Option<Bucket>, now: real) {
    && (full.Some? ==> full.value.tokens >= 0.0 && full.value.last <= now)
    && (pruned == full || (pruned.None? && full.value.last < now - 300.0))
  }

  lemma TwinsAgree(l: Limits, pruned: Option<Bucket>, full: Option<Bucket>, now: real, at: real)
    requires 1 <= l.burst <= 5 * l.rpm && Twins(pruned, full, now) && now <= at
    ensures Touch(l, pruned, at) == Touch(l, full, at)
    ensures Touch(l, full, at).1.tokens >= 0.0
    ensures Touch(l, full, at).1.last == at
  {
    hide Earned;
    if full.Some? {
      EarnedNonNegative(l, full.value.last, at);
      if pruned != full {
        EarnedOverFiveMinutes(l, full.value.last, at);
        assert 5.0 * (l.rpm as real) == (5 * l.rpm) as real >= Burst(l);
      }
    }
  }

  lemma {:induction false} TwinsAlways(l: Limits, ops: seq<Op>, n: nat, key: string, now: real)
    requires 1 <= l.burst <= 5 * l.rpm && Monotone(ops) && n <= |ops|
    requires n > 0 ==> ops[n - 1].at <= now
    ensures Twins(KeyBucket(l, ops, n, key, true), KeyBucket(l, ops, n, key, false), now)
  {
    if n > 0 {
      hide Touch;
      var at := ops[n - 1].at;
      TwinsAlways(l, ops, n - 1, key, at);
      if Concerns(ops[n - 1], key) && ops[n - 1].Request? {
        TwinsAgree(l, KeyBucket(l, ops, n - 1, key, true), KeyBucket(l, ops, n - 1, key, false), at, at);
      }
    }
  }

  /** When five minutes refill the whole burst, no answer shows whether sweeps took place. */
  lemma PruningInvisible(l: Limits, ops: seq<Op>, n: nat)
    requires l.burst < 1 || l.burst <= 5 * l.rpm
    requires Monotone(ops) && n < |ops| && ops[n].Request?
    ensures Answer(l, ops, n, true) == Answer(l, ops, n, false)
  {
    hide BucketsBefore;
    var key, at := ops[n].key, ops[n].at;
    KeysIndependent(l, ops, n, key, true);
    KeysIndependent(l, ops, n, key, false);
    var pruned, full := KeyBucket(l, ops, n, key, true), KeyBucket(l, ops, n, key, false);
    if l.burst < 1 {
      NoBurstNothing(l, pruned, at);
      NoBurstNothing(l, full, at);
    } else {
      hide Touch, KeyBucket;
      TwinsAlways(l, ops, n, key, at);
      TwinsAgree(l, pruned, full, at, at);
    }
  }

  // --- the witness when a burst outlasts five minutes ------------------------------

  function Repeat(at: real, n: nat): (s: seq<real>)
    ensures |s| == n && forall i :: 0 <= i < n ==> s[i] == at
  {
    if n == 0 then [] else Repeat(at, n - 1) + [at]
  }

  lemma {:induction false} AtMostAll(l: Limits, times: seq<real>, k: nat, n: nat)
    requires k <= n <= |times|
    ensures AdmittedBetween(l, times, k, n) <= n - k
    ensures AdmittedBetween(l, times, k, n) == n - k <==> forall i :: k <= i < n ==> Admitted(l, times, i)
    decreases n
  {
    hide Admitted;
    if k < n {
      AtMostAll(l, times, k, n - 1);
    }
  }

  /** A full bucket admits its whole burst at once. */
  lemma BurstAtOnce(l: Limits, times: seq<real>, n: nat)
    requires n < |times| && n < l.burst
    requires forall i :: 0 <= i <= n ==> times[i] == times[0]
    ensures Admitted(l, times, n)
  {
    hide Earned, Admitted;
    forall k | 0 <= k <= n ensures Fits(l, times, k, n) {
      AtMostAll(l, times, k, n);
      EarnedAdds(l, times[n], times[n], times[n]);
    }
    AdmissionExact(l, times, n);
  }

  /** Two bursts more than five minutes apart, with a refill in between that is short of a burst:
      some request of the second burst is refused. */
  lemma SecondBurstRefused(l: Limits, gap: real)
    requires l.burst >= 1 && Earned(l, 0.0, gap) < Burst(l)
    ensures exists n :: l.burst <= n < 2 * l.burst && !Admitted(l, Repeat(0.0, l.burst) + Repeat(gap, l.burst), n)
  {
    hide Earned, Admitted, Repeat;
    var times := Repeat(0.0, l.burst) + Repeat(gap, l.burst);
    var last := 2 * l.burst - 1;
    forall i | 0 <= i < l.burst ensures Admitted(l, times, i) {
      BurstAtOnce(l, times, i);
    }
    assert times[0] == 0.0 && times[last] == gap;
    AtMostAll(l, times, 0, last);
    AdmissionExact(l, times, last);
    if Admitted(l, times, last) {
      assert Fits(l, times, 0, last);
      assert AdmittedBetween(l, times, 0, last) < last;
    }
  }

  function Requests(times: seq<real>): (ops: seq<Op>)
    ensures |ops| == |times| && forall i :: 0 <= i < |ops| ==> ops[i] == Request("k", times[i])
  {
    if times == [] then [] else Requests(times[..|times| - 1]) + [Request("k", times[|times| - 1])]
  }

  /** Two bursts with a sweep between them. */
  function Witness(l: Limits, gap: real): seq<Op>
    requires l.burst >= 1
  {
    Requests(Repeat(0.0, l.burst)) + [Sweep(gap)] + Requests(Repeat(gap, l.burst))
  }

  lemma AdmittedPrefix(l: Limits, a: seq<real>, b: seq<real>, n: nat)
    requires n < |a| && n < |b| && a[..n] == b[..n] && a[n] == b[n]
    ensures Admitted(l, a, n) == Admitted(l, b, n)
  {
    SamePrefix(l, a, b, n);
    hide Touch;
  }

  /** A sweep between the bursts resets the request times. */
  lemma {:induction false} WitnessTimes(l: Limits, gap: real, n: nat, pruning: bool)
    requires l.burst >= 1 && gap > 300.0 && n <= 2 * l.burst + 1
    ensures |Witness(l, gap)| == 2 * l.burst + 1
    ensures TimesOf(Witness(l, gap), n, "k", pruning)
            == if n <= l.burst then Repeat(0.0, l.burst)[..n]
               else if pruning then Repeat(gap, l.burst)[..n - l.burst - 1]
               else (Repeat(0.0, l.burst) + Repeat(gap, l.burst))[..n - 1]
  {
    hide Repeat, Requests;
    if n > 0 {
      WitnessTimes(l, gap, n - 1, pruning);
    }
  }

  lemma WitnessAnswers(l: Limits, gap: real, m: nat, pruning: bool)
    requires l.burst >= 1 && gap > 300.0 && l.burst <= m < 2 * l.burst
    ensures |Witness(l, gap)| == 2 * l.burst + 1
    ensures Witness(l, gap)[m + 1].Request?
    ensures Answer(l, Witness(l, gap), m + 1, pruning)
            == if pruning then Admitted(l, Repeat(gap, l.burst), m - l.burst)
               else Admitted(l, Repeat(0.0, l.burst) + Repeat(gap, l.burst), m)
  {
    hide Repeat, Witness, Monotone, Answer, Admitted, TimesOf;
    WitnessMonotone(l, gap);
    WitnessTimes(l, gap, m + 1, pruning);
    AnswerAdmitted(l, Witness(l, gap), m + 1, pruning);
    var before := TimesOf(Witness(l, gap), m + 1, "k", pruning);
    if pruning {
      AdmittedPrefix(l, before + [gap], Repeat(gap, l.burst), m - l.burst);
    } else {
      AdmittedPrefix(l, before + [gap], Repeat(0.0, l.burst) + Repeat(gap, l.burst), m);
    }
  }

  lemma WitnessMonotone(l: Limits, gap: real)
    requires l.burst >= 1 && gap > 300.0
    ensures Monotone(Witness(l, gap))
    ensures |Witness(l, gap)| == 2 * l.burst + 1
    ensures Witness(l, gap)[l.burst] == Sweep(gap)
    ensures forall i :: 0 <= i < |Witness(l, gap)| && i != l.burst ==> Witness(l, gap)[i].Request?
    ensures forall i :: 0 <= i < |Witness(l, gap)| && i != l.burst
                        ==> Witness(l, gap)[i] == Request("k", if i < l.burst then 0.0 else gap)
  {
  }

  lemma ShortGap(l: Limits) returns (gap: real)
    requires l.burst > 5 * l.rpm
    ensures gap > 300.0
    ensures Earned(l, 0.0, gap) < Burst(l)
    ensures Earned(l, 0.0, gap - 300.0) < 1.0
  {
    if l.rpm <= 0 {
      gap := 301.0;
      assert Earned(l, 0.0, gap) == 301.0 * (l.rpm as real / 60.0);
    } else {
      var d := 30.0 / (l.rpm as real);
      gap := 300.0 + d;
      assert d * (l.rpm as real / 60.0) == 0.5;
      assert Earned(l, 0.0, gap) == 300.0 * (l.rpm as real / 60.0) + d * (l.rpm as real / 60.0);
      assert (l.burst as real) >= (5 * l.rpm + 1) as real;
    }
  }

  /** When a burst outlasts five minutes of refill, a sweep can be noticed. */
  lemma PruningVisible(l: Limits)
    requires l.burst >= 1 && l.burst > 5 * l.rpm
    ensures exists ops: seq<Op>, n: nat ::
              Monotone(ops) && n < |ops| && ops[n].Request? && Answer(l, ops, n, true) && !Answer(l, ops, n, false)
  {
    hide Earned, Admitted, Answer, Monotone, Witness, Repeat;
    var gap := ShortGap(l);
    WitnessMonotone(l, gap);
    SecondBurstRefused(l, gap);
    var m :| l.burst <= m < 2 * l.burst && !Admitted(l, Repeat(0.0, l.burst) + Repeat(gap, l.burst), m);
    WitnessAnswers(l, gap, m, true);
    WitnessAnswers(l, gap, m, false);
    BurstAtOnce(l, Repeat(gap, l.burst), m - l.burst);
    assert !Answer(l, Witness(l, gap), m + 1, false);
  }

  /** Exactly when sweeping is unobservable. */
  lemma PruningInvisibleIff(l: Limits)
    ensures (forall ops: seq<Op>, n: nat :: Monotone(ops) && n < |ops| && ops[n].Request?
               ==> Answer(l, ops, n, true) == Answer(l, ops, n, false))
            <==> l.burst < 1 || l.burst <= 5 * l.rpm
  {
    hide Answer, Monotone;
    if l.burst < 1 || l.burst <= 5 * l.rpm {
      forall ops: seq<Op>, n: nat | Monotone(ops) && n < |ops| && ops[n].Request?
        ensures Answer(l, ops, n, true) == Answer(l, ops, n, false)
      {
        PruningInvisible(l, ops, n);
      }
    } else {
      PruningVisible(l);
    }
  }
}
