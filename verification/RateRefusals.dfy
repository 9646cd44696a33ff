/**
 When a refused request can be noticed in a limiter that is swept.
 */
module RateRefusals {
  import opened RateLimiter

  function Without<T>(s: seq<T>, k: nat): seq<T>
    requires k < |s|
  {
    s[..k] + s[k + 1..]
  }

  /** Taking one refused request out of a trace changes no later answer of the swept limiter. */
  ghost predicate RefusalInvisible(l: Limits, ops: seq<Op>, k: nat, n: nat) {
    Monotone(ops) && k < n < |ops| && ops[k].Request? && ops[n].Request? && !Answer(l, ops, k, true) ==>
      Answer(l, ops, n, true) == Answer(l, Without(ops, k), n - 1, true)
  }

  // ---------------------------------------------------------------------------
  // A limiter that is never swept
  // ---------------------------------------------------------------------------

  lemma {:induction false} TimesPrefix(a: seq<Op>, b: seq<Op>, n: nat, key: string, pruning: bool)
    requires n <= |a| && n <= |b| && a[..n] == b[..n]
    ensures TimesOf(a, n, key, pruning) == TimesOf(b, n, key, pruning)
  {
    if n > 0 {
      assert a[..n - 1] == a[..n][..n - 1] && b[..n - 1] == b[..n][..n - 1];
      assert a[n - 1] == a[..n][n - 1] && b[n - 1] == b[..n][n - 1];
      TimesPrefix(a, b, n - 1, key, pruning);
    }
  }

  /** The request times without request `k`. */
  lemma {:induction false} TimesWithout(ops: seq<Op>, k: nat, n: nat, key: string)
    requires k < n <= |ops| && ops[k].Request?
    ensures var times, p := TimesOf(ops, n, key, false), |TimesOf(ops, k, key, false)|;
            if ops[k].key == key then
              && p < |times|
              && times[..p] == TimesOf(ops, k, key, false)
              && times[p] == ops[k].at
              && TimesOf(Without(ops, k), n - 1, key, false) == Without(times, p)
            else TimesOf(Without(ops, k), n - 1, key, false) == times
  {
    var rest := Without(ops, k);
    if n == k + 1 {
      TimesPrefix(ops, rest, k, key, false);
    } else {
      TimesWithout(ops, k, n - 1, key);
      assert rest[n - 2] == ops[n - 1];
    }
  }

  lemma UnsweptRefusal(l: Limits, ops: seq<Op>, k: nat, n: nat)
    requires k < n < |ops| && ops[k].Request? && ops[n].Request? && !Answer(l, ops, k, false)
    ensures Answer(l, ops, n, false) == Answer(l, Without(ops, k), n - 1, false)
  {
    hide Answer, Admitted, TimesOf;
    var key, at, rest := ops[n].key, ops[n].at, Without(ops, k);
    assert rest[n - 1] == ops[n];
    AnswerAdmitted(l, ops, n, false);
    AnswerAdmitted(l, rest, n - 1, false);
    TimesWithout(ops, k, n, key);
    if ops[k].key == key {
      var times, before := TimesOf(ops, n, key, false), TimesOf(ops, k, key, false);
      var p := |before|;
      AnswerAdmitted(l, ops, k, false);
      AdmittedPrefix(l, before + [ops[k].at], times + [at], p);
      RefusalLeavesNoTrace(l, times + [at], p, |times|);
      assert (times + [at])[..p] + (times + [at])[p + 1..] == Without(times, p) + [at];
    }
  }

  lemma MonotoneWithout(ops: seq<Op>, k: nat)
    requires Monotone(ops) && k < |ops|
    ensures Monotone(Without(ops, k))
  {
  }

  /** When five minutes refill the whole burst, refused requests cannot be noticed. */
  lemma RefusalLeavesNoTraceSwept(l: Limits, ops: seq<Op>, k: nat, n: nat)
    requires l.burst < 1 || l.burst <= 5 * l.rpm
    ensures RefusalInvisible(l, ops, k, n)
  {
    hide Answer;
    if Monotone(ops) && k < n < |ops| && ops[k].Request? && ops[n].Request? && !Answer(l, ops, k, true) {
      MonotoneWithout(ops, k);
      assert Without(ops, k)[n - 1] == ops[n];
      PruningInvisible(l, ops, k);
      PruningInvisible(l, ops, n);
      PruningInvisible(l, Without(ops, k), n - 1);
      UnsweptRefusal(l, ops, k, n);
    }
  }

  // ---------------------------------------------------------------------------
  // A refusal that keeps a bucket from being swept
  // ---------------------------------------------------------------------------

  /** A burst, one more request, a sweep five minutes after that request, a second burst. */
  function Kept(l: Limits, gap: real): seq<Op>
    requires l.burst >= 1
  {
    Requests(Repeat(0.0, l.burst)) + [Request("k", gap - 300.0), Sweep(gap)] + Requests(Repeat(gap, l.burst))
  }

  function KeptTimes(l: Limits, gap: real): seq<real>
    requires l.burst >= 1
  {
    Repeat(0.0, l.burst) + [gap - 300.0] + Repeat(gap, l.burst)
  }

  lemma KeptShape(l: Limits, gap: real)
    requires l.burst >= 1 && gap > 300.0
    ensures |Kept(l, gap)| == 2 * l.burst + 2
    ensures Monotone(Kept(l, gap))
    ensures forall i :: 0 <= i < |Kept(l, gap)| ==>
              Kept(l, gap)[i] == if i == l.burst + 1 then Sweep(gap)
                                 else Request("k", KeptTimes(l, gap)[if i <= l.burst then i else i - 1])
  {
    hide Requests, Repeat;
  }

  lemma KeptWithout(l: Limits, gap: real)
    requires l.burst >= 1
    ensures |Kept(l, gap)| == 2 * l.burst + 2
    ensures |KeptTimes(l, gap)| == 2 * l.burst + 1
    ensures Without(Kept(l, gap), l.burst) == Witness(l, gap)
    ensures Without(KeptTimes(l, gap), l.burst) == Repeat(0.0, l.burst) + Repeat(gap, l.burst)
  {
    hide Requests, Repeat;
  }

  /** No sweep resets the times of the longer trace. */
  lemma {:induction false} KeptAll(l: Limits, gap: real, n: nat)
    requires l.burst >= 1 && gap > 300.0 && n <= 2 * l.burst + 2
    ensures |Kept(l, gap)| == 2 * l.burst + 2
    ensures TimesOf(Kept(l, gap), n, "k", true) == KeptTimes(l, gap)[..if n <= l.burst + 1 then n else n - 1]
  {
    hide Kept, Monotone, Witness, Repeat;
    KeptShape(l, gap);
    var times := KeptTimes(l, gap);
    assert |times| == 2 * l.burst + 1 && times[l.burst] == gap - 300.0;
    hide KeptTimes;
    if n > 0 {
      KeptAll(l, gap, n - 1);
      if n <= l.burst + 1 {
        assert times[..n - 1] + [times[n - 1]] == times[..n];
      } else if n > l.burst + 2 {
        assert times[..n - 2] + [times[n - 2]] == times[..n - 1];
      }
    }
  }

  lemma KeptAnswers(l: Limits, gap: real, n: nat)
    requires l.burst >= 1 && gap > 300.0 && n < 2 * l.burst + 2 && n != l.burst + 1
    ensures |Kept(l, gap)| == 2 * l.burst + 2
    ensures Kept(l, gap)[n].Request?
    ensures Answer(l, Kept(l, gap), n, true) == Admitted(l, KeptTimes(l, gap), if n <= l.burst then n else n - 1)
  {
    hide Kept, Monotone, Witness, Answer, Admitted, TimesOf;
    KeptShape(l, gap);
    KeptAll(l, gap, n);
    AnswerAdmitted(l, Kept(l, gap), n, true);
    var times, m := KeptTimes(l, gap), if n <= l.burst then n else n - 1;
    assert times[..m] + [times[m]] == times[..m + 1];
    AdmittedPrefix(l, times[..m] + [times[m]], times, m);
  }

  lemma ThirdRefused(l: Limits, gap: real)
    requires l.burst >= 1 && gap > 300.0 && Earned(l, 0.0, gap - 300.0) < 1.0
    ensures !Admitted(l, KeptTimes(l, gap), l.burst)
  {
    hide Earned, Admitted, Repeat;
    var times := KeptTimes(l, gap);
    forall i | 0 <= i < l.burst ensures Admitted(l, times, i) {
      BurstAtOnce(l, times, i);
    }
    AtMostAll(l, times, 0, l.burst);
    AdmissionExact(l, times, l.burst);
    assert !Fits(l, times, 0, l.burst);
  }

  /** When a burst outlasts five minutes of refill, a refused request can keep the drained bucket from
      being swept away, and a later request is refused for it. */
  lemma RefusalVisible(l: Limits)
    requires l.burst >= 1 && l.burst > 5 * l.rpm
    ensures exists ops, k, n :: !RefusalInvisible(l, ops, k, n)
  {
    hide Earned, Admitted, Answer, Monotone, Witness, Repeat, Kept, Burst;
    var gap := ShortGap(l);
    var ops, k := Kept(l, gap), l.burst;
    KeptShape(l, gap);
    KeptWithout(l, gap);
    KeptAnswers(l, gap, k);
    ThirdRefused(l, gap);
    SecondBurstRefused(l, gap);
    var m :| l.burst <= m < 2 * l.burst && !Admitted(l, Repeat(0.0, l.burst) + Repeat(gap, l.burst), m);
    var n := m + 2;
    KeptAnswers(l, gap, n);
    RefusalLeavesNoTrace(l, KeptTimes(l, gap), k, m + 1);
    WitnessAnswers(l, gap, m, true);
    BurstAtOnce(l, Repeat(gap, l.burst), m - l.burst);
    assert !RefusalInvisible(l, ops, k, n);
  }

  /** Exactly when refused requests cannot be noticed in a swept limiter. */
  lemma RefusalInvisibleIff(l: Limits)
    ensures (forall ops, k, n :: RefusalInvisible(l, ops, k, n)) <==> l.burst < 1 || l.burst <= 5 * l.rpm
  {
    hide RefusalInvisible;
    if l.burst < 1 || l.burst <= 5 * l.rpm {
      forall ops, k, n ensures RefusalInvisible(l, ops, k, n) {
        RefusalLeavesNoTraceSwept(l, ops, k, n);
      }
    } else {
      RefusalVisible(l);
    }
  }
}
