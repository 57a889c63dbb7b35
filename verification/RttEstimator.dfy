/** The round trip time estimator of app/raft-netelect-backup/timeout.c: Jacobson's mean and deviation,
    in the style of section 2 of RFC 6298, over reals. */
module RttEstimator {

  const NUM_NODES: nat := 3
  const ALPHA: real := 0.125
  const BETA: real := 0.25

  datatype Estimate = Estimate(mu: real, sigma: real)

  function Abs(x: real): real { if x < 0.0 then -x else x }

  function Max(a: real, b: real): real { if a < b then b else a }

  /** One sample; a mean of zero stands for "no sample yet". */
  function Step(e: Estimate, sample: real): Estimate {
    if e.mu == 0.0 then Estimate(sample, sample / 2.0)
    else
      var err := sample - e.mu;
      Estimate(e.mu + ALPHA * err, (1.0 - BETA) * e.sigma + BETA * Abs(err))
  }

  /** The estimate after all samples. */
  function After(samples: seq<real>): Estimate {
    if samples == [] then Estimate(0.0, 0.0) else Step(After(samples[..|samples| - 1]), samples[|samples| - 1])
  }

  predicate Within(samples: seq<real>, lo: real, hi: real) {
    forall i :: 0 <= i < |samples| ==> lo <= samples[i] <= hi
  }

  function Rto(e: Estimate): real { e.mu + 4.0 * e.sigma }

  /** The estimate stays within what the samples allow. */
  lemma {:induction false} EstimateBounds(samples: seq<real>, lo: real, hi: real)
    requires 0.0 < lo && samples != [] && Within(samples, lo, hi)
    ensures lo <= After(samples).mu <= hi
    ensures 0.0 <= After(samples).sigma <= Max(hi / 2.0, hi - lo)
    ensures lo <= Rto(After(samples)) <= hi + 4.0 * Max(hi / 2.0, hi - lo)
  {
    var front := samples[..|samples| - 1];
    if front != [] {
      EstimateBounds(front, lo, hi);
    }
  }

  predicate Falling(samples: seq<real>) {
    forall i, j :: 0 <= i <= j < |samples| ==> samples[j] <= samples[i]
  }

  /** On samples that never increase, the mean never increases either and never drops below the
      latest sample. */
  lemma {:induction false} MeanFalls(samples: seq<real>)
    requires samples != [] && Falling(samples) && forall i :: 0 <= i < |samples| ==> samples[i] >= 0.0
    ensures After(samples).mu >= samples[|samples| - 1]
    ensures |samples| > 1 ==> After(samples).mu <= After(samples[..|samples| - 1]).mu
  {
    var front := samples[..|samples| - 1];
    if front != [] {
      MeanFalls(front);
      assert samples[|samples| - 1] <= front[|front| - 1];
    }
  }

  // ---------- weights ----------

  /** The gains of section 2.3 of RFC 6298: a sample moves the mean by an eighth and the deviation by a
      quarter of its distance from the mean so far. */
  lemma SampleWeights(samples: seq<real>, x: real)
    requires After(samples).mu != 0.0
    ensures var e, f := After(samples), After(samples + [x]);
      && 8.0 * (f.mu - e.mu) == x - e.mu
      && 4.0 * (f.sigma - e.sigma) == (if x < e.mu then e.mu - x else x - e.mu) - e.sigma
      && Rto(f) == f.mu + 4.0 * f.sigma
  {
    assert (samples + [x])[..|samples|] == samples;
  }

  /** One sample a, then n samples b. */
  function Jump(a: real, b: real, n: nat): seq<real> {
    if n == 0 then [a] else Jump(a, b, n - 1) + [b]
  }

  /** What is left of a distance d after n times seven eighths, and after n times three quarters. */
  function Eighths(d: real, n: nat): real {
    if n == 0 then d else 0.875 * Eighths(d, n - 1)
  }

  function Quarters(d: real, n: nat): real {
    if n == 0 then d else 0.75 * Quarters(d, n - 1)
  }

  lemma {:induction false} EighthsShrink(d: real, n: nat)
    ensures if d >= 0.0 then 0.0 <= Eighths(d, n) <= d else d <= Eighths(d, n) <= 0.0
  {
    if n > 0 {
      EighthsShrink(d, n - 1);
    }
  }

  lemma OneSample(a: real)
    ensures After([a]) == Estimate(a, a / 2.0)
  {
    assert [a][..0] == [] && After([a][..0]) == Estimate(0.0, 0.0);
  }

  /** After a jump of the round trip time the mean follows geometrically: seven eighths of the distance
      remain after each sample. */
  lemma {:induction false} MeanFollows(a: real, b: real, n: nat)
    requires a > 0.0 && b > 0.0
    ensures After(Jump(a, b, n)).mu == b + Eighths(a - b, n) > 0.0
  {
    EighthsShrink(a - b, n);
    if n == 0 {
      OneSample(a);
    } else {
      MeanFollows(a, b, n - 1);
      SampleWeights(Jump(a, b, n - 1), b);
    }
  }

  /** On a constant round trip time the deviation dies out, by a quarter with each sample, and the
      timeout approaches the round trip time from three times its value. */
  lemma {:induction false} TimeoutSettles(x: real, n: nat)
    requires x > 0.0
    ensures After(Jump(x, x, n)) == Estimate(x, Quarters(x / 2.0, n))
    ensures Rto(After(Jump(x, x, n))) == x + 4.0 * Quarters(x / 2.0, n)
  {
    if n == 0 {
      OneSample(x);
    } else {
      TimeoutSettles(x, n - 1);
      SampleWeights(Jump(x, x, n - 1), x);
    }
  }

  // ---------- the penalty ----------

  /** The peers among 1..n that have a mean and are not `self`. */
  function Known(mu: seq<real>, self: nat, n: nat): seq<real>
    requires n < |mu|
  {
    if n == 0 then []
    else Known(mu, self, n - 1) + if n != self && mu[n] > 0.0 then [mu[n]] else []
  }

  function Sum(s: seq<real>): real {
    if s == [] then 0.0 else Sum(s[..|s| - 1]) + s[|s| - 1]
  }

  lemma SumAppend(s: seq<real>, x: real)
    ensures Sum(s + [x]) == Sum(s) + x
  {
    assert (s + [x])[..|s|] == s;
  }

  function Average(s: seq<real>): real {
    if s == [] then 0.0 else Sum(s) / |s| as real
  }

  /** The average of the known means, and zero if there are none. */
  function Penalty(mu: seq<real>, self: nat): real
    requires NUM_NODES < |mu|
  {
    Average(Known(mu, self, NUM_NODES))
  }

  /** x added up n times. */
  function Times(n: nat, x: real): real {
    if n == 0 then 0.0 else Times(n - 1, x) + x
  }

  lemma OneMore(n: real, x: real)
    ensures (n + 1.0) * x == n * x + x
  {
  }

  lemma {:induction false} TimesIsProduct(n: nat, x: real)
    ensures Times(n, x) == n as real * x
  {
    if n > 0 {
      TimesIsProduct(n - 1, x);
      OneMore((n - 1) as real, x);
      assert n as real == (n - 1) as real + 1.0;
    }
  }

  lemma {:induction false} SumBounds(s: seq<real>, lo: real, hi: real)
    requires Within(s, lo, hi)
    ensures Times(|s|, lo) <= Sum(s) <= Times(|s|, hi)
  {
    if s != [] {
      SumBounds(s[..|s| - 1], lo, hi);
    }
  }

  lemma {:induction false} KnownWithin(mu: seq<real>, self: nat, n: nat, lo: real, hi: real)
    requires n < |mu| && forall p :: 1 <= p <= n && p != self && mu[p] > 0.0 ==> lo <= mu[p] <= hi
    ensures Within(Known(mu, self, n), lo, hi)
    ensures Known(mu, self, n) == [] <==> forall p :: 1 <= p <= n && p != self ==> mu[p] <= 0.0
  {
    if n > 0 {
      KnownWithin(mu, self, n - 1, lo, hi);
    }
  }

  /** With three nodes: the average of both other means, the one known, or zero. */
  lemma PenaltyExactly(mu: seq<real>, self: nat, p: nat, q: nat)
    requires NUM_NODES < |mu| && {self, p, q} == {1, 2, 3}
    ensures mu[p] > 0.0 && mu[q] > 0.0 ==> 2.0 * Penalty(mu, self) == mu[p] + mu[q]
    ensures mu[p] > 0.0 && mu[q] <= 0.0 ==> Penalty(mu, self) == mu[p]
    ensures mu[p] <= 0.0 && mu[q] <= 0.0 ==> Penalty(mu, self) == 0.0
  {
    assert self in {1, 2, 3} && p in {1, 2, 3} && q in {1, 2, 3};
    assert 1 in {self, p, q} && 2 in {self, p, q} && 3 in {self, p, q};
    PenaltyOrdered(mu, self, if p < q then p else q, if p < q then q else p);
  }

  lemma PenaltyOrdered(mu: seq<real>, self: nat, p: nat, q: nat)
    requires NUM_NODES < |mu| && 1 <= p < q <= 3 && 1 <= self <= 3 && self != p && self != q
    ensures mu[p] > 0.0 && mu[q] > 0.0 ==> 2.0 * Penalty(mu, self) == mu[p] + mu[q]
    ensures mu[p] > 0.0 && mu[q] <= 0.0 ==> Penalty(mu, self) == mu[p]
    ensures mu[p] <= 0.0 && mu[q] > 0.0 ==> Penalty(mu, self) == mu[q]
    ensures mu[p] <= 0.0 && mu[q] <= 0.0 ==> Penalty(mu, self) == 0.0
  {
    KnownOfTwo(mu, self, p, q);
    AverageShort(mu[p], mu[q]);
    AverageShort(mu[q], mu[p]);
  }

  lemma AverageShort(a: real, b: real)
    ensures Average([]) == 0.0 && Average([a]) == a && 2.0 * Average([a] + [b]) == a + b
  {
    ShortSums(a, b);
  }

  lemma KnownOfTwo(mu: seq<real>, self: nat, p: nat, q: nat)
    requires NUM_NODES < |mu| && 1 <= p < q <= 3 && 1 <= self <= 3 && self != p && self != q
    ensures Known(mu, self, 3) ==
            if mu[p] > 0.0 && mu[q] > 0.0 then [mu[p]] + [mu[q]]
            else if mu[p] > 0.0 then [mu[p]]
            else if mu[q] > 0.0 then [mu[q]]
            else []
  {
    KnownNext(mu, self, p);
    KnownNext(mu, self, q);
    if p > 1 {
      KnownNext(mu, self, 1);
    }
    if q == 3 && p == 1 {
      KnownNext(mu, self, 2);
    }
    if q == 2 {
      KnownNext(mu, self, 3);
    }
    assert [] + [mu[p]] == [mu[p]] && [] + [mu[q]] == [mu[q]];
  }

  lemma KnownNext(mu: seq<real>, self: nat, n: nat)
    requires 0 < n < |mu|
    ensures Known(mu, self, n) ==
            if n != self && mu[n] > 0.0 then Known(mu, self, n - 1) + [mu[n]] else Known(mu, self, n - 1)
    ensures Known(mu, self, 0) == []
  {
  }

  lemma ShortSums(a: real, b: real)
    ensures Sum([a]) == a && Sum([a] + [b]) == a + b
  {
    assert [] + [a] == [a];
    SumAppend([], a);
    SumAppend([a], b);
  }

  /** The penalty lies between the means it averages, and is zero exactly when no other peer is known. */
  lemma PenaltyBounds(mu: seq<real>, self: nat, lo: real, hi: real)
    requires NUM_NODES < |mu| && 0.0 < lo
    requires forall p :: 1 <= p <= NUM_NODES && p != self && mu[p] > 0.0 ==> lo <= mu[p] <= hi
    ensures Penalty(mu, self) == 0.0 || lo <= Penalty(mu, self) <= hi
    ensures Penalty(mu, self) == 0.0 <==> forall p :: 1 <= p <= NUM_NODES && p != self ==> mu[p] <= 0.0
  {
    KnownWithin(mu, self, NUM_NODES, lo, hi);
    var known := Known(mu, self, NUM_NODES);
    if known != [] {
      AverageBounds(known, lo, hi);
    }
  }

  lemma AverageBounds(s: seq<real>, lo: real, hi: real)
    requires s != [] && Within(s, lo, hi)
    ensures lo <= Sum(s) / |s| as real <= hi
  {
    SumBounds(s, lo, hi);
    TimesIsProduct(|s|, lo);
    TimesIsProduct(|s|, hi);
    Quotient(Sum(s), |s| as real, lo, hi);
  }

  lemma Quotient(a: real, n: real, lo: real, hi: real)
    requires n > 0.0 && n * lo <= a <= n * hi
    ensures lo <= a / n <= hi
  {
    var q := a / n;
    assert q * n == a;
  }

  class Timeouts {
    const mu: array<real>
    const sigma: array<real>
    /** For each peer, the samples so far. */
    ghost var samples: seq<seq<real>>

    ghost predicate Valid()
      reads this, mu, sigma
    {
      && mu.Length == sigma.Length == |samples| == NUM_NODES + 1 && mu != sigma
      && forall p :: 0 <= p <= NUM_NODES ==> Estimate(mu[p], sigma[p]) == After(samples[p])
    }

    constructor ()
      ensures Valid() && fresh(mu) && fresh(sigma)
      ensures forall p :: 0 <= p <= NUM_NODES ==> samples[p] == []
    {
      mu := new real[NUM_NODES + 1](_ => 0.0);
      sigma := new real[NUM_NODES + 1](_ => 0.0);
      samples := seq(NUM_NODES + 1, _ => []);
    }

    method SenseUpdate(peer: nat, sample: real)
      requires Valid() && peer <= NUM_NODES
      modifies this, mu, sigma
      ensures Valid() && samples == old(samples)[peer := old(samples)[peer] + [sample]]
    {
      assert (samples[peer] + [sample])[..|samples[peer]|] == samples[peer];
      samples := samples[peer := samples[peer] + [sample]];
      if mu[peer] == 0.0 {
        mu[peer] := sample;
        sigma[peer] := sample / 2.0;
        return;
      }
      var err := sample - mu[peer];
      mu[peer] := mu[peer] + ALPHA * err;
      sigma[peer] := (1.0 - BETA) * sigma[peer] + BETA * Abs(err);
    }

    method GetRto(peer: nat) returns (rto: real)
      requires Valid() && peer <= NUM_NODES
      ensures rto == Rto(After(samples[peer]))
    {
      assert Estimate(mu[peer], sigma[peer]) == After(samples[peer]);
      rto := mu[peer] + 4.0 * sigma[peer];
    }

    /** compute_penalty: the loop averages the known means of the other peers. */
    method ComputePenalty(self: nat) returns (penalty: real)
      requires Valid()
      ensures penalty == Penalty(mu[..], self)
    {
      ghost var means := mu[..];
      var sum, cnt: nat := 0.0, 0;
      for p := 1 to NUM_NODES + 1
        invariant sum == Sum(Known(means, self, p - 1)) && cnt == |Known(means, self, p - 1)|
      {
        KnownNext(means, self, p);
        if p == self {
          continue;
        }
        if mu[p] > 0.0 {
          SumAppend(Known(means, self, p - 1), mu[p]);
          sum := sum + mu[p];
          cnt := cnt + 1;
        }
      }
      penalty := if cnt == 0 then 0.0 else sum / cnt as real;
    }
  }
}
