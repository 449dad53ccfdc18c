/**
  * The arithmetic behind quota sampling. Cups `0..k` receive one unit of water per round, split in fixed
  * shares; each round then empties one unit from a fullest cup among those still in play.
  */
module CupGame {

  /** The harmonic number 1 + 1/2 + ... + 1/n. */
  function Harmonic(n: nat): (h: real)
    ensures h >= 0.0
  {
    if n == 0 then 0.0 else Harmonic(n - 1) + 1.0 / n as real
  }

  lemma {:induction false} HarmonicMonotone(m: nat, n: nat)
    requires m <= n
    ensures Harmonic(m) <= Harmonic(n)
  {
    if m < n {
      HarmonicMonotone(m, n - 1);
    }
  }

  /** The sum of the entries of `v` at the indices in `s`. */
  function SumOver(v: seq<real>, s: set<nat>): real {
    if v == [] then 0.0
    else
      var last := |v| - 1;
      if last in s then SumOver(v[..last], s - {last}) + v[last] else SumOver(v[..last], s)
  }

  ghost predicate Within(s: set<nat>, k: nat) {
    forall i :: i in s ==> i < k
  }

  function Sum(v: seq<real>): real {
    if v == [] then 0.0 else Sum(v[..|v| - 1]) + v[|v| - 1]
  }

  lemma {:induction false} CardinalityBound(s: set<nat>, k: nat)
    requires Within(s, k)
    ensures |s| <= k
  {
    if k == 0 {
      assert s == {};
    } else {
      CardinalityBound(s - {k - 1}, k - 1);
    }
  }

  lemma {:induction false} SumOverInsert(v: seq<real>, s: set<nat>, m: nat)
    requires m < |v| && m !in s
    ensures SumOver(v, s + {m}) == SumOver(v, s) + v[m]
  {
    var last := |v| - 1;
    if m == last {
      assert s + {m} - {last} == s;
    } else {
      SumOverInsert(v[..last], s - {last}, m);
      assert s + {m} - {last} == s - {last} + {m};
      SumOverIrrelevant(v[..last], s, last);
      SumOverIrrelevant(v[..last], s + {m}, last);
    }
  }

  lemma {:induction false} SumOverIrrelevant(v: seq<real>, s: set<nat>, m: nat)
    requires |v| <= m
    ensures SumOver(v, s - {m}) == SumOver(v, s)
  {
    if v != [] {
      var last := |v| - 1;
      SumOverIrrelevant(v[..last], s - {last}, m);
      SumOverIrrelevant(v[..last], s, m);
      assert s - {m} - {last} == s - {last} - {m};
    }
  }

  /** Sums are additive in the vector. */
  lemma {:induction false} SumOverAdd(u: seq<real>, v: seq<real>, w: seq<real>, s: set<nat>)
    requires |u| == |v| == |w|
    requires forall i :: 0 <= i < |u| ==> w[i] == u[i] + v[i]
    ensures SumOver(w, s) == SumOver(u, s) + SumOver(v, s)
  {
    if u != [] {
      var last := |u| - 1;
      SumOverAdd(u[..last], v[..last], w[..last], s);
      SumOverAdd(u[..last], v[..last], w[..last], s - {last});
    }
  }

  /** Lowering one entry by one lowers exactly the sums that include it. */
  lemma {:induction false} SumOverDrain(v: seq<real>, w: seq<real>, m: nat, s: set<nat>)
    requires |w| == |v| && m < |v|
    requires forall i :: 0 <= i < |v| ==> w[i] == if i == m then v[i] - 1.0 else v[i]
    ensures SumOver(w, s) == SumOver(v, s) - if m in s then 1.0 else 0.0
  {
    var last := |v| - 1;
    if m == last {
      assert w[..last] == v[..last];
    } else {
      SumOverDrain(v[..last], w[..last], m, s);
      SumOverDrain(v[..last], w[..last], m, s - {last});
    }
  }

  lemma OneMoreTimes(n: nat, bound: real)
    ensures (n + 1) as real * bound == n as real * bound + bound
  {
    assert (n + 1) as real == n as real + 1.0;
    assert (n as real + 1.0) * bound == n as real * bound + bound;
  }

  /** A sum is at most the number of summands times a bound on each. */
  lemma {:induction false} SumOverBound(v: seq<real>, s: set<nat>, bound: real)
    requires Within(s, |v|)
    requires forall i :: i in s ==> v[i] <= bound
    ensures SumOver(v, s) <= |s| as real * bound
  {
    if v == [] {
      assert s == {};
    } else {
      var last := |v| - 1;
      if last in s {
        SumOverBound(v[..last], s - {last}, bound);
        OneMoreTimes(|s - {last}|, bound);
      } else {
        SumOverBound(v[..last], s, bound);
      }
    }
  }

  /** With non-negative entries a partial sum is at most the full one. */
  lemma {:induction false} SumOverAtMostSum(v: seq<real>, s: set<nat>)
    requires forall i :: 0 <= i < |v| ==> v[i] >= 0.0
    ensures 0.0 <= SumOver(v, s) <= Sum(v)
  {
    if v != [] {
      var last := |v| - 1;
      SumOverAtMostSum(v[..last], s);
      SumOverAtMostSum(v[..last], s - {last});
    }
  }

  lemma {:induction false} SumBound(v: seq<real>, bound: real)
    requires forall i :: 0 <= i < |v| ==> v[i] <= bound
    ensures Sum(v) <= |v| as real * bound
  {
    if v != [] {
      var last := |v| - 1;
      SumBound(v[..last], bound);
      OneMoreTimes(last, bound);
    }
  }

  /** What `j` of `k` cups may hold together: `j * (H(k) - H(j))`. */
  function Allowance(k: nat, j: nat): real {
    j as real * (Harmonic(k) - Harmonic(j))
  }

  lemma AllowanceNonNegative(k: nat, j: nat)
    requires j <= k
    ensures Allowance(k, j) >= 0.0
  {
    HarmonicMonotone(j, k);
    hide Harmonic;
    MulLe(j as real, 0.0, Harmonic(k) - Harmonic(j));
  }

  /** Every set of `j` cups in play holds at most the allowance of `j` cups. */
  ghost predicate Balanced(level: seq<real>, inPlay: set<nat>) {
    forall s: set<nat> :: s <= inPlay ==> SumOver(level, s) <= Allowance(|level|, |s|)
  }

  /** One round: pour the shares, then drain a fullest cup in play. */
  ghost predicate Round(level: seq<real>, share: seq<real>, inPlay: set<nat>, drained: nat, level': seq<real>) {
    && |level| == |share| == |level'|
    && Within(inPlay, |level|)
    && drained in inPlay
    && (forall i :: i in inPlay ==> level[i] + share[i] <= level[drained] + share[drained])
    && (forall i :: 0 <= i < |level| ==> level'[i] == level[i] + share[i] - if i == drained then 1.0 else 0.0)
  }

  ghost predicate Shares(share: seq<real>) {
    && (forall i :: 0 <= i < |share| ==> share[i] >= 0.0)
    && Sum(share) == 1.0
  }

  /** The nonlinear step: averaging over one more cup that is at least as full as each of the others. */
  lemma Averaging(j: real, x: real, f: real, b: real)
    requires j >= 0.0
    requires x <= j * f
    requires x + f <= (j + 1.0) * b + 1.0
    ensures x <= j * (b + 1.0 / (j + 1.0))
  {
    var t := 1.0 / (j + 1.0);
    assert t * (j + 1.0) == 1.0;
    var room := (j + 1.0) * b + 1.0;
    MulLe(j, x + f, room);
    assert j * (x + f) == j * x + j * f;
    assert (j + 1.0) * x == j * x + x;
    assert room == (j + 1.0) * (b + t) by {
      assert (j + 1.0) * (b + t) == (j + 1.0) * b + (j + 1.0) * t;
    }
    var y := b + t;
    assert j * room == (j + 1.0) * (j * y) by {
      assert j * ((j + 1.0) * y) == (j + 1.0) * (j * y);
    }
    MulLe(t, (j + 1.0) * x, (j + 1.0) * (j * y));
    assert t * ((j + 1.0) * x) == (t * (j + 1.0)) * x;
    assert t * ((j + 1.0) * (j * y)) == (t * (j + 1.0)) * (j * y);
  }

  lemma AllowanceStep(k: nat, j: nat, x: real, f: real)
    requires x <= j as real * f
    requires x + f <= Allowance(k, j + 1) + 1.0
    ensures x <= Allowance(k, j)
  {
    var r := j as real;
    assert (j + 1) as real == r + 1.0;
    Averaging(r, x, f, Harmonic(k) - Harmonic(j + 1));
    assert Harmonic(j + 1) == Harmonic(j) + 1.0 / (r + 1.0);
  }

  lemma MulLe(a: real, x: real, y: real)
    requires a >= 0.0 && x <= y
    ensures a * x <= a * y
  {
    assert a * (y - x) >= 0.0;
  }

  /** Draining the fullest cup keeps every set of cups in play balanced. */
  lemma {:induction false} RoundKeepsBalance(level: seq<real>, share: seq<real>, inPlay: set<nat>, drained: nat, level': seq<real>)
    requires Shares(share)
    requires Round(level, share, inPlay, drained, level')
    requires Balanced(level, inPlay)
    ensures Balanced(level', inPlay)
  {
    forall s: set<nat> | s <= inPlay
      ensures SumOver(level', s) <= Allowance(|level'|, |s|)
    {
      RoundKeepsBound(level, share, inPlay, drained, level', s);
    }
  }

  /** What a set of cups holds after the pour. */
  ghost predicate Poured(level: seq<real>, share: seq<real>, full: seq<real>) {
    && |level| == |share| == |full|
    && forall i :: 0 <= i < |level| ==> full[i] == level[i] + share[i]
  }

  lemma PouredAtMostOne(level: seq<real>, share: seq<real>, full: seq<real>, s: set<nat>)
    requires Shares(share) && Poured(level, share, full)
    ensures SumOver(full, s) <= SumOver(level, s) + 1.0
  {
    SumOverAdd(level, share, full, s);
    SumOverAtMostSum(share, s);
  }

  /** The case that needs the harmonic weights: the drained cup is outside the set. */
  lemma DrainedOutside(level: seq<real>, share: seq<real>, full: seq<real>, inPlay: set<nat>, drained: nat, s: set<nat>)
    requires Shares(share) && Poured(level, share, full)
    requires Balanced(level, inPlay) && Within(inPlay, |level|)
    requires drained in inPlay && drained !in s && s <= inPlay
    requires forall i :: i in inPlay ==> full[i] <= full[drained]
    ensures SumOver(full, s) <= Allowance(|level|, |s|)
  {
    hide SumOver, Allowance, Shares;
    var larger := s + {drained};
    assert |larger| == |s| + 1;
    SumOverInsert(full, s, drained);
    PouredAtMostOne(level, share, full, larger);
    SumOverBound(full, s, full[drained]);
    AllowanceStep(|level|, |s|, SumOver(full, s), full[drained]);
  }

  lemma RoundKeepsBound(level: seq<real>, share: seq<real>, inPlay: set<nat>, drained: nat, level': seq<real>, s: set<nat>)
    requires Shares(share)
    requires Round(level, share, inPlay, drained, level')
    requires Balanced(level, inPlay)
    requires s <= inPlay
    ensures SumOver(level', s) <= Allowance(|level|, |s|)
  {
    var full := seq(|level|, i requires 0 <= i < |level| => level[i] + share[i]);
    SumOverDrain(full, level', drained, s);
    if drained in s {
      PouredAtMostOne(level, share, full, s);
    } else {
      DrainedOutside(level, share, full, inPlay, drained, s);
    }
  }

  /** A fullest cup holds at least the average. */
  lemma FullestAtLeastAverage(full: seq<real>, m: nat)
    requires m < |full| && Sum(full) == 1.0
    requires forall i :: 0 <= i < |full| ==> full[i] <= full[m]
    ensures full[m] >= 1.0 / |full| as real
  {
    SumBound(full, full[m]);
    DivideThrough(|full| as real, full[m]);
  }

  lemma DivideThrough(k: real, f: real)
    requires k > 0.0 && k * f >= 1.0
    ensures f >= 1.0 / k
  {
    var t := 1.0 / k;
    assert t * k == 1.0;
    MulLe(t, 1.0, k * f);
    assert t * (k * f) == (t * k) * f;
  }

  /** The cups hold nothing in total, and none is below `1/k - 1`. */
  ghost predicate Floored(level: seq<real>) {
    && Sum(level) == 0.0
    && forall i :: 0 <= i < |level| ==> level[i] >= 1.0 / |level| as real - 1.0
  }

  /** If every cup is in play, a round keeps the floor. */
  lemma {:induction false} RoundKeepsFloor(level: seq<real>, share: seq<real>, inPlay: set<nat>, drained: nat, level': seq<real>)
    requires Shares(share)
    requires Round(level, share, inPlay, drained, level')
    requires forall i :: 0 <= i < |level| ==> i in inPlay
    requires Floored(level)
    ensures Floored(level')
  {
    var full := seq(|level|, i requires 0 <= i < |level| => level[i] + share[i]);
    SumAdd(level, share, full);
    SumDrain(full, level', drained);
    FullestAtLeastAverage(full, drained);
  }

  lemma {:induction false} SumAdd(u: seq<real>, v: seq<real>, w: seq<real>)
    requires |u| == |v| == |w|
    requires forall i :: 0 <= i < |u| ==> w[i] == u[i] + v[i]
    ensures Sum(w) == Sum(u) + Sum(v)
  {
    if u != [] {
      var last := |u| - 1;
      SumAdd(u[..last], v[..last], w[..last]);
    }
  }

  lemma {:induction false} SumDrain(v: seq<real>, w: seq<real>, m: nat)
    requires |w| == |v| && m < |v|
    requires forall i :: 0 <= i < |v| ==> w[i] == if i == m then v[i] - 1.0 else v[i]
    ensures Sum(w) == Sum(v) - 1.0
  {
    var last := |v| - 1;
    if m == last {
      assert w[..last] == v[..last];
    } else {
      SumDrain(v[..last], w[..last], m);
    }
  }
}
