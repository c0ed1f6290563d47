/**
  How a test session is graded (`simulation-controller.js`, lines 191-256):
  the survival rate, its five tiers, and the breakdown of the remaining
  pieces by component type.
 */
module Outcome {
  import opened Scene

  datatype Tier = Excellent | Good | Partial | Poor | Failure

  /** The order of the tiers, best first: Excellent 4 down to Failure 0. */
  function Rank(t: Tier): nat {
    match t
    case Excellent => 4
    case Good => 3
    case Partial => 2
    case Poor => 1
    case Failure => 0
  }

  /** `remaining / initial`, or 0 when the session started with no pieces. */
  function SurvivalRate(remaining: nat, initial: nat): (rate: real)
    ensures initial == 0 ==> rate == 0.0
    ensures initial > 0 ==> rate * initial as real == remaining as real
    ensures rate >= 0.0
  {
    if initial > 0 then remaining as real / initial as real else 0.0
  }

  /**
    The tier chain of `evaluateResults`, with inclusive lower bounds: each
    tier is exactly the band of rates between its bound and the next.
   */
  function TierFor(rate: real): (t: Tier)
    ensures t == Excellent <==> rate >= 0.8
    ensures t == Good <==> 0.6 <= rate < 0.8
    ensures t == Partial <==> 0.4 <= rate < 0.6
    ensures t == Poor <==> 0.2 <= rate < 0.4
    ensures t == Failure <==> rate < 0.2
  {
    if rate >= 0.8 then Excellent
    else if rate >= 0.6 then Good
    else if rate >= 0.4 then Partial
    else if rate >= 0.2 then Poor
    else Failure
  }

  /** The tier of a session that started with `initial` pieces and has `remaining` left. */
  function TierOf(remaining: nat, initial: nat): Tier {
    TierFor(SurvivalRate(remaining, initial))
  }

  /** An independent statement of the tiers by integer cross-multiplication. */
  function TierByCounts(remaining: nat, initial: nat): Tier {
    if initial == 0 then Failure
    else if 5 * remaining >= 4 * initial then Excellent
    else if 5 * remaining >= 3 * initial then Good
    else if 5 * remaining >= 2 * initial then Partial
    else if 5 * remaining >= initial then Poor
    else Failure
  }

  /** A higher rate never yields a worse tier. */
  lemma TierMonotone(lower: real, higher: real)
    requires lower <= higher
    ensures Rank(TierFor(lower)) <= Rank(TierFor(higher))
  {
  }

  /** Comparing the rate with a bound is comparing the cross-multiplied counts. */
  lemma RateAtLeast(remaining: nat, initial: nat, num: nat)
    requires initial > 0
    ensures SurvivalRate(remaining, initial) >= num as real / 5.0 <==> 5 * remaining >= num * initial
  {
    var rate := SurvivalRate(remaining, initial);
    var i := initial as real;
    assert rate * i == remaining as real;
    if rate >= num as real / 5.0 {
      assert rate * i >= (num as real / 5.0) * i;
      assert 5.0 * remaining as real >= num as real * i;
      assert (5 * remaining) as real >= (num * initial) as real;
    }
    if 5 * remaining >= num * initial {
      assert 5.0 * (rate * i) >= num as real * i;
      assert 5.0 * rate >= num as real;
    }
  }

  /** The tier computed over reals agrees with the tier by cross-multiplication. */
  lemma TierMatchesCounts(remaining: nat, initial: nat)
    ensures TierOf(remaining, initial) == TierByCounts(remaining, initial)
  {
    if initial > 0 {
      RateAtLeast(remaining, initial, 4);
      RateAtLeast(remaining, initial, 3);
      RateAtLeast(remaining, initial, 2);
      RateAtLeast(remaining, initial, 1);
    }
  }

  /** With the initial count fixed, more remaining pieces never yield a worse tier. */
  lemma TierMonotoneInRemaining(fewer: nat, more: nat, initial: nat)
    requires fewer <= more
    ensures Rank(TierOf(fewer, initial)) <= Rank(TierOf(more, initial))
  {
    TierMatchesCounts(fewer, initial);
    TierMatchesCounts(more, initial);
  }

  /** A session whose initial count is 0 is graded Failure, whatever remains. */
  lemma NoInitialPiecesIsFailure(remaining: nat)
    ensures TierOf(remaining, 0) == Failure
  {
  }

  /** The boundary rates 0.8, 0.6, 0.4 and 0.2 belong to the better tier. */
  lemma BoundaryRates(k: nat)
    requires k > 0
    ensures TierOf(4 * k, 5 * k) == Excellent
    ensures TierOf(3 * k, 5 * k) == Good
    ensures TierOf(2 * k, 5 * k) == Partial
    ensures TierOf(k, 5 * k) == Poor
    ensures TierOf(0, 5 * k) == Failure
  {
    TierMatchesCounts(4 * k, 5 * k);
    TierMatchesCounts(3 * k, 5 * k);
    TierMatchesCounts(2 * k, 5 * k);
    TierMatchesCounts(k, 5 * k);
    TierMatchesCounts(0, 5 * k);
  }

  // ----- Breakdown of the remaining pieces by type -----

  /** `(userData && userData.componentType) || 'Unknown'`. */
  function TypeName(p: Piece): (t: string)
    ensures t != ""
    ensures p.userData.componentType.Some? && p.userData.componentType.value != "" ==> t == p.userData.componentType.value
  {
    match p.userData.componentType
    case Some(name) => if name != "" then name else "Unknown"
    case None => "Unknown"
  }

  /** The number of pieces of `s` that are not destroyed. */
  function LiveCount(s: seq<Piece>): nat {
    if s == [] then 0
    else LiveCount(s[..|s| - 1]) + (if s[|s| - 1].destroyed then 0 else 1)
  }

  /** The number of pieces of `s` that are not destroyed and have type `t`. */
  function CountOfType(s: seq<Piece>, t: string): nat {
    if s == [] then 0
    else CountOfType(s[..|s| - 1], t) + (if !s[|s| - 1].destroyed && TypeName(s[|s| - 1]) == t then 1 else 0)
  }

  /** `componentTypes[type] = (componentTypes[type] || 0) + 1`. */
  function Tally(m: map<string, nat>, t: string): (r: map<string, nat>)
    ensures r.Keys == m.Keys + {t}
  {
    m[t := (if t in m then m[t] else 0) + 1]
  }

  /** The dictionary the breakdown loop has built after visiting `s`. */
  function TypeCounts(s: seq<Piece>): (m: map<string, nat>)
    ensures forall t :: t in m ==> m[t] > 0
    ensures forall t :: t in m ==> t != ""
  {
    if s == [] then map[]
    else
      var m := TypeCounts(s[..|s| - 1]);
      if s[|s| - 1].destroyed then m else Tally(m, TypeName(s[|s| - 1]))
  }

  /** The count a dictionary holds for `t`, 0 when absent. */
  function CountIn(m: map<string, nat>, t: string): nat {
    if t in m then m[t] else 0
  }

  /** The sum of the counts in a dictionary. */
  ghost function Total(m: map<string, nat>): nat
    decreases m.Keys
  {
    if m == map[] then 0
    else
      var k :| k in m;
      m[k] + Total(m - {k})
  }

  lemma {:induction false} TotalRemove(m: map<string, nat>, k: string)
    requires k in m
    ensures Total(m) == m[k] + Total(m - {k})
    decreases m.Keys
  {
    var j :| j in m && Total(m) == m[j] + Total(m - {j});
    if j != k {
      TotalRemove(m - {j}, k);
      TotalRemove(m - {k}, j);
      assert m - {j} - {k} == m - {k} - {j};
    }
  }

  lemma TotalTally(m: map<string, nat>, t: string)
    ensures Total(Tally(m, t)) == Total(m) + 1
  {
    var r := Tally(m, t);
    TotalRemove(r, t);
    if t in m {
      TotalRemove(m, t);
      assert r - {t} == m - {t};
    } else {
      assert r - {t} == m;
    }
  }

  /** The per-type counts add up to the number of pieces that are not destroyed. */
  lemma {:induction false} TypeCountsTotal(s: seq<Piece>)
    ensures Total(TypeCounts(s)) == LiveCount(s)
  {
    if s != [] {
      TypeCountsTotal(s[..|s| - 1]);
      if !s[|s| - 1].destroyed {
        TotalTally(TypeCounts(s[..|s| - 1]), TypeName(s[|s| - 1]));
      }
    }
  }

  /**
    The breakdown holds, for each type, the number of live pieces of that
    type, and lists exactly the types some live piece has.
   */
  lemma {:induction false} TypeCountsPerType(s: seq<Piece>, t: string)
    ensures CountIn(TypeCounts(s), t) == CountOfType(s, t)
    ensures t in TypeCounts(s) <==> CountOfType(s, t) > 0
  {
    if s != [] {
      TypeCountsPerType(s[..|s| - 1], t);
    }
  }
}
