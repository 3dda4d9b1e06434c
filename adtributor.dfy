/** AdtributorCalculator: single-dimension attribution. Every value of the
    dimension seen in either period becomes a candidate with its delta
    (baseline - compare), its explanatory power EP = delta / totalDelta and a
    surprise score; candidates are stably sorted by surprise, descending, and
    a threshold-driven loop emits the top ones with dense ranks.

    Amounts are exact reals. The surprise score is computed in doubles by the
    source; here its branch structure is kept and the base-10 logarithm is the
    parameter `log10`. The calculator's epsilon is positive. */
module Adtributor {
  import opened Wrappers
  import opened Sums

  /** A `Map<String, BigDecimal>` in its iteration order. */
  type Entries = seq<(string, real)>

  predicate DistinctKeys(e: Entries) {
    forall i, j :: 0 <= i < j < |e| ==> e[i].0 != e[j].0
  }

  function KeySet(e: Entries): set<string> {
    set i | 0 <= i < |e| :: e[i].0
  }

  lemma KeySetCons(e: Entries)
    requires e != []
    ensures KeySet(e) == {e[0].0} + KeySet(e[1..])
  {
    forall x | x in KeySet(e) ensures x in {e[0].0} + KeySet(e[1..]) {
      var i :| 0 <= i < |e| && e[i].0 == x;
      if 0 < i { assert e[1..][i - 1] == e[i]; }
    }
    forall x | x in KeySet(e[1..]) ensures x in KeySet(e) {
      var i :| 0 <= i < |e[1..]| && e[1..][i].0 == x;
      assert e[i + 1] == e[1..][i];
    }
  }

  /** `Map.get`: the value stored under k. */
  function Lookup(e: Entries, k: string): (r: Option<real>)
    ensures r.Some? <==> k in KeySet(e)
  {
    if e == [] then None
    else if e[0].0 == k then Some(e[0].1)
    else KeySetCons(e); Lookup(e[1..], k)
  }

  /** With distinct keys, each entry is what `get` returns for its key. */
  lemma {:induction false} LookupEntry(e: Entries, i: int)
    requires DistinctKeys(e) && 0 <= i < |e|
    ensures Lookup(e, e[i].0) == Some(e[i].1)
  {
    if 0 < i {
      assert e[1..][i - 1] == e[i];
      assert e[0].0 != e[i].0;
      LookupEntry(e[1..], i - 1);
    }
  }

  /** `Map.getOrDefault(k, BigDecimal.ZERO)`. */
  function GetOrZero(e: Entries, k: string): real {
    Lookup(e, k).GetOr(0.0)
  }

  function EntryValues(e: Entries): (r: seq<real>)
    ensures |r| == |e|
    ensures forall i :: 0 <= i < |e| ==> r[i] == e[i].1
  {
    seq(|e|, i requires 0 <= i < |e| => e[i].1)
  }

  /** sum: the values reduced with `BigDecimal::add` from zero. */
  function Total(e: Entries): real {
    Sum(EntryValues(e))
  }

  /** The three thresholds DimensionAttributionEngine forwards, and the
      calculator's epsilon. */
  datatype Thresholds = Thresholds(epsilon: real, maxResultSize: int, epThreshold: real, epTotalThreshold: real)

  /** The service's configuration defaults: attribution.epsilon 0.000001,
      max-result-size 20, ep-threshold 0.1, ep-total-threshold 0.67. */
  const DefaultThresholds := Thresholds(0.000001, 20, 0.1, 0.67)

  /** One dimension value with its compare and baseline amounts. */
  datatype Observation = Observation(value: string, compareValue: real, baselineValue: real)

  datatype Candidate = Candidate(value: string, compareValue: real, baselineValue: real,
                                 deltaValue: real, ep: real, surprise: real)

  /** DimensionAttributionItemDTO. */
  datatype Item = Item(dimension: string, dimensionValue: string, currentValue: real, baselineValue: real,
                       deltaValue: real, contribution: real, surprise: real, rank: int)

  /** `new BigDecimal(double, MathContext)` throws NumberFormatException on an
      infinite or NaN surprise. */
  datatype AdtributorError = NonFiniteSurprise

  const NonFiniteMessage := "Infinite or NaN"

  // ---------------------------------------------------------------------
  // Pure helpers

  function CloseToZero(x: real, eps: real): bool {
    Abs(x) < eps
  }

  /** safeDivide: 0 when the denominator is within eps of zero. */
  function SafeDivide(numerator: real, denominator: real, eps: real): (r: real)
    requires 0.0 < eps
    ensures Abs(denominator) < eps ==> r == 0.0
    ensures Abs(denominator) >= eps ==> r * denominator == numerator
  {
    if Abs(denominator) < eps then 0.0 else numerator / denominator
  }

  /** A value's share of its period's total. */
  function Share(value: real, total: real): real {
    if total == 0.0 then 0.0 else value / total
  }

  /** The one-sided limit of the surprise: 0.5 * share * log10(2). */
  function OneSided(share: real, log10: real -> real): real {
    0.5 * share * log10(2.0)
  }

  /** surprise: 0 when a total is within eps of zero or both shares are; the
      one-sided limit 0.5 * share * log10(2) when one share is; otherwise the
      two-sided formula, whose double result is infinite or NaN (None) when
      the shares have opposite signs. */
  function Surprise(compareValue: real, baselineValue: real, totalCompare: real, totalBaseline: real,
                    eps: real, log10: real -> real): (r: Option<real>)
    requires 0.0 < eps
    ensures CloseToZero(totalCompare, eps) || CloseToZero(totalBaseline, eps) ==> r == Some(0.0)
    ensures !CloseToZero(totalCompare, eps) && !CloseToZero(totalBaseline, eps) ==>
      var p, q := Share(compareValue, totalCompare), Share(baselineValue, totalBaseline);
      && (CloseToZero(p, eps) && CloseToZero(q, eps) ==> r == Some(0.0))
      && (CloseToZero(p, eps) && !CloseToZero(q, eps) ==> r == Some(OneSided(q, log10)))
      && (!CloseToZero(p, eps) && CloseToZero(q, eps) ==> r == Some(OneSided(p, log10)))
      && (!CloseToZero(p, eps) && !CloseToZero(q, eps) ==> (r.None? <==> p * q < 0.0))
  {
    if CloseToZero(totalCompare, eps) || CloseToZero(totalBaseline, eps) then Some(0.0)
    else
      var p := Share(compareValue, totalCompare);
      var q := Share(baselineValue, totalBaseline);
      if CloseToZero(p, eps) && CloseToZero(q, eps) then Some(0.0)
      else if CloseToZero(p, eps) then Some(OneSided(q, log10))
      else if CloseToZero(q, eps) then Some(OneSided(p, log10))
      else if p + q == 0.0 then
        assert p * q < 0.0 by { assert q == -p; }
        None
      else
        var x := 2.0 * p / (p + q);
        var y := 2.0 * q / (p + q);
        SharesOfOneSign(p, q);
        if x <= 0.0 || y <= 0.0 then None
        else Some(0.5 * (p * log10(x) + q * log10(y)))
  }

  /** Both 2p/(p+q) and 2q/(p+q) are positive exactly when p and q, both
      non-zero, have the same sign. */
  lemma SharesOfOneSign(p: real, q: real)
    requires p != 0.0 && q != 0.0 && p + q != 0.0
    ensures (0.0 < 2.0 * p / (p + q) && 0.0 < 2.0 * q / (p + q)) <==> 0.0 < p * q
  {
    if 0.0 < p + q {
      assert 0.0 < 2.0 * p / (p + q) <==> 0.0 < p;
      assert 0.0 < 2.0 * q / (p + q) <==> 0.0 < q;
      if p < 0.0 { assert 0.0 < q; }
      if q < 0.0 { assert 0.0 < p; }
    } else {
      assert 0.0 < 2.0 * p / (p + q) <==> p < 0.0;
      assert 0.0 < 2.0 * q / (p + q) <==> q < 0.0;
      if 0.0 < p { assert q < 0.0; }
      if 0.0 < q { assert p < 0.0; }
    }
  }

  // ---------------------------------------------------------------------
  // Candidates

  /** The first loop: every compare entry, with the baseline amount under the
      same key or 0. */
  function CompareSide(compareValues: Entries, baselineValues: Entries): (r: seq<Observation>)
    ensures |r| == |compareValues|
    ensures forall i :: 0 <= i < |r| ==>
      r[i] == Observation(compareValues[i].0, compareValues[i].1, GetOrZero(baselineValues, compareValues[i].0))
  {
    seq(|compareValues|, i requires 0 <= i < |compareValues| =>
      Observation(compareValues[i].0, compareValues[i].1, GetOrZero(baselineValues, compareValues[i].0)))
  }

  /** The second loop: every baseline entry whose key the compare map lacks,
      with compare amount 0. */
  function BaselineOnly(baselineValues: Entries, compareValues: Entries): seq<Observation> {
    if baselineValues == [] then []
    else
      var n := |baselineValues| - 1;
      var rest := BaselineOnly(baselineValues[..n], compareValues);
      if baselineValues[n].0 in KeySet(compareValues) then rest
      else rest + [Observation(baselineValues[n].0, 0.0, baselineValues[n].1)]
  }

  function Observations(compareValues: Entries, baselineValues: Entries): seq<Observation> {
    CompareSide(compareValues, baselineValues) + BaselineOnly(baselineValues, compareValues)
  }

  /** One candidate: delta = baseline - compare, EP = delta / totalDelta;
      None when its surprise is not finite. */
  function MakeCandidate(o: Observation, totalCompare: real, totalBaseline: real, eps: real, log10: real -> real)
    : Option<Candidate>
    requires 0.0 < eps
  {
    var delta := o.baselineValue - o.compareValue;
    var ep := SafeDivide(delta, totalBaseline - totalCompare, eps);
    match Surprise(o.compareValue, o.baselineValue, totalCompare, totalBaseline, eps, log10)
    case None => None
    case Some(s) => Some(Candidate(o.value, o.compareValue, o.baselineValue, delta, ep, s))
  }

  /** The candidates of a list of observations, in order; the first
      non-finite surprise aborts. */
  function MakeAll(os: seq<Observation>, totalCompare: real, totalBaseline: real, eps: real, log10: real -> real)
    : (r: Result<seq<Candidate>, AdtributorError>)
    requires 0.0 < eps
    ensures r.Ok? ==> |r.value| == |os|
  {
    if os == [] then Ok([])
    else
      var n := |os| - 1;
      match MakeAll(os[..n], totalCompare, totalBaseline, eps, log10)
      case Err(e) => Err(e)
      case Ok(done) =>
        match MakeCandidate(os[n], totalCompare, totalBaseline, eps, log10)
        case None => Err(NonFiniteSurprise)
        case Some(c) => Ok(done + [c])
  }

  /** MakeAll fails exactly when some observation's surprise is not finite,
      and otherwise makes one candidate per observation, in order. */
  lemma {:induction false} MakeAllSpec(os: seq<Observation>, totalCompare: real, totalBaseline: real,
                                       eps: real, log10: real -> real)
    requires 0.0 < eps
    ensures var r := MakeAll(os, totalCompare, totalBaseline, eps, log10);
            r.Ok? <==> forall i :: 0 <= i < |os| ==> MakeCandidate(os[i], totalCompare, totalBaseline, eps, log10).Some?
    ensures var r := MakeAll(os, totalCompare, totalBaseline, eps, log10);
            r.Ok? ==> forall i :: 0 <= i < |os| ==> Some(r.value[i]) == MakeCandidate(os[i], totalCompare, totalBaseline, eps, log10)
  {
    if os != [] {
      var n := |os| - 1;
      assert forall i :: 0 <= i < n ==> os[..n][i] == os[i];
      MakeAllSpec(os[..n], totalCompare, totalBaseline, eps, log10);
    }
  }

  /** All candidates of one dimension. */
  function CandidatesOf(compareValues: Entries, baselineValues: Entries, eps: real, log10: real -> real)
    : Result<seq<Candidate>, AdtributorError>
    requires 0.0 < eps
  {
    MakeAll(Observations(compareValues, baselineValues), Total(compareValues), Total(baselineValues), eps, log10)
  }

  // ---------------------------------------------------------------------
  // Stable sort by surprise, descending

  predicate SortedBySurprise(cs: seq<Candidate>) {
    forall i, j :: 0 <= i < j < |cs| ==> cs[i].surprise >= cs[j].surprise
  }

  /** Places x after every candidate whose surprise is at least x's. */
  function InsertBySurprise(x: Candidate, s: seq<Candidate>): (r: seq<Candidate>)
    ensures |r| == |s| + 1
  {
    if s == [] then [x]
    else if s[0].surprise >= x.surprise then [s[0]] + InsertBySurprise(x, s[1..])
    else [x] + s
  }

  /** `List.sort` with `comparing(surprise).reversed()`: a stable sort, so
      candidates of equal surprise keep their order. */
  function SortBySurprise(cs: seq<Candidate>): (r: seq<Candidate>)
    ensures |r| == |cs|
  {
    if cs == [] then [] else InsertBySurprise(cs[|cs| - 1], SortBySurprise(cs[..|cs| - 1]))
  }

  /** The candidates with surprise v, in order. */
  function WithSurprise(cs: seq<Candidate>, v: real): seq<Candidate> {
    if cs == [] then []
    else (if cs[0].surprise == v then [cs[0]] else []) + WithSurprise(cs[1..], v)
  }

  // ---------------------------------------------------------------------
  // Selection

  function ToItem(dimensionId: string, c: Candidate, rank: int): Item {
    Item(dimensionId, c.value, c.compareValue, c.baselineValue, c.deltaValue, c.ep, c.surprise, rank)
  }

  /** The selection loop from a point where |EP| `accumulated` has been
      emitted and the next rank is `rank`: candidates below the EP threshold
      are skipped; an emitted item stops the loop when the result size
      reaches maxResultSize or the accumulated |EP| reaches the total
      threshold. */
  function SelectFrom(dimensionId: string, cs: seq<Candidate>, th: Thresholds, accumulated: real, rank: int)
    : seq<Item>
  {
    if cs == [] then []
    else if Abs(cs[0].ep) < th.epThreshold then SelectFrom(dimensionId, cs[1..], th, accumulated, rank)
    else
      var next := accumulated + Abs(cs[0].ep);
      var item := ToItem(dimensionId, cs[0], rank);
      if rank >= th.maxResultSize || next >= th.epTotalThreshold then [item]
      else [item] + SelectFrom(dimensionId, cs[1..], th, next, rank + 1)
  }

  function Select(dimensionId: string, sorted: seq<Candidate>, th: Thresholds): seq<Item> {
    SelectFrom(dimensionId, sorted, th, 0.0, 1)
  }

  /** The candidates the selection may emit, in order. */
  function Qualifying(cs: seq<Candidate>, epThreshold: real): seq<Candidate> {
    if cs == [] then []
    else (if Abs(cs[0].ep) >= epThreshold then [cs[0]] else []) + Qualifying(cs[1..], epThreshold)
  }

  /** |EP| accumulated over a list of candidates. */
  function AbsEpSum(cs: seq<Candidate>): real {
    if cs == [] then 0.0 else Abs(cs[0].ep) + AbsEpSum(cs[1..])
  }

  /** calculate: candidates, stable sort, selection. */
  function Calculate(dimensionId: string, compareValues: Entries, baselineValues: Entries,
                     th: Thresholds, log10: real -> real): Result<seq<Item>, AdtributorError>
    requires 0.0 < th.epsilon
  {
    match CandidatesOf(compareValues, baselineValues, th.epsilon, log10)
    case Err(e) => Err(e)
    case Ok(cs) => Ok(Select(dimensionId, SortBySurprise(cs), th))
  }

  /** DimensionAttributionEngine.analyze: calculate with the configured
      thresholds. */
  function Analyze(dimensionId: string, compareValues: Entries, baselineValues: Entries,
                   th: Thresholds, log10: real -> real): (r: Result<seq<Item>, AdtributorError>)
    requires 0.0 < th.epsilon
    ensures r == Calculate(dimensionId, compareValues, baselineValues, th, log10)
  {
    Calculate(dimensionId, compareValues, baselineValues, th, log10)
  }

  // ---------------------------------------------------------------------
  // The calculation as the source runs it

  /** A failure in a prefix of the observations fails them all. */
  lemma MakeAllErrorPropagates(os: seq<Observation>, k: nat, totalCompare: real, totalBaseline: real,
                                eps: real, log10: real -> real)
    requires 0.0 < eps && k <= |os|
    requires MakeAll(os[..k], totalCompare, totalBaseline, eps, log10).Err?
    ensures MakeAll(os, totalCompare, totalBaseline, eps, log10) == Err(NonFiniteSurprise)
  {
    MakeAllSpec(os[..k], totalCompare, totalBaseline, eps, log10);
    MakeAllSpec(os, totalCompare, totalBaseline, eps, log10);
    var i :| 0 <= i < k && MakeCandidate(os[..k][i], totalCompare, totalBaseline, eps, log10).None?;
    assert os[..k][i] == os[i];
    var r := MakeAll(os, totalCompare, totalBaseline, eps, log10);
    match r.error { case NonFiniteSurprise => }
  }

  /** The first loop of calculate: one candidate per compare entry. */
  method CompareCandidates(compareValues: Entries, baselineValues: Entries, totalCompare: real, totalBaseline: real,
                           eps: real, log10: real -> real)
    returns (r: Result<seq<Candidate>, AdtributorError>)
    requires 0.0 < eps
    ensures r == MakeAll(CompareSide(compareValues, baselineValues), totalCompare, totalBaseline, eps, log10)
  {
    var compareSide := CompareSide(compareValues, baselineValues);
    var candidates: seq<Candidate> := [];
    var i := 0;
    while i < |compareValues|
      invariant 0 <= i <= |compareValues|
      invariant MakeAll(compareSide[..i], totalCompare, totalBaseline, eps, log10) == Ok(candidates)
    {
      var (value, compare) := compareValues[i];
      var baseline := GetOrZero(baselineValues, value);
      var candidate := MakeCandidate(Observation(value, compare, baseline), totalCompare, totalBaseline, eps, log10);
      assert compareSide[..i + 1][..i] == compareSide[..i];
      if candidate.None? {
        MakeAllErrorPropagates(compareSide, i + 1, totalCompare, totalBaseline, eps, log10);
        return Err(NonFiniteSurprise);
      }
      candidates := candidates + [candidate.value];
      i := i + 1;
    }
    assert compareSide[..i] == compareSide;
    r := Ok(candidates);
  }

  /** The second loop of calculate: one candidate per baseline entry whose
      key the compare map lacks, appended to the first loop's. */
  method AppendBaselineOnly(compareValues: Entries, baselineValues: Entries, totalCompare: real, totalBaseline: real,
                            eps: real, log10: real -> real, compareSide: seq<Observation>, first: seq<Candidate>)
    returns (r: Result<seq<Candidate>, AdtributorError>)
    requires 0.0 < eps
    requires MakeAll(compareSide, totalCompare, totalBaseline, eps, log10) == Ok(first)
    ensures r == MakeAll(compareSide + BaselineOnly(baselineValues, compareValues), totalCompare, totalBaseline, eps, log10)
  {
    var candidates := first;
    assert baselineValues[..0] == [];
    assert compareSide + BaselineOnly(baselineValues[..0], compareValues) == compareSide;
    var j := 0;
    while j < |baselineValues|
      invariant 0 <= j <= |baselineValues|
      invariant MakeAll(compareSide + BaselineOnly(baselineValues[..j], compareValues),
                        totalCompare, totalBaseline, eps, log10) == Ok(candidates)
    {
      var (value, baseline) := baselineValues[j];
      assert baselineValues[..j + 1][..j] == baselineValues[..j];
      if value !in KeySet(compareValues) {
        var before := compareSide + BaselineOnly(baselineValues[..j], compareValues);
        var o := Observation(value, 0.0, baseline);
        assert compareSide + BaselineOnly(baselineValues[..j + 1], compareValues) == before + [o];
        assert (before + [o])[..|before|] == before;
        var candidate := MakeCandidate(o, totalCompare, totalBaseline, eps, log10);
        candidates := candidates + [candidate.value];
      }
      j := j + 1;
    }
    assert baselineValues[..j] == baselineValues;
    r := Ok(candidates);
  }

  /** The two loops of calculate that append the candidates. */
  method BuildCandidates(compareValues: Entries, baselineValues: Entries, eps: real, log10: real -> real)
    returns (r: Result<seq<Candidate>, AdtributorError>)
    requires 0.0 < eps
    ensures r == CandidatesOf(compareValues, baselineValues, eps, log10)
  {
    var totalCompare := Total(compareValues);
    var totalBaseline := Total(baselineValues);
    var compareSide := CompareSide(compareValues, baselineValues);
    var first := CompareCandidates(compareValues, baselineValues, totalCompare, totalBaseline, eps, log10);
    if first.Err? {
      var all := Observations(compareValues, baselineValues);
      assert all[..|compareSide|] == compareSide;
      MakeAllErrorPropagates(all, |compareSide|, totalCompare, totalBaseline, eps, log10);
      return Err(NonFiniteSurprise);
    }
    r := AppendBaselineOnly(compareValues, baselineValues, totalCompare, totalBaseline, eps, log10,
                            compareSide, first.value);
  }

  /** The selection loop of calculate, with its early break. */
  method SelectItems(dimensionId: string, sorted: seq<Candidate>, th: Thresholds) returns (results: seq<Item>)
    ensures results == Select(dimensionId, sorted, th)
  {
    results := [];
    var accumulatedEp := 0.0;
    var rank := 1;
    var k := 0;
    while k < |sorted|
      invariant 0 <= k <= |sorted|
      invariant rank == |results| + 1
      invariant results + SelectFrom(dimensionId, sorted[k..], th, accumulatedEp, rank)
                == Select(dimensionId, sorted, th)
    {
      var candidate := sorted[k];
      assert sorted[k..][1..] == sorted[k + 1..];
      if Abs(candidate.ep) < th.epThreshold {
        k := k + 1;
        continue;
      }
      accumulatedEp := accumulatedEp + Abs(candidate.ep);
      results := results + [ToItem(dimensionId, candidate, rank)];
      rank := rank + 1;
      if |results| >= th.maxResultSize || accumulatedEp >= th.epTotalThreshold {
        return;
      }
      k := k + 1;
    }
  }

  /** calculate: build the candidates, sort them in place, select. */
  method CalculateItems(dimensionId: string, compareValues: Entries, baselineValues: Entries,
                        th: Thresholds, log10: real -> real)
    returns (r: Result<seq<Item>, AdtributorError>)
    requires 0.0 < th.epsilon
    ensures r == Calculate(dimensionId, compareValues, baselineValues, th, log10)
  {
    var candidates := BuildCandidates(compareValues, baselineValues, th.epsilon, log10);
    if candidates.Err? {
      return Err(candidates.error);
    }
    var sorted := SortBySurprise(candidates.value);
    var items := SelectItems(dimensionId, sorted, th);
    return Ok(items);
  }

  /** The baseline-only observations of a prefix are a prefix. */
  lemma {:induction false} BaselineOnlyPrefix(baselineValues: Entries, n: nat, compareValues: Entries)
    requires n <= |baselineValues|
    ensures BaselineOnly(baselineValues[..n], compareValues) <= BaselineOnly(baselineValues, compareValues)
    decreases |baselineValues| - n
  {
    if n < |baselineValues| {
      var m := |baselineValues| - 1;
      assert baselineValues[..m][..n] == baselineValues[..n];
      BaselineOnlyPrefix(baselineValues[..m], n, compareValues);
    } else {
      assert baselineValues[..n] == baselineValues;
    }
  }
}
