/** What the Adtributor calculation promises: the candidates are the union of
    both periods' dimension values, each once; their deltas add up to the
    total delta and their EPs to one; the sort is a stable permutation; the
    selection emits a dense-ranked prefix of the qualifying candidates and
    stops exactly where its thresholds say. */
module AdtributorLemmas {
  import opened Wrappers
  import opened Sums
  import opened Adtributor

  // ---------------------------------------------------------------------
  // Keys

  /** `get` on a map with one more entry appended. */
  lemma {:induction false} LookupSnoc(e: Entries, x: (string, real), k: string)
    ensures Lookup(e + [x], k) == if k in KeySet(e) then Lookup(e, k) else if x.0 == k then Some(x.1) else None
  {
    if e != [] {
      assert (e + [x])[0] == e[0];
      KeySetCons(e);
      KeySetCons(e + [x]);
      if e[0].0 != k {
        assert (e + [x])[1..] == e[1..] + [x];
        LookupSnoc(e[1..], x, k);
      }
    }
  }

  lemma KeySetSnoc(e: Entries)
    requires e != []
    ensures KeySet(e) == KeySet(e[..|e| - 1]) + {e[|e| - 1].0}
  {
    var n := |e| - 1;
    forall x | x in KeySet(e) ensures x in KeySet(e[..n]) + {e[n].0} {
      var i :| 0 <= i < |e| && e[i].0 == x;
      if i < n { assert e[..n][i] == e[i]; }
    }
    forall x | x in KeySet(e[..n]) ensures x in KeySet(e) {
      var i :| 0 <= i < n && e[..n][i].0 == x;
      assert e[i] == e[..n][i];
    }
  }

  /** The last key of a map with distinct keys is not among the others. */
  lemma LastKeyIsNew(e: Entries)
    requires DistinctKeys(e) && e != []
    ensures e[|e| - 1].0 !in KeySet(e[..|e| - 1])
    ensures DistinctKeys(e[..|e| - 1])
  {
    var n := |e| - 1;
    forall i | 0 <= i < n ensures e[..n][i].0 != e[n].0 {
      assert e[..n][i] == e[i];
    }
  }

  function ValueSet(os: seq<Observation>): set<string> {
    set i | 0 <= i < |os| :: os[i].value
  }

  predicate DistinctValues(os: seq<Observation>) {
    forall i, j :: 0 <= i < j < |os| ==> os[i].value != os[j].value
  }

  /** The second loop yields each baseline-only key once, with compare 0 and
      its baseline amount. */
  lemma {:induction false} BaselineOnlySpec(b: Entries, c: Entries)
    requires DistinctKeys(b)
    ensures var os := BaselineOnly(b, c);
            && ValueSet(os) == KeySet(b) - KeySet(c)
            && DistinctValues(os)
            && forall i :: 0 <= i < |os| ==>
                 os[i].compareValue == 0.0 && Lookup(b, os[i].value) == Some(os[i].baselineValue)
  {
    if b != [] {
      var n := |b| - 1;
      LastKeyIsNew(b);
      KeySetSnoc(b);
      BaselineOnlySpec(b[..n], c);
      var rest := BaselineOnly(b[..n], c);
      forall i | 0 <= i < |rest| ensures Lookup(b, rest[i].value) == Lookup(b[..n], rest[i].value) {
        assert rest[i].value in ValueSet(rest);
        assert b == b[..n] + [b[n]];
        LookupSnoc(b[..n], b[n], rest[i].value);
      }
      if b[n].0 !in KeySet(c) {
        var os := rest + [Observation(b[n].0, 0.0, b[n].1)];
        assert BaselineOnly(b, c) == os;
        assert os[|rest|].value == b[n].0;
        LookupEntry(b, n);
        forall x | x in ValueSet(os) ensures x in ValueSet(rest) + {b[n].0} {
          var i :| 0 <= i < |os| && os[i].value == x;
          if i < |rest| { assert os[i] == rest[i]; }
        }
        forall x | x in ValueSet(rest) ensures x in ValueSet(os) {
          var i :| 0 <= i < |rest| && rest[i].value == x;
          assert os[i] == rest[i];
        }
        forall i | 0 <= i < |rest| ensures rest[i].value != b[n].0 {
          assert rest[i].value in ValueSet(rest);
        }
        assert ValueSet(os) == ValueSet(rest) + {b[n].0};
      } else {
        assert BaselineOnly(b, c) == rest;
        assert KeySet(b) - KeySet(c) == KeySet(b[..n]) - KeySet(c);
      }
    }
  }

  /** The first loop yields each compare key in order with its amount and
      the baseline amount under the same key, or 0. */
  lemma CompareSideSpec(c: Entries, b: Entries)
    requires DistinctKeys(c)
    ensures var os := CompareSide(c, b);
            && ValueSet(os) == KeySet(c)
            && DistinctValues(os)
            && forall i :: 0 <= i < |os| ==>
                 Lookup(c, os[i].value) == Some(os[i].compareValue) && os[i].baselineValue == GetOrZero(b, os[i].value)
  {
    var os := CompareSide(c, b);
    forall i | 0 <= i < |os| ensures Lookup(c, os[i].value) == Some(os[i].compareValue) {
      LookupEntry(c, i);
    }
    assert forall i :: 0 <= i < |os| ==> os[i].value == c[i].0;
  }

  /** The candidates' values are exactly the keys of either map, each once.
      A key of the compare map has its compare amount and the baseline amount
      under the same key, or 0 when the baseline lacks it; a baseline-only key
      has compare 0 and its baseline amount. */
  lemma ObservationsSpec(c: Entries, b: Entries)
    requires DistinctKeys(c) && DistinctKeys(b)
    ensures var os := Observations(c, b);
            && ValueSet(os) == KeySet(c) + KeySet(b)
            && DistinctValues(os)
            && (forall i :: 0 <= i < |os| && os[i].value in KeySet(c) ==>
                  && Lookup(c, os[i].value) == Some(os[i].compareValue)
                  && os[i].baselineValue == GetOrZero(b, os[i].value))
            && (forall i :: 0 <= i < |os| && os[i].value !in KeySet(c) ==>
                  && os[i].compareValue == 0.0
                  && Lookup(b, os[i].value) == Some(os[i].baselineValue))
  {
    var front, back := CompareSide(c, b), BaselineOnly(b, c);
    CompareSideSpec(c, b);
    BaselineOnlySpec(b, c);
    ValueSetAppend(front, back);
    DistinctAppend(front, back);
    var os := front + back;
    forall i | 0 <= i < |front| ensures os[i] == front[i] && os[i].value in KeySet(c) {
      assert front[i].value in ValueSet(front);
    }
    forall i | |front| <= i < |os| ensures os[i] == back[i - |front|] && os[i].value !in KeySet(c) {
      assert back[i - |front|].value in ValueSet(back);
    }
  }

  lemma ValueSetAppend(a: seq<Observation>, b: seq<Observation>)
    ensures ValueSet(a + b) == ValueSet(a) + ValueSet(b)
  {
    var ab := a + b;
    forall x | x in ValueSet(ab) ensures x in ValueSet(a) + ValueSet(b) {
      var i :| 0 <= i < |ab| && ab[i].value == x;
      if i < |a| { assert ab[i] == a[i]; } else { assert ab[i] == b[i - |a|]; }
    }
    forall x | x in ValueSet(a) ensures x in ValueSet(ab) {
      var i :| 0 <= i < |a| && a[i].value == x;
      assert ab[i] == a[i];
    }
    forall x | x in ValueSet(b) ensures x in ValueSet(ab) {
      var i :| 0 <= i < |b| && b[i].value == x;
      assert ab[|a| + i] == b[i];
    }
  }

  lemma DistinctAppend(a: seq<Observation>, b: seq<Observation>)
    requires DistinctValues(a) && DistinctValues(b) && ValueSet(a) !! ValueSet(b)
    ensures DistinctValues(a + b)
  {
    var ab := a + b;
    forall i, j | 0 <= i < j < |ab| ensures ab[i].value != ab[j].value {
      if j < |a| {
        assert ab[i] == a[i] && ab[j] == a[j];
      } else if |a| <= i {
        assert ab[i] == b[i - |a|] && ab[j] == b[j - |a|];
      } else {
        assert ab[i] == a[i] && ab[j] == b[j - |a|];
        assert a[i].value in ValueSet(a) && b[j - |a|].value in ValueSet(b);
      }
    }
  }

  // ---------------------------------------------------------------------
  // Deltas

  function CompareAmounts(os: seq<Observation>): (r: seq<real>)
    ensures |r| == |os| && forall i :: 0 <= i < |os| ==> r[i] == os[i].compareValue
  {
    seq(|os|, i requires 0 <= i < |os| => os[i].compareValue)
  }

  function BaselineAmounts(os: seq<Observation>): (r: seq<real>)
    ensures |r| == |os| && forall i :: 0 <= i < |os| ==> r[i] == os[i].baselineValue
  {
    seq(|os|, i requires 0 <= i < |os| => os[i].baselineValue)
  }

  /** The baseline amounts of the entries whose keys are in (or out of) K. */
  function SumIn(b: Entries, keys: set<string>): real {
    if b == [] then 0.0
    else SumIn(b[..|b| - 1], keys) + (if b[|b| - 1].0 in keys then b[|b| - 1].1 else 0.0)
  }

  function SumOut(b: Entries, keys: set<string>): real {
    if b == [] then 0.0
    else SumOut(b[..|b| - 1], keys) + (if b[|b| - 1].0 in keys then 0.0 else b[|b| - 1].1)
  }

  lemma {:induction false} SumInOut(b: Entries, keys: set<string>)
    ensures SumIn(b, keys) + SumOut(b, keys) == Total(b)
  {
    if b != [] {
      var n := |b| - 1;
      SumInOut(b[..n], keys);
      assert EntryValues(b)[..n] == EntryValues(b[..n]);
    }
  }

  lemma {:induction false} SumInNoKeys(b: Entries)
    ensures SumIn(b, {}) == 0.0
  {
    if b != [] {
      SumInNoKeys(b[..|b| - 1]);
    }
  }

  /** Adding one key k outside K adds the amount under k, if any. */
  lemma {:induction false} SumInAddKey(b: Entries, keys: set<string>, k: string)
    requires DistinctKeys(b) && k !in keys
    ensures SumIn(b, keys + {k}) == SumIn(b, keys) + GetOrZero(b, k)
  {
    if b != [] {
      var n := |b| - 1;
      LastKeyIsNew(b);
      SumInAddKey(b[..n], keys, k);
      assert b == b[..n] + [b[n]];
      LookupSnoc(b[..n], b[n], k);
    }
  }

  /** The first loop's baseline amounts are the baseline entries whose keys
      the compare map has. */
  lemma {:induction false} CompareSideBaselineSum(c: Entries, b: Entries)
    requires DistinctKeys(c) && DistinctKeys(b)
    ensures Sum(BaselineAmounts(CompareSide(c, b))) == SumIn(b, KeySet(c))
    ensures Sum(CompareAmounts(CompareSide(c, b))) == Total(c)
  {
    assert CompareAmounts(CompareSide(c, b)) == EntryValues(c);
    if c == [] {
      assert KeySet(c) == {};
      SumInNoKeys(b);
    } else {
      var n := |c| - 1;
      LastKeyIsNew(c);
      KeySetSnoc(c);
      CompareSideBaselineSum(c[..n], b);
      var s := BaselineAmounts(CompareSide(c, b));
      assert forall i :: 0 <= i < n ==> c[..n][i] == c[i];
      assert s[..n] == BaselineAmounts(CompareSide(c[..n], b));
      assert s[n] == GetOrZero(b, c[n].0);
      assert Sum(s) == Sum(s[..n]) + s[n];
      SumInAddKey(b, KeySet(c[..n]), c[n].0);
    }
  }

  lemma {:induction false} BaselineOnlySums(b: Entries, c: Entries)
    ensures Sum(BaselineAmounts(BaselineOnly(b, c))) == SumOut(b, KeySet(c))
    ensures Sum(CompareAmounts(BaselineOnly(b, c))) == 0.0
  {
    if b != [] {
      var n := |b| - 1;
      BaselineOnlySums(b[..n], c);
      var rest := BaselineOnly(b[..n], c);
      if b[n].0 !in KeySet(c) {
        var o := Observation(b[n].0, 0.0, b[n].1);
        assert BaselineAmounts(rest + [o]) == BaselineAmounts(rest) + [o.baselineValue];
        assert CompareAmounts(rest + [o]) == CompareAmounts(rest) + [o.compareValue];
        SumAppend(BaselineAmounts(rest), [o.baselineValue]);
        SumAppend(CompareAmounts(rest), [o.compareValue]);
        assert Sum([o.baselineValue]) == o.baselineValue by { assert [o.baselineValue][..0] == []; }
        assert Sum([o.compareValue]) == 0.0 by { assert [o.compareValue][..0] == []; }
      }
    }
  }

  /** baseline - compare of every observation. */
  function ObservationDeltas(os: seq<Observation>): (r: seq<real>)
    ensures |r| == |os| && forall i :: 0 <= i < |os| ==> r[i] == os[i].baselineValue - os[i].compareValue
  {
    seq(|os|, i requires 0 <= i < |os| => os[i].baselineValue - os[i].compareValue)
  }

  lemma AmountsAppend(front: seq<Observation>, back: seq<Observation>)
    ensures BaselineAmounts(front + back) == BaselineAmounts(front) + BaselineAmounts(back)
    ensures CompareAmounts(front + back) == CompareAmounts(front) + CompareAmounts(back)
  {
  }

  /** Over any observations, the deltas add up to the baseline sum minus the
      compare sum. */
  lemma DeltasAreDifferenceOfSums(os: seq<Observation>)
    ensures Sum(ObservationDeltas(os)) == Sum(BaselineAmounts(os)) - Sum(CompareAmounts(os))
  {
    assert ObservationDeltas(os) == Minus(BaselineAmounts(os), CompareAmounts(os));
    SumMinus(BaselineAmounts(os), CompareAmounts(os));
  }

  /** The candidate deltas add up to totalDelta = sum(baseline) - sum(compare). */
  lemma ObservationDeltasSum(c: Entries, b: Entries)
    requires DistinctKeys(c) && DistinctKeys(b)
    ensures Sum(ObservationDeltas(Observations(c, b))) == Total(b) - Total(c)
  {
    var front, back := CompareSide(c, b), BaselineOnly(b, c);
    CompareSideBaselineSum(c, b);
    BaselineOnlySums(b, c);
    SumInOut(b, KeySet(c));
    AmountsAppend(front, back);
    SumAppend(BaselineAmounts(front), BaselineAmounts(back));
    SumAppend(CompareAmounts(front), CompareAmounts(back));
    DeltasAreDifferenceOfSums(front + back);
  }

  // ---------------------------------------------------------------------
  // Candidates and EP

  function CandidateDeltas(cs: seq<Candidate>): (r: seq<real>)
    ensures |r| == |cs| && forall i :: 0 <= i < |cs| ==> r[i] == cs[i].deltaValue
  {
    seq(|cs|, i requires 0 <= i < |cs| => cs[i].deltaValue)
  }

  function Eps(cs: seq<Candidate>): (r: seq<real>)
    ensures |r| == |cs| && forall i :: 0 <= i < |cs| ==> r[i] == cs[i].ep
  {
    seq(|cs|, i requires 0 <= i < |cs| => cs[i].ep)
  }

  /** Each candidate carries its observation, delta = baseline - compare and
      EP = SafeDivide(delta, totalDelta). */
  lemma CandidatesMatchObservations(c: Entries, b: Entries, eps: real, log10: real -> real)
    requires 0.0 < eps && CandidatesOf(c, b, eps, log10).Ok?
    ensures var cs, os := CandidatesOf(c, b, eps, log10).value, Observations(c, b);
            && |cs| == |os|
            && forall i :: 0 <= i < |cs| ==>
                 && cs[i].value == os[i].value
                 && cs[i].compareValue == os[i].compareValue && cs[i].baselineValue == os[i].baselineValue
                 && cs[i].deltaValue == os[i].baselineValue - os[i].compareValue
                 && cs[i].ep == SafeDivide(cs[i].deltaValue, Total(b) - Total(c), eps)
  {
    var cs, os := CandidatesOf(c, b, eps, log10).value, Observations(c, b);
    MakeAllSpec(os, Total(c), Total(b), eps, log10);
    forall i | 0 <= i < |cs|
      ensures && cs[i].value == os[i].value
              && cs[i].compareValue == os[i].compareValue && cs[i].baselineValue == os[i].baselineValue
              && cs[i].deltaValue == os[i].baselineValue - os[i].compareValue
              && cs[i].ep == SafeDivide(cs[i].deltaValue, Total(b) - Total(c), eps)
    {
      CandidateFields(os[i], cs[i], Total(c), Total(b), eps, log10);
    }
  }

  /** The fields of the candidate made from one observation. */
  lemma CandidateFields(o: Observation, x: Candidate, totalCompare: real, totalBaseline: real,
                        eps: real, log10: real -> real)
    requires 0.0 < eps && Some(x) == MakeCandidate(o, totalCompare, totalBaseline, eps, log10)
    ensures && x.value == o.value
            && x.compareValue == o.compareValue && x.baselineValue == o.baselineValue
            && x.deltaValue == o.baselineValue - o.compareValue
            && x.ep == SafeDivide(x.deltaValue, totalBaseline - totalCompare, eps)
  {
  }

  /** The candidates' deltas add up to the total delta. */
  lemma CandidateDeltasSum(c: Entries, b: Entries, eps: real, log10: real -> real)
    requires 0.0 < eps && DistinctKeys(c) && DistinctKeys(b) && CandidatesOf(c, b, eps, log10).Ok?
    ensures Sum(CandidateDeltas(CandidatesOf(c, b, eps, log10).value)) == Total(b) - Total(c)
  {
    CandidatesMatchObservations(c, b, eps, log10);
    ObservationDeltasSum(c, b);
    assert CandidateDeltas(CandidatesOf(c, b, eps, log10).value) == ObservationDeltas(Observations(c, b));
  }

  /** With the total delta within eps of zero every EP is 0. */
  lemma FlatTotalGivesZeroEp(c: Entries, b: Entries, eps: real, log10: real -> real)
    requires 0.0 < eps && CandidatesOf(c, b, eps, log10).Ok?
    requires Abs(Total(b) - Total(c)) < eps
    ensures forall x :: x in CandidatesOf(c, b, eps, log10).value ==> x.ep == 0.0
  {
    CandidatesMatchObservations(c, b, eps, log10);
  }

  /** Otherwise the EPs add up to 1. */
  lemma EpsSumToOne(c: Entries, b: Entries, eps: real, log10: real -> real)
    requires 0.0 < eps && DistinctKeys(c) && DistinctKeys(b) && CandidatesOf(c, b, eps, log10).Ok?
    requires Abs(Total(b) - Total(c)) >= eps
    ensures Sum(Eps(CandidatesOf(c, b, eps, log10).value)) == 1.0
  {
    var cs := CandidatesOf(c, b, eps, log10).value;
    var total := Total(b) - Total(c);
    CandidateDeltasSum(c, b, eps, log10);
    CandidatesMatchObservations(c, b, eps, log10);
    EpTimesTotal(cs, total, eps);
    ShareOfTotal(cs, total);
  }

  /** Each EP, times a total delta at least eps away from zero, gives back its delta. */
  lemma EpTimesTotal(cs: seq<Candidate>, total: real, eps: real)
    requires 0.0 < eps && Abs(total) >= eps
    requires forall i :: 0 <= i < |cs| ==> cs[i].ep == SafeDivide(cs[i].deltaValue, total, eps)
    ensures forall i :: 0 <= i < |cs| ==> cs[i].ep * total == cs[i].deltaValue
  {
    forall i | 0 <= i < |cs| ensures cs[i].ep * total == cs[i].deltaValue {
      assert cs[i].ep == SafeDivide(cs[i].deltaValue, total, eps);
    }
  }

  /** Parts that add up to a non-zero total, each divided by it, add up to 1. */
  lemma ShareOfTotal(cs: seq<Candidate>, total: real)
    requires total != 0.0 && Sum(CandidateDeltas(cs)) == total
    requires forall i :: 0 <= i < |cs| ==> cs[i].ep * total == cs[i].deltaValue
    ensures Sum(Eps(cs)) == 1.0
  {
    var scaled := Scale(total, Eps(cs));
    forall i | 0 <= i < |cs| ensures scaled[i] == CandidateDeltas(cs)[i] {
      assert scaled[i] == total * cs[i].ep;
    }
    assert scaled == CandidateDeltas(cs);
    SumScale(total, Eps(cs));
    var x := Sum(Eps(cs));
    assert total * x == total;
    assert total * (x - 1.0) == 0.0;
  }

  /** A value missing from the compare period never has a non-finite
      surprise, so the second loop cannot throw. */
  lemma BaselineOnlyNeverFails(o: Observation, totalCompare: real, totalBaseline: real, eps: real, log10: real -> real)
    requires 0.0 < eps && o.compareValue == 0.0
    ensures MakeCandidate(o, totalCompare, totalBaseline, eps, log10).Some?
  {
  }

  // ---------------------------------------------------------------------
  // Surprise

  /** Swapping the periods leaves the surprise unchanged. */
  lemma SurpriseSymmetric(compareValue: real, baselineValue: real, totalCompare: real, totalBaseline: real,
                          eps: real, log10: real -> real)
    requires 0.0 < eps
    ensures Surprise(compareValue, baselineValue, totalCompare, totalBaseline, eps, log10)
            == Surprise(baselineValue, compareValue, totalBaseline, totalCompare, eps, log10)
  {
    var p, q := Share(compareValue, totalCompare), Share(baselineValue, totalBaseline);
    if !CloseToZero(p, eps) && !CloseToZero(q, eps) && p + q != 0.0 {
      assert q + p == p + q;
    }
  }

  /** A value whose share of the total did not move is not surprising. */
  lemma SteadyShareIsNotSurprising(compareValue: real, baselineValue: real, totalCompare: real, totalBaseline: real,
                                   eps: real, log10: real -> real)
    requires 0.0 < eps && IsLog(log10)
    requires !CloseToZero(totalCompare, eps) && !CloseToZero(totalBaseline, eps)
    requires compareValue / totalCompare == baselineValue / totalBaseline
    ensures Surprise(compareValue, baselineValue, totalCompare, totalBaseline, eps, log10) == Some(0.0)
  {
    LnOne(log10);
    SteadyShareAtLogOne(compareValue, baselineValue, totalCompare, totalBaseline, eps, log10);
  }

  lemma SteadyShareAtLogOne(compareValue: real, baselineValue: real, totalCompare: real, totalBaseline: real,
                            eps: real, log10: real -> real)
    requires 0.0 < eps && log10(1.0) == 0.0
    requires !CloseToZero(totalCompare, eps) && !CloseToZero(totalBaseline, eps)
    requires compareValue / totalCompare == baselineValue / totalBaseline
    ensures Surprise(compareValue, baselineValue, totalCompare, totalBaseline, eps, log10) == Some(0.0)
  {
    var p, q := Share(compareValue, totalCompare), Share(baselineValue, totalBaseline);
    assert p == q;
    if !CloseToZero(p, eps) {
      SelfShareIsOne(p);
    }
  }

  lemma SelfShareIsOne(p: real)
    requires p != 0.0
    ensures 2.0 * p / (p + p) == 1.0
  {
    assert p + p == 2.0 * p;
  }

  // ---------------------------------------------------------------------
  // The sort

  lemma {:induction false} InsertSorted(x: Candidate, s: seq<Candidate>)
    requires SortedBySurprise(s)
    ensures SortedBySurprise(InsertBySurprise(x, s))
    ensures multiset(InsertBySurprise(x, s)) == multiset(s) + multiset{x}
  {
    InsertPermutes(x, s);
    if s == [] {
    } else if s[0].surprise >= x.surprise {
      InsertSorted(x, s[1..]);
      InsertBounded(x, s[1..], s[0].surprise);
      ConsSorted(s[0], InsertBySurprise(x, s[1..]));
    } else {
      ConsSorted(x, s);
    }
  }

  lemma {:induction false} InsertPermutes(x: Candidate, s: seq<Candidate>)
    ensures multiset(InsertBySurprise(x, s)) == multiset(s) + multiset{x}
  {
    if s != [] && s[0].surprise >= x.surprise {
      InsertPermutes(x, s[1..]);
      assert s == [s[0]] + s[1..];
    }
  }

  /** Inserting below a bound stays below it. */
  lemma {:induction false} InsertBounded(x: Candidate, s: seq<Candidate>, v: real)
    requires x.surprise <= v && forall k :: 0 <= k < |s| ==> s[k].surprise <= v
    ensures forall k :: 0 <= k < |InsertBySurprise(x, s)| ==> InsertBySurprise(x, s)[k].surprise <= v
  {
    if s != [] && s[0].surprise >= x.surprise {
      InsertBounded(x, s[1..], v);
      var r := InsertBySurprise(x, s[1..]);
      assert forall k :: 1 <= k < |r| + 1 ==> ([s[0]] + r)[k] == r[k - 1];
    }
  }

  lemma ConsSorted(y: Candidate, r: seq<Candidate>)
    requires SortedBySurprise(r)
    requires forall k :: 0 <= k < |r| ==> r[k].surprise <= y.surprise
    ensures SortedBySurprise([y] + r)
  {
    var yr := [y] + r;
    forall i, j | 0 <= i < j < |yr| ensures yr[i].surprise >= yr[j].surprise {
      assert yr[j] == r[j - 1];
      if 0 < i { assert yr[i] == r[i - 1]; }
    }
  }

  /** The sort yields a descending permutation of the candidates. */
  lemma {:induction false} SortIsSortedPermutation(cs: seq<Candidate>)
    ensures SortedBySurprise(SortBySurprise(cs))
    ensures multiset(SortBySurprise(cs)) == multiset(cs)
  {
    if cs != [] {
      var n := |cs| - 1;
      SortIsSortedPermutation(cs[..n]);
      InsertSorted(cs[n], SortBySurprise(cs[..n]));
      LastSplit(cs);
    }
  }

  lemma LastSplit(cs: seq<Candidate>)
    requires cs != []
    ensures multiset(cs) == multiset(cs[..|cs| - 1]) + multiset{cs[|cs| - 1]}
  {
    assert cs == cs[..|cs| - 1] + [cs[|cs| - 1]];
  }

  lemma {:induction false} WithSurpriseAppend(a: seq<Candidate>, b: seq<Candidate>, v: real)
    ensures WithSurprise(a + b, v) == WithSurprise(a, v) + WithSurprise(b, v)
  {
    if a == [] {
      assert a + b == b;
    } else {
      var ab, head := a + b, if a[0].surprise == v then [a[0]] else [];
      assert ab[0] == a[0];
      assert ab[1..] == a[1..] + b;
      WithSurpriseAppend(a[1..], b, v);
      assert WithSurprise(ab, v) == head + WithSurprise(a[1..] + b, v);
      assert WithSurprise(a, v) == head + WithSurprise(a[1..], v);
    }
  }

  lemma {:induction false} WithSurpriseNone(s: seq<Candidate>, v: real)
    requires forall k :: 0 <= k < |s| ==> s[k].surprise < v
    ensures WithSurprise(s, v) == []
  {
    if s != [] {
      WithSurpriseNone(s[1..], v);
    }
  }

  lemma {:induction false} InsertStable(x: Candidate, s: seq<Candidate>, v: real)
    requires SortedBySurprise(s)
    ensures WithSurprise(InsertBySurprise(x, s), v) == WithSurprise(s, v) + WithSurprise([x], v)
  {
    var own := if x.surprise == v then [x] else [];
    WithSurpriseCons(x, [], v);
    assert [x] + [] == [x];
    if s == [] {
    } else if s[0].surprise >= x.surprise {
      assert SortedBySurprise(s[1..]);
      InsertStable(x, s[1..], v);
      InsertStableAfterHead(x, s, v);
    } else {
      WithSurpriseCons(x, s, v);
      if x.surprise == v {
        WithSurpriseNone(s, v);
      }
    }
  }

  /** The step of InsertStable where x goes past the head of s. */
  lemma InsertStableAfterHead(x: Candidate, s: seq<Candidate>, v: real)
    requires s != [] && s[0].surprise >= x.surprise
    requires WithSurprise(InsertBySurprise(x, s[1..]), v) == WithSurprise(s[1..], v) + WithSurprise([x], v)
    ensures WithSurprise(InsertBySurprise(x, s), v) == WithSurprise(s, v) + WithSurprise([x], v)
  {
    var head := if s[0].surprise == v then [s[0]] else [];
    var r := InsertBySurprise(x, s[1..]);
    WithSurpriseCons(s[0], r, v);
    assert WithSurprise(s, v) == head + WithSurprise(s[1..], v);
    assert head + (WithSurprise(s[1..], v) + WithSurprise([x], v)) == (head + WithSurprise(s[1..], v)) + WithSurprise([x], v);
  }

  lemma WithSurpriseCons(c: Candidate, r: seq<Candidate>, v: real)
    ensures WithSurprise([c] + r, v) == (if c.surprise == v then [c] else []) + WithSurprise(r, v)
  {
    assert ([c] + r)[0] == c && ([c] + r)[1..] == r;
  }

  /** The sort is stable: the candidates of each surprise value keep their
      order. */
  lemma {:induction false} SortIsStable(cs: seq<Candidate>, v: real)
    ensures WithSurprise(SortBySurprise(cs), v) == WithSurprise(cs, v)
  {
    if cs != [] {
      var n := |cs| - 1;
      SortIsStable(cs[..n], v);
      SortIsSortedPermutation(cs[..n]);
      InsertStable(cs[n], SortBySurprise(cs[..n]), v);
      assert cs == cs[..n] + [cs[n]];
      WithSurpriseAppend(cs[..n], [cs[n]], v);
    }
  }

  // ---------------------------------------------------------------------
  // The selection

  /** The items r emitted from qualifying candidates qs, from a point where
      |EP| `accumulated` has been emitted and the next rank is `rank`: the
      next qualifying candidates with consecutive ranks; the loop went on
      past every item but the last; and it stopped early only on a
      threshold. */
  ghost predicate Emits(dimensionId: string, qs: seq<Candidate>, th: Thresholds, accumulated: real, rank: int,
                        r: seq<Item>) {
    && |r| <= |qs|
    && (forall i :: 0 <= i < |r| ==> r[i] == ToItem(dimensionId, qs[i], rank + i))
    && (forall j :: 0 < j < |r| ==> WentOn(qs, th, accumulated, rank, j))
    && (|r| < |qs| ==> 0 < |r| && !WentOn(qs, th, accumulated, rank, |r|))
  }

  /** After emitting the first j of qs the loop did not stop. */
  ghost predicate WentOn(qs: seq<Candidate>, th: Thresholds, accumulated: real, rank: int, j: int)
    requires 0 <= j <= |qs|
  {
    rank + j - 1 < th.maxResultSize && accumulated + AbsEpSum(qs[..j]) < th.epTotalThreshold
  }

  lemma EmitsStop(dimensionId: string, x: Candidate, tail: seq<Candidate>, th: Thresholds, accumulated: real, rank: int)
    requires rank >= th.maxResultSize || accumulated + Abs(x.ep) >= th.epTotalThreshold
    ensures Emits(dimensionId, [x] + tail, th, accumulated, rank, [ToItem(dimensionId, x, rank)])
  {
    AbsEpSumCons(x, tail, 1);
    assert tail[..0] == [];
  }

  lemma EmitsCons(dimensionId: string, x: Candidate, tail: seq<Candidate>, th: Thresholds, accumulated: real, rank: int,
                  rest: seq<Item>)
    requires !(rank >= th.maxResultSize || accumulated + Abs(x.ep) >= th.epTotalThreshold)
    requires Emits(dimensionId, tail, th, accumulated + Abs(x.ep), rank + 1, rest)
    ensures Emits(dimensionId, [x] + tail, th, accumulated, rank, [ToItem(dimensionId, x, rank)] + rest)
  {
    var qs := [x] + tail;
    var next := accumulated + Abs(x.ep);
    var r := [ToItem(dimensionId, x, rank)] + rest;
    forall j | 0 < j < |r| ensures WentOn(qs, th, accumulated, rank, j) {
      AbsEpSumCons(x, tail, j);
      if 1 < j {
        var k := j - 1;
        assert 0 < k < |rest|;
        assert WentOn(tail, th, next, rank + 1, k);
      } else {
        assert tail[..0] == [];
      }
    }
    if |r| < |qs| {
      AbsEpSumCons(x, tail, |r|);
    }
    forall i | 0 <= i < |r| ensures r[i] == ToItem(dimensionId, qs[i], rank + i) {
      if 0 < i { assert r[i] == rest[i - 1] && qs[i] == tail[i - 1]; }
    }
  }

  /** From any point of the loop, what it emits is described by Emits. */
  lemma {:induction false} SelectFromSpec(dimensionId: string, cs: seq<Candidate>, th: Thresholds,
                                          accumulated: real, rank: int)
    ensures Emits(dimensionId, Qualifying(cs, th.epThreshold), th, accumulated, rank,
                  SelectFrom(dimensionId, cs, th, accumulated, rank))
  {
    if cs != [] {
      var qs := Qualifying(cs, th.epThreshold);
      if Abs(cs[0].ep) < th.epThreshold {
        SelectFromSpec(dimensionId, cs[1..], th, accumulated, rank);
        assert qs == Qualifying(cs[1..], th.epThreshold);
      } else {
        var next := accumulated + Abs(cs[0].ep);
        var tail := Qualifying(cs[1..], th.epThreshold);
        assert qs == [cs[0]] + tail;
        if rank >= th.maxResultSize || next >= th.epTotalThreshold {
          EmitsStop(dimensionId, cs[0], tail, th, accumulated, rank);
        } else {
          SelectFromSpec(dimensionId, cs[1..], th, next, rank + 1);
          EmitsCons(dimensionId, cs[0], tail, th, accumulated, rank, SelectFrom(dimensionId, cs[1..], th, next, rank + 1));
        }
      }
    }
  }

  lemma AbsEpSumCons(x: Candidate, tail: seq<Candidate>, j: int)
    requires 1 <= j <= |tail| + 1
    ensures AbsEpSum(([x] + tail)[..j]) == Abs(x.ep) + AbsEpSum(tail[..j - 1])
  {
    assert ([x] + tail)[..j][0] == x;
    assert ([x] + tail)[..j][1..] == tail[..j - 1];
  }

  /** Qualifying candidates of a sorted list are sorted. */
  lemma {:induction false} QualifyingSorted(cs: seq<Candidate>, epThreshold: real)
    requires SortedBySurprise(cs)
    ensures SortedBySurprise(Qualifying(cs, epThreshold))
    ensures forall x :: x in Qualifying(cs, epThreshold) ==> x in cs && Abs(x.ep) >= epThreshold
  {
    if cs != [] {
      QualifyingSorted(cs[1..], epThreshold);
      var tail := Qualifying(cs[1..], epThreshold);
      forall x | x in tail ensures cs[0].surprise >= x.surprise {
        var j :| 1 <= j < |cs| && cs[j] == x;
      }
    }
  }

  /** The properties of the emitted items: dense ranks 1..k, each with
      |EP| >= epThreshold, surprise non-increasing, at most
      max(maxResultSize, 1) of them, the accumulated |EP| before the last
      below epTotalThreshold, and no stop before a threshold is hit. */
  lemma SelectionProperties(dimensionId: string, sorted: seq<Candidate>, th: Thresholds)
    requires SortedBySurprise(sorted)
    ensures var r, qs := Select(dimensionId, sorted, th), Qualifying(sorted, th.epThreshold);
            && |r| <= |qs|
            && (forall i :: 0 <= i < |r| ==> r[i] == ToItem(dimensionId, qs[i], i + 1))
            && (forall i :: 0 <= i < |r| ==> Abs(r[i].contribution) >= th.epThreshold)
            && (forall i, j :: 0 <= i < j < |r| ==> r[i].surprise >= r[j].surprise)
            && |r| <= (if th.maxResultSize < 1 then 1 else th.maxResultSize)
            && (1 < |r| ==> AbsEpSum(qs[..|r| - 1]) < th.epTotalThreshold)
            && (|r| < |qs| ==> 0 < |r| && (|r| >= th.maxResultSize || AbsEpSum(qs[..|r|]) >= th.epTotalThreshold))
  {
    var r, qs := Select(dimensionId, sorted, th), Qualifying(sorted, th.epThreshold);
    SelectFromSpec(dimensionId, sorted, th, 0.0, 1);
    QualifyingSorted(sorted, th.epThreshold);
    forall i | 0 <= i < |r| ensures Abs(r[i].contribution) >= th.epThreshold {
      assert qs[i] in qs;
    }
    if 1 < |r| {
      assert WentOn(qs, th, 0.0, 1, |r| - 1);
    }
    if |r| < |qs| {
      assert !WentOn(qs, th, 0.0, 1, |r|);
    }
  }
}
