/**
 * The metrics pass (lines 114-119): for every key of `Gen`, in key order,
 * `PeakGen` is the largest value of the day, `TotalGen` their sum, and
 * `GenStart` / `GenEnd` the periods of the first and last non-zero value.
 * Each key is written as soon as it is computed, so a day that raises leaves
 * the keys written before the failing line in place and stops the pass.
 */
module Metrics {
  import opened Wrappers
  import opened Grouping

  /**
   * What the pass raises: `max([])` on a day with no values, `min([])` on a
   * day with no non-zero value, or an `HH` index past the end of that list.
   */
  datatype MetricsError = EmptyDay | NoGeneration | PeriodMissing

  /** Python's `max` of a non-empty list: one of its elements, and no element exceeds it. */
  function Max(s: seq<int>): (m: int)
    requires |s| > 0
    ensures exists i | 0 <= i < |s| :: s[i] == m
    ensures forall i | 0 <= i < |s| :: s[i] <= m
  {
    if |s| == 1 then s[0]
    else
      var m := Max(s[..|s| - 1]);
      if s[|s| - 1] > m then s[|s| - 1] else m
  }

  /** Python's `min` of a non-empty list: one of its elements, and no element is below it. */
  function Min(s: seq<int>): (m: int)
    requires |s| > 0
    ensures exists i | 0 <= i < |s| :: s[i] == m
    ensures forall i | 0 <= i < |s| :: m <= s[i]
  {
    if |s| == 1 then s[0]
    else
      var m := Min(s[..|s| - 1]);
      if s[|s| - 1] < m then s[|s| - 1] else m
  }

  /** Python's `sum`, which is never negative on non-negative values. */
  function Sum(s: seq<int>): (t: int)
    ensures (forall k | 0 <= k < |s| :: s[k] >= 0) ==> t >= 0
  {
    if s == [] then 0 else Sum(s[..|s| - 1]) + s[|s| - 1]
  }

  /** Every value of a list of non-negative values is at most their sum. */
  lemma {:induction false} SumBoundsEach(s: seq<int>, i: int)
    requires forall k | 0 <= k < |s| :: s[k] >= 0
    requires 0 <= i < |s|
    ensures s[i] <= Sum(s)
  {
    if i < |s| - 1 {
      SumBoundsEach(s[..|s| - 1], i);
    }
  }

  /** For non-negative values the total is at least the peak. */
  lemma TotalAtLeastPeak(s: seq<int>)
    requires |s| > 0 && forall k | 0 <= k < |s| :: s[k] >= 0
    ensures Sum(s) >= Max(s)
  {
    var i :| 0 <= i < |s| && s[i] == Max(s);
    SumBoundsEach(s, i);
  }

  /**
   * `Index = [i for i, e in enumerate(Generation) if e != 0]`: in increasing
   * order, exactly the positions of the non-zero values.
   */
  function NonZeroIndices(s: seq<int>): (ix: seq<int>)
    ensures forall k | 0 <= k < |ix| :: 0 <= ix[k] < |s| && s[ix[k]] != 0
    ensures forall i | 0 <= i < |s| && s[i] != 0 :: i in ix
    ensures forall a, b | 0 <= a < b < |ix| :: ix[a] < ix[b]
  {
    if s == [] then []
    else
      assert forall i | 0 <= i < |s| - 1 :: s[..|s| - 1][i] == s[i];
      NonZeroIndices(s[..|s| - 1]) + (if s[|s| - 1] != 0 then [|s| - 1] else [])
  }

  /** `i` is the smallest index of a non-zero value. */
  predicate IsFirstNonZero(s: seq<int>, i: int)
  {
    0 <= i < |s| && s[i] != 0 && forall j | 0 <= j < i :: s[j] == 0
  }

  /** `i` is the largest index of a non-zero value. */
  predicate IsLastNonZero(s: seq<int>, i: int)
  {
    0 <= i < |s| && s[i] != 0 && forall j | i < j < |s| :: s[j] == 0
  }

  /** `min(Index)` and `max(Index)` are the first and the last non-zero index. */
  lemma NonZeroBounds(s: seq<int>)
    requires |NonZeroIndices(s)| > 0
    ensures IsFirstNonZero(s, Min(NonZeroIndices(s)))
    ensures IsLastNonZero(s, Max(NonZeroIndices(s)))
    ensures Min(NonZeroIndices(s)) <= Max(NonZeroIndices(s))
  {
    var ix := NonZeroIndices(s);
    assert forall x | x in ix :: Min(ix) <= x <= Max(ix);
  }

  /** A record as the pass leaves it, and what it raised, if anything. */
  datatype Filled = Filled(record: DayRecord, error: Option<MetricsError>)

  /** Lines 115-119 for one record. */
  function Summarise(r: DayRecord): (f: Filled)
    ensures f.record.dt == r.dt && f.record.hh == r.hh && f.record.generation == r.generation
  {
    if |r.generation| == 0 then Filled(r, Some(EmptyDay))
    else
      var totals := r.(peakGen := Some(Max(r.generation)), totalGen := Some(Sum(r.generation)));
      var index := NonZeroIndices(r.generation);
      if |index| == 0 then Filled(totals, Some(NoGeneration))
      else
        var first, last := Min(index), Max(index);
        if !(0 <= first < |r.hh|) then Filled(totals, Some(PeriodMissing))
        else
          var started := totals.(genStart := Some(r.hh[first]));
          if !(0 <= last < |r.hh|) then Filled(started, Some(PeriodMissing))
          else Filled(started.(genEnd := Some(r.hh[last])), None)
  }

  /**
   * On a record the grouping pass built, the pass fails exactly on a day
   * whose values are all zero, and then with `NoGeneration` after writing the
   * peak and the total.
   */
  lemma SummariseFailsOnlyWithoutGeneration(r: DayRecord)
    requires Aligned(r) && |r.generation| > 0
    ensures Summarise(r).error.None? <==> HasGeneration(r)
    ensures Summarise(r).error.Some? ==> Summarise(r).error == Some(NoGeneration)
    ensures Summarise(r).error.Some? ==>
      Summarise(r).record == r.(peakGen := Some(Max(r.generation)), totalGen := Some(Sum(r.generation)))
  {
    if |NonZeroIndices(r.generation)| > 0 {
      SummariseWithGeneration(r);
    } else {
      SummariseWithoutGeneration(r);
    }
  }

  /** A day with a non-zero value gets all four metrics. */
  lemma SummariseWithGeneration(r: DayRecord)
    requires Aligned(r) && |NonZeroIndices(r.generation)| > 0
    ensures HasGeneration(r) && Summarise(r).error.None?
  {
    var ix := NonZeroIndices(r.generation);
    assert r.generation[ix[0]] != 0;
    NonZeroBounds(r.generation);
  }

  /** A day of zeros stops at `min([])`, after the peak and the total. */
  lemma SummariseWithoutGeneration(r: DayRecord)
    requires |r.generation| > 0 && |NonZeroIndices(r.generation)| == 0
    ensures !HasGeneration(r)
    ensures Summarise(r) == Filled(r.(peakGen := Some(Max(r.generation)), totalGen := Some(Sum(r.generation))), Some(NoGeneration))
  {
    assert NonZeroIndices(r.generation) == [];
  }

  /**
   * When a day succeeds: the peak is the largest value, the total the sum,
   * the start the period of the first non-zero value and the end the period
   * of the last one, which comes no earlier.
   */
  lemma SummariseValues(r: DayRecord)
    requires Summarise(r).error.None?
    ensures var f := Summarise(r).record;
      && f.peakGen == Some(Max(r.generation))
      && (exists i | 0 <= i < |r.generation| :: r.generation[i] == f.peakGen.value)
      && (forall i | 0 <= i < |r.generation| :: r.generation[i] <= f.peakGen.value)
      && f.totalGen == Some(Sum(r.generation))
      && (exists i :: IsFirstNonZero(r.generation, i) && i < |r.hh| && f.genStart == Some(r.hh[i]))
      && (exists j :: IsLastNonZero(r.generation, j) && j < |r.hh| && f.genEnd == Some(r.hh[j]))
  {
    var ix := NonZeroIndices(r.generation);
    NonZeroBounds(r.generation);
    var lo, hi := Min(ix), Max(ix);
    assert Summarise(r).record == r.(peakGen := Some(Max(r.generation)), totalGen := Some(Sum(r.generation)),
                                     genStart := Some(r.hh[lo]), genEnd := Some(r.hh[hi]));
  }

  /** The first non-zero index is at most the last one. */
  lemma FirstNotAfterLast(s: seq<int>, i: int, j: int)
    requires IsFirstNonZero(s, i) && IsLastNonZero(s, j)
    ensures i <= j
  {
  }

  /** Periods that never decrease within the day give a start no later than the end. */
  lemma StartNotAfterEnd(r: DayRecord)
    requires Summarise(r).error.None?
    requires forall a, b | 0 <= a <= b < |r.hh| :: r.hh[a] <= r.hh[b]
    ensures Summarise(r).record.genStart.value <= Summarise(r).record.genEnd.value
  {
    SummariseValues(r);
    var i :| IsFirstNonZero(r.generation, i) && i < |r.hh| && Summarise(r).record.genStart == Some(r.hh[i]);
    var j :| IsLastNonZero(r.generation, j) && j < |r.hh| && Summarise(r).record.genEnd == Some(r.hh[j]);
    FirstNotAfterLast(r.generation, i, j);
  }

  /** For non-negative values the day's total is at least its peak. */
  lemma SummariseTotalAtLeastPeak(r: DayRecord)
    requires Summarise(r).error.None?
    requires forall k | 0 <= k < |r.generation| :: r.generation[k] >= 0
    ensures Summarise(r).record.totalGen.value >= Summarise(r).record.peakGen.value
  {
    SummariseValues(r);
    TotalAtLeastPeak(r.generation);
  }

  /** Periods [1, 2, 3] with values [0, 5, 0]: peak 5, total 5, start 2, end 2. */
  lemma SummariseExample()
    ensures var r := DayRecord(["d1", "d2", "d3"], [1, 2, 3], [0, 5, 0], None, None, None, None);
      Summarise(r) == Filled(r.(peakGen := Some(5), totalGen := Some(5), genStart := Some(2), genEnd := Some(2)), None)
  {
    ReductionExamples();
  }

  /** `max`, `sum` and the non-zero positions of the generation list [0, 5, 0], and a one-element list. */
  lemma ReductionExamples()
    ensures Max([0, 5, 0]) == 5 && Sum([0, 5, 0]) == 5 && NonZeroIndices([0, 5, 0]) == [1]
    ensures Min([1]) == 1 && Max([1]) == 1
  {
    assert Max([0, 5, 0]) == 5 by {
      assert [0, 5, 0][1] == 5;
    }
    assert Sum([0, 5, 0]) == 5 by {
      assert [0, 5, 0][..2] == [0, 5] && [0, 5][..1] == [0];
      assert Sum([0]) == 0 && Sum([0, 5]) == 5;
    }
    assert NonZeroIndices([0, 5, 0]) == [1] by {
      assert [0, 5, 0][..2] == [0, 5] && [0, 5][..1] == [0];
      assert NonZeroIndices([0]) == [];
      assert NonZeroIndices([0, 5]) == [1];
    }
    assert Min([1]) == 1 && Max([1]) == 1;
  }

  /** The outcome of the whole pass: the records as left, and the failing date, if any. */
  datatype Pass = Pass(records: map<Date, DayRecord>, failure: Option<(Date, MetricsError)>)

  /** The failure a day's summary reports, tagged with its date. */
  function Outcome(d: Date, f: Filled): Option<(Date, MetricsError)>
  {
    if f.error.Some? then Some((d, f.error.value)) else None
  }

  /** One iteration of `for date in Gen`: summarise `d` in place, unless an earlier day raised. */
  function Visit(prev: Pass, d: Date): (p: Pass)
    ensures p.records.Keys == prev.records.Keys
  {
    if prev.failure.Some? || d !in prev.records then prev
    else
      var f := Summarise(prev.records[d]);
      Pass(prev.records[d := f.record], Outcome(d, f))
  }

  /** `for date in Gen: ...` over the keys in `order`, stopping at the first failure. */
  function FillAll(order: seq<Date>, records: map<Date, DayRecord>): (p: Pass)
    ensures p.records.Keys == records.Keys
  {
    if order == [] then Pass(records, None)
    else Visit(FillAll(order[..|order| - 1], records), order[|order| - 1])
  }

  /** The metrics pass writes only the four metrics: the three lists of every day stay as they were. */
  lemma {:induction false} FillAllKeepsReadings(order: seq<Date>, records: map<Date, DayRecord>)
    ensures forall d | d in records ::
      var r := FillAll(order, records).records[d];
      r.dt == records[d].dt && r.hh == records[d].hh && r.generation == records[d].generation
    decreases |order|
  {
    if order != [] {
      FillAllKeepsReadings(order[..|order| - 1], records);
    }
  }

  /** Summarising one key leaves the grouping invariant in place. */
  lemma VisitPreservesWellFormed(s: Store, d: Date)
    requires WellFormed(s)
    ensures WellFormed(s.(records := Visit(Pass(s.records, None), d).records))
  {
  }

  /** The metrics pass leaves the grouping invariant in place. */
  lemma FillAllPreservesWellFormed(s: Store)
    requires WellFormed(s)
    ensures WellFormed(s.(records := FillAll(s.order, s.records).records))
  {
    FillAllKeepsReadings(s.order, s.records);
  }

  /**
   * A pass that succeeds leaves every key of `order` summarised: its record
   * is the one `Summarise` makes of the record it had, without an error.
   */
  lemma {:induction false} FillAllSucceeds(order: seq<Date>, records: map<Date, DayRecord>)
    requires NoDuplicates(order) && forall d | d in order :: d in records
    requires FillAll(order, records).failure.None?
    ensures forall d | d in order :: FillAll(order, records).records[d] == Summarise(records[d]).record
    ensures forall d | d in order :: Summarise(records[d]).error.None?
    ensures forall d | d in records && d !in order :: FillAll(order, records).records[d] == records[d]
  {
    if order != [] {
      var p := order[..|order| - 1];
      var d := order[|order| - 1];
      assert forall e | e in p :: e in order;
      LastNotEarlier(order);
      FillAllSucceeds(p, records);
      FillAllUntouched(p, records, d);
      var prev := FillAll(p, records);
      var f := Summarise(records[d]);
      assert FillAll(order, records) == Pass(prev.records[d := f.record], None);
      forall e | e in order ensures FillAll(order, records).records[e] == Summarise(records[e]).record {
        if e != d {
          assert e in p;
        }
      }
    }
  }

  /**
   * On a store the grouping pass built, the metrics pass succeeds exactly
   * when every day holds a non-zero value.
   */
  lemma {:induction false} FillAllSucceedsIff(order: seq<Date>, records: map<Date, DayRecord>)
    requires NoDuplicates(order)
    requires forall d | d in order :: d in records && Aligned(records[d]) && |records[d].generation| > 0
    ensures FillAll(order, records).failure.None? <==> forall d | d in order :: HasGeneration(records[d])
    ensures FillAll(order, records).failure.Some? ==> FillAll(order, records).failure.value.1 == NoGeneration
  {
    if order != [] {
      var p, d := order[..|order| - 1], order[|order| - 1];
      assert order == p + [d];
      LastNotEarlier(order);
      assert forall e | e in p :: e in order;
      FillAllSucceedsIff(p, records);
      FillAllUntouched(p, records, d);
      SucceedsIffStep(p, d, records);
    }
  }

  /** The inductive step of FillAllSucceedsIff, for the key order `p + [d]`. */
  lemma SucceedsIffStep(p: seq<Date>, d: Date, records: map<Date, DayRecord>)
    requires forall e | e in p + [d] :: e in records
    requires Aligned(records[d]) && |records[d].generation| > 0
    requires FillAll(p, records).failure.None? <==> forall e | e in p :: HasGeneration(records[e])
    requires FillAll(p, records).failure.Some? ==> FillAll(p, records).failure.value.1 == NoGeneration
    requires d in FillAll(p, records).records && FillAll(p, records).records[d] == records[d]
    ensures FillAll(p + [d], records).failure.None? <==> forall e | e in p + [d] :: HasGeneration(records[e])
    ensures FillAll(p + [d], records).failure.Some? ==> FillAll(p + [d], records).failure.value.1 == NoGeneration
  {
    assert (p + [d])[..|p|] == p;
    SummariseFailsOnlyWithoutGeneration(records[d]);
    AllInAppend(p, d, records);
  }

  /**
   * A pass that fails stops at the first day `order[k]` without a non-zero
   * value: the days before it hold their summaries, that day holds only the
   * peak and the total, and the days after it keep their records.
   */
  lemma FillAllFailsAtFirst(order: seq<Date>, records: map<Date, DayRecord>, k: nat)
    requires NoDuplicates(order)
    requires forall d | d in order :: d in records && Aligned(records[d]) && |records[d].generation| > 0
    requires k < |order| && !HasGeneration(records[order[k]])
    requires forall d | d in order[..k] :: HasGeneration(records[d])
    ensures var p, d := FillAll(order, records), order[k];
      && p.failure == Some((d, NoGeneration))
      && (forall e | e in order[..k] :: p.records[e] == Summarise(records[e]).record)
      && p.records[d] == records[d].(peakGen := Some(Max(records[d].generation)), totalGen := Some(Sum(records[d].generation)))
      && (forall e | e in order[k + 1..] :: p.records[e] == records[e])
  {
    var pre, d := order[..k], order[k];
    DistinctParts(order, k);
    FillAllSucceedsIff(pre, records);
    FillAllSucceeds(pre, records);
    FillAllUntouched(pre, records, d);
    FailingVisit(FillAll(pre, records), d, records[d]);
    FillAllNext(order, records, k);
    FillAllStops(order, records, k + 1);
  }

  /** In a key order without duplicates, the keys before, at and after position `k` are distinct. */
  lemma DistinctParts(order: seq<Date>, k: nat)
    requires NoDuplicates(order) && k < |order|
    ensures NoDuplicates(order[..k]) && order[k] !in order[..k]
    ensures forall e | e in order[..k] :: e in order
    ensures forall e | e in order[k + 1..] :: e in order && e !in order[..k] && e != order[k]
  {
    var pre, post := order[..k], order[k + 1..];
    assert forall i | 0 <= i < k :: pre[i] == order[i];
    assert forall i | 0 <= i < |post| :: post[i] == order[k + 1 + i];
  }

  /** Visiting a day without a non-zero value, after a pass that has not failed yet. */
  lemma FailingVisit(prev: Pass, d: Date, r: DayRecord)
    requires prev.failure.None? && d in prev.records && prev.records[d] == r
    requires Aligned(r) && |r.generation| > 0 && !HasGeneration(r)
    ensures Visit(prev, d) == Pass(prev.records[d := r.(peakGen := Some(Max(r.generation)), totalGen := Some(Sum(r.generation)))],
                                   Some((d, NoGeneration)))
  {
    SummariseFailsOnlyWithoutGeneration(r);
  }

  /** A day holds a non-zero value. */
  predicate HasGeneration(r: DayRecord)
  {
    exists i | 0 <= i < |r.generation| :: r.generation[i] != 0
  }

  lemma AllInAppend(p: seq<Date>, d: Date, records: map<Date, DayRecord>)
    requires forall e | e in p + [d] :: e in records
    ensures (forall e | e in p + [d] :: HasGeneration(records[e])) <==>
            (forall e | e in p :: HasGeneration(records[e])) && HasGeneration(records[d])
  {
  }

  /** One more key visited by the pass. */
  lemma FillAllNext(order: seq<Date>, records: map<Date, DayRecord>, i: nat)
    requires i < |order|
    ensures FillAll(order[..i + 1], records) == Visit(FillAll(order[..i], records), order[i])
  {
    var a := order[..i + 1];
    assert a[..|a| - 1] == order[..i] && a[|a| - 1] == order[i];
  }

  /** Once a day raises, the keys after it are never visited. */
  lemma {:induction false} FillAllStops(order: seq<Date>, records: map<Date, DayRecord>, k: nat)
    requires k <= |order| && FillAll(order[..k], records).failure.Some?
    ensures FillAll(order, records) == FillAll(order[..k], records)
    decreases |order|
  {
    if k < |order| {
      var p := order[..|order| - 1];
      assert p[..k] == order[..k];
      FillAllStops(p, records, k);
    } else {
      assert order[..k] == order;
    }
  }

  /** A key the pass has not reached keeps its record. */
  lemma {:induction false} FillAllUntouched(order: seq<Date>, records: map<Date, DayRecord>, d: Date)
    requires d !in order
    ensures d in records ==> FillAll(order, records).records[d] == records[d]
  {
    if order != [] {
      FillAllUntouched(order[..|order| - 1], records, d);
    }
  }
}
