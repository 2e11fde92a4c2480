/**
 * The script's module-level state and its two loops, run in place: the
 * cursor `PrevDate`, the dict `Gen` and the insertion order of its keys
 * (which Python's dict keeps and `for date in Gen` follows).
 */
module Script {
  import opened Wrappers
  import opened Grouping
  import opened Metrics

  class SolarGen {
    var prevDate: Date
    var gen: map<Date, DayRecord>
    var order: seq<Date>

    /** The state as a value, for the specifications in Grouping and Metrics. */
    function State(): Store
      reads this
    {
      Store(prevDate, gen, order)
    }

    ghost predicate Valid()
      reads this
    {
      WellFormed(State())
    }

    /** Lines 92-93: `PrevDate = arrow.get("1900-01-01")`, `Gen = {}`. */
    constructor ()
      ensures State() == Initial && Valid()
    {
      prevDate := Sentinel;
      gen := map[];
      order := [];
    }

    /**
     * Lines 101-107 for one parsed reading: append to the cursor's record, or
     * move the cursor and start a record (the date keeps its place among the
     * keys when it has one). `ok` is false where `Gen[date]` raises.
     */
    method Group(row: Row) returns (ok: bool)
      requires Valid()
      modifies this
      ensures ok <==> StepRow(old(State()), row).Ok?
      ensures ok ==> StepRow(old(State()), row) == Ok(State()) && Valid()
      ensures !ok ==> State() == old(State())
    {
      ghost var before := State();
      if row.date == prevDate {
        if row.date !in gen {
          return false;
        }
        gen := gen[row.date := Append(gen[row.date], row)];
      } else {
        prevDate := row.date;
        if row.date !in gen {
          order := order + [row.date];
        }
        gen := gen[row.date := Start(row)];
      }
      assert StepRow(before, row) == Ok(State());
      StepRowPreservesWellFormed(before, row);
      return true;
    }

    /**
     * Lines 95-107 over the feed `rs`. Either every reading is taken in,
     * or the loop stops at the first reading `k` that raises, with the state
     * the readings before it left.
     */
    method Ingest(rs: seq<Reading>) returns (failure: Option<(nat, IngestError)>)
      requires Valid()
      modifies this
      ensures Valid()
      ensures failure.None? ==> Feed(old(State()), rs) == Ok(State())
      ensures failure.Some? ==>
        && failure.value.0 < |rs|
        && Feed(old(State()), rs[..failure.value.0]) == Ok(State())
        && Step(State(), rs[failure.value.0]) == Err(failure.value.1)
        && Feed(old(State()), rs) == Err(failure.value.1)
    {
      ghost var s0 := State();
      var i := 0;
      while i < |rs|
        invariant 0 <= i <= |rs|
        invariant Valid()
        invariant Feed(s0, rs[..i]) == Ok(State())
      {
        var parsed := ParseReading(rs[i]);
        if parsed.Err? {
          failure := Some((i, parsed.error));
          FeedStopsAt(s0, rs, i, parsed.error);
          return;
        }
        var ok := Group(parsed.value);
        if !ok {
          failure := Some((i, MissingRecord));
          FeedStopsAt(s0, rs, i, MissingRecord);
          return;
        }
        FeedNext(s0, rs, i);
        i := i + 1;
      }
      assert rs[..i] == rs;
      failure := None;
    }

    /**
     * Lines 115-119 for the key `d`: write the day's metrics into its record
     * in place. `failure` names the day when one of those lines raises.
     */
    method FillDay(d: Date) returns (failure: Option<(Date, MetricsError)>)
      requires Valid() && d in gen
      modifies this
      ensures Valid() && prevDate == old(prevDate) && order == old(order)
      ensures Visit(Pass(old(gen), None), d) == Pass(gen, failure)
    {
      ghost var before := State();
      var f := Summarise(gen[d]);
      gen := gen[d := f.record];
      failure := Outcome(d, f);
      VisitPreservesWellFormed(before, d);
    }

    /**
     * Lines 114-119: summarise every day in key order, writing each key as
     * it is computed, and stop at the first day that raises.
     */
    method ComputeMetrics() returns (failure: Option<(Date, MetricsError)>)
      requires Valid()
      modifies this
      ensures Valid()
      ensures prevDate == old(prevDate) && order == old(order)
      ensures FillAll(order, old(gen)) == Pass(gen, failure)
    {
      ghost var s0 := State();
      var i := 0;
      assert order[..0] == [];
      while i < |order|
        invariant 0 <= i <= |order|
        invariant Valid() && prevDate == s0.prevDate && order == s0.order
        invariant FillAll(order[..i], s0.records) == Pass(gen, None)
      {
        FillAllNext(order, s0.records, i);
        failure := FillDay(order[i]);
        if failure.Some? {
          FillAllStops(order, s0.records, i + 1);
          return;
        }
        i := i + 1;
      }
      assert order[..i] == order;
      failure := None;
    }
  }
}
