/**
 * The grouping pass of the script: one pass over the feed with a "previous
 * date" cursor, building the dict `Gen` from each date to a record of three
 * parallel lists (`dt`, `HH`, `Generation`). A reading dated like the one
 * before it is appended to that date's record; any other reading starts a
 * fresh record, `Gen[date] = {...}`, which replaces a record the date already
 * had while the key keeps its place in the dict's insertion order.
 *
 * Here the state is a value (`Store`) and one reading's effect a function
 * (`Step`); the class in solar_gen.dfy runs the loop in place against them.
 */
module Grouping {
  import opened Wrappers
  import opened HalfHour

  /** A calendar date "YYYY-MM-DD", compared by equality only. */
  type Date = string

  /** The cursor's starting value, `arrow.get("1900-01-01")`. */
  const Sentinel: Date := "1900-01-01"

  /** One element of the feed: its timestamp `item[1]` and its generation `item[2]`. */
  datatype Reading = Reading(dt: string, gen: int)

  /** A reading after `dt.split('T')` and `toHH(time)`. */
  datatype Row = Row(dt: string, date: Date, hh: int, gen: int)

  /**
   * Why a reading stops the pass: the timestamp does not split into exactly
   * two parts at 'T', `toHH` fails, or the date equals the cursor but has no
   * record (`Gen[date]` raises `KeyError`; only a first reading dated 1900-01-01 does that).
   */
  datatype IngestError = MalformedTimestamp | BadTime(cause: HalfHourError) | MissingRecord

  /**
   * The dict `Gen[date]`: the three parallel lists, and the four keys the
   * metrics pass adds (absent until it writes them).
   */
  datatype DayRecord = DayRecord(
    dt: seq<string>, hh: seq<int>, generation: seq<int>,
    peakGen: Option<int>, totalGen: Option<int>, genStart: Option<int>, genEnd: Option<int>)

  /** The script's state: the cursor `PrevDate`, the dict `Gen` and the order of its keys. */
  datatype Store = Store(prevDate: Date, records: map<Date, DayRecord>, order: seq<Date>)

  /** `PrevDate = arrow.get("1900-01-01")`, `Gen = {}`. */
  const Initial: Store := Store(Sentinel, map[], [])

  function IndexOf(s: string, c: char): (i: nat)
    ensures i <= |s| && c !in s[..i]
    ensures i < |s| ==> s[i] == c
  {
    if s == [] then 0 else if s[0] == c then 0 else 1 + IndexOf(s[1..], c)
  }

  /** `date, time = dt.split('T')`, which fails unless `dt` holds exactly one 'T'. */
  function SplitTimestamp(dt: string): (r: Option<(Date, string)>)
    ensures r.Some? ==> dt == r.value.0 + "T" + r.value.1 && 'T' !in r.value.0 && 'T' !in r.value.1
  {
    var i := IndexOf(dt, 'T');
    if i < |dt| && 'T' !in dt[i + 1..] then
      assert dt == dt[..i] + "T" + dt[i + 1..];
      Some((dt[..i], dt[i + 1..]))
    else
      None
  }

  /** The split succeeds exactly when the timestamp holds one 'T'. */
  lemma SplitTimestampSucceeds(dt: string)
    ensures SplitTimestamp(dt).Some? <==> exists i | 0 <= i < |dt| :: dt[i] == 'T' && 'T' !in dt[..i] && 'T' !in dt[i + 1..]
  {
    var i := IndexOf(dt, 'T');
    forall j | 0 <= j < |dt| && dt[j] == 'T' && 'T' !in dt[..j] && 'T' !in dt[j + 1..]
      ensures i == j
    {
      assert forall k | 0 <= k < i :: dt[..i][k] == dt[k];
      assert forall k | 0 <= k < j :: dt[..j][k] == dt[k];
      assert forall k | i < k < |dt| && k != |dt| :: dt[i + 1..][k - i - 1] == dt[k];
    }
  }

  /** Splitting undoes joining a date and a time that hold no 'T'. */
  lemma SplitJoin(date: Date, time: string)
    requires 'T' !in date && 'T' !in time
    ensures SplitTimestamp(date + "T" + time) == Some((date, time))
  {
    var dt := date + "T" + time;
    assert dt[|date|] == 'T' && dt[..|date|] == date && dt[|date| + 1..] == time;
  }

  /** Lines 96-100 for one reading: split the timestamp and convert its time. */
  function ParseReading(rd: Reading): (r: Result<Row, IngestError>)
    ensures r.Ok? ==> r.value.dt == rd.dt && r.value.gen == rd.gen
  {
    match SplitTimestamp(rd.dt)
    case None => Err(MalformedTimestamp)
    case Some((date, time)) =>
      match ToHH(time)
      case Err(e) => Err(BadTime(e))
      case Ok(hh) => Ok(Row(rd.dt, date, hh, rd.gen))
  }

  /**
   * A reading parses when its timestamp splits and its time converts; the
   * row then holds the date before the 'T' and the period of the time after it.
   */
  lemma ParseReadingSpec(rd: Reading)
    ensures var r := ParseReading(rd);
      && (r.Ok? ==> rd.dt == r.value.date + "T" + TimeOf(rd) && Ok(r.value.hh) == ToHH(TimeOf(rd)))
      && (r == Err(MalformedTimestamp) <==> SplitTimestamp(rd.dt).None?)
      && (r.Err? <==> SplitTimestamp(rd.dt).None? || ToHH(TimeOf(rd)).Err?)
  {
  }

  /** The time part of a reading's timestamp ("" when it does not split). */
  function TimeOf(rd: Reading): string
  {
    match SplitTimestamp(rd.dt)
    case Some((_, time)) => time
    case None => ""
  }

  /**
   * `Gen[date]['HH'].append(HH)` and the two appends beside it: every list
   * grows by one entry, the reading's, so aligned lists stay aligned.
   */
  function Append(r: DayRecord, row: Row): (a: DayRecord)
    ensures Aligned(r) ==> Aligned(a)
    ensures |a.generation| == |r.generation| + 1 && a.generation[|r.generation|] == row.gen
    ensures |a.hh| == |r.hh| + 1 && a.hh[|r.hh|] == row.hh
    ensures |a.dt| == |r.dt| + 1 && a.dt[|r.dt|] == row.dt
    ensures a.dt[..|r.dt|] == r.dt && a.hh[..|r.hh|] == r.hh && a.generation[..|r.generation|] == r.generation
    ensures a.peakGen == r.peakGen && a.totalGen == r.totalGen && a.genStart == r.genStart && a.genEnd == r.genEnd
  {
    r.(dt := r.dt + [row.dt], hh := r.hh + [row.hh], generation := r.generation + [row.gen])
  }

  /** `{'dt': [dt], 'HH': [HH], 'Generation': [gen]}`: aligned lists of one reading, no metrics yet. */
  function Start(row: Row): (r: DayRecord)
    ensures Aligned(r) && r.generation == [row.gen] && r.hh == [row.hh] && r.dt == [row.dt]
    ensures r.peakGen.None? && r.totalGen.None? && r.genStart.None? && r.genEnd.None?
  {
    DayRecord([row.dt], [row.hh], [row.gen], None, None, None, None)
  }

  /** Lines 101-107: append to the cursor's record, or move the cursor and start a record. */
  function StepRow(s: Store, row: Row): (r: Result<Store, IngestError>)
    ensures r.Err? <==> row.date == s.prevDate && row.date !in s.records
    ensures r.Err? ==> r.error == MissingRecord
    ensures r.Ok? ==> r.value.prevDate == row.date && r.value.records.Keys == s.records.Keys + {row.date}
  {
    if row.date == s.prevDate then
      if row.date in s.records then
        Ok(s.(records := s.records[row.date := Append(s.records[row.date], row)]))
      else
        Err(MissingRecord)
    else
      Ok(Store(row.date, s.records[row.date := Start(row)],
               if row.date in s.records then s.order else s.order + [row.date]))
  }

  /** One iteration of the loop at lines 95-107, given what parsing its reading gave. */
  function StepParsed(s: Store, pr: Result<Row, IngestError>): Result<Store, IngestError>
  {
    match pr
    case Err(e) => Err(e)
    case Ok(row) => StepRow(s, row)
  }

  /**
   * One iteration of the loop at lines 95-107. When it goes through, the
   * reading's date becomes the cursor and the only key that may be new.
   */
  function Step(s: Store, rd: Reading): (r: Result<Store, IngestError>)
    ensures r.Ok? ==> r.value.records.Keys == s.records.Keys + {r.value.prevDate}
    ensures r.Ok? ==> SplitTimestamp(rd.dt).Some? && r.value.prevDate == SplitTimestamp(rd.dt).value.0
  {
    StepParsed(s, ParseReading(rd))
  }

  /** Lines 96-100 applied to each reading of a feed. */
  function ParseAll(rs: seq<Reading>): seq<Result<Row, IngestError>>
  {
    seq(|rs|, i requires 0 <= i < |rs| => ParseReading(rs[i]))
  }

  /** The loop over a feed whose readings parsed to `ps`, stopping at the first that raises. */
  function FeedParsed(s: Store, ps: seq<Result<Row, IngestError>>): (r: Result<Store, IngestError>)
    ensures r.Ok? ==> s.records.Keys <= r.value.records.Keys
    decreases |ps|
  {
    if ps == [] then Ok(s)
    else
      match FeedParsed(s, ps[..|ps| - 1])
      case Err(e) => Err(e)
      case Ok(t) => StepParsed(t, ps[|ps| - 1])
  }

  /** The whole loop over a feed, stopping at the first reading that raises; no key is ever removed. */
  function Feed(s: Store, rs: seq<Reading>): (r: Result<Store, IngestError>)
    ensures r.Ok? ==> s.records.Keys <= r.value.records.Keys
  {
    FeedParsed(s, ParseAll(rs))
  }

  /** The loop over readings that are already parsed; no key is ever removed. */
  function FeedRows(s: Store, rows: seq<Row>): (r: Result<Store, IngestError>)
    ensures r.Ok? ==> s.records.Keys <= r.value.records.Keys
    decreases |rows|
  {
    if rows == [] then Ok(s)
    else
      match FeedRows(s, rows[..|rows| - 1])
      case Err(e) => Err(e)
      case Ok(t) => StepRow(t, rows[|rows| - 1])
  }

  /** The rows that parsing gave (a placeholder stands for a reading that did not parse). */
  function Values(ps: seq<Result<Row, IngestError>>): seq<Row>
  {
    seq(|ps|, i requires 0 <= i < |ps| => if ps[i].Ok? then ps[i].value else Row("", "", 0, 0))
  }

  /** The parsed rows of a feed. */
  function RowsOf(rs: seq<Reading>): seq<Row>
  {
    Values(ParseAll(rs))
  }

  /** The last reading of a feed is grouped after the others. */
  lemma FeedParsedLast(s: Store, p: seq<Result<Row, IngestError>>, pr: Result<Row, IngestError>)
    requires FeedParsed(s, p).Ok?
    ensures FeedParsed(s, p + [pr]) == StepParsed(FeedParsed(s, p).value, pr)
  {
    var q := p + [pr];
    assert q[..|q| - 1] == p && q[|q| - 1] == pr;
  }

  /** The last row of a feed is grouped after the others. */
  lemma FeedRowsLast(s: Store, p: seq<Row>, row: Row)
    requires FeedRows(s, p).Ok?
    ensures FeedRows(s, p + [row]) == StepRow(FeedRows(s, p).value, row)
  {
    var rows := p + [row];
    assert rows[..|rows| - 1] == p && rows[|rows| - 1] == row;
  }

  lemma {:induction false} FeedParsedIsFeedRows(s: Store, ps: seq<Result<Row, IngestError>>)
    requires FeedParsed(s, ps).Ok?
    ensures forall i | 0 <= i < |ps| :: ps[i].Ok?
    ensures FeedRows(s, Values(ps)) == FeedParsed(s, ps)
    decreases |ps|
  {
    if ps != [] {
      var p := ps[..|ps| - 1];
      assert FeedParsed(s, p).Ok?;
      FeedParsedIsFeedRows(s, p);
      assert Values(ps)[..|ps| - 1] == Values(p);
    }
    FeedParsedAllParse(s, ps);
  }

  lemma {:induction false} FeedParsedAllParse(s: Store, ps: seq<Result<Row, IngestError>>)
    requires FeedParsed(s, ps).Ok?
    ensures forall i | 0 <= i < |ps| :: ps[i].Ok?
    decreases |ps|
  {
    if ps != [] {
      var p := ps[..|ps| - 1];
      assert FeedParsed(s, p).Ok?;
      FeedParsedAllParse(s, p);
      forall i | 0 <= i < |ps| ensures ps[i].Ok? {
        if i < |p| {
          assert ps[i] == p[i];
        }
      }
    }
  }

  /** A feed the loop gets through is one whose readings all parse, grouped as parsed rows. */
  lemma FeedIsFeedRows(s: Store, rs: seq<Reading>)
    requires Feed(s, rs).Ok?
    ensures forall i | 0 <= i < |rs| :: ParseReading(rs[i]).Ok? && RowsOf(rs)[i] == ParseReading(rs[i]).value
    ensures FeedRows(s, RowsOf(rs)) == Feed(s, rs)
  {
    FeedParsedIsFeedRows(s, ParseAll(rs));
    forall i | 0 <= i < |rs| ensures ParseReading(rs[i]).Ok? && RowsOf(rs)[i] == ParseReading(rs[i]).value {
      assert ParseAll(rs)[i] == ParseReading(rs[i]);
    }
  }

  // ---------------------------------------------------------------------------
  // The invariant of the pass

  predicate Aligned(r: DayRecord)
  {
    |r.dt| == |r.hh| == |r.generation|
  }

  predicate NoDuplicates(order: seq<Date>)
  {
    forall i, j | 0 <= i < j < |order| :: order[i] != order[j]
  }

  /** In a key order without duplicates the last key does not occur before it. */
  lemma LastNotEarlier(order: seq<Date>)
    requires NoDuplicates(order) && order != []
    ensures order[|order| - 1] !in order[..|order| - 1]
  {
    var n := |order| - 1;
    assert forall i | 0 <= i < n :: order[..n][i] == order[i];
  }

  /**
   * What holds after every iteration: every record has three lists of one
   * equal, positive length; the key order lists each key of `Gen` once; and
   * the cursor names a record unless nothing has been read yet.
   */
  predicate WellFormed(s: Store)
  {
    && (forall d | d in s.records :: Aligned(s.records[d]) && |s.records[d].generation| > 0)
    && (forall d | d in s.records :: d in s.order) && (forall d | d in s.order :: d in s.records)
    && NoDuplicates(s.order)
    && (s.prevDate in s.records || (s.prevDate == Sentinel && s.records == map[] && s.order == []))
  }

  lemma InitialWellFormed()
    ensures WellFormed(Initial)
  {
  }

  lemma StepRowPreservesWellFormed(s: Store, row: Row)
    requires WellFormed(s) && StepRow(s, row).Ok?
    ensures WellFormed(StepRow(s, row).value)
  {
    var t := StepRow(s, row).value;
    if row.date != s.prevDate && row.date !in s.records {
      assert t.order == s.order + [row.date];
      forall i, j | 0 <= i < j < |t.order| ensures t.order[i] != t.order[j] {
        if j == |s.order| {
          assert s.order[i] in s.order;
        }
      }
    }
  }

  lemma {:induction false} FeedParsedPreservesWellFormed(s: Store, ps: seq<Result<Row, IngestError>>)
    requires WellFormed(s) && FeedParsed(s, ps).Ok?
    ensures WellFormed(FeedParsed(s, ps).value)
    decreases |ps|
  {
    if ps != [] {
      var p := ps[..|ps| - 1];
      assert FeedParsed(s, p).Ok?;
      FeedParsedPreservesWellFormed(s, p);
      StepRowPreservesWellFormed(FeedParsed(s, p).value, ps[|ps| - 1].value);
    }
  }

  /** The invariant holds after every prefix of the feed that the loop gets through. */
  lemma FeedPreservesWellFormed(s: Store, rs: seq<Reading>)
    requires WellFormed(s) && Feed(s, rs).Ok?
    ensures WellFormed(Feed(s, rs).value)
  {
    FeedParsedPreservesWellFormed(s, ParseAll(rs));
  }

  lemma {:induction false} FeedRowsPreservesWellFormed(s: Store, rows: seq<Row>)
    requires WellFormed(s) && FeedRows(s, rows).Ok?
    ensures WellFormed(FeedRows(s, rows).value)
    decreases |rows|
  {
    if rows != [] {
      var p := rows[..|rows| - 1];
      assert FeedRows(s, p).Ok?;
      FeedRowsPreservesWellFormed(s, p);
      StepRowPreservesWellFormed(FeedRows(s, p).value, rows[|rows| - 1]);
    }
  }

  lemma {:induction false} FeedParsedAppend(s: Store, a: seq<Result<Row, IngestError>>, b: seq<Result<Row, IngestError>>)
    ensures FeedParsed(s, a + b) == match FeedParsed(s, a) case Err(e) => Err(e) case Ok(t) => FeedParsed(t, b)
    decreases |b|
  {
    if b == [] {
      assert a + b == a;
    } else {
      assert (a + b)[..|a + b| - 1] == a + b[..|b| - 1];
      FeedParsedAppend(s, a, b[..|b| - 1]);
    }
  }

  /** Feeding `a` and then `b` is feeding `a + b`: a feed may be split anywhere. */
  lemma FeedAppend(s: Store, a: seq<Reading>, b: seq<Reading>)
    ensures Feed(s, a + b) == match Feed(s, a) case Err(e) => Err(e) case Ok(t) => Feed(t, b)
  {
    ParseAllAppend(a, b);
    FeedParsedAppend(s, ParseAll(a), ParseAll(b));
  }

  /** Parsing is reading by reading, so it distributes over concatenation. */
  lemma ParseAllAppend(a: seq<Reading>, b: seq<Reading>)
    ensures ParseAll(a + b) == ParseAll(a) + ParseAll(b)
  {
    var l, r, lr := ParseAll(a), ParseAll(b), ParseAll(a + b);
    assert forall i | 0 <= i < |a| :: lr[i] == l[i] by {
      assert forall i | 0 <= i < |a| :: (a + b)[i] == a[i];
    }
    assert forall i | 0 <= i < |b| :: lr[|a| + i] == r[i] by {
      assert forall i | 0 <= i < |b| :: (a + b)[|a| + i] == b[i];
    }
  }

  /** An error is final: readings after it are never looked at. */
  lemma {:induction false} FeedErrorSticks(s: Store, a: seq<Result<Row, IngestError>>, b: seq<Result<Row, IngestError>>)
    requires FeedParsed(s, a).Err?
    ensures FeedParsed(s, a + b) == FeedParsed(s, a)
    decreases |b|
  {
    if b != [] {
      assert (a + b)[..|a + b| - 1] == a + b[..|b| - 1];
      FeedErrorSticks(s, a, b[..|b| - 1]);
    } else {
      assert a + b == a;
    }
  }

  /** A reading that raises ends the loop: the whole feed raises the same error. */
  lemma FeedStopsAt(s: Store, rs: seq<Reading>, k: nat, e: IngestError)
    requires k < |rs| && Feed(s, rs[..k]).Ok? && Step(Feed(s, rs[..k]).value, rs[k]) == Err(e)
    ensures Feed(s, rs) == Err(e)
  {
    var ps := ParseAll(rs);
    ParseAllPrefix(rs, k);
    assert ps[k] == ParseReading(rs[k]);
    FeedParsedStopsAt(s, ps, k, e);
  }

  /** Parsing a prefix of the feed gives the prefix of the parsed feed. */
  lemma ParseAllPrefix(rs: seq<Reading>, k: nat)
    requires k <= |rs|
    ensures ParseAll(rs[..k]) == ParseAll(rs)[..k]
  {
    var l, a := ParseAll(rs[..k]), ParseAll(rs);
    assert forall i | 0 <= i < k :: l[i] == a[i] by {
      assert forall i | 0 <= i < k :: rs[..k][i] == rs[i];
    }
  }

  lemma FeedParsedStopsAt(s: Store, ps: seq<Result<Row, IngestError>>, k: nat, e: IngestError)
    requires k < |ps| && FeedParsed(s, ps[..k]).Ok? && StepParsed(FeedParsed(s, ps[..k]).value, ps[k]) == Err(e)
    ensures FeedParsed(s, ps) == Err(e)
  {
    FeedParsedLast(s, ps[..k], ps[k]);
    assert ps[..k] + [ps[k]] == ps[..k + 1];
    assert ps == ps[..k + 1] + ps[k + 1..];
    FeedErrorSticks(s, ps[..k + 1], ps[k + 1..]);
  }

  /** One more reading taken in by the loop. */
  lemma FeedNext(s: Store, rs: seq<Reading>, i: nat)
    requires i < |rs| && Feed(s, rs[..i]).Ok?
    ensures Feed(s, rs[..i + 1]) == Step(Feed(s, rs[..i]).value, rs[i])
  {
    ParseAllPrefix(rs, i);
    ParseAllPrefix(rs, i + 1);
    var a := ParseAll(rs);
    assert a[..i + 1] == a[..i] + [a[i]];
    FeedParsedLast(s, ParseAll(rs[..i]), ParseReading(rs[i]));
  }

  /** A non-empty sequence is its prefix followed by its last element. */
  lemma SplitLast<T>(s: seq<T>)
    requires s != []
    ensures s[..|s| - 1] + [s[|s| - 1]] == s
  {
  }

  /** The dates of parsed readings, in arrival order. */
  function Dates(rows: seq<Row>): (ds: seq<Date>)
    ensures |ds| == |rows| && forall i | 0 <= i < |rows| :: ds[i] == rows[i].date
  {
    if rows == [] then [] else Dates(rows[..|rows| - 1]) + [rows[|rows| - 1].date]
  }

  lemma DatesSnoc(p: seq<Row>, row: Row)
    ensures Dates(p + [row]) == Dates(p) + [row.date]
  {
    assert (p + [row])[..|p|] == p;
  }

  /** From the empty state the keys of `Gen` are exactly the dates of the feed. */
  lemma {:induction false} FeedRowsKeys(rows: seq<Row>)
    requires FeedRows(Initial, rows).Ok?
    ensures FeedRows(Initial, rows).value.records.Keys == set i | 0 <= i < |rows| :: rows[i].date
    decreases |rows|
  {
    if rows != [] {
      var p := rows[..|rows| - 1];
      assert FeedRows(Initial, p).Ok?;
      FeedRowsKeys(p);
      DateSetLast(rows);
    }
  }

  lemma DateSetLast(rows: seq<Row>)
    requires rows != []
    ensures var p := rows[..|rows| - 1];
      (set i | 0 <= i < |rows| :: rows[i].date) == (set i | 0 <= i < |p| :: p[i].date) + {rows[|rows| - 1].date}
  {
    var p := rows[..|rows| - 1];
    forall i | 0 <= i < |p| ensures p[i] == rows[i] { }
  }

  /**
   * The sentinel: a first reading dated anything but 1900-01-01 starts the
   * first record; one dated 1900-01-01 finds no record and raises `KeyError`.
   */
  lemma FirstReadingStartsRecord(row: Row)
    ensures row.date != Sentinel ==> StepRow(Initial, row) == Ok(Store(row.date, map[row.date := Start(row)], [row.date]))
    ensures row.date == Sentinel ==> StepRow(Initial, row) == Err(MissingRecord)
  {
    if row.date != Sentinel {
      assert [] + [row.date] == [row.date];
      assert map[][row.date := Start(row)] == map[row.date := Start(row)];
    }
  }

  /**
   * A reading dated like the previous one is appended to that record, in
   * arrival order; no other record, no key and not the order change.
   */
  lemma StepSameDateAppends(s: Store, row: Row)
    requires StepRow(s, row).Ok? && row.date == s.prevDate
    ensures var t := StepRow(s, row).value;
      && t.prevDate == s.prevDate && t.order == s.order && t.records.Keys == s.records.Keys
      && t.records[row.date].dt == s.records[row.date].dt + [row.dt]
      && t.records[row.date].hh == s.records[row.date].hh + [row.hh]
      && t.records[row.date].generation == s.records[row.date].generation + [row.gen]
      && (forall d | d in s.records && d != row.date :: t.records[d] == s.records[d])
  {
  }

  /**
   * A reading dated unlike the previous one moves the cursor and starts a
   * one-reading record. When the date already had a record (it recurs after
   * another date) that record is replaced, its readings lost, and the key
   * keeps its place; otherwise the key goes last.
   */
  lemma StepNewDateStarts(s: Store, row: Row)
    requires row.date != s.prevDate
    ensures var t := StepRow(s, row).value;
      && StepRow(s, row).Ok?
      && t.prevDate == row.date
      && t.records[row.date] == Start(row)
      && t.records[row.date].generation == [row.gen]
      && (forall d | d in s.records && d != row.date :: t.records[d] == s.records[d])
      && t.order == (if row.date in s.records then s.order else s.order + [row.date])
  {
  }

  // ---------------------------------------------------------------------------
  // Reading the records back in key order

  /** One list of every record, concatenated in the dict's key order. */
  function Flatten<T>(order: seq<Date>, records: map<Date, DayRecord>, col: DayRecord -> seq<T>): seq<T>
  {
    if order == [] then []
    else
      var d := order[|order| - 1];
      Flatten(order[..|order| - 1], records, col) + (if d in records then col(records[d]) else [])
  }

  lemma {:induction false} FlattenFrame<T>(order: seq<Date>, records: map<Date, DayRecord>, d: Date, x: DayRecord, col: DayRecord -> seq<T>)
    requires d !in order
    ensures Flatten(order, records[d := x], col) == Flatten(order, records, col)
  {
    if order != [] {
      FlattenFrame(order[..|order| - 1], records, d, x, col);
    }
  }

  lemma {:induction false} FlattenReplace<T>(order: seq<Date>, records: map<Date, DayRecord>, d: Date, x: DayRecord, col: DayRecord -> seq<T>)
    requires NoDuplicates(order) && d in order && d in records
    ensures |Flatten(order, records[d := x], col)| + |col(records[d])| == |Flatten(order, records, col)| + |col(x)|
  {
    var p, last := order[..|order| - 1], order[|order| - 1];
    if last == d {
      FlattenFrame(p, records, d, x, col);
    } else {
      FlattenReplace(p, records, d, x, col);
    }
  }

  /** The date at position `k` either continues the one before it or has not been seen before. */
  predicate NewDateIsFresh(ds: seq<Date>, k: nat)
    requires 0 < k < |ds|
  {
    ds[k] != ds[k - 1] ==> ds[k] !in ds[..k - 1]
  }

  /**
   * Dates that never recur after a different date, so that the readings of
   * one date are contiguous.
   */
  predicate NoRecurrence(ds: seq<Date>)
  {
    forall k | 0 < k < |ds| :: NewDateIsFresh(ds, k)
  }

  /** "YYYY-MM-DD" strings compare lexicographically in calendar order. */
  predicate LexLe(a: string, b: string)
  {
    a == [] || (b != [] && (a[0] < b[0] || (a[0] == b[0] && LexLe(a[1..], b[1..]))))
  }

  lemma {:induction false} LexLeAntisymmetric(a: string, b: string)
    requires LexLe(a, b) && LexLe(b, a)
    ensures a == b
  {
    if a != [] && b != [] {
      LexLeAntisymmetric(a[1..], b[1..]);
      assert a == [a[0]] + a[1..] && b == [b[0]] + b[1..];
    }
  }

  /** A date strictly before another is not after it. */
  lemma LexLeStrict(a: string, b: string)
    requires LexLe(a, b) && a != b
    ensures !LexLe(b, a)
  {
    if LexLe(b, a) {
      LexLeAntisymmetric(a, b);
    }
  }

  /** Dates in ascending order, as the feed delivers them. */
  predicate NonDecreasing(ds: seq<Date>)
  {
    forall i, j | 0 <= i < j < |ds| :: LexLe(ds[i], ds[j])
  }

  lemma NonDecreasingHasNoRecurrence(ds: seq<Date>)
    requires NonDecreasing(ds)
    ensures NoRecurrence(ds)
  {
    forall k | 0 < k < |ds| ensures NewDateIsFresh(ds, k) {
      if ds[k] != ds[k - 1] {
        LexLeStrict(ds[k - 1], ds[k]);
        forall i | 0 <= i < k - 1 ensures ds[i] != ds[k] {
          assert LexLe(ds[i], ds[k - 1]);
        }
      }
    }
  }

  /** The columns of parsed readings, in arrival order. */
  function Gens(rows: seq<Row>): (r: seq<int>)
    ensures |r| == |rows| && forall i | 0 <= i < |rows| :: r[i] == rows[i].gen
  {
    if rows == [] then [] else Gens(rows[..|rows| - 1]) + [rows[|rows| - 1].gen]
  }

  function Dts(rows: seq<Row>): (r: seq<string>)
    ensures |r| == |rows| && forall i | 0 <= i < |rows| :: r[i] == rows[i].dt
  {
    if rows == [] then [] else Dts(rows[..|rows| - 1]) + [rows[|rows| - 1].dt]
  }

  function HHs(rows: seq<Row>): (r: seq<int>)
    ensures |r| == |rows| && forall i | 0 <= i < |rows| :: r[i] == rows[i].hh
  {
    if rows == [] then [] else HHs(rows[..|rows| - 1]) + [rows[|rows| - 1].hh]
  }

  /**
   * An iteration that appends to the last record, or starts a record for a
   * date not seen before, adds the reading at the end of every column.
   */
  lemma StepExtendsColumns(s: Store, row: Row)
    requires WellFormed(s) && StepRow(s, row).Ok?
    requires s.order != [] ==> s.order[|s.order| - 1] == s.prevDate
    requires row.date == s.prevDate || row.date !in s.records
    ensures var t := StepRow(s, row).value;
      && Flatten(t.order, t.records, (r: DayRecord) => r.generation) == Flatten(s.order, s.records, (r: DayRecord) => r.generation) + [row.gen]
      && Flatten(t.order, t.records, (r: DayRecord) => r.hh) == Flatten(s.order, s.records, (r: DayRecord) => r.hh) + [row.hh]
      && Flatten(t.order, t.records, (r: DayRecord) => r.dt) == Flatten(s.order, s.records, (r: DayRecord) => r.dt) + [row.dt]
      && t.order != [] && t.order[|t.order| - 1] == t.prevDate
  {
    if row.date == s.prevDate {
      AppendExtendsColumns(s, row);
    } else {
      StartExtendsColumns(s, row);
    }
  }

  /** The same-date branch of `StepExtendsColumns`: the last record, and only it, grows. */
  lemma AppendExtendsColumns(s: Store, row: Row)
    requires WellFormed(s) && row.date == s.prevDate && row.date in s.records
    requires s.order != [] ==> s.order[|s.order| - 1] == s.prevDate
    ensures var t := s.records[row.date := Append(s.records[row.date], row)];
      && Flatten(s.order, t, (r: DayRecord) => r.generation) == Flatten(s.order, s.records, (r: DayRecord) => r.generation) + [row.gen]
      && Flatten(s.order, t, (r: DayRecord) => r.hh) == Flatten(s.order, s.records, (r: DayRecord) => r.hh) + [row.hh]
      && Flatten(s.order, t, (r: DayRecord) => r.dt) == Flatten(s.order, s.records, (r: DayRecord) => r.dt) + [row.dt]
      && s.order[|s.order| - 1] == row.date
  {
    var d := row.date;
    var n := |s.order| - 1;
    assert s.order != [] && s.order[n] == d;
    LastNotEarlier(s.order);
    var x := Append(s.records[d], row);
    FlattenFrame(s.order[..n], s.records, d, x, (r: DayRecord) => r.generation);
    FlattenFrame(s.order[..n], s.records, d, x, (r: DayRecord) => r.hh);
    FlattenFrame(s.order[..n], s.records, d, x, (r: DayRecord) => r.dt);
  }

  /** The new-date branch of `StepExtendsColumns`: a record of one reading goes at the end. */
  lemma StartExtendsColumns(s: Store, row: Row)
    requires WellFormed(s) && row.date !in s.records
    ensures var t := s.records[row.date := Start(row)];
      && Flatten(s.order + [row.date], t, (r: DayRecord) => r.generation) == Flatten(s.order, s.records, (r: DayRecord) => r.generation) + [row.gen]
      && Flatten(s.order + [row.date], t, (r: DayRecord) => r.hh) == Flatten(s.order, s.records, (r: DayRecord) => r.hh) + [row.hh]
      && Flatten(s.order + [row.date], t, (r: DayRecord) => r.dt) == Flatten(s.order, s.records, (r: DayRecord) => r.dt) + [row.dt]
  {
    var d := row.date;
    assert d !in s.order;
    assert (s.order + [d])[..|s.order|] == s.order;
    FlattenFrame(s.order, s.records, d, Start(row), (r: DayRecord) => r.generation);
    FlattenFrame(s.order, s.records, d, Start(row), (r: DayRecord) => r.hh);
    FlattenFrame(s.order, s.records, d, Start(row), (r: DayRecord) => r.dt);
  }

  lemma NoRecurrencePrefix(ds: seq<Date>, n: nat)
    requires NoRecurrence(ds) && n <= |ds|
    ensures NoRecurrence(ds[..n])
  {
    forall k | 0 < k < n ensures NewDateIsFresh(ds[..n], k) {
      assert NewDateIsFresh(ds, k);
      assert ds[..n][..k - 1] == ds[..k - 1];
    }
  }

  /** Without recurrence, a date unlike the one before it has not been seen at all. */
  lemma NoRecurrenceFreshDate(ds: seq<Date>, i: nat)
    requires NoRecurrence(ds) && i < |ds| - 1 && ds[|ds| - 2] != ds[|ds| - 1]
    ensures ds[i] != ds[|ds| - 1]
  {
    var n := |ds| - 1;
    assert NewDateIsFresh(ds, n);
    if i < n - 1 {
      assert ds[..n - 1][i] == ds[i];
    }
  }

  /**
   * From the empty state and on parsed readings whose dates do not recur, the
   * records' lists concatenated in key order are the readings' own values,
   * periods and timestamps, and the last key is the cursor's date.
   */
  lemma {:induction false} FeedRowsConcatenates(rows: seq<Row>)
    requires FeedRows(Initial, rows).Ok? && NoRecurrence(Dates(rows))
    ensures var g := FeedRows(Initial, rows).value;
      && Flatten(g.order, g.records, (r: DayRecord) => r.generation) == Gens(rows)
      && Flatten(g.order, g.records, (r: DayRecord) => r.hh) == HHs(rows)
      && Flatten(g.order, g.records, (r: DayRecord) => r.dt) == Dts(rows)
      && (rows != [] ==> g.order != [] && g.order[|g.order| - 1] == g.prevDate == rows[|rows| - 1].date)
    decreases |rows|
  {
    if rows != [] {
      var p, row := rows[..|rows| - 1], rows[|rows| - 1];
      SplitLast(rows);
      DatesSnoc(p, row);
      assert Dates(p) == Dates(rows)[..|p|];
      NoRecurrencePrefix(Dates(rows), |p|);
      assert FeedRows(Initial, p).Ok?;
      FeedRowsConcatenates(p);
      ConcatenatesStep(p, row);
    }
  }

  /** The inductive step of FeedRowsConcatenates, for the feed `p + [row]`. */
  lemma ConcatenatesStep(p: seq<Row>, row: Row)
    requires FeedRows(Initial, p + [row]).Ok? && NoRecurrence(Dates(p) + [row.date])
    requires var s := FeedRows(Initial, p).value;
      && FeedRows(Initial, p).Ok?
      && Flatten(s.order, s.records, (r: DayRecord) => r.generation) == Gens(p)
      && Flatten(s.order, s.records, (r: DayRecord) => r.hh) == HHs(p)
      && Flatten(s.order, s.records, (r: DayRecord) => r.dt) == Dts(p)
      && (p != [] ==> s.order != [] && s.order[|s.order| - 1] == s.prevDate == p[|p| - 1].date)
    ensures var g := FeedRows(Initial, p + [row]).value;
      && Flatten(g.order, g.records, (r: DayRecord) => r.generation) == Gens(p + [row])
      && Flatten(g.order, g.records, (r: DayRecord) => r.hh) == HHs(p + [row])
      && Flatten(g.order, g.records, (r: DayRecord) => r.dt) == Dts(p + [row])
      && g.order != [] && g.order[|g.order| - 1] == g.prevDate == row.date
  {
    var s := FeedRows(Initial, p).value;
    FeedRowsLast(Initial, p, row);
    InitialWellFormed();
    FeedRowsPreservesWellFormed(Initial, p);
    if row.date != s.prevDate && row.date in s.records {
      FeedRowsKeys(p);
      var i :| 0 <= i < |p| && p[i].date == row.date;
      NoRecurrenceFreshDate(Dates(p) + [row.date], i);
    }
    StepExtendsColumns(s, row);
  }

  /**
   * From the empty state and on a feed whose dates do not recur, the records'
   * lists concatenated in key order are the feed's values, timestamps and
   * periods, in arrival order.
   */
  lemma FeedConcatenates(rs: seq<Reading>)
    requires Feed(Initial, rs).Ok? && NoRecurrence(Dates(RowsOf(rs)))
    ensures var g := Feed(Initial, rs).value;
      && Flatten(g.order, g.records, (r: DayRecord) => r.generation) == Gens(RowsOf(rs))
      && Flatten(g.order, g.records, (r: DayRecord) => r.dt) == Dts(RowsOf(rs))
      && Flatten(g.order, g.records, (r: DayRecord) => r.hh) == HHs(RowsOf(rs))
      && |Gens(RowsOf(rs))| == |rs| && (forall i | 0 <= i < |rs| :: Gens(RowsOf(rs))[i] == rs[i].gen)
      && |Dts(RowsOf(rs))| == |rs| && (forall i | 0 <= i < |rs| :: Dts(RowsOf(rs))[i] == rs[i].dt)
      && |HHs(RowsOf(rs))| == |rs| && (forall i | 0 <= i < |rs| :: ParseReading(rs[i]).Ok? && ParseReading(rs[i]).value.hh == HHs(RowsOf(rs))[i])
  {
    FeedIsFeedRows(Initial, rs);
    FeedRowsConcatenates(RowsOf(rs));
  }

  /** Every iteration adds at most one value to `Gen`, and a replacing one none. */
  lemma StepCount(s: Store, row: Row)
    requires WellFormed(s) && StepRow(s, row).Ok?
    ensures var t := StepRow(s, row).value;
      && |Flatten(t.order, t.records, (r: DayRecord) => r.generation)| <= |Flatten(s.order, s.records, (r: DayRecord) => r.generation)| + 1
      && (row.date != s.prevDate && row.date in s.records ==>
            |Flatten(t.order, t.records, (r: DayRecord) => r.generation)| <= |Flatten(s.order, s.records, (r: DayRecord) => r.generation)|)
  {
    var d := row.date;
    if d == s.prevDate {
      FlattenReplace(s.order, s.records, d, Append(s.records[d], row), (r: DayRecord) => r.generation);
    } else if d in s.records {
      FlattenReplace(s.order, s.records, d, Start(row), (r: DayRecord) => r.generation);
    } else {
      assert (s.order + [d])[..|s.order|] == s.order;
      FlattenFrame(s.order, s.records, d, Start(row), (r: DayRecord) => r.generation);
    }
  }

  /**
   * From the empty state, `Gen` ends up holding fewer values than were read
   * whenever a date recurs after a different date.
   */
  lemma {:induction false} RecurrenceLosesRows(rows: seq<Row>)
    requires FeedRows(Initial, rows).Ok?
    ensures var g := FeedRows(Initial, rows).value;
      && |Flatten(g.order, g.records, (r: DayRecord) => r.generation)| <= |rows|
      && (!NoRecurrence(Dates(rows)) ==> |Flatten(g.order, g.records, (r: DayRecord) => r.generation)| < |rows|)
    decreases |rows|
  {
    if rows != [] {
      var p, row := rows[..|rows| - 1], rows[|rows| - 1];
      assert FeedRows(Initial, p).Ok?;
      RecurrenceLosesRows(p);
      SplitLast(rows);
      LossStep(p, row);
    }
  }

  /** After a non-empty feed the cursor holds the date of its last reading. */
  lemma FeedRowsCursor(rows: seq<Row>)
    requires FeedRows(Initial, rows).Ok? && rows != []
    ensures FeedRows(Initial, rows).value.prevDate == rows[|rows| - 1].date
  {
    assert FeedRows(Initial, rows[..|rows| - 1]).Ok?;
  }

  /** A recurrence that the last date creates: that date was seen, but not just before it. */
  lemma RecurrenceAtEnd(ds: seq<Date>)
    requires !NoRecurrence(ds) && NoRecurrence(ds[..|ds| - 1])
    ensures |ds| >= 2 && ds[|ds| - 2] != ds[|ds| - 1]
    ensures ds[|ds| - 1] in ds[..|ds| - 1]
  {
    var n := |ds| - 1;
    var k :| 0 < k < |ds| && !NewDateIsFresh(ds, k);
    forall x | 0 < x < n ensures NewDateIsFresh(ds[..n], x) == NewDateIsFresh(ds, x) {
      assert ds[..n][..x - 1] == ds[..x - 1];
    }
    assert k == n;
    var i :| 0 <= i < n - 1 && ds[..n - 1][i] == ds[n];
    assert ds[..n][i] == ds[n];
  }

  /** The same, for a date `d` that arrives after the dates `ds`. */
  lemma LateRecurrence(ds: seq<Date>, d: Date)
    requires !NoRecurrence(ds + [d]) && NoRecurrence(ds)
    ensures ds != [] && ds[|ds| - 1] != d && d in ds
  {
    assert (ds + [d])[..|ds|] == ds;
    RecurrenceAtEnd(ds + [d]);
  }

  /** The inductive step of RecurrenceLosesRows, for the feed `p + [row]`. */
  lemma LossStep(p: seq<Row>, row: Row)
    requires FeedRows(Initial, p + [row]).Ok?
    requires var s := FeedRows(Initial, p).value;
      && FeedRows(Initial, p).Ok?
      && |Flatten(s.order, s.records, (r: DayRecord) => r.generation)| <= |p|
      && (!NoRecurrence(Dates(p)) ==> |Flatten(s.order, s.records, (r: DayRecord) => r.generation)| < |p|)
    ensures var g := FeedRows(Initial, p + [row]).value;
      && |Flatten(g.order, g.records, (r: DayRecord) => r.generation)| <= |p| + 1
      && (!NoRecurrence(Dates(p + [row])) ==> |Flatten(g.order, g.records, (r: DayRecord) => r.generation)| <= |p|)
  {
    var rows := p + [row];
    var s := FeedRows(Initial, p).value;
    FeedRowsLast(Initial, p, row);
    InitialWellFormed();
    FeedRowsPreservesWellFormed(Initial, p);
    StepCount(s, row);
    DatesSnoc(p, row);
    if !NoRecurrence(Dates(rows)) && NoRecurrence(Dates(p)) {
      LateRecurrence(Dates(p), row.date);
      var i :| 0 <= i < |p| && Dates(p)[i] == row.date;
      FeedRowsKeys(p);
      FeedRowsCursor(p);
    }
  }

  /** From the empty state no value is lost exactly when no date recurs after a different date. */
  lemma FeedKeepsEveryReading(rs: seq<Reading>)
    requires Feed(Initial, rs).Ok?
    ensures var g := Feed(Initial, rs).value;
      |Flatten(g.order, g.records, (r: DayRecord) => r.generation)| == |rs| <==> NoRecurrence(Dates(RowsOf(rs)))
  {
    FeedIsFeedRows(Initial, rs);
    RecurrenceLosesRows(RowsOf(rs));
    if NoRecurrence(Dates(RowsOf(rs))) {
      FeedRowsConcatenates(RowsOf(rs));
    }
  }
}
