/** The dashboard server's two read endpoints over the `daily_counts` table:
    `/api/detections/recent` (every species with detections in the last 31
    days, as per-day counts) and `/api/detections/rare` (species whose last
    stored value is small). */
module Server {
  import opened Basics
  import opened Store
  import opened JsObject
  import opened Sorting
  import Calendar

  /** Days in the sparkline window; today is not part of it. */
  const WindowDays: nat := 31
  /** Rows per page of the exhaustive read. */
  const DbPageSize: nat := 1000
  /** A species is rare when its last stored value is below this. */
  const RareThreshold: nat := 5
  /** At most this many rare species are returned. */
  const RareLimit: nat := 12
  /** The rare endpoint reads rows 0 to 4999 only. */
  const RareRowLimit: nat := 5000

  const RecentError := "Failed to fetch recent daily counts"
  const RareError := "Failed to fetch rare daily counts"

  /** What an endpoint sends: the JSON body, or status 500 with `{error}`. */
  datatype Response<T> = Json(body: T) | ServerError(status: nat, error: string)

  // ----------------------------------------------------------------------
  // The exhaustive paged read

  /** The store's answer to one page request: rows, or an error (thrown). */
  datatype DbReply = Rows(rows: seq<DailyRow>) | DbError

  /** A reply that ends the do-while: an error, or a page that is not full. */
  predicate EndsPaging(reply: DbReply)
  {
    reply.DbError? || |reply.rows| != DbPageSize
  }

  /** Some reply in the sequence ends paging, so the loop stops. Replies
      after the first one that ends it are never requested and may be
      anything. */
  predicate Ends(replies: seq<DbReply>)
  {
    exists p :: 0 <= p < |replies| && EndsPaging(replies[p])
  }

  /** Page p is answered by replies[p]: the concatenation of the pages up to
      and including the first one that is not full, or Thrown when one of
      those pages failed. */
  function PagedRead(replies: seq<DbReply>): (r: Result<seq<DailyRow>>)
    requires Ends(replies)
    ensures replies[0].DbError? ==> r == Thrown
    ensures replies[0].Rows? && |replies[0].rows| != DbPageSize ==> r == Ok(replies[0].rows)
    decreases |replies|
  {
    if EndsPaging(replies[0]) then
      (if replies[0].DbError? then Thrown else Ok(replies[0].rows))
    else
      assert forall p :: 0 < p < |replies| ==> replies[1..][p - 1] == replies[p];
      Prepend(replies[0].rows, PagedRead(replies[1..]))
  }

  /** The `do { ... } while (fetched === pageSize)` loop. `pages` is the
      number of page requests made: every page before the last was full,
      and the last one failed or was short. */
  method ReadAllRows(replies: seq<DbReply>) returns (r: Result<seq<DailyRow>>, pages: nat)
    requires Ends(replies)
    ensures r == PagedRead(replies)
    ensures 0 < pages <= |replies|
    ensures forall p :: 0 <= p < pages - 1 ==> !EndsPaging(replies[p])
    ensures EndsPaging(replies[pages - 1])
  {
    var allRows: seq<DailyRow> := [];
    var page := 0;
    assert replies[page..] == replies;
    assert PagedRead(replies).Ok? ==> [] + PagedRead(replies).value == PagedRead(replies).value;
    while true
      invariant 0 <= page < |replies|
      invariant Ends(replies[page..])
      invariant forall p :: 0 <= p < page ==> !EndsPaging(replies[p])
      invariant PagedRead(replies) == Prepend(allRows, PagedRead(replies[page..]))
      decreases |replies| - page
    {
      var reply := replies[page];
      if reply.DbError? {
        return Thrown, page + 1;
      }
      var fetched := |reply.rows|;
      ghost var rest := replies[page..];
      ghost var prev := allRows;
      allRows := allRows + reply.rows;
      page := page + 1;
      if fetched != DbPageSize {
        return Ok(allRows), page;
      }
      assert rest[1..] == replies[page..];
      assert PagedRead(rest) == Prepend(reply.rows, PagedRead(rest[1..]));
      PrependTwice(prev, reply.rows, PagedRead(rest[1..]));
      assert Ends(replies[page..]) by {
        var p :| 0 <= p < |rest| && EndsPaging(rest[p]);
        assert p > 0 && replies[page..][p - 1] == rest[p];
      }
      assert page < |replies|;
    }
  }

  /** Page p of a table: rows p * 1000 to p * 1000 + 999, as far as they exist. */
  function PageOf(table: seq<DailyRow>, p: nat): (page: seq<DailyRow>)
    ensures |page| <= DbPageSize
  {
    var lo := if p * DbPageSize <= |table| then p * DbPageSize else |table|;
    var hi := if (p + 1) * DbPageSize <= |table| then (p + 1) * DbPageSize else |table|;
    table[lo..hi]
  }

  lemma PageOfShift(table: seq<DailyRow>, p: nat)
    requires |table| >= DbPageSize
    ensures PageOf(table, p + 1) == PageOf(table[DbPageSize..], p)
  {
    var rest := table[DbPageSize..];
    var lo := if p * DbPageSize <= |rest| then p * DbPageSize else |rest|;
    var hi := if (p + 1) * DbPageSize <= |rest| then (p + 1) * DbPageSize else |rest|;
    assert (p + 1) * DbPageSize == p * DbPageSize + DbPageSize;
    assert (p + 2) * DbPageSize == (p + 1) * DbPageSize + DbPageSize;
    assert PageOf(rest, p) == rest[lo..hi];
    assert PageOf(table, p + 1) == table[lo + DbPageSize..hi + DbPageSize];
  }

  /** When the store answers each page from one unchanging table, the read
      is exhaustive: it returns the whole table, in order. */
  lemma {:induction false} ReadCoversTable(table: seq<DailyRow>, replies: seq<DbReply>)
    requires |replies| > |table| / DbPageSize
    requires forall p :: 0 <= p < |replies| ==> replies[p] == Rows(PageOf(table, p))
    ensures Ends(replies)
    ensures PagedRead(replies) == Ok(table)
    decreases |table|
  {
    if |table| < DbPageSize {
      assert replies[0] == Rows(table);
      assert EndsPaging(replies[0]);
    } else {
      var rest := table[DbPageSize..];
      assert |rest| / DbPageSize == |table| / DbPageSize - 1;
      forall p | 0 <= p < |replies| - 1
        ensures replies[1..][p] == Rows(PageOf(rest, p))
      {
        assert replies[1..][p] == replies[p + 1];
        PageOfShift(table, p);
      }
      ReadCoversTable(rest, replies[1..]);
      var p :| 0 <= p < |replies[1..]| && EndsPaging(replies[1..][p]);
      assert EndsPaging(replies[p + 1]);
      assert PageOf(table, 0) == table[..DbPageSize];
      assert table[..DbPageSize] + rest == table;
      assert PagedRead(replies) == Prepend(table[..DbPageSize], PagedRead(replies[1..]));
    }
  }

  // ----------------------------------------------------------------------
  // Grouping the rows by species (the `rows.forEach` over `bySpecies`)

  /** The per-species entry: metadata of its first row, the summed totals
      by date, and the running `last_detected`. */
  datatype SpeciesGroup = SpeciesGroup(
    speciesCode: string,
    meta: SpeciesMeta,
    dateMap: map<Day, nat>,
    lastDetected: Option<Instant>)

  /** `dateMap[date] || 0` */
  function Lookup(dateMap: map<Day, nat>, date: Day): (n: nat)
    ensures n == 0 <==> date !in dateMap || dateMap[date] == 0
    ensures n != 0 ==> n == dateMap[date]
  {
    if date in dateMap then dateMap[date] else 0
  }

  /** A species' entry when its first row is seen. */
  function NewGroup(row: DailyRow): SpeciesGroup
  {
    SpeciesGroup(row.speciesCode, row.meta, map[], row.latestDetectionAt)
  }

  /** What one row adds to its species' entry: its total on its date (a
      falsy entry is overwritten, anything else is added to) and a later
      timestamp. */
  function Absorb(g: SpeciesGroup, row: DailyRow): (r: SpeciesGroup)
    ensures r.speciesCode == g.speciesCode && r.meta == g.meta
    ensures r.lastDetected == Bump(g.lastDetected, row.latestDetectionAt)
    ensures forall date :: Lookup(r.dateMap, date)
              == Lookup(g.dateMap, date) + (if date == row.date then row.totalDetections else 0)
  {
    var dateMap := if Lookup(g.dateMap, row.date) == 0 then g.dateMap[row.date := row.totalDetections]
      else g.dateMap[row.date := g.dateMap[row.date] + row.totalDetections];
    g.(dateMap := dateMap, lastDetected := Bump(g.lastDetected, row.latestDetectionAt))
  }

  /** One call of the `forEach` callback. */
  function AddRow(bySpecies: Dict<SpeciesGroup>, row: DailyRow): (d: Dict<SpeciesGroup>)
    requires bySpecies.Valid()
    ensures d.Valid()
  {
    var key := row.speciesCode;
    var g := if key in bySpecies.entries then bySpecies.entries[key] else NewGroup(row);
    bySpecies.Put(key, Absorb(g, row))
  }

  /** `bySpecies` after the callback has seen every row, in order. */
  function GroupRows(rows: seq<DailyRow>): (d: Dict<SpeciesGroup>)
    ensures d.Valid()
  {
    if rows == [] then Empty() else AddRow(GroupRows(rows[..|rows| - 1]), rows[|rows| - 1])
  }

  /** The summed `total_detections` of one species' rows on one date. */
  function TotalOn(rows: seq<DailyRow>, code: string, date: Day): nat
  {
    if rows == [] then 0
    else
      var last := rows[|rows| - 1];
      TotalOn(rows[..|rows| - 1], code, date)
        + (if last.speciesCode == code && last.date == date then last.totalDetections else 0)
  }

  method GroupBySpecies(rows: seq<DailyRow>) returns (bySpecies: Dict<SpeciesGroup>)
    ensures bySpecies == GroupRows(rows)
  {
    bySpecies := Empty();
    var i := 0;
    while i < |rows|
      invariant 0 <= i <= |rows|
      invariant bySpecies.Valid()
      invariant bySpecies == GroupRows(rows[..i])
    {
      var row := rows[i];
      ghost var before := bySpecies;
      var key := row.speciesCode;
      if key !in bySpecies.entries {
        bySpecies := bySpecies.Put(key, NewGroup(row));
      }
      var g := UpdateEntry(bySpecies.entries[key], row);
      AddRowInPlace(before, row, g);
      bySpecies := bySpecies.Put(key, g);
      GroupRowsStep(rows, i);
      i := i + 1;
    }
    assert rows[..i] == rows;
  }

  /** The callback's update of the species' entry. */
  method UpdateEntry(entry: SpeciesGroup, row: DailyRow) returns (g: SpeciesGroup)
    ensures g == Absorb(entry, row)
  {
    g := entry;
    if Lookup(g.dateMap, row.date) == 0 {
      g := g.(dateMap := g.dateMap[row.date := row.totalDetections]);
    } else {
      g := g.(dateMap := g.dateMap[row.date := g.dateMap[row.date] + row.totalDetections]);
    }
    if Later(row.latestDetectionAt, g.lastDetected) {
      g := g.(lastDetected := row.latestDetectionAt);
    }
  }

  /** The callback's create-then-update of the entry is one `AddRow`. */
  lemma AddRowInPlace(before: Dict<SpeciesGroup>, row: DailyRow, g: SpeciesGroup)
    requires before.Valid()
    requires g == Absorb(if row.speciesCode in before.entries then before.entries[row.speciesCode] else NewGroup(row), row)
    ensures (if row.speciesCode in before.entries then before else before.Put(row.speciesCode, NewGroup(row))).Put(row.speciesCode, g)
         == AddRow(before, row)
  {
    if row.speciesCode !in before.entries {
      PutPut(before, row.speciesCode, NewGroup(row), g);
    }
  }

  lemma GroupRowsStep(rows: seq<DailyRow>, i: int)
    requires 0 <= i < |rows|
    ensures GroupRows(rows[..i + 1]) == AddRow(GroupRows(rows[..i]), rows[i])
  {
    assert rows[..i + 1][..i] == rows[..i];
  }

  /** The callback leaves every other species' entry alone. */
  lemma AddRowOther(d: Dict<SpeciesGroup>, row: DailyRow, code: string)
    requires d.Valid() && code != row.speciesCode
    ensures code in AddRow(d, row).entries <==> code in d.entries
    ensures code in d.entries ==> AddRow(d, row).entries[code] == d.entries[code]
  {
  }

  /** The callback's effect on the row's own species. */
  lemma AddRowSame(d: Dict<SpeciesGroup>, row: DailyRow)
    requires d.Valid()
    ensures row.speciesCode in AddRow(d, row).entries
    ensures
      var g := if row.speciesCode in d.entries then d.entries[row.speciesCode] else NewGroup(row);
      var g' := AddRow(d, row).entries[row.speciesCode];
      && g'.speciesCode == g.speciesCode
      && g'.meta == g.meta
      && g'.lastDetected == Bump(g.lastDetected, row.latestDetectionAt)
      && (forall date :: Lookup(g'.dateMap, date)
            == Lookup(g.dateMap, date) + (if date == row.date then row.totalDetections else 0))
  {
  }

  lemma {:induction false} GroupRowsKeys(rows: seq<DailyRow>, code: string)
    ensures code in GroupRows(rows).entries <==> RowsOf(rows, code) != []
    ensures code in GroupRows(rows).entries ==> GroupRows(rows).entries[code].speciesCode == code
    ensures code !in GroupRows(rows).entries ==> forall date :: TotalOn(rows, code, date) == 0
  {
    if rows != [] {
      var init := rows[..|rows| - 1];
      var row := rows[|rows| - 1];
      GroupRowsKeys(init, code);
      if row.speciesCode == code {
        AddRowSame(GroupRows(init), row);
      } else {
        AddRowOther(GroupRows(init), row, code);
      }
    }
  }

  lemma {:induction false} GroupRowsMeta(rows: seq<DailyRow>, code: string)
    requires code in GroupRows(rows).entries
    ensures RowsOf(rows, code) != []
    ensures GroupRows(rows).entries[code].meta == RowsOf(rows, code)[0].meta
  {
    GroupRowsKeys(rows, code);
    var init := rows[..|rows| - 1];
    var row := rows[|rows| - 1];
    GroupRowsKeys(init, code);
    var before := RowsOf(init, code);
    if row.speciesCode == code {
      AddRowSame(GroupRows(init), row);
      assert RowsOf(rows, code) == before + [row];
      if before != [] {
        GroupRowsMeta(init, code);
        assert (before + [row])[0] == before[0];
      }
    } else {
      AddRowOther(GroupRows(init), row, code);
      GroupRowsMeta(init, code);
    }
  }

  /** The species' first row starts its `last_detected`. */
  lemma FirstRowLast(d: Dict<SpeciesGroup>, row: DailyRow)
    requires d.Valid() && row.speciesCode !in d.entries
    ensures AddRow(d, row).entries[row.speciesCode].lastDetected == LastDetected(Stamps([row]))
  {
    AddRowSame(d, row);
    assert Stamps([row]) == [row.latestDetectionAt];
  }

  /** A later row of the species bumps its `last_detected`. */
  lemma LaterRowLast(d: Dict<SpeciesGroup>, row: DailyRow, before: seq<DailyRow>)
    requires d.Valid() && row.speciesCode in d.entries && before != []
    requires d.entries[row.speciesCode].lastDetected == LastDetected(Stamps(before))
    ensures AddRow(d, row).entries[row.speciesCode].lastDetected == LastDetected(Stamps(before + [row]))
  {
    AddRowSame(d, row);
    assert Stamps(before + [row]) == Stamps(before) + [row.latestDetectionAt];
    LastDetectedSnoc(Stamps(before), row.latestDetectionAt);
  }

  lemma {:induction false} GroupRowsLast(rows: seq<DailyRow>, code: string)
    requires code in GroupRows(rows).entries
    ensures RowsOf(rows, code) != []
    ensures GroupRows(rows).entries[code].lastDetected == LastDetected(Stamps(RowsOf(rows, code)))
  {
    GroupRowsKeys(rows, code);
    var init := rows[..|rows| - 1];
    var row := rows[|rows| - 1];
    GroupRowsKeys(init, code);
    var before := RowsOf(init, code);
    if row.speciesCode == code {
      assert RowsOf(rows, code) == before + [row];
      if before != [] {
        GroupRowsLast(init, code);
        LaterRowLast(GroupRows(init), row, before);
      } else {
        FirstRowLast(GroupRows(init), row);
        assert before + [row] == [row];
      }
    } else {
      AddRowOther(GroupRows(init), row, code);
      GroupRowsLast(init, code);
      assert RowsOf(rows, code) == before;
    }
  }

  lemma {:induction false} GroupRowsTotals(rows: seq<DailyRow>, code: string, date: Day)
    requires code in GroupRows(rows).entries
    ensures Lookup(GroupRows(rows).entries[code].dateMap, date) == TotalOn(rows, code, date)
  {
    GroupRowsKeys(rows, code);
    var init := rows[..|rows| - 1];
    var row := rows[|rows| - 1];
    GroupRowsKeys(init, code);
    if row.speciesCode == code {
      AddRowSame(GroupRows(init), row);
      if code in GroupRows(init).entries {
        GroupRowsTotals(init, code, date);
      }
    } else {
      AddRowOther(GroupRows(init), row, code);
      GroupRowsTotals(init, code, date);
    }
  }

  /** One entry per species code; its metadata is that of the species' first
      row, its total on each date is the sum over the rows sharing that
      (species, date), and `last_detected` follows the JavaScript comparison
      (see Basics.LastDetectedIsLatest). A species without rows has no entry. */
  lemma GroupRowsShape(rows: seq<DailyRow>, code: string)
    ensures code in GroupRows(rows).entries <==> RowsOf(rows, code) != []
    ensures code in GroupRows(rows).entries ==>
      var g := GroupRows(rows).entries[code];
      && g.speciesCode == code
      && g.meta == RowsOf(rows, code)[0].meta
      && g.lastDetected == LastDetected(Stamps(RowsOf(rows, code)))
      && forall date :: Lookup(g.dateMap, date) == TotalOn(rows, code, date)
  {
    GroupRowsKeys(rows, code);
    if code in GroupRows(rows).entries {
      GroupRowsMeta(rows, code);
      GroupRowsLast(rows, code);
      forall date
        ensures Lookup(GroupRows(rows).entries[code].dateMap, date) == TotalOn(rows, code, date)
      {
        GroupRowsTotals(rows, code, date);
      }
    }
  }

  // ----------------------------------------------------------------------
  // Per-day counts from the cumulative totals

  /** `Math.max(0, a - b)` */
  function Decrease(a: nat, b: nat): nat
  {
    if a > b then a - b else 0
  }

  /** `dateList.map(date => item.dateMap[date] || 0)` */
  function AlignTotals(dateMap: map<Day, nat>, dates: seq<Day>): (t: seq<nat>)
    ensures |t| == |dates|
    ensures forall i :: 0 <= i < |dates| ==> t[i] == Lookup(dateMap, dates[i])
  {
    seq(|dates|, i requires 0 <= i < |dates| => Lookup(dateMap, dates[i]))
  }

  /** The frequency array: each day's cumulative "since" total minus the next
      day's, never below 0; the newest day keeps its raw total. */
  function Frequency(t: seq<nat>): (f: seq<nat>)
    ensures |f| == |t|
    ensures |t| > 0 ==> f[|t| - 1] == t[|t| - 1]
    ensures forall i :: 0 <= i < |t| - 1 ==> f[i] == if t[i] > t[i + 1] then t[i] - t[i + 1] else 0
  {
    if |t| <= 1 then t else [Decrease(t[0], t[1])] + Frequency(t[1..])
  }

  /** The increases from one day to the next (0 for each decrease). */
  function Rises(t: seq<nat>): nat
  {
    if |t| <= 1 then 0 else (if t[1] > t[0] then t[1] - t[0] else 0) + Rises(t[1..])
  }

  /** The sum of the frequency array telescopes to the oldest day's total,
      plus whatever the totals rose from one day to the next. */
  lemma {:induction false} FrequencyTelescopes(t: seq<nat>)
    requires |t| > 0
    ensures Sum(Frequency(t)) == t[0] + Rises(t)
  {
    if |t| > 1 {
      FrequencyTelescopes(t[1..]);
      assert Frequency(t) == [Decrease(t[0], t[1])] + Frequency(t[1..]);
      assert ([Decrease(t[0], t[1])] + Frequency(t[1..]))[1..] == Frequency(t[1..]);
    }
  }

  lemma {:induction false} RisesZeroIff(t: seq<nat>)
    ensures Rises(t) == 0 <==> forall i :: 0 <= i < |t| - 1 ==> t[i] >= t[i + 1]
  {
    if |t| > 1 {
      RisesZeroIff(t[1..]);
      assert forall i :: 1 <= i < |t| - 1 ==> t[1..][i - 1] == t[i] && t[1..][i] == t[i + 1];
    }
  }

  /** Cumulative "since" totals never grow as the since-date moves forward;
      then the window's total is the oldest day's cumulative total, and it
      is exactly in that case. */
  lemma TotalIsOldestCumulative(t: seq<nat>)
    requires |t| > 0
    ensures Sum(Frequency(t)) == t[0] <==> forall i :: 0 <= i < |t| - 1 ==> t[i] >= t[i + 1]
  {
    FrequencyTelescopes(t);
    RisesZeroIff(t);
  }

  /** The window's total is positive exactly when some day has a positive
      stored total. */
  lemma {:induction false} TotalPositiveIff(t: seq<nat>)
    ensures Sum(Frequency(t)) > 0 <==> exists i :: 0 <= i < |t| && t[i] > 0
  {
    if |t| > 1 {
      TotalPositiveIff(t[1..]);
      var f := Frequency(t);
      assert f == [Decrease(t[0], t[1])] + Frequency(t[1..]);
      assert f[1..] == Frequency(t[1..]);
      assert Sum(f) == Decrease(t[0], t[1]) + Sum(Frequency(t[1..]));
      assert forall i :: 1 <= i < |t| ==> t[1..][i - 1] == t[i];
      if t[0] > 0 && Sum(Frequency(t[1..])) == 0 {
        assert t[1] == t[1..][0];
      }
    }
  }

  /** The worked example: totals [10, 7, 7] give frequency [3, 0, 7], total 10;
      a species seen only on the newest day keeps that day's value. */
  lemma FrequencyExamples()
    ensures Frequency([10, 7, 7]) == [3, 0, 7] && Sum([3, 0, 7]) == 10
    ensures Frequency([0, 0, 4]) == [0, 0, 4] && Sum([0, 0, 4]) == 4
  {
    assert [10, 7, 7][1..] == [7, 7];
    assert [0, 0, 4][1..] == [0, 4];
  }

  /** A species of the recent view. */
  datatype Aggregated = Aggregated(
    speciesCode: string,
    meta: SpeciesMeta,
    frequency: seq<nat>,
    totalDetections: nat,
    lastDetected: Option<Instant>)

  /** The `.map(item => ...)` callback. */
  function Aggregate(g: SpeciesGroup, dates: seq<Day>): (a: Aggregated)
    ensures |a.frequency| == |dates|
    ensures a.totalDetections > 0 <==> exists i :: 0 <= i < |dates| && Lookup(g.dateMap, dates[i]) > 0
    ensures a.speciesCode == g.speciesCode && a.meta == g.meta && a.lastDetected == g.lastDetected
    ensures a.frequency == Frequency(AlignTotals(g.dateMap, dates)) && a.totalDetections == Sum(a.frequency)
  {
    var dateTotals := AlignTotals(g.dateMap, dates);
    var frequency := Frequency(dateTotals);
    TotalPositiveIff(dateTotals);
    Aggregated(g.speciesCode, g.meta, frequency, Sum(frequency), g.lastDetected)
  }

  function AggregateAll(groups: seq<SpeciesGroup>, dates: seq<Day>): (r: seq<Aggregated>)
    ensures |r| == |groups|
  {
    seq(|groups|, i requires 0 <= i < |groups| => Aggregate(groups[i], dates))
  }

  predicate HasDetections(a: Aggregated)
  {
    a.totalDetections > 0
  }

  function TotalKey(a: Aggregated): int
  {
    a.totalDetections
  }

  /** `.filter(item => item.total_detections > 0)
       .sort((a, b) => b.total_detections - a.total_detections)` */
  function RecentList(groups: seq<SpeciesGroup>, dates: seq<Day>): (r: seq<Aggregated>)
    ensures SortedDesc(r, TotalKey)
    ensures multiset(r) == multiset(Filter(AggregateAll(groups, dates), HasDetections))
    ensures forall a :: a in r ==> a.totalDetections > 0 && |a.frequency| == |dates|
  {
    var f := Filter(AggregateAll(groups, dates), HasDetections);
    var r := SortDesc(f, TotalKey);
    SortDescSorted(f, TotalKey);
    SortDescMembers(f, TotalKey);
    r
  }

  /** A species is listed exactly when one of the window's days has a
      positive stored total for it. */
  lemma RecentMembership(groups: seq<SpeciesGroup>, dates: seq<Day>, i: int)
    requires 0 <= i < |groups|
    ensures Aggregate(groups[i], dates) in RecentList(groups, dates)
        <==> exists d :: 0 <= d < |dates| && Lookup(groups[i].dateMap, dates[d]) > 0
  {
    var all := AggregateAll(groups, dates);
    var a := Aggregate(groups[i], dates);
    assert all[i] == a;
    var r := RecentList(groups, dates);
    assert a in r <==> a in multiset(r);
    assert a in Filter(all, HasDetections) <==> a in multiset(Filter(all, HasDetections));
  }

  /** What the endpoint answers, given the store's page replies. */
  function RecentResponse(today: Day, replies: seq<DbReply>): Response<seq<Aggregated>>
    requires Ends(replies)
  {
    match PagedRead(replies)
    case Thrown => ServerError(500, RecentError)
    case Ok(rows) => Json(RecentList(GroupRows(rows).Values(), Calendar.DaysBefore(today, WindowDays)))
  }

  /** The `/api/detections/recent` handler. */
  method HandleRecent(today: Day, replies: seq<DbReply>) returns (resp: Response<seq<Aggregated>>)
    requires Ends(replies)
    ensures resp == RecentResponse(today, replies)
    ensures resp.Json? <==> PagedRead(replies).Ok?
    ensures resp.ServerError? ==> resp.status == 500
    ensures resp.Json? ==> SortedDesc(resp.body, TotalKey)
    ensures resp.Json? ==> forall a :: a in resp.body ==> a.totalDetections > 0 && |a.frequency| == WindowDays
  {
    var read, _ := ReadAllRows(replies);
    if read.Thrown? {
      return ServerError(500, RecentError);
    }
    var rows := read.value;
    var dateList := Calendar.PastDays(today, WindowDays);
    var bySpecies := GroupBySpecies(rows);
    resp := Json(RecentList(bySpecies.Values(), dateList));
  }

  // ----------------------------------------------------------------------
  // The rare endpoint

  /** A group of the rare view: the spread of the species' first row, the
      totals of all its rows in fetch order, and the running `last_detected`. */
  datatype RareGroup = RareGroup(first: DailyRow, frequency: seq<nat>, lastDetected: Option<Instant>)

  /** One call of the `rows.reduce` callback. */
  function AddRareRow(acc: Dict<RareGroup>, row: DailyRow): (d: Dict<RareGroup>)
    requires acc.Valid()
    ensures d.Valid()
  {
    var key := row.speciesCode;
    if key !in acc.entries then
      acc.Put(key, RareGroup(row, [row.totalDetections], row.latestDetectionAt))
    else
      var g := acc.entries[key];
      acc.Put(key, g.(frequency := g.frequency + [row.totalDetections],
                      lastDetected := Bump(g.lastDetected, row.latestDetectionAt)))
  }

  /** `grouped` after the reduce has seen every row, in order. */
  function GroupForRare(rows: seq<DailyRow>): (d: Dict<RareGroup>)
    ensures d.Valid()
  {
    if rows == [] then Empty() else AddRareRow(GroupForRare(rows[..|rows| - 1]), rows[|rows| - 1])
  }

  method CollectRare(rows: seq<DailyRow>) returns (acc: Dict<RareGroup>)
    ensures acc == GroupForRare(rows)
  {
    acc := Empty();
    var i := 0;
    assert rows[..i] == [];
    while i < |rows|
      invariant 0 <= i <= |rows|
      invariant acc.Valid()
      invariant acc == GroupForRare(rows[..i])
    {
      var row := rows[i];
      ghost var before := acc;
      var key := row.speciesCode;
      if key !in acc.entries {
        acc := acc.Put(key, RareGroup(row, [row.totalDetections], row.latestDetectionAt));
      } else {
        var g := acc.entries[key];
        g := g.(frequency := g.frequency + [row.totalDetections]);
        if Later(row.latestDetectionAt, g.lastDetected) {
          g := g.(lastDetected := row.latestDetectionAt);
        }
        acc := acc.Put(key, g);
      }
      assert acc == AddRareRow(before, row);
      assert rows[..i + 1][..i] == rows[..i];
      assert GroupForRare(rows[..i + 1]) == AddRareRow(GroupForRare(rows[..i]), row);
      i := i + 1;
    }
    assert rows[..i] == rows;
  }

  /** The reduce leaves every other species' entry alone. */
  lemma AddRareRowOther(d: Dict<RareGroup>, row: DailyRow, code: string)
    requires d.Valid() && code != row.speciesCode
    ensures code in AddRareRow(d, row).entries <==> code in d.entries
    ensures code in d.entries ==> AddRareRow(d, row).entries[code] == d.entries[code]
  {
  }

  /** Each species' rare entry: its first row, the totals of its rows in
      fetch order (no zero-filling, no date alignment), and `last_detected`
      by the JavaScript comparison. */
  lemma {:induction false} RareGroupShape(rows: seq<DailyRow>, code: string)
    ensures code in GroupForRare(rows).entries <==> RowsOf(rows, code) != []
    ensures code in GroupForRare(rows).entries ==>
      var g := GroupForRare(rows).entries[code];
      && g.first == RowsOf(rows, code)[0]
      && g.frequency == Totals(RowsOf(rows, code))
      && g.lastDetected == LastDetected(Stamps(RowsOf(rows, code)))
  {
    if rows != [] {
      RareGroupShape(rows[..|rows| - 1], code);
      if rows[|rows| - 1].speciesCode == code {
        RareStepSame(rows, code);
      } else {
        RareStepOther(rows, code);
      }
    }
  }

  /** What `RareGroupShape` states about one species. */
  ghost predicate RareShape(rows: seq<DailyRow>, code: string)
  {
    && (code in GroupForRare(rows).entries <==> RowsOf(rows, code) != [])
    && (code in GroupForRare(rows).entries ==>
      var g := GroupForRare(rows).entries[code];
      && g.first == RowsOf(rows, code)[0]
      && g.frequency == Totals(RowsOf(rows, code))
      && g.lastDetected == LastDetected(Stamps(RowsOf(rows, code))))
  }

  /** A row of the species itself extends its entry. */
  lemma RareStepSame(rows: seq<DailyRow>, code: string)
    requires rows != [] && rows[|rows| - 1].speciesCode == code
    requires RareShape(rows[..|rows| - 1], code)
    ensures RareShape(rows, code)
  {
    var init := rows[..|rows| - 1];
    var row := rows[|rows| - 1];
    var before := RowsOf(init, code);
    var now := before + [row];
    assert RowsOf(rows, code) == now;
    StampsSnoc(before, row);
    TotalsSnoc(before, row);
    if before != [] {
      assert now[0] == before[0];
      LastDetectedSnoc(Stamps(before), row.latestDetectionAt);
    } else {
      assert now == [row];
      assert Stamps(now) == [row.latestDetectionAt];
    }
  }

  /** A row of another species leaves this one's entry alone. */
  lemma RareStepOther(rows: seq<DailyRow>, code: string)
    requires rows != [] && rows[|rows| - 1].speciesCode != code
    requires RareShape(rows[..|rows| - 1], code)
    ensures RareShape(rows, code)
  {
    var init := rows[..|rows| - 1];
    AddRareRowOther(GroupForRare(init), rows[|rows| - 1], code);
    assert RowsOf(rows, code) == RowsOf(init, code);
  }

  /** `item.frequency[item.frequency.length - 1] < threshold` */
  predicate IsRare(g: RareGroup)
    ensures |g.frequency| == 0 ==> !IsRare(g)
    ensures |g.frequency| > 0 ==> (IsRare(g) <==> g.frequency[|g.frequency| - 1] < RareThreshold)
  {
    |g.frequency| > 0 && g.frequency[|g.frequency| - 1] < RareThreshold
  }

  /** `new Date(last_detected)`: a null timestamp is the epoch. */
  function SeenKey(g: RareGroup): (t: int)
    ensures g.lastDetected.None? ==> t == 0
    ensures g.lastDetected.Some? ==> t == g.lastDetected.value
  {
    match g.lastDetected
    case None => 0
    case Some(t) => t
  }

  /** `.filter(IsRare).sort(by last_detected, latest first).slice(0, 12)` */
  function RareList(groups: seq<RareGroup>): (r: seq<RareGroup>)
    ensures |r| <= RareLimit
    ensures forall g :: g in r ==> IsRare(g)
    ensures SortedDesc(r, SeenKey)
    ensures multiset(r) <= multiset(groups)
    ensures |r| == if |Filter(groups, IsRare)| <= RareLimit then |Filter(groups, IsRare)| else RareLimit
  {
    var rare := Filter(groups, IsRare);
    FilterCounts(groups, IsRare);
    var sorted := SortDesc(rare, SeenKey);
    SortDescSorted(rare, SeenKey);
    TakeSorted(sorted, RareLimit, SeenKey);
    var r := Take(sorted, RareLimit);
    assert forall g :: g in r ==> g in multiset(rare);
    r
  }

  /** A rare species cut by the cap of 12 was last seen no later than every
      species that was kept. */
  lemma RareKeepsLatest(groups: seq<RareGroup>, cut: RareGroup, kept: RareGroup)
    requires cut in Filter(groups, IsRare) && cut !in RareList(groups)
    requires kept in RareList(groups)
    ensures SeenKey(kept) >= SeenKey(cut)
  {
    var sorted := SortDesc(Filter(groups, IsRare), SeenKey);
    SortDescSorted(Filter(groups, IsRare), SeenKey);
    var r := RareList(groups);
    assert cut in multiset(sorted);
    var j :| 0 <= j < |sorted| && sorted[j] == cut;
    var i :| 0 <= i < |r| && r[i] == kept;
    assert r == sorted[..|r|];
    assert j >= |r|;
  }

  /** The rows read: `.range(0, 4999)` of the matching rows. */
  function RareRows(matching: seq<DailyRow>): (rows: seq<DailyRow>)
    ensures |rows| <= RareRowLimit
    ensures rows <= matching
    ensures |matching| <= RareRowLimit ==> rows == matching
  {
    Take(matching, RareRowLimit)
  }

  /** What the endpoint answers, given the store's reply to its query. */
  function RareResponse(reply: DbReply): Response<seq<RareGroup>>
  {
    match reply
    case DbError => ServerError(500, RareError)
    case Rows(matching) => Json(RareList(GroupForRare(RareRows(matching)).Values()))
  }

  /** The `/api/detections/rare` handler; `reply` is the store's answer to the
      date-filtered, date-ordered query before the row range is applied. */
  method HandleRare(reply: DbReply) returns (resp: Response<seq<RareGroup>>)
    ensures resp == RareResponse(reply)
    ensures resp.ServerError? <==> reply.DbError?
    ensures resp.Json? ==> |resp.body| <= RareLimit
    ensures resp.Json? ==> forall g :: g in resp.body ==> IsRare(g)
    ensures resp.Json? ==> SortedDesc(resp.body, SeenKey)
  {
    if reply.DbError? {
      return ServerError(500, RareError);
    }
    var rows := RareRows(reply.rows);
    var grouped := CollectRare(rows);
    resp := Json(RareList(grouped.Values()));
  }
}
