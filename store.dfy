/** The `daily_counts` table: one row per (species, date), written by the
    backfill and read back by the two dashboard endpoints. */
module Store {
  import opened Basics

  /** Species metadata, copied into every row at write time. */
  datatype SpeciesMeta = SpeciesMeta(
    commonName: Option<string>,
    scientificName: Option<string>,
    color: Option<string>,
    imageUrl: Option<string>,
    thumbnailUrl: Option<string>,
    pngUrl: Option<string>)

  /** The four confidence-tier counts. */
  datatype TierCounts = TierCounts(almostCertain: nat, veryLikely: nat, uncertain: nat, unlikely: nat)

  /** A stored row; `totalDetections` is the upstream cumulative total
      "since `date`", not a single-day count. */
  datatype DailyRow = DailyRow(
    speciesCode: string,
    meta: SpeciesMeta,
    date: Day,
    totalDetections: nat,
    tiers: TierCounts,
    latestDetectionAt: Option<Instant>)

  /** No two rows share the composite key (species_code, date). */
  ghost predicate UniqueKeys(rows: seq<DailyRow>)
  {
    forall i, j :: 0 <= i < j < |rows| ==>
      rows[i].speciesCode != rows[j].speciesCode || rows[i].date != rows[j].date
  }

  /** The rows of one species, in the order read. */
  function RowsOf(rows: seq<DailyRow>, code: string): (r: seq<DailyRow>)
    ensures |r| <= |rows|
    ensures forall x :: x in r ==> x in rows && x.speciesCode == code
  {
    if rows == [] then []
    else
      var last := rows[|rows| - 1];
      RowsOf(rows[..|rows| - 1], code) + (if last.speciesCode == code then [last] else [])
  }

  /** A species has rows exactly when some row carries its code. */
  lemma {:induction false} RowsOfNonEmpty(rows: seq<DailyRow>, code: string)
    ensures RowsOf(rows, code) != [] <==> exists i :: 0 <= i < |rows| && rows[i].speciesCode == code
  {
    if rows != [] {
      var init := rows[..|rows| - 1];
      RowsOfNonEmpty(init, code);
      assert forall i :: 0 <= i < |init| ==> init[i] == rows[i];
    }
  }

  /** The timestamps of some rows, in order. */
  function Stamps(rows: seq<DailyRow>): (ts: seq<Option<Instant>>)
    ensures |ts| == |rows|
  {
    seq(|rows|, i requires 0 <= i < |rows| => rows[i].latestDetectionAt)
  }

  /** The totals of some rows, in order. */
  function Totals(rows: seq<DailyRow>): (ts: seq<nat>)
    ensures |ts| == |rows|
  {
    seq(|rows|, i requires 0 <= i < |rows| => rows[i].totalDetections)
  }

  lemma StampsSnoc(rows: seq<DailyRow>, row: DailyRow)
    ensures Stamps(rows + [row]) == Stamps(rows) + [row.latestDetectionAt]
  {
  }

  lemma TotalsSnoc(rows: seq<DailyRow>, row: DailyRow)
    ensures Totals(rows + [row]) == Totals(rows) + [row.totalDetections]
  {
  }
}
