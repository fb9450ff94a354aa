/** Raw detection ingestion: offset-paged reads of the station's detections
    for each of the last 14 days, a validity filter and a field-defaulting
    transform into rows of the `detections` table. */
module Detections {
  import opened Basics
  import Numbers
  import Sorting

  /** Detections per page of the upstream listing. */
  const DetectionPageLimit: nat := 100

  /** Days read back, today included. */
  const RecentDays: nat := 14

  /** Fourteen days in milliseconds: the span of the window cleared before
      inserting. */
  const ClearWindowMs: int := 14 * 24 * 60 * 60 * 1000

  /** The `species` object of an upstream detection. */
  datatype DetSpecies = DetSpecies(
    id: Option<int>,
    commonName: Option<string>,
    scientificName: Option<string>,
    imageUrl: Option<string>,
    thumbnailUrl: Option<string>)

  /** An upstream detection. */
  datatype Detection = Detection(
    species: Option<DetSpecies>,
    timestamp: Option<Instant>,
    confidence: Option<real>)

  /** The answer to one page request: a non-OK HTTP status, a thrown fetch or
      parse error, or a body with its `success` flag and its `detections`
      (None when that is not an array). */
  datatype DetectionReply = HttpFailure | Threw | Body(success: bool, detections: Option<seq<Detection>>)

  /** A reply whose items are appended to the result. */
  predicate Usable(reply: DetectionReply)
  {
    reply.Body? && reply.success && reply.detections.Some?
  }

  /** A reply after which no further page is requested. */
  predicate LastPage(reply: DetectionReply)
  {
    !Usable(reply) || |reply.detections.value| < DetectionPageLimit
  }

  /** Some reply in the sequence ends paging, so the loop stops. Replies
      after the first one that ends it are never requested and may be
      anything. */
  predicate Ends(replies: seq<DetectionReply>)
  {
    exists p :: 0 <= p < |replies| && LastPage(replies[p])
  }

  /** The detections of one day: the items of every page read, in order, up
      to the first reply that ends paging. */
  function DayDetections(replies: seq<DetectionReply>): (r: seq<Detection>)
    requires Ends(replies)
    ensures !Usable(replies[0]) ==> r == []
    ensures LastPage(replies[0]) ==> r == (if Usable(replies[0]) then replies[0].detections.value else [])
    decreases |replies|
  {
    if !Usable(replies[0]) then []
    else if |replies[0].detections.value| < DetectionPageLimit then replies[0].detections.value
    else
      assert forall p :: 0 < p < |replies| ==> replies[1..][p - 1] == replies[p];
      replies[0].detections.value + DayDetections(replies[1..])
  }

  /** `fetchDetectionsForDate`: `offsets` lists the offsets requested. They
      start at 0 and step by the page size; failures end paging with what
      was read so far and are not raised. */
  method FetchDetectionsForDate(replies: seq<DetectionReply>) returns (all: seq<Detection>, offsets: seq<nat>)
    requires Ends(replies)
    ensures all == DayDetections(replies)
    ensures 0 < |offsets| <= |replies|
    ensures forall i :: 0 <= i < |offsets| ==> offsets[i] == DetectionPageLimit * i
    ensures forall i :: 0 <= i < |offsets| - 1 ==> !LastPage(replies[i])
    ensures LastPage(replies[|offsets| - 1])
    ensures DetectionPageLimit * (|offsets| - 1) <= |all|
  {
    var offset := 0;
    all := [];
    offsets := [];
    var k := 0;
    assert replies[k..] == replies;
    while true
      invariant 0 <= k < |replies|
      invariant |offsets| == k && offset == DetectionPageLimit * k
      invariant forall i :: 0 <= i < k ==> offsets[i] == DetectionPageLimit * i
      invariant forall i :: 0 <= i < k ==> !LastPage(replies[i])
      invariant Ends(replies[k..])
      invariant |all| >= DetectionPageLimit * k
      invariant DayDetections(replies) == all + DayDetections(replies[k..])
      decreases |replies| - k
    {
      offsets := offsets + [offset];
      var reply := replies[k];
      if reply.HttpFailure? || reply.Threw? {
        return;
      }
      if !reply.success || reply.detections.None? {
        return;
      }
      var fetched := |reply.detections.value|;
      all := all + reply.detections.value;
      if fetched < DetectionPageLimit {
        return;
      }
      ghost var rest := replies[k..];
      assert DayDetections(rest) == reply.detections.value + DayDetections(rest[1..]);
      offset := offset + DetectionPageLimit;
      k := k + 1;
      assert rest[1..] == replies[k..];
      assert Ends(replies[k..]) by {
        var p :| 0 <= p < |rest| && LastPage(rest[p]);
        assert p > 0 && replies[k..][p - 1] == rest[p];
      }
    }
  }

  /** The detections of several days, in day order. */
  function AllDetections(perDay: seq<seq<DetectionReply>>): seq<Detection>
    requires forall i :: 0 <= i < |perDay| ==> Ends(perDay[i])
  {
    if perDay == [] then []
    else
      var n := |perDay| - 1;
      assert forall i :: 0 <= i < n ==> perDay[..n][i] == perDay[i];
      AllDetections(perDay[..n]) + DayDetections(perDay[n])
  }

  /** The 14-day loop of `fetchAndStoreDetections`: `perDay[i]` answers the
      requests for day `today - i`. */
  method FetchRecentDetections(today: Day, perDay: seq<seq<DetectionReply>>) returns (detections: seq<Detection>, dates: seq<Day>)
    requires |perDay| == RecentDays
    requires forall i :: 0 <= i < |perDay| ==> Ends(perDay[i])
    ensures detections == AllDetections(perDay)
    ensures |dates| == RecentDays
    ensures forall i :: 0 <= i < |dates| ==> dates[i] == today - i
  {
    detections := [];
    dates := [];
    var i := 0;
    while i < RecentDays
      invariant 0 <= i <= RecentDays
      invariant |dates| == i && forall j :: 0 <= j < i ==> dates[j] == today - j
      invariant forall j :: 0 <= j < i ==> perDay[..i][j] == perDay[j]
      invariant detections == AllDetections(perDay[..i])
    {
      var date := today - i;
      var daily, _ := FetchDetectionsForDate(perDay[i]);
      assert perDay[..i + 1][..i] == perDay[..i];
      detections := detections + daily;
      dates := dates + [date];
      i := i + 1;
    }
    assert perDay[..i] == perDay;
  }

  /** The validity filter: a truthy `species`, a truthy (non-zero) `id` and
      a truthy (non-empty) `commonName`. */
  predicate IsValid(d: Detection)
    ensures !IsValid(d) <==> (|| d.species.None?
                             || d.species.value.id.None? || d.species.value.id.value == 0
                             || OrNull(d.species.value.commonName).None?)
  {
    && d.species.Some?
    && d.species.value.id.Some? && d.species.value.id.value != 0
    && d.species.value.commonName.Some? && d.species.value.commonName.value != ""
  }

  /** `detections.filter(...)`. */
  function ValidDetections(ds: seq<Detection>): (r: seq<Detection>)
    ensures forall d :: d in r ==> IsValid(d)
    ensures forall d :: d in ds && IsValid(d) ==> d in r
    ensures forall d :: d in ds ==> multiset(r)[d] == if IsValid(d) then multiset(ds)[d] else 0
  {
    Sorting.FilterCounts(ds, IsValid);
    Sorting.Filter(ds, IsValid)
  }

  /** A row of the `detections` table, without its random id. */
  datatype DetectionRow = DetectionRow(
    speciesCode: string,
    commonName: string,
    scientificName: Option<string>,
    imageUrl: Option<string>,
    thumbnailUrl: Option<string>,
    confidence: real,
    detectedAt: Option<Instant>,
    isRare: bool,
    stationId: string)

  /** `confidence || 0`. */
  function ConfidenceOrZero(c: Option<real>): (r: real)
    ensures c.Some? && c.value != 0.0 ==> r == c.value
    ensures c.None? || c.value == 0.0 ==> r == 0.0
  {
    if c.Some? then c.value else 0.0
  }

  /** The transform of one valid detection. */
  function ToRow(d: Detection, stationId: string): (row: DetectionRow)
    requires IsValid(d)
    ensures row.speciesCode == Numbers.IntToString(d.species.value.id.value)
    ensures row.commonName == d.species.value.commonName.value && row.commonName != ""
    ensures row.detectedAt == d.timestamp
    ensures !row.isRare && row.stationId == stationId
    ensures row.scientificName.Some? <==> d.species.value.scientificName.Some? && d.species.value.scientificName.value != ""
    ensures row.scientificName.Some? ==> row.scientificName == d.species.value.scientificName
    ensures row.imageUrl.Some? <==> d.species.value.imageUrl.Some? && d.species.value.imageUrl.value != ""
    ensures row.imageUrl.Some? ==> row.imageUrl == d.species.value.imageUrl
    ensures row.thumbnailUrl.Some? <==> d.species.value.thumbnailUrl.Some? && d.species.value.thumbnailUrl.value != ""
    ensures row.thumbnailUrl.Some? ==> row.thumbnailUrl == d.species.value.thumbnailUrl
    ensures row.confidence == ConfidenceOrZero(d.confidence)
  {
    var sp := d.species.value;
    DetectionRow(Numbers.IntToString(sp.id.value), sp.commonName.value,
                 OrNull(sp.scientificName), OrNull(sp.imageUrl), OrNull(sp.thumbnailUrl),
                 ConfidenceOrZero(d.confidence), d.timestamp, false, stationId)
  }

  /** Two rows share a `species_code` exactly when their detections share a
      species id. */
  lemma SpeciesCodeIdentifies(a: Detection, b: Detection, stationId: string)
    requires IsValid(a) && IsValid(b)
    ensures ToRow(a, stationId).speciesCode == ToRow(b, stationId).speciesCode
        <==> a.species.value.id == b.species.value.id
  {
    if ToRow(a, stationId).speciesCode == ToRow(b, stationId).speciesCode {
      Numbers.IntToStringInjective(a.species.value.id.value, b.species.value.id.value);
    }
  }

  /** `filteredDetections.map(...)`. */
  function Transform(ds: seq<Detection>, stationId: string): (rows: seq<DetectionRow>)
    requires forall d :: d in ds ==> IsValid(d)
    ensures |rows| == |ds|
    ensures forall i :: 0 <= i < |ds| ==> rows[i] == ToRow(ds[i], stationId)
  {
    seq(|ds|, i requires 0 <= i < |ds| => ToRow(ds[i], stationId))
  }

  /** What the ingestion sends to the store: nothing, or a clear of every
      detection at or after `clearFrom` followed by one insert of `rows`. */
  datatype IngestPlan = NothingToStore | Store(clearFrom: Instant, rows: seq<DetectionRow>)

  /** Filter, transform and the early return of `fetchAndStoreDetections`;
      `now` is the run's clock reading. */
  function Ingest(detections: seq<Detection>, stationId: string, now: Instant): (plan: IngestPlan)
    ensures plan.NothingToStore? <==> forall d :: d in detections ==> !IsValid(d)
    ensures plan.Store? ==> plan.clearFrom == now - ClearWindowMs && |plan.rows| > 0
  {
    var rows := Transform(ValidDetections(detections), stationId);
    if |rows| == 0 then NothingToStore else Store(now - ClearWindowMs, rows)
  }

  /** Every stored row comes from a valid fetched detection, and every valid
      fetched detection is stored, in fetch order. */
  lemma {:induction false} IngestRowsAreValidDetections(detections: seq<Detection>, stationId: string, now: Instant)
    requires Ingest(detections, stationId, now).Store?
    ensures Ingest(detections, stationId, now).rows
         == Transform(Sorting.Filter(detections, IsValid), stationId)
    ensures forall row :: row in Ingest(detections, stationId, now).rows ==>
      exists d :: d in detections && IsValid(d) && row == ToRow(d, stationId)
    ensures forall d :: d in detections && IsValid(d) ==>
      ToRow(d, stationId) in Ingest(detections, stationId, now).rows
  {
    var valid := ValidDetections(detections);
    var rows := Ingest(detections, stationId, now).rows;
    forall row | row in rows
      ensures exists d :: d in detections && IsValid(d) && row == ToRow(d, stationId)
    {
      var i :| 0 <= i < |rows| && rows[i] == row;
      assert valid[i] in valid;
    }
    forall d | d in detections && IsValid(d) ensures ToRow(d, stationId) in rows {
      var i :| 0 <= i < |valid| && valid[i] == d;
      assert rows[i] == ToRow(d, stationId);
    }
  }

  /** `fetchAndStoreDetections` from the 14-day fetch to the store plan. */
  method FetchAndStoreDetections(today: Day, now: Instant, stationId: string, perDay: seq<seq<DetectionReply>>)
    returns (plan: IngestPlan)
    requires |perDay| == RecentDays
    requires forall i :: 0 <= i < |perDay| ==> Ends(perDay[i])
    ensures plan == Ingest(AllDetections(perDay), stationId, now)
  {
    var detections, _ := FetchRecentDetections(today, perDay);
    plan := Ingest(detections, stationId, now);
  }
}
