/** The daily backfill: for each of the last `days` days, read the station's
    cumulative species totals "since" that day, merge the species seen on
    any day into a master set, and produce one row per (species, day) for
    the `daily_counts` table. The stored total is the cumulative value as
    read; nothing is subtracted here. */
module DailyCounts {
  import opened Basics
  import opened Store
  import opened JsObject
  import Numbers
  import Calendar

  /** Species per page of the upstream listing. */
  const SpeciesPageLimit: nat := 100

  /** The `detections` object of an upstream species record; any count may
      be missing. */
  datatype UpstreamCounts = UpstreamCounts(
    total: Option<nat>,
    almostCertain: Option<nat>,
    veryLikely: Option<nat>,
    uncertain: Option<nat>,
    unlikely: Option<nat>)

  /** An upstream species record. */
  datatype Species = Species(
    id: int,
    commonName: Option<string>,
    scientificName: Option<string>,
    color: Option<string>,
    imageUrl: Option<string>,
    thumbnailUrl: Option<string>,
    pngUrl: Option<string>,
    detections: Option<UpstreamCounts>,
    latestDetectionAt: Option<Instant>)

  /** The answer to one page request: the fetch or the JSON parse threw, or
      a body with its `success` flag and its `species` (None when that is
      not an array). */
  datatype SpeciesReply = Threw | Body(success: bool, species: Option<seq<Species>>)

  /** The object key a species is stored under: `String(sp.id)`. */
  function Key(sp: Species): string
  {
    Numbers.IntToString(sp.id)
  }

  /** A body that ends paging before anything of it is stored. */
  predicate Unusable(reply: SpeciesReply)
    requires reply.Body?
  {
    !reply.success || reply.species.None? || |reply.species.value| == 0
  }

  /** A reply after which no further page is requested. */
  predicate LastPage(reply: SpeciesReply)
  {
    reply.Threw? || Unusable(reply) || |reply.species.value| < SpeciesPageLimit
  }

  /** The replies run up to one that ends paging: the reply to the last page
      requested comes last. (The other paged reads only ask that some reply
      ends paging. Replies after the first stopping one are never read, so
      the two conventions admit the same runs.) */
  predicate Ends(replies: seq<SpeciesReply>)
  {
    |replies| > 0 && LastPage(replies[|replies| - 1])
  }

  // ----------------------------------------------------------------------
  // fetchCumulativeTotals

  /** `for (const sp of items) all[sp.id] = sp;` */
  function PutAll(all: Dict<Species>, items: seq<Species>): (d: Dict<Species>)
    requires all.Valid()
    ensures d.Valid()
  {
    if items == [] then all
    else PutAll(all, items[..|items| - 1]).Put(Key(items[|items| - 1]), items[|items| - 1])
  }

  /** The species records paging reads from page `replies[k]` on, in
      order, or Thrown when a fetch or parse throws first. */
  function Paged(replies: seq<SpeciesReply>, k: nat): (r: Result<seq<Species>>)
    requires Ends(replies) && k < |replies|
    ensures replies[k].Threw? ==> r == Thrown
    ensures replies[k].Body? && Unusable(replies[k]) ==> r == Ok([])
    ensures r.Ok? && replies[k].Body? && !Unusable(replies[k]) ==> replies[k].species.value <= r.value
    decreases |replies| - k
  {
    var reply := replies[k];
    match reply
    case Threw => Thrown
    case Body(_, _) =>
      if Unusable(reply) then Ok([])
      else if |reply.species.value| < SpeciesPageLimit then Ok(reply.species.value)
      else Prepend(reply.species.value, Paged(replies, k + 1))
  }

  /** `fetchCumulativeTotals(since)`'s result: every record read, stored
      under its id in reading order, or Thrown. */
  function Cumulative(replies: seq<SpeciesReply>): (r: Result<Dict<Species>>)
    requires Ends(replies)
    ensures r.Thrown? <==> Paged(replies, 0).Thrown?
    ensures r.Ok? ==> r.value.Valid()
  {
    match Paged(replies, 0)
    case Thrown => Thrown
    case Ok(items) => Ok(PutAll(Empty(), items))
  }

  /** What reading the reply at `k` contributes. */
  lemma PageStep(replies: seq<SpeciesReply>, k: nat)
    requires Ends(replies) && k < |replies|
    ensures replies[k].Threw? ==> Paged(replies, k) == Thrown
    ensures replies[k].Body? && Unusable(replies[k]) ==> Paged(replies, k) == Ok([])
    ensures replies[k].Body? && !Unusable(replies[k]) && |replies[k].species.value| < SpeciesPageLimit
            ==> Paged(replies, k) == Ok(replies[k].species.value)
    ensures !LastPage(replies[k]) ==> k + 1 < |replies|
    ensures !LastPage(replies[k])
            ==> Paged(replies, k) == Prepend(replies[k].species.value, Paged(replies, k + 1))
  {
  }

  /** `fetchCumulativeTotals(since)`: reply `replies[i]` answers the request
      for page `i + 1`; `pages` is how many pages were requested. A thrown
      fetch or parse error propagates. */
  method FetchCumulativeTotals(replies: seq<SpeciesReply>) returns (r: Result<Dict<Species>>, pages: nat)
    requires Ends(replies)
    ensures r == Cumulative(replies)
    ensures pages == PagesRead(replies, 0)
  {
    var page := 1;
    var all: Dict<Species> := Empty();
    ghost var read: seq<Species> := [];
    PrependNothing(Paged(replies, 0));
    while true
      invariant 1 <= page <= |replies|
      invariant PagesRead(replies, 0) == page - 1 + PagesRead(replies, page - 1)
      invariant all.Valid() && all == PutAll(Empty(), read)
      invariant Paged(replies, 0) == Prepend(read, Paged(replies, page - 1))
      decreases |replies| - page
    {
      var reply := replies[page - 1];
      PageStep(replies, page - 1);
      if reply.Threw? {
        return Thrown, page;
      }
      if !reply.success || reply.species.None? || |reply.species.value| == 0 {
        assert read + [] == read;
        return Ok(all), page;
      }
      var items := reply.species.value;
      all := StorePage(all, items);
      PutAllAppend(Empty(), read, items);
      if |items| < SpeciesPageLimit {
        return Ok(all), page;
      }
      PrependTwice(read, items, Paged(replies, page));
      read := read + items;
      page := page + 1;
    }
  }

  /** How many pages are requested from page `k + 1` on. */
  function PagesRead(replies: seq<SpeciesReply>, k: nat): nat
    requires Ends(replies) && k < |replies|
    decreases |replies| - k
  {
    if LastPage(replies[k]) then 1 else 1 + PagesRead(replies, k + 1)
  }

  /** Paging asks for pages `k + 1, k + 2, ...` until a reply ends it: every
      reply before the last one read held a full page. */
  lemma {:induction false} PagesReadMeaning(replies: seq<SpeciesReply>, k: nat)
    requires Ends(replies) && k < |replies|
    ensures 0 < PagesRead(replies, k) <= |replies| - k
    ensures forall i :: k <= i < k + PagesRead(replies, k) - 1 ==> !LastPage(replies[i])
    ensures LastPage(replies[k + PagesRead(replies, k) - 1])
    decreases |replies| - k
  {
    if !LastPage(replies[k]) {
      PagesReadMeaning(replies, k + 1);
    }
  }

  /** Storing two runs of records is storing their concatenation. */
  lemma {:induction false} PutAllAppend(all: Dict<Species>, a: seq<Species>, b: seq<Species>)
    requires all.Valid()
    ensures PutAll(PutAll(all, a), b) == PutAll(all, a + b)
    decreases |b|
  {
    if b != [] {
      var n := |b| - 1;
      assert (a + b)[..|a + b| - 1] == a + b[..n];
      assert (a + b)[|a + b| - 1] == b[n];
      PutAllAppend(all, a, b[..n]);
    } else {
      assert a + b == a;
    }
  }

  /** The inner `for` loop over one page: each record overwrites the entry
      under its id. */
  method StorePage(all: Dict<Species>, items: seq<Species>) returns (d: Dict<Species>)
    requires all.Valid()
    ensures d == PutAll(all, items) && d.Valid()
  {
    d := all;
    var j := 0;
    while j < |items|
      invariant 0 <= j <= |items|
      invariant d.Valid()
      invariant d == PutAll(all, items[..j])
    {
      d := d.Put(Key(items[j]), items[j]);
      PutAllStep(all, items, j);
      j := j + 1;
    }
    assert items[..j] == items;
  }

  lemma PutAllStep(all: Dict<Species>, items: seq<Species>, j: int)
    requires all.Valid() && 0 <= j < |items|
    ensures PutAll(all, items[..j + 1]) == PutAll(all, items[..j]).Put(Key(items[j]), items[j])
  {
    assert items[..j + 1][..j] == items[..j];
  }

  /** The ids, as keys, of a run of species records. */
  ghost function KeySet(items: seq<Species>): set<string>
  {
    if items == [] then {} else KeySet(items[..|items| - 1]) + {Key(items[|items| - 1])}
  }

  lemma {:induction false} KeySetMembers(items: seq<Species>, k: string)
    ensures k in KeySet(items) <==> exists i :: 0 <= i < |items| && Key(items[i]) == k
  {
    if items != [] {
      var n := |items| - 1;
      var init := items[..n];
      KeySetMembers(init, k);
      assert forall i :: 0 <= i < n ==> init[i] == items[i];
    }
  }

  /** A species id is stored exactly when it was stored before or some
      stored record carries it. */
  lemma {:induction false} PutAllKeys(all: Dict<Species>, items: seq<Species>)
    requires all.Valid()
    ensures PutAll(all, items).entries.Keys == all.entries.Keys + KeySet(items)
  {
    if items != [] {
      PutAllSnoc(all, items);
      PutAllKeys(all, items[..|items| - 1]);
    }
  }

  /** A later record overwrites an earlier one with the same id: what is
      stored under an id is the last record that carries it. */
  lemma {:induction false} PutAllLastWins(all: Dict<Species>, items: seq<Species>, i: int)
    requires all.Valid()
    requires 0 <= i < |items|
    requires forall j :: i < j < |items| ==> items[j].id != items[i].id
    ensures Key(items[i]) in PutAll(all, items).entries
    ensures PutAll(all, items).entries[Key(items[i])] == items[i]
  {
    var last := |items| - 1;
    var init := items[..last];
    PutAllSnoc(all, items);
    if i < last {
      assert init[i] == items[i];
      assert forall j :: i < j < |init| ==> init[j] == items[j];
      PutAllLastWins(all, init, i);
      KeysDiffer(items[last], items[i]);
    }
  }

  lemma PutAllSnoc(all: Dict<Species>, items: seq<Species>)
    requires all.Valid() && items != []
    ensures PutAll(all, items).entries
         == PutAll(all, items[..|items| - 1]).entries[Key(items[|items| - 1]) := items[|items| - 1]]
  {
  }

  /** Records with different ids are stored under different keys. */
  lemma KeysDiffer(a: Species, b: Species)
    requires a.id != b.id
    ensures Key(a) != Key(b)
  {
    if Key(a) == Key(b) {
      Numbers.IntToStringInjective(a.id, b.id);
    }
  }

  /** A successful paging stores, under each id read, the last record read
      with that id, and nothing else. */
  lemma CumulativeStoresLastRead(replies: seq<SpeciesReply>, k: string)
    requires Ends(replies) && Paged(replies, 0).Ok?
    ensures Cumulative(replies).Ok?
    ensures k in Cumulative(replies).value.entries
        <==> exists i :: 0 <= i < |Paged(replies, 0).value| && Key(Paged(replies, 0).value[i]) == k
    ensures forall i :: 0 <= i < |Paged(replies, 0).value| && Key(Paged(replies, 0).value[i]) == k
                     && (forall j :: i < j < |Paged(replies, 0).value| ==> Paged(replies, 0).value[j].id != Paged(replies, 0).value[i].id)
                     ==> Cumulative(replies).value.entries[k] == Paged(replies, 0).value[i]
  {
    var items := Paged(replies, 0).value;
    PutAllKeys(Empty(), items);
    KeySetMembers(items, k);
    forall i | 0 <= i < |items| && Key(items[i]) == k
               && (forall j :: i < j < |items| ==> items[j].id != items[i].id)
      ensures Cumulative(replies).value.entries[k] == items[i]
    {
      PutAllLastWins(Empty(), items, i);
    }
  }

  // ----------------------------------------------------------------------
  // The master species set

  /** The inner loop over one day's entries: each id not yet in the master
      set enters it with that day's record; ids already there are kept. */
  function AddKeys(master: Dict<Species>, snapshot: Dict<Species>, ids: seq<string>): (d: Dict<Species>)
    requires master.Valid()
    requires forall k :: k in ids ==> k in snapshot.entries
    ensures d.Valid()
  {
    if ids == [] then master
    else
      var rest := AddKeys(master, snapshot, ids[..|ids| - 1]);
      var id := ids[|ids| - 1];
      if id in rest.entries then rest else rest.Put(id, snapshot.entries[id])
  }

  /** The outer loop: the day snapshots in ascending date order. */
  function MasterOf(snapshots: seq<Dict<Species>>): (d: Dict<Species>)
    requires forall j :: 0 <= j < |snapshots| ==> snapshots[j].Valid()
    ensures d.Valid()
  {
    if snapshots == [] then Empty()
    else
      var last := snapshots[|snapshots| - 1];
      assert last.Valid();
      assert forall k :: k in last.keys ==> k in last.entries;
      AddKeys(MasterOf(snapshots[..|snapshots| - 1]), last, last.keys)
  }

  method BuildMaster(snapshots: seq<Dict<Species>>) returns (master: Dict<Species>)
    requires forall j :: 0 <= j < |snapshots| ==> snapshots[j].Valid()
    ensures master == MasterOf(snapshots)
  {
    master := Empty();
    var n := 0;
    while n < |snapshots|
      invariant 0 <= n <= |snapshots|
      invariant master.Valid()
      invariant master == MasterOf(snapshots[..n])
    {
      var dayTotals := snapshots[n];
      ghost var before := master;
      var e := 0;
      while e < |dayTotals.keys|
        invariant 0 <= e <= |dayTotals.keys|
        invariant master.Valid()
        invariant master == AddKeys(before, dayTotals, dayTotals.keys[..e])
      {
        var id := dayTotals.keys[e];
        if id !in master.entries {
          master := master.Put(id, dayTotals.entries[id]);
        }
        assert dayTotals.keys[..e + 1][..e] == dayTotals.keys[..e];
        e := e + 1;
      }
      assert dayTotals.keys[..e] == dayTotals.keys;
      assert snapshots[..n + 1][..n] == snapshots[..n];
      n := n + 1;
    }
    assert snapshots[..n] == snapshots;
  }

  lemma {:induction false} AddKeysShape(master: Dict<Species>, snapshot: Dict<Species>, ids: seq<string>, k: string)
    requires master.Valid()
    requires forall x :: x in ids ==> x in snapshot.entries
    ensures k in AddKeys(master, snapshot, ids).entries <==> k in master.entries || k in ids
    ensures k in master.entries ==> AddKeys(master, snapshot, ids).entries[k] == master.entries[k]
    ensures k !in master.entries && k in ids ==> AddKeys(master, snapshot, ids).entries[k] == snapshot.entries[k]
  {
    if ids != [] {
      AddKeysShape(master, snapshot, ids[..|ids| - 1], k);
      assert forall x :: x in ids[..|ids| - 1] ==> x in ids;
      assert k in ids <==> k in ids[..|ids| - 1] || k == ids[|ids| - 1];
    }
  }

  /** The master set is the union of the days' ids, and each id carries the
      record of the earliest day (in date order) whose snapshot holds it. */
  lemma MasterFirstWins(snapshots: seq<Dict<Species>>, k: string)
    requires forall j :: 0 <= j < |snapshots| ==> snapshots[j].Valid()
    ensures k in MasterOf(snapshots).entries <==> exists j :: 0 <= j < |snapshots| && k in snapshots[j].entries
    ensures forall j :: (0 <= j < |snapshots| && k in snapshots[j].entries
                        && (forall j' :: 0 <= j' < j ==> k !in snapshots[j'].entries))
                        ==> MasterOf(snapshots).entries[k] == snapshots[j].entries[k]
  {
    MasterKeys(snapshots, k);
    forall j | 0 <= j < |snapshots| && k in snapshots[j].entries
               && (forall j' :: 0 <= j' < j ==> k !in snapshots[j'].entries)
      ensures MasterOf(snapshots).entries[k] == snapshots[j].entries[k]
    {
      MasterValue(snapshots, k, j);
    }
  }

  lemma {:induction false} MasterKeys(snapshots: seq<Dict<Species>>, k: string)
    requires forall j :: 0 <= j < |snapshots| ==> snapshots[j].Valid()
    ensures k in MasterOf(snapshots).entries <==> exists j :: 0 <= j < |snapshots| && k in snapshots[j].entries
  {
    if snapshots != [] {
      var n := |snapshots| - 1;
      var init := snapshots[..n];
      var last := snapshots[n];
      assert forall j :: 0 <= j < n ==> init[j] == snapshots[j];
      MasterKeys(init, k);
      AddKeysShape(MasterOf(init), last, last.keys, k);
      assert k in last.keys <==> k in last.entries;
    }
  }

  lemma {:induction false} MasterValue(snapshots: seq<Dict<Species>>, k: string, j: int)
    requires forall j :: 0 <= j < |snapshots| ==> snapshots[j].Valid()
    requires 0 <= j < |snapshots| && k in snapshots[j].entries
    requires forall j' :: 0 <= j' < j ==> k !in snapshots[j'].entries
    ensures k in MasterOf(snapshots).entries
    ensures MasterOf(snapshots).entries[k] == snapshots[j].entries[k]
  {
    var n := |snapshots| - 1;
    var init := snapshots[..n];
    var last := snapshots[n];
    assert forall i :: 0 <= i < n ==> init[i] == snapshots[i];
    AddKeysShape(MasterOf(init), last, last.keys, k);
    if j < n {
      MasterValue(init, k, j);
    } else {
      MasterKeys(init, k);
      assert k in last.keys;
    }
  }

  // ----------------------------------------------------------------------
  // The rows of one day

  /** `meta.commonName`, `meta.scientificName || null`, `meta.color || null`
      and the image URLs as they are. */
  function MetaOf(sp: Species): (m: SpeciesMeta)
    ensures m.commonName == sp.commonName && m.imageUrl == sp.imageUrl
    ensures m.thumbnailUrl == sp.thumbnailUrl && m.pngUrl == sp.pngUrl
    ensures m.scientificName.Some? <==> sp.scientificName.Some? && sp.scientificName.value != ""
    ensures m.color.Some? <==> sp.color.Some? && sp.color.value != ""
  {
    SpeciesMeta(sp.commonName, OrNull(sp.scientificName), OrNull(sp.color), sp.imageUrl, sp.thumbnailUrl, sp.pngUrl)
  }

  /** `info.detections?.<field> || 0` for one of the five counts. */
  function CountOf(detections: Option<UpstreamCounts>, field: UpstreamCounts -> Option<nat>): nat
  {
    match detections
    case None => 0
    case Some(c) => OrZero(field(c))
  }

  /** The row for species `id` on `date`: when the day's snapshot holds the
      species, its counts, timestamp and metadata come from that snapshot
      (missing counts become 0); otherwise every count is 0, the timestamp
      is null and the metadata is the master record's. */
  function BuildRow(id: string, master: Species, today: Option<Species>, date: Day): (row: DailyRow)
    ensures row.speciesCode == id && row.date == date
    ensures today.None? ==>
      && row.totalDetections == 0
      && row.tiers == TierCounts(0, 0, 0, 0)
      && row.latestDetectionAt == None
      && row.meta == MetaOf(master)
    ensures today.Some? ==>
      && row.totalDetections == CountOf(today.value.detections, (c: UpstreamCounts) => c.total)
      && row.tiers == TierCounts(
           CountOf(today.value.detections, (c: UpstreamCounts) => c.almostCertain),
           CountOf(today.value.detections, (c: UpstreamCounts) => c.veryLikely),
           CountOf(today.value.detections, (c: UpstreamCounts) => c.uncertain),
           CountOf(today.value.detections, (c: UpstreamCounts) => c.unlikely))
      && row.latestDetectionAt == today.value.latestDetectionAt
      && row.meta == MetaOf(today.value)
  {
    match today
    case Some(info) =>
      DailyRow(id, MetaOf(info), date, CountOf(info.detections, (c: UpstreamCounts) => c.total),
               TierCounts(CountOf(info.detections, (c: UpstreamCounts) => c.almostCertain),
                          CountOf(info.detections, (c: UpstreamCounts) => c.veryLikely),
                          CountOf(info.detections, (c: UpstreamCounts) => c.uncertain),
                          CountOf(info.detections, (c: UpstreamCounts) => c.unlikely)),
               info.latestDetectionAt)
    case None =>
      DailyRow(id, MetaOf(master), date, 0, TierCounts(0, 0, 0, 0), None)
  }

  /** The rows of every day: day i gets one row per master species, in
      master order. */
  function DailyRows(dates: seq<Day>, snapshots: seq<Dict<Species>>, master: Dict<Species>): (batches: seq<seq<DailyRow>>)
    requires |snapshots| == |dates| && master.Valid()
    ensures |batches| == |dates|
    ensures forall i :: 0 <= i < |dates| ==> |batches[i]| == |master.keys|
  {
    seq(|dates|, i requires 0 <= i < |dates| =>
      seq(|master.keys|, j requires 0 <= j < |master.keys| =>
        BuildRow(master.keys[j], master.entries[master.keys[j]], snapshots[i].Get(master.keys[j]), dates[i])))
  }

  /** The per-date loop with its inner loop over the master entries. */
  method BuildDailyRows(dates: seq<Day>, snapshots: seq<Dict<Species>>, master: Dict<Species>)
    returns (batches: seq<seq<DailyRow>>)
    requires |snapshots| == |dates| && master.Valid()
    ensures batches == DailyRows(dates, snapshots, master)
  {
    batches := [];
    var idx := 0;
    while idx < |dates|
      invariant 0 <= idx <= |dates|
      invariant |batches| == idx
      invariant forall i :: 0 <= i < idx ==> batches[i] == DailyRows(dates, snapshots, master)[i]
    {
      var date := dates[idx];
      var todayTotals := snapshots[idx];
      var rows: seq<DailyRow> := [];
      var e := 0;
      while e < |master.keys|
        invariant 0 <= e <= |master.keys|
        invariant |rows| == e
        invariant forall j :: 0 <= j < e ==> rows[j] == DailyRows(dates, snapshots, master)[idx][j]
      {
        var id := master.keys[e];
        rows := rows + [BuildRow(id, master.entries[id], todayTotals.Get(id), date)];
        e := e + 1;
      }
      batches := batches + [rows];
      idx := idx + 1;
    }
  }

  /** Each day's batch holds exactly one row per master species, all dated
      that day, so no two rows of a batch share (species_code, date); the
      total of a row is that day's cumulative snapshot value, whatever the
      other days hold. */
  lemma DailyRowsShape(dates: seq<Day>, snapshots: seq<Dict<Species>>, master: Dict<Species>, i: int)
    requires |snapshots| == |dates| && master.Valid()
    requires 0 <= i < |dates|
    ensures UniqueKeys(DailyRows(dates, snapshots, master)[i])
    ensures forall row :: row in DailyRows(dates, snapshots, master)[i] ==>
      row.date == dates[i] && row.speciesCode in master.entries
    ensures forall k :: k in master.entries ==>
      exists row :: row in DailyRows(dates, snapshots, master)[i] && row.speciesCode == k
    ensures forall j :: 0 <= j < |master.keys| ==>
      var row := DailyRows(dates, snapshots, master)[i][j];
      row.totalDetections == if master.keys[j] in snapshots[i].entries
        then CountOf(snapshots[i].entries[master.keys[j]].detections, (c: UpstreamCounts) => c.total) else 0
  {
    var batch := DailyRows(dates, snapshots, master)[i];
    forall k | k in master.entries
      ensures exists row :: row in batch && row.speciesCode == k
    {
      var j :| 0 <= j < |master.keys| && master.keys[j] == k;
      assert batch[j] in batch && batch[j].speciesCode == k;
    }
  }

  // ----------------------------------------------------------------------
  // fetchAndStoreDailyCounts

  /** What one backfill run sends to the store: the purge cutoff (rows dated
      before it are deleted, first) and the batches of rows upserted, one
      per day. */
  datatype BackfillRun = BackfillRun(purgeBefore: Day, upserts: Result<seq<seq<DailyRow>>>)

  /** The snapshots of all days, or Thrown when one day's paging threw. */
  function Snapshots(replies: seq<seq<SpeciesReply>>): (r: Result<seq<Dict<Species>>>)
    requires forall i :: 0 <= i < |replies| ==> Ends(replies[i])
    ensures r.Ok? ==> |r.value| == |replies|
    ensures r.Ok? ==> forall j :: 0 <= j < |r.value| ==> r.value[j].Valid()
  {
    if replies == [] then Ok([])
    else
      var n := |replies| - 1;
      assert forall i :: 0 <= i < n ==> replies[..n][i] == replies[i];
      match Snapshots(replies[..n])
      case Thrown => Thrown
      case Ok(snaps) =>
        match Cumulative(replies[n])
        case Thrown => Thrown
        case Ok(day) => Ok(snaps + [day])
  }

  /** The whole backfill for the `days` days before `today`; `replies[i]` are
      the page replies for the i-th day, oldest first. */
  function BackfillSpec(today: Day, days: nat, replies: seq<seq<SpeciesReply>>): BackfillRun
    requires |replies| == days
    requires forall i :: 0 <= i < |replies| ==> Ends(replies[i])
  {
    var dates := Calendar.DaysBefore(today, days);
    match Snapshots(replies)
    case Thrown => BackfillRun(today - days, Thrown)
    case Ok(snaps) => BackfillRun(today - days, Ok(DailyRows(dates, snaps, MasterOf(snaps))))
  }

  /** `fetchAndStoreDailyCounts(days)`. */
  method Backfill(today: Day, days: nat, replies: seq<seq<SpeciesReply>>) returns (run: BackfillRun)
    requires |replies| == days
    requires forall i :: 0 <= i < |replies| ==> Ends(replies[i])
    ensures run == BackfillSpec(today, days, replies)
    ensures run.purgeBefore == today - days
    ensures run.upserts.Ok? ==> |run.upserts.value| == days
    ensures run.upserts.Ok? ==> forall i, row :: 0 <= i < days && row in run.upserts.value[i] ==> row.date == today - days + i
  {
    var cutoff := today - days;
    var dates := Calendar.PastDays(today, days);
    var cumulative: seq<Dict<Species>> := [];
    var n := 0;
    while n < |dates|
      invariant 0 <= n <= |dates|
      invariant forall i :: 0 <= i < n ==> replies[..n][i] == replies[i]
      invariant Snapshots(replies[..n]) == Ok(cumulative)
    {
      var day, _ := FetchCumulativeTotals(replies[n]);
      assert replies[..n + 1][..n] == replies[..n];
      assert replies[..n + 1][n] == replies[n];
      if day.Thrown? {
        ThrownStaysThrown(replies, n + 1);
        return BackfillRun(cutoff, Thrown);
      }
      cumulative := cumulative + [day.value];
      n := n + 1;
    }
    assert replies[..n] == replies;
    var masterSpecies := BuildMaster(cumulative);
    var batches := BuildDailyRows(dates, cumulative, masterSpecies);
    run := BackfillRun(cutoff, Ok(batches));
    forall i, row: DailyRow | 0 <= i < days && row in batches[i] ensures row.date == today - days + i {
      DailyRowsShape(dates, cumulative, masterSpecies, i);
    }
  }

  /** Once one day's paging has thrown, the whole run has. */
  lemma {:induction false} ThrownStaysThrown(replies: seq<seq<SpeciesReply>>, n: nat)
    requires forall i :: 0 <= i < |replies| ==> Ends(replies[i])
    requires 0 < n <= |replies|
    requires Snapshots(replies[..n]).Thrown?
    ensures Snapshots(replies).Thrown?
    decreases |replies| - n
  {
    if n < |replies| {
      assert replies[..n + 1][..n] == replies[..n];
      ThrownStaysThrown(replies, n + 1);
    } else {
      assert replies[..n] == replies;
    }
  }
}
