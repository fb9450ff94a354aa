/** One refresh of the dashboard page: the shared sparkline scale, the
    "new" badge, the recent and rare card grids and the counts table. */
module Dashboard {
  import opened Basics
  import Sorting
  import Calendar
  import opened DetectionCard

  /** Date columns of the counts table. */
  const TableDays: nat := 31

  /** Trailing entries of a history that count as "recent" for the badge. */
  const BadgeWindow: nat := 7

  const RecentPlaceholder: string := "No recent detections"
  const RarePlaceholder: string := "No rare detections"
  const UpdateError: string := "Unable to fetch latest detections. Will retry soon..."

  // ----------------------------------------------------------------------
  // The shared scale

  /** `items.flatMap(d => d.frequency)`. */
  function AllValues(items: seq<Item>): (vs: seq<nat>)
    ensures forall i, j :: 0 <= i < |items| && 0 <= j < |items[i].frequency| ==> items[i].frequency[j] in vs
    ensures forall v :: v in vs ==> exists i :: 0 <= i < |items| && v in items[i].frequency
  {
    if items == [] then []
    else
      var n := |items| - 1;
      var init := AllValues(items[..n]);
      assert forall i :: 0 <= i < n ==> items[..n][i] == items[i];
      init + items[n].frequency
  }

  /** `Math.max(...vs)`. */
  function MaxOf(vs: seq<nat>): (m: nat)
    requires |vs| > 0
    ensures m in vs
    ensures forall v :: v in vs ==> v <= m
  {
    if |vs| == 1 then vs[0]
    else
      var rest := MaxOf(vs[1..]);
      assert vs == [vs[0]] + vs[1..];
      if vs[0] >= rest then vs[0] else rest
  }

  /** The sparkline scale shared by every card: the largest count of any
      recent or rare history, or 1 when there is no count at all. */
  function GlobalMax(recent: seq<Item>, rare: seq<Item>): (m: nat)
    ensures AllValues(recent + rare) == [] ==> m == 1
    ensures AllValues(recent + rare) != [] ==> exists it :: it in recent + rare && m in it.frequency
    ensures forall it :: it in recent + rare ==> forall v :: v in it.frequency ==> v <= m
  {
    var all := AllValues(recent + rare);
    if |all| > 0 then MaxOf(all) else 1
  }

  // ----------------------------------------------------------------------
  // The "new" badge

  /** Where `slice(-7)` and `slice(0, -7)` split a history of length `n`. */
  function BadgeSplit(n: nat): (c: nat)
    ensures c <= n && n - c == if n <= BadgeWindow then n else BadgeWindow
  {
    if n <= BadgeWindow then 0 else n - BadgeWindow
  }

  /** Detections in the last seven days and none before: the badge marks a
      species seen at least once, and only within the last seven entries of
      its history. */
  predicate ShowNewBadge(freq: seq<nat>)
    ensures ShowNewBadge(freq)
        <==> (exists i :: 0 <= i < |freq| && freq[i] > 0)
             && (forall i :: 0 <= i < |freq| - BadgeWindow ==> freq[i] == 0)
  {
    var c := BadgeSplit(|freq|);
    NewBadgeMeaning(freq);
    Sum(freq[c..]) > 0 && Sum(freq[..c]) == 0
  }

  /** The two sums of the badge rule, read entry by entry. */
  lemma {:induction false} NewBadgeMeaning(freq: seq<nat>)
    ensures var c := BadgeSplit(|freq|);
      (Sum(freq[c..]) > 0 && Sum(freq[..c]) == 0)
        <==> (exists i :: 0 <= i < |freq| && freq[i] > 0)
             && (forall i :: 0 <= i < |freq| - BadgeWindow ==> freq[i] == 0)
  {
    var c := BadgeSplit(|freq|);
    var recent, older := freq[c..], freq[..c];
    SumZeroIff(recent);
    SumZeroIff(older);
    assert forall i :: 0 <= i < |older| ==> older[i] == freq[i];
    assert forall i :: 0 <= i < |recent| ==> recent[i] == freq[c + i];
    if exists i :: 0 <= i < |freq| && freq[i] > 0 {
      var i :| 0 <= i < |freq| && freq[i] > 0;
      if i >= c {
        assert recent[i - c] > 0;
      } else {
        assert older[i] > 0;
      }
    }
  }

  /** A recent detection with its badge decision. */
  datatype Badged = Badged(item: Item, showNew: bool)

  predicate IsNew(p: Badged) { p.showNew }
  predicate IsOld(p: Badged) { !p.showNew }

  /** The comparator's order as a key: badged (1) before unbadged (0). */
  function BadgeKey(p: Badged): int { if p.showNew then 1 else 0 }

  /** `recentDetections.map(...)` adding the badge decision. */
  function WithBadges(items: seq<Item>): (ps: seq<Badged>)
    ensures |ps| == |items|
    ensures forall i :: 0 <= i < |items| ==> ps[i].item == items[i] && (ps[i].showNew <==> ShowNewBadge(items[i].frequency))
  {
    seq(|items|, i requires 0 <= i < |items| => Badged(items[i], ShowNewBadge(items[i].frequency)))
  }

  lemma {:induction false} InsertPastBadged(x: Badged, b: seq<Badged>, u: seq<Badged>)
    requires !x.showNew
    requires forall p :: p in b ==> p.showNew
    requires forall p :: p in u ==> !p.showNew
    ensures Sorting.Insert(x, b + u, BadgeKey) == b + ([x] + u)
  {
    if b == [] {
      assert b + u == u;
    } else {
      assert (b + u)[0] == b[0];
      assert (b + u)[1..] == b[1..] + u;
      InsertPastBadged(x, b[1..], u);
      assert b == [b[0]] + b[1..];
    }
  }

  /** A badged detection is inserted in front. */
  lemma InsertBadgedFront(x: Badged, s: seq<Badged>)
    requires x.showNew
    ensures Sorting.Insert(x, s, BadgeKey) == [x] + s
  {
  }

  /** One step of the partition proof, for a badged head. */
  lemma {:induction false} PartitionStepNew(ps: seq<Badged>)
    requires ps != [] && ps[0].showNew
    requires Sorting.SortDesc(ps[1..], BadgeKey) == Sorting.Filter(ps[1..], IsNew) + Sorting.Filter(ps[1..], IsOld)
    ensures Sorting.SortDesc(ps, BadgeKey) == Sorting.Filter(ps, IsNew) + Sorting.Filter(ps, IsOld)
  {
    var x, t := ps[0], ps[1..];
    var b, u := Sorting.Filter(t, IsNew), Sorting.Filter(t, IsOld);
    InsertBadgedFront(x, b + u);
    Sorting.Regroup([x], b, u);
    assert Sorting.Filter(ps, IsNew) == [x] + b;
    assert Sorting.Filter(ps, IsOld) == u;
  }

  /** One step of the partition proof, for an unbadged head. */
  lemma {:induction false} PartitionStepOld(ps: seq<Badged>)
    requires ps != [] && !ps[0].showNew
    requires Sorting.SortDesc(ps[1..], BadgeKey) == Sorting.Filter(ps[1..], IsNew) + Sorting.Filter(ps[1..], IsOld)
    ensures Sorting.SortDesc(ps, BadgeKey) == Sorting.Filter(ps, IsNew) + Sorting.Filter(ps, IsOld)
  {
    var x, t := ps[0], ps[1..];
    var b, u := Sorting.Filter(t, IsNew), Sorting.Filter(t, IsOld);
    assert Sorting.SortDesc(ps, BadgeKey) == Sorting.Insert(x, b + u, BadgeKey);
    assert Sorting.Filter(ps, IsNew) == b;
    assert Sorting.Filter(ps, IsOld) == [x] + u;
    InsertPastBadged(x, b, u);
  }

  /** The JavaScript sort with the badge comparator, being stable, is the
      badged detections in input order followed by the others in input
      order. */
  lemma {:induction false} BadgeSortPartition(ps: seq<Badged>)
    ensures Sorting.SortDesc(ps, BadgeKey) == Sorting.Filter(ps, IsNew) + Sorting.Filter(ps, IsOld)
  {
    if ps != [] {
      BadgeSortPartition(ps[1..]);
      if ps[0].showNew {
        PartitionStepNew(ps);
      } else {
        PartitionStepOld(ps);
      }
    }
  }

  /** The badge-first sort: every badged detection precedes every unbadged
      one, each group keeps its input order, and nothing is added or lost. */
  function SortByBadge(ps: seq<Badged>): (r: seq<Badged>)
    ensures r == Sorting.Filter(ps, IsNew) + Sorting.Filter(ps, IsOld)
    ensures multiset(r) == multiset(ps)
    ensures forall i, j :: 0 <= i < j < |r| && r[j].showNew ==> r[i].showNew
  {
    BadgeSortPartition(ps);
    var r := Sorting.SortDesc(ps, BadgeKey);
    var b, o := Sorting.Filter(ps, IsNew), Sorting.Filter(ps, IsOld);
    forall j | |b| <= j < |r| ensures !r[j].showNew {
      assert r[j] == o[j - |b|] && o[j - |b|] in o;
    }
    forall i, j | 0 <= i < j < |r| && r[j].showNew ensures r[i].showNew {
      assert r[i] == b[i] && b[i] in b;
    }
    r
  }

  // ----------------------------------------------------------------------
  // Grids

  datatype Grid = Placeholder(message: string) | Cards(cards: seq<Card>)

  /** `'new'` for a badged detection, `null` otherwise. */
  function NewBadgeType(showNew: bool): Option<string>
  {
    if showNew then Some("new") else None
  }

  /** The recent grid: a placeholder when there is nothing to show, else one
      card per detection in badge order. */
  function RecentGrid(recent: seq<Item>, globalMax: int): (g: Grid)
    ensures g.Placeholder? <==> |recent| == 0
    ensures g.Placeholder? ==> g.message == RecentPlaceholder
    ensures g.Cards? ==> |g.cards| == |recent|
  {
    if |recent| == 0 then Placeholder(RecentPlaceholder)
    else
      var sorted := SortByBadge(WithBadges(recent));
      Cards(seq(|sorted|, i requires 0 <= i < |sorted| =>
        CardFor(sorted[i].item, globalMax, NewBadgeType(sorted[i].showNew))))
  }

  /** Card `i` of the recent grid is the `i`-th detection in badge order. */
  lemma RecentGridCard(recent: seq<Item>, globalMax: int, i: int)
    requires 0 <= i < |recent|
    ensures |SortByBadge(WithBadges(recent))| == |recent|
    ensures RecentGrid(recent, globalMax).cards[i]
         == CardFor(SortByBadge(WithBadges(recent))[i].item, globalMax, NewBadgeType(SortByBadge(WithBadges(recent))[i].showNew))
  {
    assert |multiset(SortByBadge(WithBadges(recent)))| == |multiset(WithBadges(recent))|;
  }

  /** The recent cards with a NEW badge come before the others. */
  lemma {:induction false} RecentGridBadgesFirst(recent: seq<Item>, globalMax: int, i: int, j: int)
    requires 0 <= i < j < |recent|
    requires RecentGrid(recent, globalMax).cards[j].badge.Some?
    ensures RecentGrid(recent, globalMax).cards[i].badge.Some?
  {
    var sorted := SortByBadge(WithBadges(recent));
    RecentGridCard(recent, globalMax, i);
    RecentGridCard(recent, globalMax, j);
    assert sorted[j].showNew;
  }

  /** Every recent card shows one of the recent detections, with a NEW badge
      exactly when that detection earns one. */
  lemma {:induction false} RecentGridShowsRecent(recent: seq<Item>, globalMax: int, i: int)
    requires 0 <= i < |recent|
    ensures exists k :: (0 <= k < |recent|
      && RecentGrid(recent, globalMax).cards[i] == CardFor(recent[k], globalMax, NewBadgeType(ShowNewBadge(recent[k].frequency))))
  {
    var ps := WithBadges(recent);
    var sorted := SortByBadge(ps);
    RecentGridCard(recent, globalMax, i);
    assert sorted[i] in multiset(ps);
    var k :| 0 <= k < |ps| && ps[k] == sorted[i];
    assert RecentGrid(recent, globalMax).cards[i] == CardFor(recent[k], globalMax, NewBadgeType(ShowNewBadge(recent[k].frequency)));
  }

  /** The `forEach` that appends the recent cards in sorted order. */
  method RenderRecentGrid(recent: seq<Item>, globalMax: int) returns (g: Grid)
    ensures g == RecentGrid(recent, globalMax)
  {
    if |recent| == 0 {
      return Placeholder(RecentPlaceholder);
    }
    var processed := WithBadges(recent);
    var sorted := SortByBadge(processed);
    var cards: seq<Card> := [];
    var i := 0;
    while i < |sorted|
      invariant 0 <= i <= |sorted|
      invariant |cards| == i
      invariant forall k :: 0 <= k < i ==> cards[k] == CardFor(sorted[k].item, globalMax, NewBadgeType(sorted[k].showNew))
    {
      var badgeType := if sorted[i].showNew then Some("new") else None;
      var card := RenderDetectionCard(sorted[i].item, globalMax, badgeType);
      cards := cards + [card];
      i := i + 1;
    }
    g := Cards(cards);
  }

  /** The rare grid: a placeholder when there is nothing to show, else one
      RARE card per detection, in the server's order. */
  function RareGrid(rare: seq<Item>, globalMax: int): (g: Grid)
    ensures g.Placeholder? <==> |rare| == 0
    ensures g.Placeholder? ==> g.message == RarePlaceholder
    ensures g.Cards? ==> |g.cards| == |rare|
    ensures g.Cards? ==> forall i :: 0 <= i < |rare| ==>
      g.cards[i].name == rare[i].commonName && g.cards[i].badge == BadgeFor(Some("rare"))
  {
    if |rare| == 0 then Placeholder(RarePlaceholder)
    else Cards(seq(|rare|, i requires 0 <= i < |rare| => CardFor(rare[i], globalMax, Some("rare"))))
  }

  method RenderRareGrid(rare: seq<Item>, globalMax: int) returns (g: Grid)
    ensures g == RareGrid(rare, globalMax)
  {
    if |rare| == 0 {
      return Placeholder(RarePlaceholder);
    }
    var cards: seq<Card> := [];
    var i := 0;
    while i < |rare|
      invariant 0 <= i <= |rare|
      invariant |cards| == i
      invariant forall k :: 0 <= k < i ==> cards[k] == CardFor(rare[k], globalMax, Some("rare"))
    {
      var card := RenderDetectionCard(rare[i], globalMax, Some("rare"));
      cards := cards + [card];
      i := i + 1;
    }
    g := Cards(cards);
  }

  // ----------------------------------------------------------------------
  // The counts table

  datatype TableRow = TableRow(name: Option<string>, cells: seq<nat>)

  /** The header dates and the body rows of the counts table. */
  datatype Table = Table(dates: seq<Day>, rows: seq<TableRow>)

  /** The table: the 31 days before today as headers (oldest first), then
      one row per recent detection in the server's order (not the badge
      order), one cell per history entry. */
  method BuildTable(today: Day, recent: seq<Item>) returns (t: Table)
    ensures t.dates == Calendar.DaysBefore(today, TableDays)
    ensures |t.rows| == |recent|
    ensures forall i :: 0 <= i < |recent| ==> t.rows[i].name == recent[i].commonName
    ensures forall i :: 0 <= i < |recent| ==> t.rows[i].cells == recent[i].frequency
  {
    var dateList := Calendar.PastDays(today, TableDays);
    var rows: seq<TableRow> := [];
    var r := 0;
    while r < |recent|
      invariant 0 <= r <= |recent|
      invariant |rows| == r
      invariant forall i :: 0 <= i < r ==> rows[i] == TableRow(recent[i].commonName, recent[i].frequency)
    {
      var det := recent[r];
      var cells: seq<nat> := [];
      var c := 0;
      while c < |det.frequency|
        invariant 0 <= c <= |det.frequency|
        invariant cells == det.frequency[..c]
      {
        cells := cells + [det.frequency[c]];
        c := c + 1;
      }
      assert cells == det.frequency;
      rows := rows + [TableRow(det.commonName, cells)];
      r := r + 1;
    }
    t := Table(dateList, rows);
  }

  // ----------------------------------------------------------------------
  // One refresh

  datatype Display = FetchFailed(message: string) | Shown(recentGrid: Grid, rareGrid: Grid, table: Table)

  /** `updateDisplay()`: `recent` and `rare` are the two endpoint bodies, None
      when that request failed. Either failure shows the retry message and
      nothing else. */
  method UpdateDisplay(today: Day, recent: Option<seq<Item>>, rare: Option<seq<Item>>) returns (d: Display)
    ensures d.FetchFailed? <==> recent.None? || rare.None?
    ensures d.FetchFailed? ==> d.message == UpdateError
    ensures d.Shown? ==>
      var scale := GlobalMax(recent.value, rare.value);
      && d.recentGrid == RecentGrid(recent.value, scale)
      && d.rareGrid == RareGrid(rare.value, scale)
      && d.table.dates == Calendar.DaysBefore(today, TableDays)
      && |d.table.rows| == |recent.value|
      && (forall i :: 0 <= i < |recent.value| ==> d.table.rows[i].cells == recent.value[i].frequency)
  {
    if recent.None? || rare.None? {
      return FetchFailed(UpdateError);
    }
    var globalMax := GlobalMax(recent.value, rare.value);
    var recentGrid := RenderRecentGrid(recent.value, globalMax);
    var rareGrid := RenderRareGrid(rare.value, globalMax);
    var table := BuildTable(today, recent.value);
    d := Shown(recentGrid, rareGrid, table);
  }
}
