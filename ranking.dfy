/** The ranking table of the prioritisation screen as pure functions: the
    annotation with totals, the three filters, the sort comparator, the paging,
    the overlay of unsaved edits, the clamping of a cell edit and the per-cell
    "modified" flags. The state that drives them is in module Prioritization. */
module Ranking {
  import opened Domain
  import Lists
  import Sorting

  /** A record together with its computed total: `{...service, total}`. */
  datatype Row = Row(svc: Service, total: int)

  function Annotate(s: Service): Row
  {
    Row(s, Total(s.scores))
  }

  function AnnotateAll(services: seq<Service>): (rows: seq<Row>)
    ensures |rows| == |services|
    ensures forall i :: 0 <= i < |services| ==> rows[i] == Annotate(services[i])
  {
    seq(|services|, i requires 0 <= i < |services| => Annotate(services[i]))
  }

  // ---------------------------------------------------------------- filters

  /** The option value that switches a filter off. */
  const AllValues := "all"

  /** The three filter selects, each holding an option value. */
  datatype Filters = Filters(cluster: string, classification: string, status: string)

  const NoFilters := Filters(AllValues, AllValues, AllValues)

  /** The `name` attribute of the select that changed. */
  datatype FilterName = ClusterFilter | ClassificationFilter | StatusFilter

  /** `{...prev, [name]: value}`. */
  function SetFilter(f: Filters, name: FilterName, value: string): Filters
  {
    match name
    case ClusterFilter => f.(cluster := value)
    case ClassificationFilter => f.(classification := value)
    case StatusFilter => f.(status := value)
  }

  /** Setting one filter changes that filter and leaves the other two alone. */
  lemma SetFilterOnlyNamed(f: Filters, name: FilterName, value: string)
    ensures var g := SetFilter(f, name, value);
      && (g.cluster == if name == ClusterFilter then value else f.cluster)
      && (g.classification == if name == ClassificationFilter then value else f.classification)
      && (g.status == if name == StatusFilter then value else f.status)
  {
  }

  predicate ClusterMatches(f: Filters, r: Row)
  {
    f.cluster == AllValues || r.svc.cluster == f.cluster
  }

  predicate StatusMatches(f: Filters, r: Row)
  {
    f.status == AllValues || StatusName(EffectiveStatus(r.svc.status)) == f.status
  }

  predicate TierMatches(f: Filters, r: Row)
  {
    f.classification == AllValues || TierName(Classify(r.total)) == f.classification
  }

  /** A row passes when it satisfies every active filter. */
  predicate Matches(f: Filters, r: Row)
  {
    ClusterMatches(f, r) && StatusMatches(f, r) && TierMatches(f, r)
  }

  function ClusterTest(f: Filters): Row -> bool
  {
    (r: Row) => ClusterMatches(f, r)
  }

  function StatusTest(f: Filters): Row -> bool
  {
    (r: Row) => StatusMatches(f, r)
  }

  function TierTest(f: Filters): Row -> bool
  {
    (r: Row) => TierMatches(f, r)
  }

  function MatchesTest(f: Filters): Row -> bool
  {
    (r: Row) => Matches(f, r)
  }

  /** The filter chain of `processedData`: cluster, then status, then tier; a
      filter whose value is "all" is skipped. */
  function FilterRows(rows: seq<Row>, f: Filters): seq<Row>
  {
    var byCluster := if f.cluster != AllValues then Lists.Keep(rows, ClusterTest(f)) else rows;
    var byStatus := if f.status != AllValues then Lists.Keep(byCluster, StatusTest(f)) else byCluster;
    if f.classification != AllValues then Lists.Keep(byStatus, TierTest(f)) else byStatus
  }

  /** A skipped filter stage is a filter by a test that always passes. */
  lemma SkippedStage(s: seq<Row>, active: bool, p: Row -> bool)
    requires !active ==> forall x :: p(x)
    ensures (if active then Lists.Keep(s, p) else s) == Lists.Keep(s, p)
  {
    if !active {
      Lists.KeepTrue(s, p);
    }
  }

  /** The chain keeps exactly the rows that satisfy every active filter, in their
      original order: it is one filter by the conjunction. */
  lemma FilterRowsIsConjunction(rows: seq<Row>, f: Filters)
    ensures FilterRows(rows, f) == Lists.Keep(rows, MatchesTest(f))
  {
    var c, st, t := ClusterTest(f), StatusTest(f), TierTest(f);
    SkippedStage(rows, f.cluster != AllValues, c);
    var byCluster := Lists.Keep(rows, c);
    SkippedStage(byCluster, f.status != AllValues, st);
    var byStatus := Lists.Keep(byCluster, st);
    SkippedStage(byStatus, f.classification != AllValues, t);
    assert FilterRows(rows, f) == Lists.Keep(byStatus, t);
    ThreeStages(rows, f);
  }

  function ClusterStatusTest(f: Filters): Row -> bool
  {
    (r: Row) => ClusterMatches(f, r) && StatusMatches(f, r)
  }

  lemma ThreeStages(rows: seq<Row>, f: Filters)
    ensures Lists.Keep(Lists.Keep(Lists.Keep(rows, ClusterTest(f)), StatusTest(f)), TierTest(f))
         == Lists.Keep(rows, MatchesTest(f))
  {
    Lists.KeepKeep(rows, ClusterTest(f), StatusTest(f), ClusterStatusTest(f));
    Lists.KeepKeep(rows, ClusterStatusTest(f), TierTest(f), MatchesTest(f));
  }

  /** A row is in the filtered list exactly when it is in the input and satisfies every active filter. */
  lemma FilterRowsMembership(rows: seq<Row>, f: Filters, r: Row)
    ensures r in FilterRows(rows, f) <==> r in rows && Matches(f, r)
  {
    FilterRowsIsConjunction(rows, f);
    Lists.KeepMembership(rows, MatchesTest(f), r);
  }

  /** Filtering by a cluster that no record has gives an empty list, not an error. */
  lemma FilterAbsentClusterIsEmpty(rows: seq<Row>, f: Filters)
    requires f.cluster != AllValues
    requires forall r :: r in rows ==> r.svc.cluster != f.cluster
    ensures FilterRows(rows, f) == []
  {
    if FilterRows(rows, f) != [] {
      FilterRowsMembership(rows, f, FilterRows(rows, f)[0]);
    }
  }

  // ---------------------------------------------------------------- sorting

  /** Sortable columns: the name, one criterion score, the revenue estimate, the total, the status. */
  datatype SortKey = ByService | ByScore(index: nat) | ByRevenue | ByTotal | ByStatus

  datatype Direction = Ascending | Descending

  datatype SortConfig = SortConfig(key: SortKey, direction: Direction)

  /** The table opens sorted by total, highest first. */
  const InitialSort := SortConfig(ByTotal, Descending)

  /** `handleSort`: a click on a column sorts by it, descending, unless it was
      already sorted by that column descending, in which case it goes ascending. */
  function ToggleSort(prev: SortConfig, key: SortKey): SortConfig
  {
    SortConfig(key, if prev.key == key && prev.direction == Descending then Ascending else Descending)
  }

  lemma ToggleSortSpec(prev: SortConfig, key: SortKey)
    ensures ToggleSort(prev, key).key == key
    ensures ToggleSort(prev, key).direction == Ascending <==> prev == SortConfig(key, Descending)
  {
  }

  /** Repeated clicks on the same column alternate the direction. */
  lemma ToggleSortAlternates(prev: SortConfig, key: SortKey)
    ensures ToggleSort(ToggleSort(prev, key), key).direction != ToggleSort(prev, key).direction
    ensures ToggleSort(ToggleSort(prev, key), key).key == key
  {
  }

  /** `a.localeCompare(b)` reduced to its sign, over the collation `leq`
      ("a sorts before or together with b"). */
  function LocaleCompare(a: string, b: string, leq: (string, string) -> bool): int
  {
    if leq(a, b) && leq(b, a) then 0 else if leq(a, b) then -1 else 1
  }

  /** What is assumed of the locale collation: a total preorder. */
  ghost predicate TotalPreorder(leq: (string, string) -> bool)
  {
    && (forall a, b :: leq(a, b) || leq(b, a))
    && (forall a, b, c :: leq(a, b) && leq(b, c) ==> leq(a, c))
  }

  function NumericCompare(x: int, y: int, d: Direction): int
  {
    if x < y then (if d == Ascending then -1 else 1)
    else if x > y then (if d == Ascending then 1 else -1)
    else 0
  }

  function StringCompare(x: string, y: string, d: Direction, leq: (string, string) -> bool): int
  {
    if d == Ascending then LocaleCompare(x, y, leq) else LocaleCompare(y, x, leq)
  }

  /** The comparator of `processedData`. Scores are read with a missing entry as
      0; the name and the status compare by locale when both are strings; an
      absent revenue or status makes both `<` and `>` false, so the pair ties. */
  function Compare(a: Row, b: Row, c: SortConfig, leq: (string, string) -> bool): int
  {
    match c.key
    case ByScore(i) => NumericCompare(ScoreAt(a.svc.scores, i), ScoreAt(b.svc.scores, i), c.direction)
    case ByService => StringCompare(a.svc.service, b.svc.service, c.direction, leq)
    case ByTotal => NumericCompare(a.total, b.total, c.direction)
    case ByRevenue =>
      if a.svc.revenueEstimate.Some? && b.svc.revenueEstimate.Some?
      then NumericCompare(a.svc.revenueEstimate.value, b.svc.revenueEstimate.value, c.direction)
      else 0
    case ByStatus =>
      if a.svc.status.Some? && b.svc.status.Some?
      then StringCompare(StatusName(a.svc.status.value), StatusName(b.svc.status.value), c.direction, leq)
      else 0
  }

  function Comparator(c: SortConfig, leq: (string, string) -> bool): (Row, Row) -> int
  {
    (a: Row, b: Row) => Compare(a, b, c, leq)
  }

  /** `filteredServices.sort(...)`. */
  function SortRows(rows: seq<Row>, c: SortConfig, leq: (string, string) -> bool): seq<Row>
  {
    Sorting.SortBy(rows, Comparator(c, leq))
  }

  /** The comparator orders the rows consistently: always for numeric columns and
      the name, and for the revenue or status column when every row has one. */
  ghost predicate KeyConsistent(rows: seq<Row>, key: SortKey)
  {
    && (key == ByRevenue ==> forall r :: r in rows ==> r.svc.revenueEstimate.Some?)
    && (key == ByStatus ==> forall r :: r in rows ==> r.svc.status.Some?)
  }

  lemma LocaleCompareSign(a: string, b: string, leq: (string, string) -> bool)
    requires TotalPreorder(leq)
    ensures LocaleCompare(a, b, leq) <= 0 <==> leq(a, b)
    ensures LocaleCompare(a, b, leq) > 0 ==> LocaleCompare(b, a, leq) < 0
  {
  }

  lemma CompareAntisymmetric(rows: seq<Row>, c: SortConfig, leq: (string, string) -> bool)
    requires TotalPreorder(leq)
    ensures Sorting.AntisymmetricOn(rows, Comparator(c, leq))
  {
    forall a, b | a in rows && b in rows && Comparator(c, leq)(a, b) > 0
      ensures Comparator(c, leq)(b, a) < 0
    {
      match c.key {
        case ByService =>
          LocaleCompareSign(a.svc.service, b.svc.service, leq);
          LocaleCompareSign(b.svc.service, a.svc.service, leq);
        case ByStatus =>
          var x, y := StatusName(a.svc.status.value), StatusName(b.svc.status.value);
          LocaleCompareSign(x, y, leq);
          LocaleCompareSign(y, x, leq);
        case _ =>
      }
    }
  }

  lemma CompareTransitive(rows: seq<Row>, c: SortConfig, leq: (string, string) -> bool)
    requires TotalPreorder(leq) && KeyConsistent(rows, c.key)
    ensures Sorting.TransitiveOn(rows, Comparator(c, leq))
  {
    var cmp := Comparator(c, leq);
    forall a, b, d | a in rows && b in rows && d in rows && cmp(a, b) <= 0 && cmp(b, d) <= 0
      ensures cmp(a, d) <= 0
    {
      match c.key {
        case ByService =>
          LocaleCompareSign(a.svc.service, b.svc.service, leq);
          LocaleCompareSign(b.svc.service, a.svc.service, leq);
          LocaleCompareSign(b.svc.service, d.svc.service, leq);
          LocaleCompareSign(d.svc.service, b.svc.service, leq);
          LocaleCompareSign(a.svc.service, d.svc.service, leq);
          LocaleCompareSign(d.svc.service, a.svc.service, leq);
        case ByStatus =>
          var x, y, z := StatusName(a.svc.status.value), StatusName(b.svc.status.value), StatusName(d.svc.status.value);
          LocaleCompareSign(x, y, leq);
          LocaleCompareSign(y, x, leq);
          LocaleCompareSign(y, z, leq);
          LocaleCompareSign(z, y, leq);
          LocaleCompareSign(x, z, leq);
          LocaleCompareSign(z, x, leq);
        case _ =>
      }
    }
  }

  /** The sorted list is a permutation of its input; neighbours are always in
      comparator order; and when the column orders the rows consistently, every
      pair is. */
  lemma SortRowsSpec(rows: seq<Row>, c: SortConfig, leq: (string, string) -> bool)
    requires TotalPreorder(leq)
    ensures multiset(SortRows(rows, c, leq)) == multiset(rows)
    ensures Sorting.AdjacentOrdered(SortRows(rows, c, leq), Comparator(c, leq))
    ensures KeyConsistent(rows, c.key) ==> Sorting.Ordered(SortRows(rows, c, leq), Comparator(c, leq))
  {
    Sorting.SortByPermutation(rows, Comparator(c, leq));
    CompareAntisymmetric(rows, c, leq);
    Sorting.SortByAdjacent(rows, Comparator(c, leq));
    if KeyConsistent(rows, c.key) {
      CompareTransitive(rows, c, leq);
      Sorting.SortByOrdered(rows, Comparator(c, leq));
    }
  }

  /** Sorting by total puts the totals in the chosen direction. */
  lemma SortByTotalOrder(rows: seq<Row>, d: Direction, leq: (string, string) -> bool)
    requires TotalPreorder(leq)
    ensures var r := SortRows(rows, SortConfig(ByTotal, d), leq);
      forall i, j :: 0 <= i < j < |r| ==> if d == Ascending then r[i].total <= r[j].total else r[i].total >= r[j].total
  {
    var c := SortConfig(ByTotal, d);
    SortRowsSpec(rows, c, leq);
    var r := SortRows(rows, c, leq);
    forall i, j | 0 <= i < j < |r|
      ensures if d == Ascending then r[i].total <= r[j].total else r[i].total >= r[j].total
    {
      assert Comparator(c, leq)(r[i], r[j]) <= 0;
    }
  }

  /** Sorting by a criterion puts that criterion's scores (missing read as 0) in the chosen direction. */
  lemma SortByScoreOrder(rows: seq<Row>, index: nat, d: Direction, leq: (string, string) -> bool)
    requires TotalPreorder(leq)
    ensures var r := SortRows(rows, SortConfig(ByScore(index), d), leq);
      forall i, j :: 0 <= i < j < |r| ==>
        if d == Ascending then ScoreAt(r[i].svc.scores, index) <= ScoreAt(r[j].svc.scores, index)
        else ScoreAt(r[i].svc.scores, index) >= ScoreAt(r[j].svc.scores, index)
  {
    var c := SortConfig(ByScore(index), d);
    SortRowsSpec(rows, c, leq);
    var r := SortRows(rows, c, leq);
    forall i, j | 0 <= i < j < |r|
      ensures if d == Ascending then ScoreAt(r[i].svc.scores, index) <= ScoreAt(r[j].svc.scores, index)
        else ScoreAt(r[i].svc.scores, index) >= ScoreAt(r[j].svc.scores, index)
    {
      assert Comparator(c, leq)(r[i], r[j]) <= 0;
    }
  }

  /** Sorting by name puts the names in collation order in the chosen direction. */
  lemma SortByServiceOrder(rows: seq<Row>, d: Direction, leq: (string, string) -> bool)
    requires TotalPreorder(leq)
    ensures var r := SortRows(rows, SortConfig(ByService, d), leq);
      forall i, j :: 0 <= i < j < |r| ==>
        if d == Ascending then leq(r[i].svc.service, r[j].svc.service) else leq(r[j].svc.service, r[i].svc.service)
  {
    var c := SortConfig(ByService, d);
    SortRowsSpec(rows, c, leq);
    var r := SortRows(rows, c, leq);
    forall i, j | 0 <= i < j < |r|
      ensures if d == Ascending then leq(r[i].svc.service, r[j].svc.service) else leq(r[j].svc.service, r[i].svc.service)
    {
      assert Comparator(c, leq)(r[i], r[j]) <= 0;
      LocaleCompareSign(r[i].svc.service, r[j].svc.service, leq);
      LocaleCompareSign(r[j].svc.service, r[i].svc.service, leq);
    }
  }

  // ---------------------------------------------------------------- pipeline

  /** `processedData`: annotate, filter, sort. */
  function Processed(services: seq<Service>, f: Filters, c: SortConfig, leq: (string, string) -> bool): seq<Row>
  {
    SortRows(FilterRows(AnnotateAll(services), f), c, leq)
  }

  /** A row is displayed somewhere in the processed list exactly when it is a
      record of the collection, annotated with its own total, that satisfies every
      active filter; the list is a permutation of the filtered records. */
  lemma ProcessedMembership(services: seq<Service>, f: Filters, c: SortConfig, leq: (string, string) -> bool, r: Row)
    requires TotalPreorder(leq)
    ensures r in Processed(services, f, c, leq) <==> r.svc in services && r.total == Total(r.svc.scores) && Matches(f, r)
    ensures multiset(Processed(services, f, c, leq)) == multiset(FilterRows(AnnotateAll(services), f))
  {
    var rows := AnnotateAll(services);
    SortRowsSpec(FilterRows(rows, f), c, leq);
    assert r in Processed(services, f, c, leq) <==> r in multiset(FilterRows(rows, f));
    FilterRowsMembership(rows, f, r);
    if r.svc in services && r.total == Total(r.svc.scores) {
      var i :| 0 <= i < |services| && services[i] == r.svc;
      assert rows[i] == r;
    }
  }

  // ---------------------------------------------------------------- paging

  const ItemsPerPage := 10

  /** `Math.ceil(n / itemsPerPage)`. */
  function TotalPages(n: nat): (p: nat)
    ensures n == 0 ==> p == 0
    ensures n > 0 ==> (p - 1) * ItemsPerPage < n <= p * ItemsPerPage
  {
    (n + ItemsPerPage - 1) / ItemsPerPage
  }

  /** Index in the processed list of the first row of `page`. */
  function PageStart(page: int): int
  {
    (page - 1) * ItemsPerPage
  }

  /** `slice((page - 1) * itemsPerPage, page * itemsPerPage)`. */
  function Page<T>(rows: seq<T>, page: int): (r: seq<T>)
    requires page >= 1
    ensures |r| <= ItemsPerPage
    ensures forall k :: 0 <= k < |r| ==> PageStart(page) + k < |rows| && r[k] == rows[PageStart(page) + k]
    ensures |r| == if PageStart(page) >= |rows| then 0
                   else if |rows| - PageStart(page) < ItemsPerPage then |rows| - PageStart(page)
                   else ItemsPerPage
  {
    var start := PageStart(page);
    var end := page * ItemsPerPage;
    if start >= |rows| then [] else rows[start..if end <= |rows| then end else |rows|]
  }

  /** Pages 1..TotalPages are exactly the non-empty ones. */
  lemma PageNonEmptyIff<T>(rows: seq<T>, page: int)
    requires page >= 1
    ensures Page(rows, page) != [] <==> page <= TotalPages(|rows|)
  {
  }

  /** Every row of the processed list is shown on exactly one page: row `i` is
      entry `i % 10` of page `i / 10 + 1`. */
  lemma PageOfIndex<T>(rows: seq<T>, i: nat)
    requires i < |rows|
    ensures var p := i / ItemsPerPage + 1;
      && p <= TotalPages(|rows|)
      && i - PageStart(p) < |Page(rows, p)|
      && Page(rows, p)[i - PageStart(p)] == rows[i]
    ensures forall p :: p >= 1 && p != i / ItemsPerPage + 1 ==> !(PageStart(p) <= i < PageStart(p) + |Page(rows, p)|)
  {
  }

  /** The rank column: `pageStartIndex + index + 1`. */
  function Rank(page: int, index: int): int
  {
    PageStart(page) + index + 1
  }

  /** The rank shown beside a row is its 1-based position in the whole processed list. */
  lemma RankIsPosition<T>(rows: seq<T>, page: int, k: nat)
    requires page >= 1 && k < |Page(rows, page)|
    ensures 1 <= Rank(page, k) <= |rows|
    ensures rows[Rank(page, k) - 1] == Page(rows, page)[k]
  {
  }

  /** The reclamp effect: a page past the end moves to the last page, unless there are no pages. */
  function ReclampPage(current: int, totalPages: int): int
  {
    if current > totalPages && totalPages > 0 then totalPages else current
  }

  lemma ReclampSpec(current: int, totalPages: int)
    requires current >= 1
    ensures ReclampPage(current, totalPages) >= 1
    ensures totalPages > 0 ==> ReclampPage(current, totalPages) <= totalPages
    ensures current <= totalPages || totalPages <= 0 ==> ReclampPage(current, totalPages) == current
    ensures ReclampPage(ReclampPage(current, totalPages), totalPages) == ReclampPage(current, totalPages)
  {
  }

  /** After the reclamp a non-empty list always shows a non-empty page. */
  lemma ReclampShowsRows<T>(rows: seq<T>, current: int)
    requires current >= 1 && rows != []
    ensures Page(rows, ReclampPage(current, TotalPages(|rows|))) != []
  {
    PageNonEmptyIff(rows, ReclampPage(current, TotalPages(|rows|)));
  }

  // ---------------------------------------------------------------- unsaved edits overlay

  /** A row with its unsaved snapshot swapped in, total recomputed. */
  function Overlay(r: Row, modified: map<int, Service>): Row
  {
    if r.svc.id in modified then Annotate(modified[r.svc.id]) else r
  }

  /** `paginatedDataWithModifications`. */
  function WithModifications(page: seq<Row>, modified: map<int, Service>): (r: seq<Row>)
    ensures |r| == |page|
  {
    seq(|page|, k requires 0 <= k < |page| => Overlay(page[k], modified))
  }

  /** The overlay keeps the rows and their order (by id), shows the edited
      snapshot of every edited row with a total that matches its scores, and is
      the identity when nothing is edited. */
  lemma WithModificationsSpec(page: seq<Row>, modified: map<int, Service>)
    requires forall id :: id in modified ==> modified[id].id == id
    requires forall k :: 0 <= k < |page| ==> page[k].total == Total(page[k].svc.scores)
    ensures var r := WithModifications(page, modified);
      && (forall k :: 0 <= k < |page| ==> r[k].svc.id == page[k].svc.id)
      && (forall k :: 0 <= k < |page| ==> r[k].total == Total(r[k].svc.scores))
      && (forall k :: 0 <= k < |page| && page[k].svc.id in modified ==> r[k].svc == modified[page[k].svc.id])
      && (forall k :: 0 <= k < |page| && page[k].svc.id !in modified ==> r[k] == page[k])
    ensures modified == map[] ==> WithModifications(page, modified) == page
  {
  }

  // ---------------------------------------------------------------- cell edits

  /** A cell edit of the ranking table: a criterion score, the revenue estimate or the status. */
  datatype Edit = EditScore(index: nat, value: int) | EditRevenue(value: int) | EditStatus(status: Status)

  /** `Math.max(0, Math.min(5, value))`. */
  function ClampScore(v: int): (r: int)
    ensures 0 <= r <= 5
    ensures 0 <= v <= 5 ==> r == v
    ensures v < 0 ==> r == 0
    ensures v > 5 ==> r == 5
  {
    if v > 5 then 5 else if v < 0 then 0 else v
  }

  /** `newScores[index] = v`: writing past the end of a JavaScript array leaves holes. */
  function SetScore(scores: seq<Option<int>>, i: nat, v: int): (r: seq<Option<int>>)
    ensures |r| == if i < |scores| then |scores| else i + 1
    ensures ScoreAt(r, i) == v
    ensures forall j :: j != i ==> ScoreAt(r, j) == ScoreAt(scores, j)
  {
    if i < |scores| then scores[i := Some(v)]
    else scores + seq(i - |scores|, _ => None) + [Some(v)]
  }

  /** The record after one cell edit (`handleLocalChange` on the matching row). */
  function ApplyEdit(s: Service, e: Edit): Service
  {
    match e
    case EditScore(i, v) => s.(scores := SetScore(s.scores, i, ClampScore(v)))
    case EditRevenue(v) => s.(revenueEstimate := Some(if v >= 0 then v else 0))
    case EditStatus(st) => s.(status := Some(st))
  }

  /** A score edit stores the value clamped to [0, 5] in that criterion only; a
      revenue edit stores the value, or 0 when it is negative; a status edit
      stores the status; nothing else in the record changes. */
  lemma ApplyEditSpec(s: Service, e: Edit)
    ensures var r := ApplyEdit(s, e);
      && r.id == s.id && r.service == s.service && r.need == s.need && r.cluster == s.cluster
      && r.businessModel == s.businessModel && r.targetAudience == s.targetAudience
      && r.creatorName == s.creatorName && r.creationDate == s.creationDate
      && (e.EditScore? ==>
            && ScoreAt(r.scores, e.index) == ClampScore(e.value)
            && (forall j :: j != e.index ==> ScoreAt(r.scores, j) == ScoreAt(s.scores, j))
            && r.status == s.status && r.revenueEstimate == s.revenueEstimate)
      && (e.EditRevenue? ==>
            && r.revenueEstimate.Some? && r.revenueEstimate.value >= 0
            && r.revenueEstimate.value == (if e.value >= 0 then e.value else 0)
            && r.scores == s.scores && r.status == s.status)
      && (e.EditStatus? ==>
            r.status == Some(e.status) && r.scores == s.scores && r.revenueEstimate == s.revenueEstimate)
  {
  }

  /** Editing a score that is already in range by more than 5 points or below 0 gives
      the clamp bounds: 7 becomes 5, -3 becomes 0, revenue -100 becomes 0. */
  lemma EditExamples(s: Service)
    ensures ScoreAt(ApplyEdit(s, EditScore(2, 7)).scores, 2) == 5
    ensures ScoreAt(ApplyEdit(s, EditScore(2, -3)).scores, 2) == 0
    ensures ApplyEdit(s, EditRevenue(-100)).revenueEstimate == Some(0)
  {
  }

  /** The last record of `rows` with this id, edited: `changedService`. */
  function LastEdited(rows: seq<Service>, id: int, e: Edit): Option<Service>
  {
    if rows == [] then None
    else if rows[|rows| - 1].id == id then Some(ApplyEdit(rows[|rows| - 1], e))
    else LastEdited(rows[..|rows| - 1], id, e)
  }

  /** `handleLocalChange`: the table rows with the edit applied to the rows
      carrying `id`, and the edited record that is reported upward, if any. */
  function LocalChange(rows: seq<Service>, id: int, e: Edit): (seq<Service>, Option<Service>)
  {
    (seq(|rows|, k requires 0 <= k < |rows| => if rows[k].id == id then ApplyEdit(rows[k], e) else rows[k]),
     LastEdited(rows, id, e))
  }

  lemma {:induction false} LastEditedSpec(rows: seq<Service>, id: int, e: Edit)
    ensures LastEdited(rows, id, e).Some? <==> exists k :: 0 <= k < |rows| && rows[k].id == id
    ensures LastEdited(rows, id, e).Some? ==> LastEdited(rows, id, e).value.id == id
    ensures UniqueIds(rows) ==> forall k :: 0 <= k < |rows| && rows[k].id == id ==> LastEdited(rows, id, e) == Some(ApplyEdit(rows[k], e))
  {
    if rows != [] {
      var init := rows[..|rows| - 1];
      LastEditedSpec(init, id, e);
      assert forall k :: 0 <= k < |init| ==> init[k] == rows[k];
    }
  }

  /** Only the row with the edited id changes; every other row is untouched;
      an edit on an id that is not displayed reports nothing. */
  lemma LocalChangeSpec(rows: seq<Service>, id: int, e: Edit)
    ensures var (rows', changed) := LocalChange(rows, id, e);
      && |rows'| == |rows|
      && (forall k :: 0 <= k < |rows| && rows[k].id != id ==> rows'[k] == rows[k])
      && (forall k :: 0 <= k < |rows| && rows[k].id == id ==> rows'[k] == ApplyEdit(rows[k], e))
      && (changed.Some? <==> exists k :: 0 <= k < |rows| && rows[k].id == id)
      && (changed.Some? ==> changed.value.id == id)
      && (UniqueIds(rows) ==> forall k :: 0 <= k < |rows| && rows[k].id == id ==> changed == Some(rows'[k]))
  {
    LastEditedSpec(rows, id, e);
  }

  // ---------------------------------------------------------------- per-cell modified flags

  /** `originalData.find(s => s.id === item.id)`. */
  function FindById(services: seq<Service>, id: int): Option<Service>
  {
    if services == [] then None
    else if services[0].id == id then Some(services[0])
    else FindById(services[1..], id)
  }

  lemma {:induction false} FindByIdSpec(services: seq<Service>, id: int)
    ensures FindById(services, id).Some? <==> exists k :: 0 <= k < |services| && services[k].id == id
    ensures FindById(services, id).Some? ==>
      exists k :: 0 <= k < |services| && services[k] == FindById(services, id).value &&
        services[k].id == id && forall j :: 0 <= j < k ==> services[j].id != id
  {
    if services != [] && services[0].id != id {
      FindByIdSpec(services[1..], id);
      if FindById(services, id).Some? {
        var k :| 0 <= k < |services[1..]| && services[1..][k] == FindById(services, id).value &&
          services[1..][k].id == id && forall j :: 0 <= j < k ==> services[1..][j].id != id;
        assert services[k + 1] == FindById(services, id).value;
        assert forall j :: 0 <= j < k + 1 ==> services[j].id != id by {
          forall j | 0 <= j < k + 1 ensures services[j].id != id {
            if j > 0 {
              assert services[j] == services[1..][j - 1];
            }
          }
        }
      }
      if exists k :: 0 <= k < |services| && services[k].id == id {
        var k :| 0 <= k < |services| && services[k].id == id;
        assert services[1..][k - 1].id == id;
      }
    }
  }

  /** Score cell `i` is highlighted when the baseline exists and differs there. */
  predicate ScoreCellModified(original: Option<Service>, item: Service, i: int)
  {
    original.Some? && ScoreAt(original.value.scores, i) != ScoreAt(item.scores, i)
  }

  predicate RevenueCellModified(original: Option<Service>, item: Service)
  {
    original.Some? && original.value.revenueEstimate.GetOr(0) != item.revenueEstimate.GetOr(0)
  }

  predicate StatusCellModified(original: Option<Service>, item: Service)
  {
    original.Some? && EffectiveStatus(original.value.status) != EffectiveStatus(item.status)
  }

  /** A row identical to its baseline has no highlighted cell. */
  lemma UneditedRowUnmarked(original: Service, i: int)
    ensures !ScoreCellModified(Some(original), original, i)
    ensures !RevenueCellModified(Some(original), original)
    ensures !StatusCellModified(Some(original), original)
  {
  }

  /** After one score edit of a baseline record exactly the edited cell is
      highlighted, and only if the clamped value differs from the baseline. */
  lemma ScoreEditMarksItsCell(original: Service, i: nat, v: int, j: int)
    ensures var item := ApplyEdit(original, EditScore(i, v));
      && (ScoreCellModified(Some(original), item, j) <==> j == i && ClampScore(v) != ScoreAt(original.scores, i))
      && !RevenueCellModified(Some(original), item)
      && !StatusCellModified(Some(original), item)
  {
  }
}
