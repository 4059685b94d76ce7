/** The portfolio indicators of the overview screen: the idea count, the
    revenue of approved ideas, the new and stagnant ideas of the date windows,
    the approval rate, the tier distribution, the average score, the tallies
    per cluster and per business model and the per-cluster averages. Dates are
    millisecond timestamps and the current time is a parameter. */
module Overview {
  import opened Domain
  import Lists
  import Sorting

  const DayMillis := 86400000

  // ---------------------------------------------------------------- revenue

  predicate IsApproved(s: Service)
  {
    s.status == Some(Aprovada)
  }

  function RevenueOf(s: Service): int
  {
    s.revenueEstimate.GetOr(0)
  }

  /** `filter(status === 'aprovada').reduce(sum + (revenueEstimate || 0))`. */
  function PotentialRevenue(services: seq<Service>): int
  {
    Sorting.SumOf(Lists.Keep(services, IsApproved), RevenueOf)
  }

  /** The same amount computed record by record: approved records contribute
      their estimate, all others nothing. */
  function ApprovedRevenueOf(services: seq<Service>): int
  {
    if services == [] then 0
    else ApprovedRevenueOf(services[..|services| - 1])
         + (if IsApproved(services[|services| - 1]) then RevenueOf(services[|services| - 1]) else 0)
  }

  /** The revenue indicator counts exactly the estimates of approved records;
      a record with no status is not approved. */
  lemma {:induction false} PotentialRevenueSpec(services: seq<Service>)
    ensures PotentialRevenue(services) == ApprovedRevenueOf(services)
  {
    if services != [] {
      var init := services[..|services| - 1];
      PotentialRevenueSpec(init);
      var k := Lists.Keep(services, IsApproved);
      if IsApproved(services[|services| - 1]) {
        assert k == Lists.Keep(init, IsApproved) + [services[|services| - 1]];
        assert k[..|k| - 1] == Lists.Keep(init, IsApproved);
      } else {
        assert k == Lists.Keep(init, IsApproved);
      }
    }
  }

  /** With non-negative estimates the indicator is non-negative and at most the sum of all estimates. */
  lemma {:induction false} PotentialRevenueBounds(services: seq<Service>)
    requires forall s :: s in services ==> RevenueOf(s) >= 0
    ensures 0 <= PotentialRevenue(services) <= Sorting.SumOf(services, RevenueOf)
  {
    PotentialRevenueSpec(services);
    ApprovedRevenueBounds(services);
  }

  lemma {:induction false} ApprovedRevenueBounds(services: seq<Service>)
    requires forall s :: s in services ==> RevenueOf(s) >= 0
    ensures 0 <= ApprovedRevenueOf(services) <= Sorting.SumOf(services, RevenueOf)
  {
    if services != [] {
      var init := services[..|services| - 1];
      assert forall s :: s in init ==> s in services;
      ApprovedRevenueBounds(init);
      assert services[|services| - 1] in services;
    }
  }

  // ---------------------------------------------------------------- date windows

  /** Created strictly after now minus 30 days; a record with no date is never new. */
  predicate IsNew(s: Service, now: int)
  {
    s.creationDate.Some? && s.creationDate.value > now - 30 * DayMillis
  }

  /** Exactly `avaliação` and created strictly before now minus 60 days. */
  predicate IsStagnant(s: Service, now: int)
  {
    s.status == Some(Avaliacao) && s.creationDate.Some? && s.creationDate.value < now - 60 * DayMillis
  }

  function NewTest(now: int): Service -> bool
  {
    (s: Service) => IsNew(s, now)
  }

  function StagnantTest(now: int): Service -> bool
  {
    (s: Service) => IsStagnant(s, now)
  }

  function NewIdeasCount(services: seq<Service>, now: int): nat
  {
    Lists.Count(services, NewTest(now))
  }

  function StagnantCount(services: seq<Service>, now: int): nat
  {
    Lists.Count(services, StagnantTest(now))
  }

  /** No record is both new and stagnant, and a record without a date is neither. */
  lemma WindowsDisjoint(s: Service, now: int)
    ensures !(IsNew(s, now) && IsStagnant(s, now))
    ensures s.creationDate.None? ==> !IsNew(s, now) && !IsStagnant(s, now)
  {
  }

  lemma {:induction false} CountDisjoint<T>(s: seq<T>, p: T -> bool, q: T -> bool)
    requires forall x :: x in s ==> !(p(x) && q(x))
    ensures Lists.Count(s, p) + Lists.Count(s, q) <= |s|
  {
    if s != [] {
      var init := s[..|s| - 1];
      assert forall x :: x in init ==> x in s;
      CountDisjoint(init, p, q);
      Lists.CountSplit(s, p);
      Lists.CountSplit(s, q);
      assert s[|s| - 1] in s;
    }
  }

  /** The new and the stagnant ideas together never exceed the number of ideas. */
  lemma WindowCountsBounded(services: seq<Service>, now: int)
    ensures NewIdeasCount(services, now) + StagnantCount(services, now) <= |services|
  {
    forall s | s in services ensures !(NewTest(now)(s) && StagnantTest(now)(s)) {
      WindowsDisjoint(s, now);
    }
    CountDisjoint(services, NewTest(now), StagnantTest(now));
  }

  // ---------------------------------------------------------------- approval rate

  /** A terminal status, compared exactly (a record with no status is not terminal). */
  predicate IsTerminal(s: Service)
  {
    s.status == Some(Aprovada) || s.status == Some(Cancelada) || s.status == Some(Finalizada)
  }

  /** `approved / terminal * 100`, or 0 when no record is terminal. */
  function ApprovalRate(services: seq<Service>): (r: real)
    ensures 0.0 <= r <= 100.0
    ensures Lists.Count(services, IsTerminal) == 0 ==> r == 0.0
    ensures r == 100.0 <==>
      Lists.Count(services, IsTerminal) > 0 && Lists.Count(Lists.Keep(services, IsTerminal), IsApproved) == Lists.Count(services, IsTerminal)
  {
    var terminal := Lists.Keep(services, IsTerminal);
    var approved := Lists.Keep(terminal, IsApproved);
    if |terminal| > 0 then (|approved| as real / |terminal| as real) * 100.0 else 0.0
  }

  /** The approved records among the terminal ones are exactly the approved records. */
  lemma ApprovedAmongTerminal(services: seq<Service>)
    ensures Lists.Count(Lists.Keep(services, IsTerminal), IsApproved) == Lists.Count(services, IsApproved)
  {
    Lists.KeepKeep(services, IsTerminal, IsApproved, IsApproved);
  }

  // ---------------------------------------------------------------- tier distribution

  /** A tier with its count: an entry of `Object.entries(...)` mapped to `{name, value}`. */
  datatype NamedCount = NamedCount(name: string, value: nat)

  function ValueOf(e: NamedCount): int
  {
    e.value
  }

  function TierOf(s: Service): Tier
  {
    Classify(Total(s.scores))
  }

  function TierTest(t: Tier): Service -> bool
  {
    (s: Service) => TierOf(s) == t
  }

  /** The tiers in the order the distribution lists them. */
  const TierOrder := [Altissima, Alta, Media, Baixa]

  /** Counts per tier add up to the number of records. */
  lemma {:induction false} TierCountsSum(services: seq<Service>)
    ensures Lists.Count(services, TierTest(Altissima)) + Lists.Count(services, TierTest(Alta))
          + Lists.Count(services, TierTest(Media)) + Lists.Count(services, TierTest(Baixa)) == |services|
  {
    if services != [] {
      TierCountsSum(services[..|services| - 1]);
      Lists.CountSplit(services, TierTest(Altissima));
      Lists.CountSplit(services, TierTest(Alta));
      Lists.CountSplit(services, TierTest(Media));
      Lists.CountSplit(services, TierTest(Baixa));
    }
  }

  /** `priorityCounts`: one pass over the records, bumping the counter of each record's tier. */
  method PriorityDistribution(services: seq<Service>) returns (dist: seq<NamedCount>)
    ensures |dist| == 4
    ensures forall k :: 0 <= k < 4 ==>
      dist[k].name == TierName(TierOrder[k]) && dist[k].value == Lists.Count(services, TierTest(TierOrder[k]))
    ensures Sorting.SumOf(dist, ValueOf) == |services|
  {
    var counts: map<Tier, nat> := map[Altissima := 0, Alta := 0, Media := 0, Baixa := 0];
    var i := 0;
    assert services[..0] == [];
    forall t: Tier ensures t in counts && counts[t] == 0 {
      match t
      case Altissima =>
      case Alta =>
      case Media =>
      case Baixa =>
    }
    while i < |services|
      invariant 0 <= i <= |services|
      invariant forall t: Tier :: t in counts && counts[t] == Lists.Count(services[..i], TierTest(t))
    {
      var t := TierOf(services[i]);
      TierCountsStep(services[..i], services[i], counts);
      counts := counts[t := counts[t] + 1];
      assert services[..i + 1] == services[..i] + [services[i]];
      i := i + 1;
    }
    assert services[..i] == services;
    dist := [NamedCount(TierName(Altissima), counts[Altissima]), NamedCount(TierName(Alta), counts[Alta]),
             NamedCount(TierName(Media), counts[Media]), NamedCount(TierName(Baixa), counts[Baixa])];
    DistributionSum(services, counts[Altissima], counts[Alta], counts[Media], counts[Baixa]);
  }

  /** Counting one more record bumps the counter of its tier and no other. */
  lemma TierCountsStep(seen: seq<Service>, s: Service, counts: map<Tier, nat>)
    requires forall t: Tier :: t in counts && counts[t] == Lists.Count(seen, TierTest(t))
    ensures var c := counts[TierOf(s) := counts[TierOf(s)] + 1];
      forall u: Tier :: u in c && c[u] == Lists.Count(seen + [s], TierTest(u))
  {
    assert (seen + [s])[..|seen|] == seen;
    forall u: Tier ensures Lists.Count(seen + [s], TierTest(u)) == Lists.Count(seen, TierTest(u)) + (if TierOf(s) == u then 1 else 0) {
      Lists.CountSplit(seen + [s], TierTest(u));
    }
  }

  /** The four tier counters add up to the number of records. */
  lemma DistributionSum(services: seq<Service>, a: nat, b: nat, c: nat, d: nat)
    requires a == Lists.Count(services, TierTest(Altissima)) && b == Lists.Count(services, TierTest(Alta))
    requires c == Lists.Count(services, TierTest(Media)) && d == Lists.Count(services, TierTest(Baixa))
    ensures Sorting.SumOf([NamedCount(TierName(Altissima), a), NamedCount(TierName(Alta), b),
                           NamedCount(TierName(Media), c), NamedCount(TierName(Baixa), d)], ValueOf) == |services|
  {
    var dist := [NamedCount(TierName(Altissima), a), NamedCount(TierName(Alta), b),
                 NamedCount(TierName(Media), c), NamedCount(TierName(Baixa), d)];
    TierCountsSum(services);
    assert dist[..3][..2][..1][..0] == [];
    assert dist[..4] == dist && dist[..3][..2] == dist[..2] && dist[..2][..1] == dist[..1];
    assert Sorting.SumOf(dist, ValueOf) == Sorting.SumOf(dist[..3], ValueOf) + dist[3].value;
    assert Sorting.SumOf(dist[..3], ValueOf) == Sorting.SumOf(dist[..2], ValueOf) + dist[2].value;
    assert Sorting.SumOf(dist[..2], ValueOf) == Sorting.SumOf(dist[..1], ValueOf) + dist[1].value;
  }

  // ---------------------------------------------------------------- average score

  function TotalOf(s: Service): int
  {
    Total(s.scores)
  }

  /** `totalScoresSum / totalIdeas`, or 0 for an empty portfolio. */
  function AverageScore(services: seq<Service>): (r: real)
    ensures services == [] ==> r == 0.0
    ensures services != [] ==> r * |services| as real == Sorting.SumOf(services, TotalOf) as real
  {
    if |services| > 0 then Sorting.SumOf(services, TotalOf) as real / |services| as real else 0.0
  }

  lemma {:induction false} SumOfTotalsBounds(services: seq<Service>)
    requires forall s :: s in services ==> WellScored(s.scores)
    ensures 0 <= Sorting.SumOf(services, TotalOf) <= 25 * |services|
  {
    if services != [] {
      var init := services[..|services| - 1];
      assert forall s :: s in init ==> s in services;
      SumOfTotalsBounds(init);
      assert services[|services| - 1] in services;
      WellScoredTotal(services[|services| - 1].scores);
    }
  }

  /** With every record scored on five criteria of 0 to 5, the average lies in [0, 25]. */
  lemma AverageScoreBounds(services: seq<Service>)
    requires forall s :: s in services ==> WellScored(s.scores)
    ensures 0.0 <= AverageScore(services) <= 25.0
  {
    SumOfTotalsBounds(services);
    if services != [] {
      QuotientBounds(Sorting.SumOf(services, TotalOf), |services|, 25);
    }
  }

  /** A sum between 0 and `bound` per item averages between 0 and `bound`. */
  lemma QuotientBounds(sum: int, n: nat, bound: int)
    requires n > 0 && 0 <= sum <= bound * n
    ensures 0.0 <= sum as real / n as real <= bound as real
  {
    assert sum as real <= bound as real * n as real;
  }

  // ---------------------------------------------------------------- tallies by key

  /** Number of occurrences of `x` in `keys`. */
  function Occurrences(keys: seq<string>, x: string): nat
  {
    multiset(keys)[x]
  }

  /** The entries `[name, count]` for the distinct names of `d`, counted in `keys`. */
  function TallyOver(d: seq<string>, keys: seq<string>): seq<NamedCount>
  {
    seq(|d|, k requires 0 <= k < |d| => NamedCount(d[k], Occurrences(keys, d[k])))
  }

  /** A `reduce` that counts keys into an object, read out with `Object.entries`:
      one entry per distinct key, in order of first occurrence, with its number
      of occurrences. */
  function Tally(keys: seq<string>): seq<NamedCount>
  {
    TallyOver(Lists.Dedup(keys), keys)
  }

  /** Every distinct key has one entry, with the number of its occurrences; the
      entries come in order of first occurrence and their counts add up to the
      number of keys. */
  lemma TallySpec(keys: seq<string>)
    ensures forall k :: 0 <= k < |Tally(keys)| ==> Tally(keys)[k].value == Occurrences(keys, Tally(keys)[k].name) > 0
    ensures forall x :: x in keys <==> exists k :: 0 <= k < |Tally(keys)| && Tally(keys)[k].name == x
    ensures forall k, l :: 0 <= k < l < |Tally(keys)| ==> Tally(keys)[k].name != Tally(keys)[l].name
    ensures forall k, l, j :: 0 <= k < l < |Tally(keys)| && 0 <= j < |keys| && keys[j] == Tally(keys)[l].name ==>
      Tally(keys)[k].name in keys[..j]
    ensures Sorting.SumOf(Tally(keys), ValueOf) == |keys|
  {
    var d := Lists.Dedup(keys);
    var r := Tally(keys);
    Lists.DedupDistinct(keys);
    Lists.DedupFirstOccurrence(keys);
    forall k | 0 <= k < |r| ensures r[k].value == Occurrences(keys, r[k].name) > 0 {
      assert r[k].name == d[k] && d[k] in keys;
      assert d[k] in multiset(keys);
    }
    forall x | x in keys ensures exists k :: 0 <= k < |r| && r[k].name == x {
      var k :| 0 <= k < |d| && d[k] == x;
      assert r[k].name == x;
    }
    TallyOverSum(d, keys);
  }

  lemma {:induction false} TallyOverSum(d: seq<string>, keys: seq<string>)
    requires Lists.Distinct(d) && forall x :: x in keys ==> x in d
    ensures Sorting.SumOf(TallyOver(d, keys), ValueOf) == |keys|
  {
    if keys == [] {
      TallyOverEmpty(d);
    } else {
      var init := keys[..|keys| - 1];
      var x := keys[|keys| - 1];
      assert keys == init + [x];
      assert forall y :: y in init ==> y in keys;
      TallyOverSum(d, init);
      TallyOverSnoc(d, init, x);
    }
  }

  lemma {:induction false} TallyOverEmpty(d: seq<string>)
    ensures Sorting.SumOf(TallyOver(d, []), ValueOf) == 0
  {
    if d != [] {
      var d' := d[..|d| - 1];
      TallyOverEmpty(d');
      assert TallyOver(d, [])[..|d'|] == TallyOver(d', []);
    }
  }

  /** One more key adds one to the total when its name is listed, and nothing otherwise. */
  lemma {:induction false} TallyOverSnoc(d: seq<string>, keys: seq<string>, x: string)
    requires Lists.Distinct(d)
    ensures Sorting.SumOf(TallyOver(d, keys + [x]), ValueOf) == Sorting.SumOf(TallyOver(d, keys), ValueOf) + (if x in d then 1 else 0)
  {
    if d != [] {
      var d' := d[..|d| - 1];
      var y := d[|d| - 1];
      assert Lists.Distinct(d');
      TallyOverSnoc(d', keys, x);
      assert TallyOver(d, keys + [x])[..|d'|] == TallyOver(d', keys + [x]);
      assert TallyOver(d, keys)[..|d'|] == TallyOver(d', keys);
      assert multiset(keys + [x]) == multiset(keys) + multiset{x};
      assert x in d <==> x in d' || x == y;
      assert x == y ==> x !in d';
    }
  }

  /** `reduce` into an object, then `Object.entries`: the accumulator loop,
      proved to produce the tally. */
  method CountByKey(keys: seq<string>) returns (entries: seq<NamedCount>)
    ensures entries == Tally(keys)
  {
    var acc: map<string, nat> := map[];
    var order: seq<string> := [];
    var i := 0;
    while i < |keys|
      invariant 0 <= i <= |keys|
      invariant TallyInvariant(keys[..i], order, acc)
    {
      var key := keys[i];
      assert keys[..i + 1] == keys[..i] + [key];
      TallyStep(keys[..i], order, acc, key);
      if key in acc {
        acc := acc[key := acc[key] + 1];
      } else {
        acc := acc[key := 1];
        order := order + [key];
      }
      i := i + 1;
    }
    assert keys[..i] == keys;
    entries := seq(|order|, k requires 0 <= k < |order| => NamedCount(order[k], acc[order[k]]));
  }

  /** The accumulator after a prefix `seen` of the keys: `order` lists the
      distinct keys seen, in order of first occurrence, and `acc` counts them. */
  ghost predicate TallyInvariant(seen: seq<string>, order: seq<string>, acc: map<string, nat>)
  {
    && order == Lists.Dedup(seen)
    && (forall x :: x in acc <==> x in seen)
    && (forall x :: x in acc ==> acc[x] == Occurrences(seen, x))
  }

  /** Counting one more key: a key seen before has its count bumped, a new key
      is appended with count 1. */
  lemma TallyStep(seen: seq<string>, order: seq<string>, acc: map<string, nat>, key: string)
    requires TallyInvariant(seen, order, acc)
    ensures key in acc ==> TallyInvariant(seen + [key], order, acc[key := acc[key] + 1])
    ensures key !in acc ==> TallyInvariant(seen + [key], order + [key], acc[key := 1])
  {
    Lists.DedupSnoc(seen, key);
    CountsStep(seen, acc, key);
  }

  lemma CountsStep(seen: seq<string>, acc: map<string, nat>, key: string)
    requires forall x :: x in acc <==> x in seen
    requires forall x :: x in acc ==> acc[x] == Occurrences(seen, x)
    ensures var acc' := if key in acc then acc[key := acc[key] + 1] else acc[key := 1];
      && (forall x :: x in acc' <==> x in seen + [key])
      && (forall x :: x in acc' ==> acc'[x] == Occurrences(seen + [key], x))
  {
    assert multiset(seen + [key]) == multiset(seen) + multiset{key};
    assert forall x :: x in seen + [key] <==> x in seen || x == key;
    if key !in acc {
      assert key !in multiset(seen);
    }
  }

  /** `sort((a, b) => b.value - a.value)`. */
  function ByCountDescending(): (NamedCount, NamedCount) -> int
  {
    (a: NamedCount, b: NamedCount) => b.value - a.value
  }

  function HasValue(v: nat): NamedCount -> bool
  {
    (e: NamedCount) => e.value == v
  }

  /** The chart lists: the tally sorted by descending count keeps every entry and
      the total, lists the counts in non-increasing order and, the sort being
      stable, keeps the entries of equal count in the order of the tally. */
  lemma ChartOrderSpec(entries: seq<NamedCount>)
    ensures var r := Sorting.SortBy(entries, ByCountDescending());
      && multiset(r) == multiset(entries)
      && Sorting.SumOf(r, ValueOf) == Sorting.SumOf(entries, ValueOf)
      && (forall i, j :: 0 <= i < j < |r| ==> r[i].value >= r[j].value)
      && forall v :: Lists.Keep(r, HasValue(v)) == Lists.Keep(entries, HasValue(v))
  {
    var cmp := ByCountDescending();
    Sorting.SortByPermutation(entries, cmp);
    Sorting.SortBySum(entries, cmp, ValueOf);
    Sorting.SortByOrdered(entries, cmp);
    var r := Sorting.SortBy(entries, cmp);
    forall i, j | 0 <= i < j < |r| ensures r[i].value >= r[j].value {
      assert cmp(r[i], r[j]) <= 0;
    }
    forall v ensures Lists.Keep(r, HasValue(v)) == Lists.Keep(entries, HasValue(v)) {
      Sorting.SortByStable(entries, cmp, HasValue(v));
    }
  }

  /** `Object.entries(counts).map(...).sort((a, b) => b.value - a.value)`. */
  function Chart(keys: seq<string>): seq<NamedCount>
  {
    Sorting.SortBy(Tally(keys), ByCountDescending())
  }

  /** A chart lists every key once, with its number of occurrences, by
      non-increasing count, the counts adding up to the number of keys; keys of
      equal count appear in order of first occurrence, as in the tally. */
  lemma ChartSpec(keys: seq<string>)
    ensures forall k :: 0 <= k < |Chart(keys)| ==> Chart(keys)[k].value == Occurrences(keys, Chart(keys)[k].name) > 0
    ensures forall x :: x in keys <==> exists k :: 0 <= k < |Chart(keys)| && Chart(keys)[k].name == x
    ensures forall k, l :: 0 <= k < l < |Chart(keys)| ==> Chart(keys)[k].name != Chart(keys)[l].name
    ensures forall i, j :: 0 <= i < j < |Chart(keys)| ==> Chart(keys)[i].value >= Chart(keys)[j].value
    ensures Sorting.SumOf(Chart(keys), ValueOf) == |keys|
    ensures forall v :: Lists.Keep(Chart(keys), HasValue(v)) == Lists.Keep(Tally(keys), HasValue(v))
  {
    TallySpec(keys);
    ChartOrderSpec(Tally(keys));
    ChartEntries(keys, Tally(keys), Chart(keys));
  }

  /** The entry facts of a tally carry over to any permutation of it. */
  lemma ChartEntries(keys: seq<string>, t: seq<NamedCount>, r: seq<NamedCount>)
    requires multiset(r) == multiset(t)
    requires forall k :: 0 <= k < |t| ==> t[k].value == Occurrences(keys, t[k].name) > 0
    requires forall x :: x in keys <==> exists k :: 0 <= k < |t| && t[k].name == x
    requires forall k, l :: 0 <= k < l < |t| ==> t[k].name != t[l].name
    ensures forall k :: 0 <= k < |r| ==> r[k].value == Occurrences(keys, r[k].name) > 0
    ensures forall x :: x in keys <==> exists k :: 0 <= k < |r| && r[k].name == x
    ensures forall k, l :: 0 <= k < l < |r| ==> r[k].name != r[l].name
  {
    ChartElements(t, r);
    forall x | x in keys ensures exists k :: 0 <= k < |r| && r[k].name == x {
      var k :| 0 <= k < |t| && t[k].name == x;
      assert t[k] in multiset(r);
      var m :| 0 <= m < |r| && r[m] == t[k];
    }
    forall k | 0 <= k < |r| ensures r[k].name in keys {
      var p :| 0 <= p < |t| && t[p] == r[k];
    }
  }

  /** A permutation of entries with distinct names has distinct names and the same entries. */
  lemma ChartElements(t: seq<NamedCount>, r: seq<NamedCount>)
    requires multiset(r) == multiset(t)
    requires forall k, l :: 0 <= k < l < |t| ==> t[k].name != t[l].name
    ensures forall k :: 0 <= k < |r| ==> r[k] in t
    ensures forall k, l :: 0 <= k < l < |r| ==> r[k].name != r[l].name
  {
    forall k | 0 <= k < |r| ensures r[k] in t {
      assert r[k] in multiset(t);
    }
    assert Lists.Distinct(t);
    Lists.DistinctIffSingleCounts(t);
    Lists.DistinctIffSingleCounts(r);
    assert Lists.Distinct(r);
    forall k, l | 0 <= k < l < |r| ensures r[k].name != r[l].name {
      var p :| 0 <= p < |t| && t[p] == r[k];
      var q :| 0 <= q < |t| && t[q] == r[l];
      assert p != q;
    }
  }

  // ---------------------------------------------------------------- radar

  /** One point of the portfolio-balance radar. */
  datatype RadarPoint = RadarPoint(subject: string, score: real, fullMark: int)

  /** Five criteria of at most 5 points each. */
  const FullMark := 25

  function InCluster(c: string): Service -> bool
  {
    (s: Service) => s.cluster == c
  }

  /** The records of cluster `c`. */
  function ClusterMembers(services: seq<Service>, c: string): seq<Service>
  {
    Lists.Keep(services, InCluster(c))
  }

  /** `portfolioBalanceData`: one point per catalog cluster, in catalog order,
      scored with the average total of the cluster's records. */
  function PortfolioBalance(services: seq<Service>, catalog: seq<string>): (r: seq<RadarPoint>)
    ensures |r| == |catalog|
    ensures forall k :: 0 <= k < |catalog| ==> r[k].subject == catalog[k] && r[k].fullMark == FullMark
  {
    seq(|catalog|, k requires 0 <= k < |catalog| =>
      RadarPoint(catalog[k], AverageScore(ClusterMembers(services, catalog[k])), FullMark))
  }

  /** Each radar score is the mean total of the cluster's records: the score times
      their number is the sum of their totals, and 0 when the cluster has none.
      When all records are scored on five criteria of 0 to 5, it lies between 0
      and the full mark. */
  lemma PortfolioBalanceSpec(services: seq<Service>, catalog: seq<string>, k: nat)
    requires k < |catalog|
    ensures forall s :: s in ClusterMembers(services, catalog[k]) <==> s in services && s.cluster == catalog[k]
    ensures ClusterMembers(services, catalog[k]) != [] ==>
      PortfolioBalance(services, catalog)[k].score * |ClusterMembers(services, catalog[k])| as real
        == Sorting.SumOf(ClusterMembers(services, catalog[k]), TotalOf) as real
    ensures (forall s :: s in services ==> s.cluster != catalog[k]) ==> PortfolioBalance(services, catalog)[k].score == 0.0
    ensures (forall s :: s in services ==> WellScored(s.scores)) ==>
      0.0 <= PortfolioBalance(services, catalog)[k].score <= FullMark as real
  {
    ClusterMembersSpec(services, catalog[k]);
    PortfolioBalanceMean(services, catalog, k);
    PortfolioBalanceBounds(services, catalog, k);
  }

  lemma PortfolioBalanceMean(services: seq<Service>, catalog: seq<string>, k: nat)
    requires k < |catalog|
    ensures PortfolioBalance(services, catalog)[k].score == AverageScore(ClusterMembers(services, catalog[k]))
    ensures ClusterMembers(services, catalog[k]) != [] ==>
      PortfolioBalance(services, catalog)[k].score * |ClusterMembers(services, catalog[k])| as real
        == Sorting.SumOf(ClusterMembers(services, catalog[k]), TotalOf) as real
  {
  }

  lemma PortfolioBalanceBounds(services: seq<Service>, catalog: seq<string>, k: nat)
    requires k < |catalog|
    ensures (forall s :: s in services ==> s.cluster != catalog[k]) ==> PortfolioBalance(services, catalog)[k].score == 0.0
    ensures (forall s :: s in services ==> WellScored(s.scores)) ==>
      0.0 <= PortfolioBalance(services, catalog)[k].score <= FullMark as real
  {
    var members := ClusterMembers(services, catalog[k]);
    assert PortfolioBalance(services, catalog)[k].score == AverageScore(members);
    ClusterMembersSpec(services, catalog[k]);
    if forall s :: s in services ==> WellScored(s.scores) {
      AverageScoreBounds(members);
    }
    if members != [] {
      assert members[0] in members;
    }
  }

  lemma ClusterMembersSpec(services: seq<Service>, c: string)
    ensures forall s :: s in ClusterMembers(services, c) <==> s in services && s.cluster == c
  {
    forall s ensures s in ClusterMembers(services, c) <==> s in services && s.cluster == c {
      Lists.KeepMembership(services, InCluster(c), s);
    }
  }

  // ---------------------------------------------------------------- all indicators

  datatype OverviewData = OverviewData(
    totalIdeas: nat,
    potentialRevenue: int,
    newIdeasRate: nat,
    approvalRate: real,
    stagnantIdeasCount: nat,
    priorityDistribution: seq<NamedCount>,
    averageScore: real,
    clusterChart: seq<NamedCount>,
    businessModelChart: seq<NamedCount>,
    portfolioBalance: seq<RadarPoint>)

  function Clusters(services: seq<Service>): (r: seq<string>)
    ensures |r| == |services| && forall k :: 0 <= k < |services| ==> r[k] == services[k].cluster
  {
    seq(|services|, k requires 0 <= k < |services| => services[k].cluster)
  }

  function MappedModels(services: seq<Service>, mapModel: string -> string): (r: seq<string>)
    ensures |r| == |services| && forall k :: 0 <= k < |services| ==> r[k] == mapModel(services[k].businessModel)
  {
    seq(|services|, k requires 0 <= k < |services| => mapModel(services[k].businessModel))
  }

  /** `overviewData`. `mapModel` stands for the business-model normaliser and
      `catalog` for the short titles of the cluster catalog. */
  method ComputeOverview(services: seq<Service>, now: int, catalog: seq<string>, mapModel: string -> string)
    returns (o: OverviewData)
    ensures o.totalIdeas == |services|
    ensures o.potentialRevenue == ApprovedRevenueOf(services)
    ensures o.newIdeasRate + o.stagnantIdeasCount <= o.totalIdeas
    ensures o.newIdeasRate == NewIdeasCount(services, now) && o.stagnantIdeasCount == StagnantCount(services, now)
    ensures o.approvalRate == ApprovalRate(services) && 0.0 <= o.approvalRate <= 100.0
    ensures |o.priorityDistribution| == 4 && Sorting.SumOf(o.priorityDistribution, ValueOf) == o.totalIdeas
    ensures forall k :: 0 <= k < 4 ==>
      o.priorityDistribution[k].name == TierName(TierOrder[k]) && o.priorityDistribution[k].value == Lists.Count(services, TierTest(TierOrder[k]))
    ensures o.averageScore == AverageScore(services)
    ensures o.clusterChart == Chart(Clusters(services))
    ensures o.businessModelChart == Chart(MappedModels(services, mapModel))
    ensures Sorting.SumOf(o.clusterChart, ValueOf) == o.totalIdeas
    ensures Sorting.SumOf(o.businessModelChart, ValueOf) == o.totalIdeas
    ensures o.portfolioBalance == PortfolioBalance(services, catalog)
  {
    PotentialRevenueSpec(services);
    WindowCountsBounded(services, now);
    var dist := PriorityDistribution(services);
    var clusterCounts := CountByKey(Clusters(services));
    var modelCounts := CountByKey(MappedModels(services, mapModel));
    var clusterChart := Sorting.SortBy(clusterCounts, ByCountDescending());
    var modelChart := Sorting.SortBy(modelCounts, ByCountDescending());
    ChartSpec(Clusters(services));
    ChartSpec(MappedModels(services, mapModel));
    o := OverviewData(
      |services|,
      PotentialRevenue(services),
      NewIdeasCount(services, now),
      ApprovalRate(services),
      StagnantCount(services, now),
      dist,
      AverageScore(services),
      clusterChart,
      modelChart,
      PortfolioBalance(services, catalog));
  }
}
