/** The service-idea record shared by every component, its lifecycle status,
    the five-criterion score and the priority tier derived from it. */
module Domain {

  datatype Option<+T> = None | Some(value: T) {
    /** `x ?? d` and, for values that are never falsy, `x || d`. */
    function GetOr(default: T): T {
      match this
      case Some(v) => v
      case None => default
    }
  }

  /** `ServiceStatus`: evaluation, approved, cancelled, finished. */
  datatype Status = Avaliacao | Aprovada | Cancelada | Finalizada

  function StatusName(s: Status): string
  {
    match s
    case Avaliacao => "avaliação"
    case Aprovada => "aprovada"
    case Cancelada => "cancelada"
    case Finalizada => "finalizada"
  }

  /** Distinct statuses have distinct names, so comparing names compares statuses. */
  lemma StatusNameInjective(a: Status, b: Status)
    ensures StatusName(a) == StatusName(b) <==> a == b
  {
  }

  /** `s.status || 'avaliação'`: a record without a status is under evaluation. */
  function EffectiveStatus(status: Option<Status>): (st: Status)
    ensures status.Some? ==> st == status.value
    ensures status.None? ==> st == Avaliacao
  {
    status.GetOr(Avaliacao)
  }

  /** Priority tiers, from highest to lowest. */
  datatype Tier = Altissima | Alta | Media | Baixa

  function TierName(t: Tier): string
  {
    match t
    case Altissima => "Altíssima"
    case Alta => "Alta"
    case Media => "Média"
    case Baixa => "Baixa"
  }

  lemma TierNameInjective(a: Tier, b: Tier)
    ensures TierName(a) == TierName(b) <==> a == b
  {
  }

  /** Position of a tier in the fixed order Altíssima, Alta, Média, Baixa. */
  function TierIndex(t: Tier): nat
  {
    match t
    case Altissima => 0
    case Alta => 1
    case Media => 2
    case Baixa => 3
  }

  /** `getClassification`: inclusive lower thresholds 21, 16 and 11. */
  function Classify(total: int): Tier
  {
    if total >= 21 then Altissima
    else if total >= 16 then Alta
    else if total >= 11 then Media
    else Baixa
  }

  /** The tiers partition the integers into four intervals with no gap and no overlap. */
  lemma ClassifyPartition(total: int)
    ensures Classify(total) == Altissima <==> total >= 21
    ensures Classify(total) == Alta <==> 16 <= total <= 20
    ensures Classify(total) == Media <==> 11 <= total <= 15
    ensures Classify(total) == Baixa <==> total <= 10
  {
  }

  /** A higher total never lands in a lower tier. */
  lemma ClassifyMonotone(a: int, b: int)
    requires a <= b
    ensures TierIndex(Classify(b)) <= TierIndex(Classify(a))
  {
  }

  /** Number of criteria a service is scored on. */
  const CriteriaCount := 5

  /** The service-idea record. Optional fields of the source are `Option`s; the
      score array may be short or have holes, and `None` marks a hole. Dates are
      millisecond timestamps. */
  datatype Service = Service(
    id: int,
    service: string,
    need: string,
    targetAudience: Option<string>,
    cluster: string,
    businessModel: string,
    status: Option<Status>,
    creatorName: Option<string>,
    creationDate: Option<int>,
    scores: seq<Option<int>>,
    revenueEstimate: Option<int>)

  /** `scores[i] ?? 0`: the score of criterion `i`, 0 when absent. */
  function ScoreAt(scores: seq<Option<int>>, i: int): int
  {
    if 0 <= i < |scores| && scores[i].Some? then scores[i].value else 0
  }

  /** `scores.reduce((acc, val) => acc + (val || 0), 0)`. */
  function Total(scores: seq<Option<int>>): int
  {
    if scores == [] then 0 else Total(scores[..|scores| - 1]) + scores[|scores| - 1].GetOr(0)
  }

  /** For arrays of at most five entries the total is the sum of the five
      criterion scores, each read with a missing value as 0. */
  lemma {:induction false} TotalOfFive(scores: seq<Option<int>>)
    requires |scores| <= CriteriaCount
    ensures Total(scores) ==
      ScoreAt(scores, 0) + ScoreAt(scores, 1) + ScoreAt(scores, 2) + ScoreAt(scores, 3) + ScoreAt(scores, 4)
  {
    TotalPrefix(scores, |scores|);
    ScoreSumBeyond(scores, |scores|);
    assert scores[..|scores|] == scores;
  }

  lemma {:induction false} TotalPrefix(scores: seq<Option<int>>, n: nat)
    requires n <= |scores| <= CriteriaCount
    ensures Total(scores[..n]) == ScoreSum(scores, n)
  {
    if n > 0 {
      TotalPrefix(scores, n - 1);
      assert scores[..n][..n - 1] == scores[..n - 1];
    }
  }

  /** Sum of the criterion scores at positions below `n`. */
  function ScoreSum(scores: seq<Option<int>>, n: nat): int
  {
    if n == 0 then 0 else ScoreSum(scores, n - 1) + ScoreAt(scores, n - 1)
  }

  lemma {:induction false} ScoreSumBeyond(scores: seq<Option<int>>, n: nat)
    requires |scores| <= n <= CriteriaCount
    ensures ScoreSum(scores, n) ==
      ScoreAt(scores, 0) + ScoreAt(scores, 1) + ScoreAt(scores, 2) + ScoreAt(scores, 3) + ScoreAt(scores, 4)
    decreases CriteriaCount - n
  {
    if n < CriteriaCount {
      ScoreSumBeyond(scores, n + 1);
      assert ScoreSum(scores, n + 1) == ScoreSum(scores, n) + ScoreAt(scores, n);
    } else {
      assert ScoreSum(scores, 5) == ScoreSum(scores, 4) + ScoreAt(scores, 4);
      assert ScoreSum(scores, 4) == ScoreSum(scores, 3) + ScoreAt(scores, 3);
      assert ScoreSum(scores, 3) == ScoreSum(scores, 2) + ScoreAt(scores, 2);
      assert ScoreSum(scores, 2) == ScoreSum(scores, 1) + ScoreAt(scores, 1);
    }
  }

  /** Scores as the domain requires them: five present entries, each in [0, 5]. */
  predicate WellScored(scores: seq<Option<int>>)
  {
    |scores| == CriteriaCount && forall i :: 0 <= i < |scores| ==> scores[i].Some? && 0 <= scores[i].value <= 5
  }

  /** Non-negative scores give a total between 0 and five times the number of entries. */
  lemma {:induction false} TotalBounds(scores: seq<Option<int>>)
    requires forall i :: 0 <= i < |scores| ==> 0 <= scores[i].GetOr(0) <= 5
    ensures 0 <= Total(scores) <= 5 * |scores|
  {
    if scores != [] {
      TotalBounds(scores[..|scores| - 1]);
    }
  }

  /** A well-scored record has a total in [0, 25]. */
  lemma WellScoredTotal(scores: seq<Option<int>>)
    requires WellScored(scores)
    ensures 0 <= Total(scores) <= 25
  {
    TotalBounds(scores);
  }

  /** Ids are unique across a collection. */
  predicate UniqueIds(services: seq<Service>)
  {
    forall i, j :: 0 <= i < j < |services| ==> services[i].id != services[j].id
  }
}
