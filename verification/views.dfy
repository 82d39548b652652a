/** The read-only aggregates of reeds/views.py: per-reed `analytics` and the global `summary`. Both are
    functions of the store, so they cannot modify it. */
module Views {
  import opened Common
  import opened Arith
  import opened Tables
  import opened Tallies
  import opened Aggregate
  import opened Models

  const SecondsPerDay: int := 86400

  datatype QualityMetrics = QualityMetrics(
    avgTone: Option<Mean>, avgResponse: Option<Mean>, avgIntonation: Option<Mean>,
    avgStability: Option<Mean>, avgEase: Option<Mean>, avgOverall: Option<Mean>,
    snapshotCount: nat)

  datatype UsageMetrics = UsageMetrics(totalSessions: nat, totalMinutes: Option<int>)

  datatype ModificationMetrics = ModificationMetrics(
    totalModifications: nat, avgSuccess: Option<Mean>, typesBreakdown: map<string, nat>)

  datatype ReedAnalytics = ReedAnalytics(
    reedId: nat, reedName: string, status: string, ageDays: int,
    qualityMetrics: QualityMetrics, usageMetrics: UsageMetrics, modificationMetrics: ModificationMetrics)

  datatype OverallQuality = OverallQuality(
    avgTone: Option<Mean>, avgResponse: Option<Mean>, avgIntonation: Option<Mean>, avgOverall: Option<Mean>)

  datatype Summary = Summary(
    totalReeds: nat, statusBreakdown: map<string, nat>, overallQualityMetrics: OverallQuality,
    totalPlayTime: Option<int>)

  // The nullable columns the aggregates read.
  function Tone(s: QualitySnapshot): Option<int> { s.toneQuality }
  function Response(s: QualitySnapshot): Option<int> { s.response }
  function Intonation(s: QualitySnapshot): Option<int> { s.intonation }
  function Stability(s: QualitySnapshot): Option<int> { s.stability }
  function Ease(s: QualitySnapshot): Option<int> { s.easeOfPlaying }
  function Overall(s: QualitySnapshot): Option<int> { s.overallRating }
  function SuccessRating(m: Modification): Option<int> { m.successRating }
  function Duration(s: UsageSession): Option<int> { s.durationMinutes }
  function PlayTimeColumn(r: Reed): Option<int> { Some(r.totalPlayTimeMinutes) }

  /** `(now - created_date).days`: whole days elapsed, rounded down (so negative before creation). */
  function AgeDays(createdDate: int, now: int): (days: int)
    ensures days * SecondsPerDay <= now - createdDate < days * SecondsPerDay + SecondsPerDay
  {
    FloorDiv(now - createdDate, SecondsPerDay)
  }

  function QualityOf(snapshots: seq<QualitySnapshot>): QualityMetrics {
    QualityMetrics(
      AvgOf(snapshots, Tone), AvgOf(snapshots, Response), AvgOf(snapshots, Intonation),
      AvgOf(snapshots, Stability), AvgOf(snapshots, Ease), AvgOf(snapshots, Overall),
      |snapshots|)
  }

  /** `values('modification_type').annotate(count=Count('id'))`: one entry per type that occurs. */
  function TypesBreakdown(mods: seq<Modification>): map<string, nat> {
    Tally(set m | m in mods :: m.modificationType, mods, ModificationType)
  }

  /** `ReedViewSet.analytics`: NotFound for an unknown reed, else the reed's aggregates. */
  function Analytics(st: Store, id: nat, now: int): (r: Result<ReedAnalytics>)
    ensures r.Failure? <==> id !in st.reeds
    ensures r.Failure? ==> r.error == NotFound
    ensures r.Success? ==>
      && r.value.reedId == id
      && r.value.reedName == st.reeds[id].name
      && r.value.status == st.reeds[id].status
      && r.value.ageDays * SecondsPerDay <= now - st.reeds[id].createdDate < (r.value.ageDays + 1) * SecondsPerDay
  {
    if id !in st.reeds then Failure(NotFound)
    else
      var reed := st.reeds[id];
      var sessions, mods := SessionsOf(st, id), ModificationsOf(st, id);
      Success(ReedAnalytics(
        id, reed.name, reed.status, AgeDays(reed.createdDate, now),
        QualityOf(SnapshotsOf(st, id)),
        UsageMetrics(|sessions|, SumOf(sessions, Duration)),
        ModificationMetrics(|mods|, AvgOf(mods, SuccessRating), TypesBreakdown(mods))))
  }

  /** The closed status set as a set. */
  function StatusSet(): set<string> { set s | s in StatusChoices }

  /** `{s: Reed.objects.filter(status=s).count() for s in STATUS_CHOICES}`: zero-filled over the closed set. */
  function StatusBreakdown(st: Store): (b: map<string, nat>)
    ensures b.Keys == StatusSet()
  {
    Tally(StatusSet(), Rows(st.reeds, st.nextReed), ReedStatus)
  }

  /** `ReedViewSet.summary`. */
  function SummaryOf(st: Store): (s: Summary)
    ensures s.totalReeds == |st.reeds|
    ensures s.statusBreakdown.Keys == StatusSet()
  {
    var snapshots := Rows(st.snapshots, st.nextSnapshot);
    Summary(
      |st.reeds|,
      StatusBreakdown(st),
      OverallQuality(AvgOf(snapshots, Tone), AvgOf(snapshots, Response), AvgOf(snapshots, Intonation),
                     AvgOf(snapshots, Overall)),
      SumOf(Rows(st.reeds, st.nextReed), PlayTimeColumn))
  }

  // ---------------------------------------------------------------------------------------------
  // Per-reed laws

  /** The counts are the numbers of the reed's snapshots, sessions and modifications. */
  lemma AnalyticsCounts(st: Store, id: nat, now: int)
    requires Valid(st) && id in st.reeds
    ensures var a := Analytics(st, id, now).value;
      && a.qualityMetrics.snapshotCount == |SnapshotIds(st, id)|
      && a.usageMetrics.totalSessions == |SessionIds(st, id)|
      && a.modificationMetrics.totalModifications == |ModificationIds(st, id)|
  {
    var a := Analytics(st, id, now).value;
    assert a.qualityMetrics.snapshotCount == |SnapshotsOf(st, id)|;
    assert a.usageMetrics.totalSessions == |SessionsOf(st, id)|;
    assert a.modificationMetrics.totalModifications == |ModificationsOf(st, id)|;
    OwnedCount(st.snapshots, SnapshotReed, id, st.nextSnapshot);
    assert KeysWhereBelow(st.snapshots, SnapshotReed, id, st.nextSnapshot) == SnapshotIds(st, id);
    OwnedCount(st.sessions, SessionReed, id, st.nextSession);
    assert KeysWhereBelow(st.sessions, SessionReed, id, st.nextSession) == SessionIds(st, id);
    OwnedCount(st.modifications, ModificationReed, id, st.nextModification);
    assert KeysWhereBelow(st.modifications, ModificationReed, id, st.nextModification) == ModificationIds(st, id);
  }

  /** An aggregate over one reed's rows is null exactly when none of those rows carries a value. */
  lemma {:induction false} OwnedAllNull<T>(m: map<nat, T>, owner: T -> nat, r: nat, n: nat, f: T -> Option<int>)
    requires forall k :: k in m ==> k < n
    ensures (forall i :: 0 <= i < |Owned(m, owner, r, n)| ==> f(Owned(m, owner, r, n)[i]).None?)
        <==> (forall k :: k in m && owner(m[k]) == r ==> f(m[k]).None?)
  {
    var xs := Owned(m, owner, r, n);
    if forall i :: 0 <= i < |xs| ==> f(xs[i]).None? {
      forall k | k in m && owner(m[k]) == r ensures f(m[k]).None? {
        OwnedMember(m, owner, r, n, m[k]);
      }
    }
    if forall k :: k in m && owner(m[k]) == r ==> f(m[k]).None? {
      forall i | 0 <= i < |xs| ensures f(xs[i]).None? {
        OwnedMember(m, owner, r, n, xs[i]);
      }
    }
  }

  /** `total_minutes` is null exactly when none of the reed's sessions has a duration; otherwise it is the
      sum of their durations, which is the reed's counter whenever the ledger holds. */
  lemma AnalyticsUsage(st: Store, id: nat, now: int)
    requires Valid(st) && id in st.reeds
    ensures var u := Analytics(st, id, now).value.usageMetrics;
      && (u.totalMinutes.None? <==>
            forall k :: k in SessionIds(st, id) ==> st.sessions[k].durationMinutes.None?)
      && u.totalMinutes.GetOr(0) == StoredMinutes(st, id)
      && (LedgerHolds(st) ==> u.totalMinutes.GetOr(0) == st.reeds[id].totalPlayTimeMinutes)
  {
    OwnedAllNull(st.sessions, SessionReed, id, st.nextSession, Duration);
    SumOfIgnoresNulls(SessionsOf(st, id), Duration, StoredDuration);
  }

  /** `types_breakdown` holds exactly the types the reed's modifications carry, each at least once, and
      its counts add up to `total_modifications`. */
  lemma AnalyticsTypes(st: Store, id: nat, now: int)
    requires Valid(st) && id in st.reeds
    ensures var mm := Analytics(st, id, now).value.modificationMetrics;
      && (forall t :: t in mm.typesBreakdown <==>
            exists k :: k in st.modifications && st.modifications[k].reed == id
                        && st.modifications[k].modificationType == t)
      && (forall t :: t in mm.typesBreakdown ==> mm.typesBreakdown[t] >= 1)
      && SumValues(mm.typesBreakdown) == mm.totalModifications
  {
    var mods := ModificationsOf(st, id);
    var keys := set m | m in mods :: m.modificationType;
    var tb := TypesBreakdown(mods);
    forall t ensures t in tb <==> exists k :: k in st.modifications && st.modifications[k].reed == id
                                               && st.modifications[k].modificationType == t {
      if t in tb {
        var x :| x in mods && x.modificationType == t;
        OwnedMember(st.modifications, ModificationReed, id, st.nextModification, x);
      }
      if exists k :: k in st.modifications && st.modifications[k].reed == id && st.modifications[k].modificationType == t {
        var k :| k in st.modifications && st.modifications[k].reed == id && st.modifications[k].modificationType == t;
        OwnedMember(st.modifications, ModificationReed, id, st.nextModification, st.modifications[k]);
      }
    }
    forall t | t in tb ensures tb[t] >= 1 {
      var x :| x in mods && x.modificationType == t;
      var i :| 0 <= i < |mods| && mods[i] == x;
      assert ModificationType(mods[i]) == t;
    }
    TallySum(keys, mods, ModificationType);
    assert Outside(mods, ModificationType, keys) == 0 by {
      forall i | 0 <= i < |mods| ensures ModificationType(mods[i]) in keys {
        assert mods[i] in mods;
      }
    }
  }

  /** An average of ratings in 1..10 lies in 1..10: MinRating * count <= total <= MaxRating * count. */
  ghost predicate MeanInRange(a: Option<Mean>) {
    a.Some? ==> MinRating * a.value.count <= a.value.total <= MaxRating * a.value.count
  }

  /** Every rating value of the rows is valid. */
  lemma RatingsBounded<T>(xs: seq<T>, f: T -> Option<int>)
    requires forall i :: 0 <= i < |xs| ==> ValidRating(f(xs[i]))
    ensures MeanInRange(AvgOf(xs, f))
  {
    if AvgOf(xs, f).Some? {
      AvgOfBounded(xs, f, MinRating, MaxRating);
    }
  }

  /** Each quality average is null exactly when none of the reed's snapshots carries that rating, and
      every average lies within the rating scale. */
  lemma AnalyticsQuality(st: Store, id: nat, now: int)
    requires Valid(st) && id in st.reeds
    ensures var q := Analytics(st, id, now).value.qualityMetrics;
      && (q.avgTone.None? <==> forall k :: k in SnapshotIds(st, id) ==> st.snapshots[k].toneQuality.None?)
      && (q.avgResponse.None? <==> forall k :: k in SnapshotIds(st, id) ==> st.snapshots[k].response.None?)
      && (q.avgIntonation.None? <==> forall k :: k in SnapshotIds(st, id) ==> st.snapshots[k].intonation.None?)
      && (q.avgStability.None? <==> forall k :: k in SnapshotIds(st, id) ==> st.snapshots[k].stability.None?)
      && (q.avgEase.None? <==> forall k :: k in SnapshotIds(st, id) ==> st.snapshots[k].easeOfPlaying.None?)
      && (q.avgOverall.None? <==> forall k :: k in SnapshotIds(st, id) ==> st.snapshots[k].overallRating.None?)
      && MeanInRange(q.avgTone) && MeanInRange(q.avgResponse) && MeanInRange(q.avgIntonation)
      && MeanInRange(q.avgStability) && MeanInRange(q.avgEase) && MeanInRange(q.avgOverall)
  {
    SnapshotAverage(st, id, Tone);
    SnapshotAverage(st, id, Response);
    SnapshotAverage(st, id, Intonation);
    SnapshotAverage(st, id, Stability);
    SnapshotAverage(st, id, Ease);
    SnapshotAverage(st, id, Overall);
  }

  /** One rating column averaged over one reed's snapshots. */
  lemma SnapshotAverage(st: Store, id: nat, f: QualitySnapshot -> Option<int>)
    requires Valid(st) && id in st.reeds
    requires forall s :: RatingsValid(s) ==> ValidRating(f(s))
    ensures AvgOf(SnapshotsOf(st, id), f).None? <==> forall k :: k in SnapshotIds(st, id) ==> f(st.snapshots[k]).None?
    ensures MeanInRange(AvgOf(SnapshotsOf(st, id), f))
  {
    var snaps := SnapshotsOf(st, id);
    OwnedAllNull(st.snapshots, SnapshotReed, id, st.nextSnapshot, f);
    forall i | 0 <= i < |snaps| ensures ValidRating(f(snaps[i])) {
      OwnedMember(st.snapshots, SnapshotReed, id, st.nextSnapshot, snaps[i]);
    }
    RatingsBounded(snaps, f);
  }

  /** `avg_success` lies within the rating scale and is null when no modification of the reed has a rating. */
  lemma AnalyticsSuccess(st: Store, id: nat, now: int)
    requires Valid(st) && id in st.reeds
    ensures var mm := Analytics(st, id, now).value.modificationMetrics;
      && (mm.avgSuccess.None? <==>
            forall k :: k in ModificationIds(st, id) ==> st.modifications[k].successRating.None?)
      && MeanInRange(mm.avgSuccess)
  {
    var mods := ModificationsOf(st, id);
    OwnedAllNull(st.modifications, ModificationReed, id, st.nextModification, SuccessRating);
    forall i | 0 <= i < |mods| ensures ValidRating(SuccessRating(mods[i])) {
      OwnedMember(st.modifications, ModificationReed, id, st.nextModification, mods[i]);
    }
    RatingsBounded(mods, SuccessRating);
  }

  // ---------------------------------------------------------------------------------------------
  // Summary laws

  /** Whether row `k` of `m` exists and carries key `s`, as 0 or 1. */
  function HitAt<T>(m: map<nat, T>, key: T -> string, s: string, k: nat): nat {
    if k in m && key(m[k]) == s then 1 else 0
  }

  /** One more step of the scan counts row `n - 1` when it carries the key. */
  lemma CountRowsStep<T>(m: map<nat, T>, key: T -> string, s: string, n: nat)
    requires n > 0
    ensures Count(Rows(m, n), key, s) == Count(Rows(m, n - 1), key, s) + HitAt(m, key, s, n - 1)
  {
    var prev := Rows(m, n - 1);
    if n - 1 in m {
      var rows := prev + [m[n - 1]];
      assert Rows(m, n) == rows;
      assert rows[..|rows| - 1] == prev;
      assert Count(rows, key, s) == Count(prev, key, s) + (if key(rows[|rows| - 1]) == s then 1 else 0);
    } else {
      assert Rows(m, n) == prev;
    }
  }

  /** Raising the bound by one adds key `n - 1` exactly when row `n - 1` carries the key. */
  lemma KeysWithStep<T>(m: map<nat, T>, key: T -> string, s: string, n: nat)
    requires n > 0
    ensures |KeysWhereBelow(m, key, s, n)| == |KeysWhereBelow(m, key, s, n - 1)| + HitAt(m, key, s, n - 1)
  {
    var below := KeysWhereBelow(m, key, s, n - 1);
    if HitAt(m, key, s, n - 1) == 1 {
      assert n - 1 !in below;
      assert KeysWhereBelow(m, key, s, n) == below + {n - 1};
    } else {
      assert KeysWhereBelow(m, key, s, n) == below;
    }
  }

  /** Counting by key over a full scan counts the keys' rows. */
  lemma {:induction false} CountRows<T>(m: map<nat, T>, key: T -> string, s: string, n: nat)
    ensures Count(Rows(m, n), key, s) == |KeysWhereBelow(m, key, s, n)|
  {
    if n > 0 {
      CountRows(m, key, s, n - 1);
      CountRowsStep(m, key, s, n);
      KeysWithStep(m, key, s, n);
    }
  }

  /** A full scan meets only rows of the table. */
  lemma {:induction false} RowsWithin<T>(m: map<nat, T>, n: nat, P: T -> bool)
    requires forall k :: k in m ==> P(m[k])
    ensures forall i :: 0 <= i < |Rows(m, n)| ==> P(Rows(m, n)[i])
  {
    if n > 0 {
      RowsWithin(m, n - 1, P);
    }
  }

  /** The ids of the reeds whose status is `x`. */
  ghost function ReedsWithStatus(st: Store, x: string): set<nat> {
    KeysWhere(st.reeds, ReedStatus, x)
  }

  predicate HasValidStatus(r: Reed) { r.status in StatusChoices }
  predicate HasValidRatings(s: QualitySnapshot) { RatingsValid(s) }

  /** `status_breakdown` has one entry per status, each the number of reeds with that status (0 included);
      when every status is in the closed set, which writes through the request boundary guarantee,
      its counts add up to `total_reeds`. */
  lemma SummaryStatus(st: Store)
    requires Valid(st)
    ensures var s := SummaryOf(st);
      && s.statusBreakdown.Keys == StatusSet()
      && (forall x :: x in StatusChoices ==>
            s.statusBreakdown[x] == |ReedsWithStatus(st, x)|)
      && SumValues(s.statusBreakdown) == s.totalReeds
  {
    StatusCounts(st);
    StatusSum(st);
  }

  lemma StatusCounts(st: Store)
    requires KeysBelowNext(st)
    ensures forall x :: x in StatusChoices ==>
      StatusBreakdown(st)[x] == |ReedsWithStatus(st, x)|
  {
    forall x | x in StatusChoices
      ensures StatusBreakdown(st)[x] == |ReedsWithStatus(st, x)|
    {
      StatusCount(st, x);
    }
  }

  lemma StatusCount(st: Store, x: string)
    requires KeysBelowNext(st) && x in StatusChoices
    ensures StatusBreakdown(st)[x] == |ReedsWithStatus(st, x)|
  {
    assert x in StatusSet();
    assert StatusBreakdown(st)[x] == Count(Rows(st.reeds, st.nextReed), ReedStatus, x);
    CountRows(st.reeds, ReedStatus, x, st.nextReed);
    assert KeysWhereBelow(st.reeds, ReedStatus, x, st.nextReed) == ReedsWithStatus(st, x);
  }

  lemma StatusSum(st: Store)
    requires Valid(st)
    ensures SumValues(StatusBreakdown(st)) == |st.reeds|
  {
    var rows := Rows(st.reeds, st.nextReed);
    TallySum(StatusSet(), rows, ReedStatus);
    RowsWithin(st.reeds, st.nextReed, HasValidStatus);
    assert forall i :: 0 <= i < |rows| ==> ReedStatus(rows[i]) in StatusSet() by {
      forall i | 0 <= i < |rows| ensures ReedStatus(rows[i]) in StatusSet() {
        assert HasValidStatus(rows[i]);
      }
    }
    assert Outside(rows, ReedStatus, StatusSet()) == 0;
    RowsCountAll(st.reeds, st.nextReed);
  }

  /** One reed in the store: `total_reeds` is 1, its status counts 1 and every other status 0. */
  lemma SummaryOneReed(st: Store, id: nat, reed: Reed)
    requires Valid(st) && st.reeds == map[id := reed]
    ensures SummaryOf(st).totalReeds == 1
    ensures forall x :: x in StatusChoices ==>
      SummaryOf(st).statusBreakdown[x] == if x == reed.status then 1 else 0
  {
    StatusCounts(st);
    forall x | x in StatusChoices
      ensures |ReedsWithStatus(st, x)| == if x == reed.status then 1 else 0
    {
      if x == reed.status {
        assert ReedsWithStatus(st, x) == {id};
      } else {
        assert ReedsWithStatus(st, x) == {};
      }
    }
  }

  /** The system-wide quality averages are null exactly when no snapshot anywhere carries that rating,
      and lie within the rating scale. */
  lemma SummaryQuality(st: Store)
    requires Valid(st)
    ensures var q := SummaryOf(st).overallQualityMetrics;
      && (q.avgTone.None? <==> forall k :: k in st.snapshots ==> st.snapshots[k].toneQuality.None?)
      && (q.avgResponse.None? <==> forall k :: k in st.snapshots ==> st.snapshots[k].response.None?)
      && (q.avgIntonation.None? <==> forall k :: k in st.snapshots ==> st.snapshots[k].intonation.None?)
      && (q.avgOverall.None? <==> forall k :: k in st.snapshots ==> st.snapshots[k].overallRating.None?)
      && MeanInRange(q.avgTone) && MeanInRange(q.avgResponse)
      && MeanInRange(q.avgIntonation) && MeanInRange(q.avgOverall)
  {
    var rows := Rows(st.snapshots, st.nextSnapshot);
    RowsWithin(st.snapshots, st.nextSnapshot, HasValidRatings);
    RatingsBounded(rows, Tone);
    RatingsBounded(rows, Response);
    RatingsBounded(rows, Intonation);
    RatingsBounded(rows, Overall);
    RowsAllNull(st.snapshots, st.nextSnapshot, Tone);
    RowsAllNull(st.snapshots, st.nextSnapshot, Response);
    RowsAllNull(st.snapshots, st.nextSnapshot, Intonation);
    RowsAllNull(st.snapshots, st.nextSnapshot, Overall);
  }

  lemma RowsAllNull<T>(m: map<nat, T>, n: nat, f: T -> Option<int>)
    requires forall k :: k in m ==> k < n
    ensures (forall i :: 0 <= i < |Rows(m, n)| ==> f(Rows(m, n)[i]).None?)
        <==> (forall k :: k in m ==> f(m[k]).None?)
  {
    if forall i :: 0 <= i < |Rows(m, n)| ==> f(Rows(m, n)[i]).None? {
      RowsFind(m, n, f);
    }
    if forall k :: k in m ==> f(m[k]).None? {
      RowsWithinNull(m, n, f);
    }
  }

  lemma {:induction false} RowsFind<T>(m: map<nat, T>, n: nat, f: T -> Option<int>)
    requires forall i :: 0 <= i < |Rows(m, n)| ==> f(Rows(m, n)[i]).None?
    ensures forall k :: k in m && k < n ==> f(m[k]).None?
  {
    if n > 0 {
      var prev := Rows(m, n - 1);
      assert forall i :: 0 <= i < |prev| ==> Rows(m, n)[i] == prev[i];
      RowsFind(m, n - 1, f);
      if n - 1 in m {
        assert Rows(m, n)[|prev|] == m[n - 1];
      }
    }
  }

  lemma {:induction false} RowsWithinNull<T>(m: map<nat, T>, n: nat, f: T -> Option<int>)
    requires forall k :: k in m ==> f(m[k]).None?
    ensures forall i :: 0 <= i < |Rows(m, n)| ==> f(Rows(m, n)[i]).None?
  {
    if n > 0 {
      RowsWithinNull(m, n - 1, f);
    }
  }

  // ---------------------------------------------------------------------------------------------
  // Total play time

  /** The sum over the reeds with id below `bound` of the stored minutes of their sessions with id below `n`. */
  function ReedSum(st: Store, bound: nat, n: nat): int {
    if bound == 0 then 0
    else ReedSum(st, bound - 1, n)
         + (if bound - 1 in st.reeds then SumBy(Owned(st.sessions, SessionReed, bound - 1, n), StoredDuration) else 0)
  }

  /** With the ledger in force, summing the reeds' stored minutes is summing their counters. */
  lemma {:induction false} ReedSumCounters(st: Store, bound: nat)
    requires LedgerHolds(st)
    ensures ReedSum(st, bound, st.nextSession) == SumBy(Rows(st.reeds, bound), PlayTime)
  {
    if bound > 0 {
      ReedSumCounters(st, bound - 1);
      var prev := Rows(st.reeds, bound - 1);
      if bound - 1 in st.reeds {
        assert SumBy(Owned(st.sessions, SessionReed, bound - 1, st.nextSession), StoredDuration)
            == StoredMinutes(st, bound - 1);
        SumByAppend(prev, st.reeds[bound - 1], PlayTime);
      } else {
        assert Rows(st.reeds, bound) == prev;
      }
    }
  }

  /** Scanning one more session adds its stored duration to exactly one reed: the one it belongs to. */
  lemma {:induction false} ReedSumStep(st: Store, bound: nat, n: nat)
    ensures ReedSum(st, bound, n + 1) == ReedSum(st, bound, n)
      + (if n in st.sessions && st.sessions[n].reed < bound && st.sessions[n].reed in st.reeds
         then StoredDuration(st.sessions[n]) else 0)
  {
    if bound > 0 {
      ReedSumStep(st, bound - 1, n);
      SumOwnedStep(st.sessions, SessionReed, StoredDuration, bound - 1, n + 1);
      assert SumBy(Owned(st.sessions, SessionReed, bound - 1, n + 1), StoredDuration)
          == SumBy(Owned(st.sessions, SessionReed, bound - 1, n), StoredDuration)
             + Weight(st.sessions, SessionReed, StoredDuration, bound - 1, n);
    }
  }

  lemma {:induction false} ReedSumNone(st: Store, bound: nat)
    ensures ReedSum(st, bound, 0) == 0
  {
    if bound > 0 {
      ReedSumNone(st, bound - 1);
    }
  }

  /** Every session belongs to exactly one existing reed, so the reeds' stored minutes add up to the
      stored minutes of all sessions. */
  lemma {:induction false} ReedSumSessions(st: Store, n: nat)
    requires Valid(st)
    ensures ReedSum(st, st.nextReed, n) == SumBy(Rows(st.sessions, n), StoredDuration)
  {
    if n == 0 {
      ReedSumNone(st, st.nextReed);
    } else {
      ReedSumSessions(st, n - 1);
      ReedSumStep(st, st.nextReed, n - 1);
      if n - 1 in st.sessions {
        assert st.sessions[n - 1].reed in st.reeds;
        assert st.sessions[n - 1].reed < st.nextReed;
      }
      var prev := Rows(st.sessions, n - 1);
      assert ReedSum(st, st.nextReed, n - 1) == SumBy(prev, StoredDuration);
      if n - 1 in st.sessions {
        SumByAppend(prev, st.sessions[n - 1], StoredDuration);
        assert ReedSum(st, st.nextReed, n) == ReedSum(st, st.nextReed, n - 1) + StoredDuration(st.sessions[n - 1]);
      } else {
        assert Rows(st.sessions, n) == prev;
        assert ReedSum(st, st.nextReed, n) == ReedSum(st, st.nextReed, n - 1);
      }
    }
  }

  /** `total_play_time` is null exactly when there is no reed, and is otherwise the sum of the reeds'
      counters; while the ledger holds, that is the sum of every session's stored duration. */
  lemma SummaryPlayTime(st: Store)
    requires Valid(st)
    ensures var t := SummaryOf(st).totalPlayTime;
      && (t.None? <==> |st.reeds| == 0)
      && t.GetOr(0) == SumBy(Rows(st.reeds, st.nextReed), PlayTime)
      && (LedgerHolds(st) ==> t.GetOr(0) == SumBy(Rows(st.sessions, st.nextSession), StoredDuration))
  {
    RowsCountAll(st.reeds, st.nextReed);
    SumOfIgnoresNulls(Rows(st.reeds, st.nextReed), PlayTimeColumn, PlayTime);
    if LedgerHolds(st) {
      ReedSumCounters(st, st.nextReed);
      ReedSumSessions(st, st.nextSession);
    }
  }
}
