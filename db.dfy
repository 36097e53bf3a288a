/**
 * The dashboard aggregation and the duplicate-application handling of
 * src/db.py. Supabase queries enter the model as their outcomes: the rows
 * they returned, or the message of the exception they raised.
 */
module Db {
  import opened Wrappers
  import opened Text
  import opened JsonValue
  import opened Constants

  /** A row as the Supabase client returns it: a dict of column name to JSON value. */
  type Row = map<string, Json>

  /** The dict that get_dashboard_stats returns. */
  datatype Stats = Stats(
    totalJobs: nat,
    openJobs: nat,
    totalCandidates: nat,
    funnel: map<string, nat>,
    recentActivity: seq<Row>)

  /** The stats before any query has answered. */
  const EmptyStats := Stats(0, 0, 0, map[], [])

  /** How many applications the dashboard lists as recent activity. */
  const RecentLimit: nat := 5

  function Min(a: nat, b: nat): nat {
    if a <= b then a else b
  }

  /** The stages as a set: the keys a filled funnel has. */
  const StageSet: set<string> := set s | s in Stages

  predicate Distinct(xs: seq<string>) {
    forall i, j :: 0 <= i < j < |xs| ==> xs[i] != xs[j]
  }

  lemma StagesDistinct()
    ensures Distinct(Stages)
  {
  }

  // ----- jobs -----

  predicate HasStatus(j: Row) {
    "status" in j
  }

  /** j['status'] == 'open': a status of any other value or type is not open. */
  predicate IsOpen(j: Row)
    requires HasStatus(j)
  {
    j["status"] == JString("open")
  }

  /** The number of open jobs. */
  function CountOpen(jobs: seq<Row>): (n: nat)
    requires forall j <- jobs :: HasStatus(j)
    ensures n <= |jobs|
  {
    if |jobs| == 0 then 0
    else CountOpen(jobs[..|jobs| - 1]) + (if IsOpen(jobs[|jobs| - 1]) then 1 else 0)
  }

  /** No open job counts 0; only open jobs count them all. */
  lemma {:induction false} OpenCountExtremes(jobs: seq<Row>)
    requires forall j <- jobs :: HasStatus(j)
    ensures CountOpen(jobs) == 0 <== forall j <- jobs :: !IsOpen(j)
    ensures CountOpen(jobs) == |jobs| <== forall j <- jobs :: IsOpen(j)
  {
    if |jobs| > 0 {
      var init := jobs[..|jobs| - 1];
      assert forall j <- init :: j in jobs;
      OpenCountExtremes(init);
      assert jobs[|jobs| - 1] in jobs;
    }
  }

  // ----- applications -----

  /** a.get("stage", "new"). */
  function StageOf(a: Row): Json {
    if "stage" in a then a["stage"] else JString("new")
  }

  /** Lists and dicts cannot be looked up in a dict: `s in funnel_counts` raises TypeError. */
  predicate Hashable(v: Json) {
    !v.JArray? && !v.JObject?
  }

  /** How many applications are at the given stage. */
  function CountStage(apps: seq<Row>, stage: string): (n: nat)
    ensures n <= |apps|
  {
    if |apps| == 0 then 0
    else CountStage(apps[..|apps| - 1], stage) + (if StageOf(apps[|apps| - 1]) == JString(stage) then 1 else 0)
  }

  /** The funnel of a list of applications: one count per stage. */
  function Funnel(apps: seq<Row>): (funnel: map<string, nat>)
    ensures funnel.Keys == StageSet
    ensures forall s <- funnel.Keys :: funnel[s] <= |apps|
  {
    map s | s in Stages :: CountStage(apps, s)
  }

  /**
   * What get_dashboard_stats returns for the given outcomes of the jobs and
   * applications queries. An exception leaves every field not yet assigned at
   * its default: a failed jobs query, a job without a "status" key (KeyError),
   * a failed applications query, or an application whose stage is a list or
   * a dict (TypeError).
   */
  function DashboardStats(jobsQuery: Result<seq<Row>, string>, appsQuery: Result<seq<Row>, string>): (stats: Stats)
    ensures stats.openJobs <= stats.totalJobs
    ensures stats.funnel == map[] || stats.funnel.Keys == StageSet
    ensures forall s <- stats.funnel.Keys :: stats.funnel[s] <= stats.totalCandidates
    ensures |stats.recentActivity| <= RecentLimit
  {
    match jobsQuery
    case Failure(_) => EmptyStats
    case Success(jobs) =>
      var counted := EmptyStats.(totalJobs := |jobs|);
      if exists j <- jobs :: !HasStatus(j) then counted
      else
        var withOpen := counted.(openJobs := CountOpen(jobs));
        match appsQuery
        case Failure(_) => withOpen
        case Success(apps) =>
          var withApps := withOpen.(totalCandidates := |apps|);
          if exists a <- apps :: !Hashable(StageOf(a)) then withApps
          else withApps.(funnel := Funnel(apps), recentActivity := apps[..Min(RecentLimit, |apps|)])
  }

  lemma CountOpenSnoc(jobs: seq<Row>, i: nat)
    requires i < |jobs|
    requires forall k :: 0 <= k <= i ==> HasStatus(jobs[k])
    ensures CountOpen(jobs[..i + 1]) == CountOpen(jobs[..i]) + (if IsOpen(jobs[i]) then 1 else 0)
  {
    assert jobs[..i + 1][..i] == jobs[..i];
  }

  lemma CountStageSnoc(apps: seq<Row>, i: nat, stage: string)
    requires i < |apps|
    ensures CountStage(apps[..i + 1], stage) == CountStage(apps[..i], stage) + (if StageOf(apps[i]) == JString(stage) then 1 else 0)
  {
    assert apps[..i + 1][..i] == apps[..i];
  }

  /** One more application moves the per-stage counts from the prefix before it to the prefix with it. */
  lemma CountsStep(apps: seq<Row>, i: nat, before: map<string, nat>, after: map<string, nat>)
    requires i < |apps|
    requires before.Keys == StageSet
    requires forall s <- before.Keys :: before[s] == CountStage(apps[..i], s)
    requires var st := StageOf(apps[i]);
             after == if st.JString? && st.s in before then before[st.s := before[st.s] + 1] else before
    ensures after.Keys == StageSet
    ensures forall s <- after.Keys :: after[s] == CountStage(apps[..i + 1], s)
  {
    forall s <- after.Keys
      ensures after[s] == CountStage(apps[..i + 1], s)
    {
      CountStageSnoc(apps, i, s);
    }
  }

  lemma FunnelFromCounts(apps: seq<Row>, counts: map<string, nat>)
    requires counts.Keys == StageSet
    requires forall s <- counts.Keys :: counts[s] == CountStage(apps, s)
    ensures counts == Funnel(apps)
  {
  }

  /** The open-jobs list comprehension: None when some job has no "status" key (KeyError). */
  method CountOpenJobs(jobs: seq<Row>) returns (open: Option<nat>)
    ensures open.None? <==> exists j <- jobs :: !HasStatus(j)
    ensures open.Some? ==> open.value == CountOpen(jobs)
  {
    var n := 0;
    for i := 0 to |jobs|
      invariant forall k :: 0 <= k < i ==> HasStatus(jobs[k])
      invariant n == CountOpen(jobs[..i])
    {
      if !HasStatus(jobs[i]) {
        return None;
      }
      CountOpenSnoc(jobs, i);
      if IsOpen(jobs[i]) {
        n := n + 1;
      }
    }
    assert jobs[..|jobs|] == jobs;
    return Some(n);
  }

  /** The funnel loop: None when some stage is a list or a dict (TypeError). */
  method CountFunnel(allApps: seq<Row>) returns (funnel: Option<map<string, nat>>)
    ensures funnel.None? <==> exists a <- allApps :: !Hashable(StageOf(a))
    ensures funnel.Some? ==> funnel.value == Funnel(allApps)
  {
    var funnelCounts: map<string, nat> := map s | s in Stages :: 0;
    for i := 0 to |allApps|
      invariant forall k :: 0 <= k < i ==> Hashable(StageOf(allApps[k]))
      invariant funnelCounts.Keys == StageSet
      invariant forall s <- funnelCounts.Keys :: funnelCounts[s] == CountStage(allApps[..i], s)
    {
      var s := StageOf(allApps[i]);
      if !Hashable(s) {
        assert allApps[i] in allApps;
        return None;
      }
      ghost var before := funnelCounts;
      if s.JString? && s.s in funnelCounts {
        funnelCounts := funnelCounts[s.s := funnelCounts[s.s] + 1];
      }
      CountsStep(allApps, i, before, funnelCounts);
    }
    assert allApps[..|allApps|] == allApps;
    FunnelFromCounts(allApps, funnelCounts);
    return Some(funnelCounts);
  }

  /** get_dashboard_stats: fills the stats field by field, stopping at the first exception. */
  method GetDashboardStats(jobsQuery: Result<seq<Row>, string>, appsQuery: Result<seq<Row>, string>)
    returns (stats: Stats)
    ensures stats == DashboardStats(jobsQuery, appsQuery)
  {
    stats := EmptyStats;
    if jobsQuery.Failure? {
      return;
    }
    var jobs := jobsQuery.value;
    stats := stats.(totalJobs := |jobs|);
    var open := CountOpenJobs(jobs);
    if open.None? {
      return;
    }
    stats := stats.(openJobs := open.value);
    if appsQuery.Failure? {
      return;
    }
    var allApps := appsQuery.value;
    stats := stats.(totalCandidates := |allApps|);
    var funnel := CountFunnel(allApps);
    if funnel.None? {
      return;
    }
    stats := stats.(funnel := funnel.value, recentActivity := allApps[..Min(RecentLimit, |allApps|)]);
  }

  // ----- properties of the aggregation -----

  /** The sum of the counts of the given stages in a funnel. */
  function FunnelTotal(funnel: map<string, nat>, stages: seq<string>): nat
    requires forall s <- stages :: s in funnel
  {
    if |stages| == 0 then 0 else funnel[stages[0]] + FunnelTotal(funnel, stages[1..])
  }

  /** How many of the given stages an application is at: at most one when they are distinct. */
  function Hits(a: Row, stages: seq<string>): nat {
    if |stages| == 0 then 0
    else (if StageOf(a) == JString(stages[0]) then 1 else 0) + Hits(a, stages[1..])
  }

  lemma {:induction false} HitsNone(a: Row, stages: seq<string>)
    requires forall s <- stages :: StageOf(a) != JString(s)
    ensures Hits(a, stages) == 0
  {
    if |stages| > 0 {
      HitsNone(a, stages[1..]);
    }
  }

  lemma {:induction false} HitsAtMostOne(a: Row, stages: seq<string>)
    requires Distinct(stages)
    ensures Hits(a, stages) <= 1
  {
    if |stages| > 0 {
      if StageOf(a) == JString(stages[0]) {
        HitsNone(a, stages[1..]);
      } else {
        HitsAtMostOne(a, stages[1..]);
      }
    }
  }

  /** The counts of a list of applications over the given stages, summed. */
  function StageTotal(apps: seq<Row>, stages: seq<string>): nat {
    if |stages| == 0 then 0 else CountStage(apps, stages[0]) + StageTotal(apps, stages[1..])
  }

  lemma {:induction false} StageTotalSnoc(apps: seq<Row>, a: Row, stages: seq<string>)
    ensures StageTotal(apps + [a], stages) == StageTotal(apps, stages) + Hits(a, stages)
  {
    if |stages| > 0 {
      assert (apps + [a])[..|apps|] == apps;
      StageTotalSnoc(apps, a, stages[1..]);
    }
  }

  /** Over distinct stages, every application is counted at most once. */
  lemma {:induction false} StageTotalBounded(apps: seq<Row>, stages: seq<string>)
    requires Distinct(stages)
    ensures StageTotal(apps, stages) <= |apps|
  {
    if |apps| == 0 {
      StageTotalEmpty(stages);
    } else {
      var init := apps[..|apps| - 1];
      assert apps == init + [apps[|apps| - 1]];
      StageTotalSnoc(init, apps[|apps| - 1], stages);
      HitsAtMostOne(apps[|apps| - 1], stages);
      StageTotalBounded(init, stages);
    }
  }

  lemma {:induction false} StageTotalEmpty(stages: seq<string>)
    ensures StageTotal([], stages) == 0
  {
    if |stages| > 0 {
      StageTotalEmpty(stages[1..]);
    }
  }

  lemma {:induction false} FunnelTotalIsStageTotal(apps: seq<Row>, stages: seq<string>)
    requires forall s <- stages :: s in Stages
    ensures FunnelTotal(Funnel(apps), stages) == StageTotal(apps, stages)
  {
    if |stages| > 0 {
      FunnelTotalIsStageTotal(apps, stages[1..]);
    }
  }

  /** The funnel counts add up to at most total_candidates: each application increments at most one stage. */
  lemma FunnelWithinCandidates(jobsQuery: Result<seq<Row>, string>, appsQuery: Result<seq<Row>, string>)
    ensures var stats := DashboardStats(jobsQuery, appsQuery);
            stats.funnel.Keys == StageSet ==> FunnelTotal(stats.funnel, Stages) <= stats.totalCandidates
  {
    var stats := DashboardStats(jobsQuery, appsQuery);
    if stats.funnel.Keys == StageSet {
      assert stats.funnel != map[] by {
        assert "new" in StageSet;
      }
      var apps := appsQuery.value;
      FunnelTotalIsStageTotal(apps, Stages);
      StagesDistinct();
      StageTotalBounded(apps, Stages);
    }
  }

  /** An application without a stage key is counted under "new". */
  lemma MissingStageCountsAsNew(apps: seq<Row>, a: Row)
    requires "stage" !in a
    ensures Funnel(apps + [a])["new"] == Funnel(apps)["new"] + 1
    ensures forall s <- StageSet :: s != "new" ==> Funnel(apps + [a])[s] == Funnel(apps)[s]
  {
    assert (apps + [a])[..|apps|] == apps;
  }

  /** An application whose stage is none of the six changes no count. */
  lemma UnknownStageIgnored(apps: seq<Row>, a: Row)
    requires StageOf(a) !in set s <- Stages :: JString(s)
    ensures Funnel(apps + [a]) == Funnel(apps)
  {
    assert (apps + [a])[..|apps|] == apps;
    forall s <- Stages
      ensures CountStage(apps + [a], s) == CountStage(apps, s)
    {
      assert JString(s) in set s <- Stages :: JString(s);
    }
  }

  /** When both queries succeed, the dashboard lists the first min(5, n) applications in the order fetched. */
  lemma RecentActivityIsFirstFive(jobs: seq<Row>, apps: seq<Row>)
    requires forall j <- jobs :: HasStatus(j)
    requires forall a <- apps :: Hashable(StageOf(a))
    ensures var stats := DashboardStats(Success(jobs), Success(apps));
            && |stats.recentActivity| == Min(RecentLimit, |apps|)
            && stats.recentActivity == apps[..|stats.recentActivity|]
            && stats.totalCandidates == |apps|
            && stats.funnel == Funnel(apps)
  {
  }

  /** What a failure leaves at its default. */
  lemma FailureKeepsDefaults(jobsQuery: Result<seq<Row>, string>, appsQuery: Result<seq<Row>, string>)
    ensures jobsQuery.Failure? ==> DashboardStats(jobsQuery, appsQuery) == EmptyStats
    ensures jobsQuery.Success? && (exists j <- jobsQuery.value :: !HasStatus(j)) ==>
              DashboardStats(jobsQuery, appsQuery) == EmptyStats.(totalJobs := |jobsQuery.value|)
    ensures appsQuery.Failure? ==>
              var stats := DashboardStats(jobsQuery, appsQuery);
              stats.totalCandidates == 0 && stats.funnel == map[] && stats.recentActivity == []
    ensures appsQuery.Success? && (exists a <- appsQuery.value :: !Hashable(StageOf(a))) ==>
              var stats := DashboardStats(jobsQuery, appsQuery);
              stats.funnel == map[] && stats.recentActivity == []
  {
  }

  // ----- inserting applications -----

  /** What the page shows besides the return value. */
  datatype Notice = Silent | Warning(text: string) | ErrorShown(text: string)

  const DuplicateKey := "duplicate key"

  /**
   * create_application: the first inserted row, or None (on an empty answer
   * or an exception), and the notice shown.
   */
  function CreateApplication(insert: Result<seq<Row>, string>): (r: (Option<Row>, Notice))
    ensures r.0.Some? <==> insert.Success? && |insert.value| > 0
    ensures r.0.Some? ==> r.0.value == insert.value[0]
    ensures r.1.Silent? <==> insert.Success?
    ensures r.1.Warning? <==> insert.Failure? && Contains(insert.error, DuplicateKey)
  {
    match insert
    case Success(data) => (if |data| > 0 then Some(data[0]) else None, Silent)
    case Failure(e) =>
      if Contains(e, DuplicateKey) then (None, Warning("Candidate already applied to this job."))
      else (None, ErrorShown("Error creating application: " + e))
  }

  /** apply_for_job_as_candidate: whether the insert went through, and the notice shown. */
  function ApplyForJobAsCandidate(insert: Result<seq<Row>, string>): (r: (bool, Notice))
    ensures r.0 <==> insert.Success?
    ensures r.1.Silent? <==> r.0
    ensures r.1.Warning? <==> insert.Failure? && Contains(insert.error, DuplicateKey)
  {
    match insert
    case Success(_) => (true, Silent)
    case Failure(e) =>
      if Contains(e, DuplicateKey) then (false, Warning("You have already applied for this job."))
      else (false, ErrorShown("Error applying: " + e))
  }

  /** An insert error takes the warning path exactly when its message mentions a duplicate key, and nothing is returned either way. */
  lemma DuplicateKeyClassified(insert: Result<seq<Row>, string>)
    requires insert.Failure?
    ensures CreateApplication(insert).0 == None && !ApplyForJobAsCandidate(insert).0
    ensures CreateApplication(insert).1.Warning? <==> Contains(insert.error, DuplicateKey)
    ensures ApplyForJobAsCandidate(insert).1.Warning? <==> Contains(insert.error, DuplicateKey)
    ensures CreateApplication(insert).1.ErrorShown? ==> EndsWith(CreateApplication(insert).1.text, insert.error)
    ensures ApplyForJobAsCandidate(insert).1.ErrorShown? ==> EndsWith(ApplyForJobAsCandidate(insert).1.text, insert.error)
  {
  }

  /** The message Postgres gives for a unique-constraint violation takes the warning path. */
  lemma UniqueViolationWarns(prefix: string, suffix: string)
    ensures CreateApplication(Failure(prefix + DuplicateKey + suffix)).1.Warning?
    ensures ApplyForJobAsCandidate(Failure(prefix + DuplicateKey + suffix)).1.Warning?
  {
    var e := prefix + DuplicateKey + suffix;
    assert OccursAt(e, DuplicateKey, |prefix|) by {
      assert e[|prefix|..|prefix| + |DuplicateKey|] == DuplicateKey;
    }
  }

  /** The two inserts agree on success and on how an error is classified. */
  lemma InsertsAgree(insert: Result<seq<Row>, string>)
    ensures ApplyForJobAsCandidate(insert).0 <==> insert.Success?
    ensures CreateApplication(insert).0.Some? ==> ApplyForJobAsCandidate(insert).0
    ensures CreateApplication(insert).1.Warning? <==> ApplyForJobAsCandidate(insert).1.Warning?
    ensures CreateApplication(insert).1.ErrorShown? <==> ApplyForJobAsCandidate(insert).1.ErrorShown?
  {
  }

  /** The row apply_for_job_as_candidate inserts. */
  function NewApplicationRow(jobId: string, candidateId: string): (row: Row) {
    map["job_id" := JString(jobId), "candidate_id" := JString(candidateId), "stage" := JString("new")]
  }

  /** A freshly applied candidate shows up in the funnel under "new". */
  lemma NewApplicationCountsAsNew(apps: seq<Row>, jobId: string, candidateId: string)
    ensures Funnel(apps + [NewApplicationRow(jobId, candidateId)])["new"] == Funnel(apps)["new"] + 1
  {
    assert (apps + [NewApplicationRow(jobId, candidateId)])[..|apps|] == apps;
  }
}
