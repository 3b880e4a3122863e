/**
 * The aggregation pipeline: gathering raw postings from the configured
 * boards, gating and scoring each one, ranking the accepted jobs, and
 * recording them in the job store.
 *
 * SHA-256 (`job_hash`), the clock and the per-board fetches are parameters;
 * the store is the map from job id to row that the `jobs` table holds.
 */
module JobAgent {
  import opened Wrappers
  import opened Text
  import opened Config
  import opened Filters
  import opened ResumeMatching
  import opened Greenhouse

  /** job_agent.py `Job`. */
  datatype Job = Job(
    id: string,
    title: string,
    company: string,
    location: string,
    url: string,
    source: string,
    description: string,
    datePosted: Option<string>,
    entryLevelScore: real,
    h1bConfidence: real,
    resumeMatch: real,
    finalScore: real)

  // ---------------------------------------------------------------------------
  // Scoring one posting

  /** The text the sponsorship and resume scorers read: the title, a newline, the description. */
  function ScoredText(title: string, description: string): (r: string)
    ensures |r| == |title| + 1 + |description|
    ensures r[..|title|] == title && r[|title|] == '\n' && r[|title| + 1..] == description
  {
    title + "\n" + description
  }

  /** A phrase in the title or in the description is in the text the scorers read. */
  lemma ScoredTextContains(title: string, description: string, sub: string)
    requires Contains(title, sub) || Contains(description, sub)
    ensures Contains(ScoredText(title, description), sub)
  {
    if Contains(title, sub) {
      ContainsAppended("\n" + description, title, sub);
      assert ScoredText(title, description) == title + ("\n" + description);
    } else {
      ContainsAppended(title + "\n", description, sub);
    }
  }

  /** A field as the scorer reads it: `(rj.get(key) or '').strip()`. */
  function Field(v: Option<string>): (r: string)
    ensures v.None? ==> r == []
    ensures v.Some? ==> r == Strip(v.value)
    ensures r == [] || (!IsSpace(r[0]) && !IsSpace(r[|r| - 1]))
  {
    Strip(v.GetOr(""))
  }

  /** The weighted combination of the three scores. */
  function FinalScore(resumeMatch: real, h1b: real, entry: real): (r: real) {
    0.5 * resumeMatch + 0.3 * h1b + 0.2 * entry
  }

  /**
   * The weights sum to one: three scores in [0,1] combine to a score in [0,1],
   * raising any one score never lowers the result, and all-ones gives 1.
   */
  lemma FinalScoreBounds(m: real, h: real, e: real, m2: real, h2: real, e2: real)
    requires 0.0 <= m <= 1.0 && 0.0 <= h <= 1.0 && 0.0 <= e <= 1.0
    requires m <= m2 && h <= h2 && e <= e2
    ensures 0.0 <= FinalScore(m, h, e) <= 1.0
    ensures FinalScore(m, h, e) <= FinalScore(m2, h2, e2)
    ensures FinalScore(1.0, 1.0, 1.0) == 1.0
  {
  }

  /** What every job the scorer returns satisfies. */
  predicate Admissible(j: Job, cfg: AgentConfig, sha256: string -> string) {
    && j.entryLevelScore > 0.0
    && j.resumeMatch >= cfg.resume.minMatchScore
    && (cfg.filters.requireUsLocation ==> IsUsLocation(j.location))
    && j.finalScore == FinalScore(j.resumeMatch, j.h1bConfidence, j.entryLevelScore)
    && 0.0 <= j.finalScore <= 1.0
    && j.id == sha256(j.url)
  }

  /**
   * One iteration of the loop in `score_and_filter_jobs`: the job built from a
   * raw posting, or `None` when one of the three gates rejects it.
   */
  function Accept(rj: RawPosting, cfg: AgentConfig, knownSet: set<string>, skills: Skills, sha256: string -> string)
    : (r: Option<Job>)
    ensures r.Some? ==> Admissible(r.value, cfg, sha256)
  {
    var title := Field(rj.title);
    var company := Field(rj.company);
    var location := Field(rj.location);
    var url := Field(rj.url);
    var source := Field(rj.source);
    var description := Field(rj.description);
    if cfg.filters.requireUsLocation && !IsUsLocation(location) then None
    else
      var entryScore := EntryLevelScore(title, description, cfg.filters);
      if entryScore <= 0.0 then None
      else
        var text := ScoredText(title, description);
        var h1bConf := H1bConfidence(company, text, knownSet, cfg.h1b);
        var resumeMatch := MatchScore(text, skills);
        if resumeMatch < cfg.resume.minMatchScore then None
        else
          Some(Job(sha256(url), title, company, location, url, source, description, rj.datePosted,
                   entryScore, h1bConf, resumeMatch, FinalScore(resumeMatch, h1bConf, entryScore)))
  }

  /** A posting is rejected exactly when one of the three gates fails. */
  lemma AcceptGates(rj: RawPosting, cfg: AgentConfig, knownSet: set<string>, skills: Skills, sha256: string -> string)
    ensures Accept(rj, cfg, knownSet, skills, sha256).None? <==>
      || (cfg.filters.requireUsLocation && !IsUsLocation(Field(rj.location)))
      || EntryLevelScore(Field(rj.title), Field(rj.description), cfg.filters) <= 0.0
      || MatchScore(ScoredText(Field(rj.title), Field(rj.description)), skills) < cfg.resume.minMatchScore
  {
  }

  /**
   * An accepted job carries the posting's stripped fields, its date as given,
   * the three scores computed from those fields, and their weighted sum.
   */
  lemma AcceptedFields(rj: RawPosting, cfg: AgentConfig, knownSet: set<string>, skills: Skills, sha256: string -> string)
    requires Accept(rj, cfg, knownSet, skills, sha256).Some?
    ensures var j := Accept(rj, cfg, knownSet, skills, sha256).value;
      && j.title == Field(rj.title) && j.company == Field(rj.company)
      && j.location == Field(rj.location) && j.url == Field(rj.url)
      && j.source == Field(rj.source) && j.description == Field(rj.description)
      && j.datePosted == rj.datePosted
      && j.entryLevelScore == EntryLevelScore(j.title, j.description, cfg.filters)
      && j.h1bConfidence == H1bConfidence(j.company, ScoredText(j.title, j.description), knownSet, cfg.h1b)
      && j.resumeMatch == MatchScore(ScoredText(j.title, j.description), skills)
      && j.id == sha256(j.url)
  {
  }

  /** The values carried by the `Some` entries of `os`, in order. */
  function Kept<T>(os: seq<Option<T>>): (r: seq<T>)
    ensures |r| <= |os|
  {
    if os == [] then []
    else Kept(os[..|os| - 1]) + (if os[|os| - 1].Some? then [os[|os| - 1].value] else [])
  }

  lemma KeptSnoc<T>(os: seq<Option<T>>, o: Option<T>)
    ensures Kept(os + [o]) == Kept(os) + (if o.Some? then [o.value] else [])
  {
    assert (os + [o])[..|os|] == os;
  }

  /** Everything kept was carried by some entry. */
  lemma {:induction false} KeptFrom<T>(os: seq<Option<T>>)
    ensures forall x :: x in Kept(os) ==> Some(x) in os
  {
    if os != [] {
      var front := os[..|os| - 1];
      KeptFrom(front);
      forall x | x in Kept(os) ensures Some(x) in os {
        if x in Kept(front) {
          var k :| 0 <= k < |front| && front[k] == Some(x);
          assert os[k] == front[k];
        } else {
          assert os[|os| - 1] == Some(x);
        }
      }
    }
  }

  /** Every `Some` entry is kept. */
  lemma {:induction false} KeptHas<T>(os: seq<Option<T>>, k: nat)
    requires k < |os| && os[k].Some?
    ensures os[k].value in Kept(os)
  {
    if k < |os| - 1 {
      var front := os[..|os| - 1];
      assert front[k] == os[k];
      KeptHas(front, k);
    }
  }

  /** The outcome of the loop body for each raw posting, in order. */
  function Outcomes(raw: seq<RawPosting>, cfg: AgentConfig, knownSet: set<string>, skills: Skills, sha256: string -> string)
    : (r: seq<Option<Job>>)
    ensures |r| == |raw|
  {
    if raw == [] then []
    else Outcomes(raw[..|raw| - 1], cfg, knownSet, skills, sha256) + [Accept(raw[|raw| - 1], cfg, knownSet, skills, sha256)]
  }

  /** Outcome `k` is that of posting `k`. */
  lemma {:induction false} OutcomeAt(raw: seq<RawPosting>, cfg: AgentConfig, knownSet: set<string>, skills: Skills,
                                     sha256: string -> string, k: nat)
    requires k < |raw|
    ensures Outcomes(raw, cfg, knownSet, skills, sha256)[k] == Accept(raw[k], cfg, knownSet, skills, sha256)
  {
    var front := raw[..|raw| - 1];
    if k < |raw| - 1 {
      OutcomeAt(front, cfg, knownSet, skills, sha256, k);
      assert front[k] == raw[k];
    }
  }

  /** The accepted jobs, in input order. */
  function AcceptAll(raw: seq<RawPosting>, cfg: AgentConfig, knownSet: set<string>, skills: Skills, sha256: string -> string)
    : (r: seq<Job>)
    ensures |r| <= |raw|
  {
    Kept(Outcomes(raw, cfg, knownSet, skills, sha256))
  }

  /** Every accepted job is admissible and comes from one of the raw postings. */
  lemma AcceptedJobs(raw: seq<RawPosting>, cfg: AgentConfig, knownSet: set<string>, skills: Skills, sha256: string -> string)
    ensures forall j :: j in AcceptAll(raw, cfg, knownSet, skills, sha256) ==>
      Admissible(j, cfg, sha256) &&
      exists k :: 0 <= k < |raw| && Accept(raw[k], cfg, knownSet, skills, sha256) == Some(j)
  {
    var os := Outcomes(raw, cfg, knownSet, skills, sha256);
    KeptFrom(os);
    forall j | j in Kept(os)
      ensures Admissible(j, cfg, sha256)
      ensures exists k :: 0 <= k < |raw| && Accept(raw[k], cfg, knownSet, skills, sha256) == Some(j)
    {
      var k :| 0 <= k < |os| && os[k] == Some(j);
      OutcomeAt(raw, cfg, knownSet, skills, sha256, k);
    }
  }

  /** A posting every gate admits is kept. */
  lemma AdmittedIsKept(raw: seq<RawPosting>, cfg: AgentConfig, knownSet: set<string>, skills: Skills,
                       sha256: string -> string, k: nat)
    requires k < |raw| && Accept(raw[k], cfg, knownSet, skills, sha256).Some?
    ensures Accept(raw[k], cfg, knownSet, skills, sha256).value in AcceptAll(raw, cfg, knownSet, skills, sha256)
  {
    OutcomeAt(raw, cfg, knownSet, skills, sha256, k);
    KeptHas(Outcomes(raw, cfg, knownSet, skills, sha256), k);
  }

  // ---------------------------------------------------------------------------
  // Ranking: out.sort(key=lambda j: j.final_score, reverse=True)

  predicate SortedDesc(s: seq<Job>) {
    forall i, j :: 0 <= i < j < |s| ==> s[i].finalScore >= s[j].finalScore
  }

  /** The jobs of `s` that score exactly `v`, in order. */
  function WithScore(s: seq<Job>, v: real): (r: seq<Job>)
    ensures |r| <= |s|
  {
    if s == [] then []
    else WithScore(s[..|s| - 1], v) + (if s[|s| - 1].finalScore == v then [s[|s| - 1]] else [])
  }

  lemma WithScoreSnoc(s: seq<Job>, x: Job, v: real)
    ensures WithScore(s + [x], v) == WithScore(s, v) + (if x.finalScore == v then [x] else [])
  {
    assert (s + [x])[..|s|] == s;
  }

  /** Places `x` after every job of `sorted` that scores at least as high. */
  function InsertDesc(sorted: seq<Job>, x: Job): (r: seq<Job>)
    ensures multiset(r) == multiset(sorted) + multiset{x}
  {
    if sorted == [] then [x]
    else
      var last := sorted[|sorted| - 1];
      var front := sorted[..|sorted| - 1];
      assert sorted == front + [last];
      if last.finalScore >= x.finalScore then sorted + [x]
      else InsertDesc(front, x) + [last]
  }

  /** Inserting into a sorted list keeps it sorted. */
  lemma {:induction false} InsertDescSorted(sorted: seq<Job>, x: Job)
    requires SortedDesc(sorted)
    ensures SortedDesc(InsertDesc(sorted, x))
  {
    if sorted != [] {
      var last := sorted[|sorted| - 1];
      var front := sorted[..|sorted| - 1];
      if last.finalScore < x.finalScore {
        assert SortedDesc(front) by {
          forall i, j | 0 <= i < j < |front| ensures front[i].finalScore >= front[j].finalScore {
            assert front[i] == sorted[i] && front[j] == sorted[j];
          }
        }
        InsertDescSorted(front, x);
        assert sorted == front + [last];
        LowerLastStaysLast(front, last, x, InsertDesc(front, x));
      }
    }
  }

  /** `x` goes after every job of equal score already there. */
  lemma {:induction false} InsertDescStable(sorted: seq<Job>, x: Job, v: real)
    ensures WithScore(InsertDesc(sorted, x), v) == WithScore(sorted, v) + (if x.finalScore == v then [x] else [])
  {
    if sorted == [] {
      WithScoreSnoc([], x, v);
      assert [] + [x] == [x];
    } else {
      var last := sorted[|sorted| - 1];
      var front := sorted[..|sorted| - 1];
      assert sorted == front + [last];
      if last.finalScore >= x.finalScore {
        assert InsertDesc(sorted, x) == sorted + [x];
        WithScoreSnoc(sorted, x, v);
      } else {
        assert InsertDesc(sorted, x) == InsertDesc(front, x) + [last];
        InsertDescStable(front, x, v);
        StableStep(front, last, x, v, InsertDesc(front, x));
      }
    }
  }

  /** Where `x` passes a lower-scoring `last`, the jobs of any one score keep their order. */
  lemma StableStep(front: seq<Job>, last: Job, x: Job, v: real, inner: seq<Job>)
    requires last.finalScore < x.finalScore
    requires WithScore(inner, v) == WithScore(front, v) + (if x.finalScore == v then [x] else [])
    ensures WithScore(inner + [last], v) == WithScore(front + [last], v) + (if x.finalScore == v then [x] else [])
  {
    WithScoreSnoc(inner, last, v);
    WithScoreSnoc(front, last, v);
    var w := WithScore(front, v);
    var xs := if x.finalScore == v then [x] else [];
    var ls := if last.finalScore == v then [last] else [];
    assert xs == [] || ls == [];
    AppendNil(w + xs);
    AppendNil(w + ls);
    AppendNil(w);
  }

  /** Inserting a job above the lowest one leaves that one last, and the list sorted. */
  lemma LowerLastStaysLast(front: seq<Job>, last: Job, x: Job, inner: seq<Job>)
    requires SortedDesc(front + [last]) && last.finalScore < x.finalScore
    requires multiset(inner) == multiset(front) + multiset{x} && SortedDesc(inner)
    ensures SortedDesc(inner + [last])
  {
    var sorted := front + [last];
    forall i | 0 <= i < |inner| ensures inner[i].finalScore >= last.finalScore {
      assert inner[i] in multiset(inner);
      if inner[i] != x {
        assert inner[i] in front;
        var k :| 0 <= k < |front| && front[k] == inner[i];
        assert sorted[k] == front[k] && sorted[|front|] == last;
      }
    }
  }

  /** Inserting the last job into the sorted front sorts the whole list. */
  lemma InsertLast(front: seq<Job>, last: Job, sortedFront: seq<Job>)
    requires SortedDesc(sortedFront) && multiset(sortedFront) == multiset(front)
    requires forall v :: WithScore(sortedFront, v) == WithScore(front, v)
    ensures SortedDesc(InsertDesc(sortedFront, last))
    ensures multiset(InsertDesc(sortedFront, last)) == multiset(front + [last])
    ensures forall v :: WithScore(InsertDesc(sortedFront, last), v) == WithScore(front + [last], v)
  {
    InsertDescSorted(sortedFront, last);
    forall v ensures WithScore(InsertDesc(sortedFront, last), v) == WithScore(front + [last], v) {
      InsertDescStable(sortedFront, last, v);
      WithScoreSnoc(front, last, v);
    }
  }

  /**
   * Python's stable sort by descending final score: the result is sorted, is
   * a permutation of the input, and jobs with equal scores keep their input
   * order.
   */
  function SortByFinalScoreDesc(s: seq<Job>): (r: seq<Job>)
    ensures SortedDesc(r)
    ensures multiset(r) == multiset(s)
    ensures forall v :: WithScore(r, v) == WithScore(s, v)
  {
    if s == [] then []
    else
      var front := s[..|s| - 1];
      var last := s[|s| - 1];
      var sortedFront := SortByFinalScoreDesc(front);
      assert s == front + [last];
      InsertLast(front, last, sortedFront);
      InsertDesc(sortedFront, last)
  }

  /**
   * The body of the loop in `score_and_filter_jobs` for one raw posting: the
   * job it builds, or `None` where the loop would `continue`.
   */
  method ScorePosting(rj: RawPosting, cfg: AgentConfig, knownSet: set<string>, profile: ResumeProfile,
                      sha256: string -> string)
    returns (r: Option<Job>)
    ensures r == Accept(rj, cfg, knownSet, profile.skills, sha256)
  {
    var title := Field(rj.title);
    var company := Field(rj.company);
    var location := Field(rj.location);
    var url := Field(rj.url);
    var source := Field(rj.source);
    var description := Field(rj.description);
    var datePosted := rj.datePosted;

    if cfg.filters.requireUsLocation {
      if !IsUsLocation(location) {
        return None;
      }
    }

    var entryScore := EntryLevelScore(title, description, cfg.filters);
    if entryScore <= 0.0 {
      return None;
    }

    var text := ScoredText(title, description);
    var h1bConf := H1bConfidence(company, text, knownSet, cfg.h1b);
    var resumeMatch := ComputeMatchScore(text, profile);

    var minMatch := cfg.resume.minMatchScore;
    if resumeMatch < minMatch {
      return None;
    }

    var finalScore := FinalScore(resumeMatch, h1bConf, entryScore);
    var jid := sha256(url);
    var job := Job(jid, title, company, location, url, source, description, datePosted,
                   entryScore, h1bConf, resumeMatch, finalScore);
    return Some(job);
  }

  lemma AcceptAllStep(raw: seq<RawPosting>, i: nat, cfg: AgentConfig, knownSet: set<string>, skills: Skills,
                      sha256: string -> string, r: Option<Job>)
    requires i < |raw| && r == Accept(raw[i], cfg, knownSet, skills, sha256)
    ensures AcceptAll(raw[..i + 1], cfg, knownSet, skills, sha256)
         == AcceptAll(raw[..i], cfg, knownSet, skills, sha256) + (if r.Some? then [r.value] else [])
  {
    assert raw[..i + 1][..i] == raw[..i];
    KeptSnoc(Outcomes(raw[..i], cfg, knownSet, skills, sha256), Accept(raw[i], cfg, knownSet, skills, sha256));
  }

  /** The loop of `score_and_filter_jobs`: the jobs built from the postings that pass every gate, in input order. */
  method GateAll(rawJobs: seq<RawPosting>, cfg: AgentConfig, knownSet: set<string>,
                 profile: ResumeProfile, sha256: string -> string)
    returns (out: seq<Job>)
    ensures out == AcceptAll(rawJobs, cfg, knownSet, profile.skills, sha256)
  {
    out := [];
    for i := 0 to |rawJobs|
      invariant out == AcceptAll(rawJobs[..i], cfg, knownSet, profile.skills, sha256)
    {
      var r := ScorePosting(rawJobs[i], cfg, knownSet, profile, sha256);
      AcceptAllStep(rawJobs, i, cfg, knownSet, profile.skills, sha256, r);
      if r.None? {
        continue;
      }
      out := out + [r.value];
    }
    assert rawJobs[..|rawJobs|] == rawJobs;
  }

  /** job_agent.py `score_and_filter_jobs`, with the known-sponsor set already loaded. */
  method ScoreAndFilterJobs(rawJobs: seq<RawPosting>, cfg: AgentConfig, knownSet: set<string>,
                            profile: ResumeProfile, sha256: string -> string)
    returns (out: seq<Job>)
    ensures out == SortByFinalScoreDesc(AcceptAll(rawJobs, cfg, knownSet, profile.skills, sha256))
  {
    out := GateAll(rawJobs, cfg, knownSet, profile, sha256);
    out := SortByFinalScoreDesc(out);
  }

  /**
   * The scorer's output: every job is admissible and comes from a raw
   * posting, every posting all gates admit is there, the list is sorted by
   * descending final score, and equal scores keep their input order.
   */
  lemma RankedOutput(raw: seq<RawPosting>, cfg: AgentConfig, knownSet: set<string>, skills: Skills, sha256: string -> string)
    ensures var out := SortByFinalScoreDesc(AcceptAll(raw, cfg, knownSet, skills, sha256));
      && |out| <= |raw|
      && SortedDesc(out)
      && (forall j :: j in out ==> Admissible(j, cfg, sha256))
      && (forall j :: j in out ==> exists k :: 0 <= k < |raw| && Accept(raw[k], cfg, knownSet, skills, sha256) == Some(j))
      && (forall k :: 0 <= k < |raw| && Accept(raw[k], cfg, knownSet, skills, sha256).Some? ==>
            Accept(raw[k], cfg, knownSet, skills, sha256).value in out)
      && (forall v :: WithScore(out, v) == WithScore(AcceptAll(raw, cfg, knownSet, skills, sha256), v))
  {
    var accepted := AcceptAll(raw, cfg, knownSet, skills, sha256);
    var out := SortByFinalScoreDesc(accepted);
    assert |out| == |multiset(out)| == |multiset(accepted)| == |accepted|;
    AcceptedJobs(raw, cfg, knownSet, skills, sha256);
    forall j | j in out ensures j in accepted {
      assert j in multiset(out);
    }
    forall k | 0 <= k < |raw| && Accept(raw[k], cfg, knownSet, skills, sha256).Some?
      ensures Accept(raw[k], cfg, knownSet, skills, sha256).value in out
    {
      AdmittedIsKept(raw, cfg, knownSet, skills, sha256, k);
      assert Accept(raw[k], cfg, knownSet, skills, sha256).value in multiset(accepted);
    }
  }

  // ---------------------------------------------------------------------------
  // The job store: upsert_job

  /** A row of the `jobs` table, keyed by job id. */
  datatype StoredJob = StoredJob(
    title: string,
    company: string,
    location: string,
    url: string,
    source: string,
    datePosted: Option<string>,
    firstSeen: string,
    lastSeen: string,
    description: string)

  /** The table after storing `job` at time `now`. */
  function Upserted(records: map<string, StoredJob>, job: Job, now: string): (r: map<string, StoredJob>)
    ensures r.Keys == records.Keys + {job.id}
    ensures forall id :: id in records && id != job.id ==> r[id] == records[id]
    ensures r[job.id].firstSeen == (if job.id in records then records[job.id].firstSeen else now)
    ensures r[job.id].lastSeen == now
    ensures && r[job.id].title == job.title && r[job.id].company == job.company
            && r[job.id].location == job.location && r[job.id].url == job.url
            && r[job.id].source == job.source && r[job.id].datePosted == job.datePosted
            && r[job.id].description == job.description
  {
    var firstSeen := if job.id in records then records[job.id].firstSeen else now;
    records[job.id := StoredJob(job.title, job.company, job.location, job.url, job.source,
                                job.datePosted, firstSeen, now, job.description)]
  }

  /** Storing the same job again only moves its `last_seen`. */
  lemma UpsertAgain(records: map<string, StoredJob>, job: Job, t1: string, t2: string)
    ensures var once := Upserted(records, job, t1);
      Upserted(once, job, t2) == once[job.id := once[job.id].(lastSeen := t2)]
  {
    var once := Upserted(records, job, t1);
    var twice := Upserted(once, job, t2);
    assert twice[job.id] == once[job.id].(lastSeen := t2);
  }

  /** Rows are never removed: after storing a list of jobs, every earlier id and every job's id is present. */
  lemma {:induction false} UpsertsKeepIds(records: map<string, StoredJob>, jobs: seq<Job>, nows: seq<string>)
    requires |nows| == |jobs|
    ensures records.Keys <= UpsertAll(records, jobs, nows).Keys
    ensures forall i :: 0 <= i < |jobs| ==> jobs[i].id in UpsertAll(records, jobs, nows)
  {
    if jobs != [] {
      var front := jobs[..|jobs| - 1];
      var times := nows[..|nows| - 1];
      UpsertsKeepIds(records, front, times);
      forall i | 0 <= i < |front| ensures jobs[i].id in UpsertAll(records, front, times) {
        assert jobs[i] == front[i];
      }
    }
  }

  /** Storing a list of jobs one after another, job `i` at time `nows[i]` (each `upsert_job` reads the clock anew). */
  function UpsertAll(records: map<string, StoredJob>, jobs: seq<Job>, nows: seq<string>): map<string, StoredJob>
    requires |nows| == |jobs|
  {
    if jobs == [] then records
    else Upserted(UpsertAll(records, jobs[..|jobs| - 1], nows[..|nows| - 1]), jobs[|jobs| - 1], nows[|nows| - 1])
  }

  /** The SQLite database behind `upsert_job`, as the map its `jobs` table holds. */
  class JobStore {
    var records: map<string, StoredJob>

    /** `ensure_db`: opening the table keeps whatever rows the database already holds (none for a new file). */
    constructor (existing: map<string, StoredJob>)
      ensures records == existing
    {
      records := existing;
    }

    /** job_agent.py `upsert_job`, with `now` supplied by the caller. */
    method Upsert(job: Job, now: string)
      modifies this
      ensures records == Upserted(old(records), job, now)
    {
      if job.id in records {
        var row := records[job.id];
        records := records[job.id := StoredJob(job.title, job.company, job.location, job.url, job.source,
                                               job.datePosted, row.firstSeen, now, job.description)];
      } else {
        records := records[job.id := StoredJob(job.title, job.company, job.location, job.url, job.source,
                                               job.datePosted, now, now, job.description)];
      }
    }
  }

  // ---------------------------------------------------------------------------
  // Gathering: fetch_all_jobs

  /** What fetching one board yields: its postings, or an exception. */
  datatype FetchOutcome = Fetched(postings: seq<RawPosting>) | FetchFailed

  /** The postings of the boards that did not fail, board by board in order. */
  function Gathered(slugs: seq<string>, fetch: string -> FetchOutcome): seq<RawPosting> {
    if slugs == [] then []
    else
      var outcome := fetch(slugs[|slugs| - 1]);
      Gathered(slugs[..|slugs| - 1], fetch) + (if outcome.Fetched? then outcome.postings else [])
  }

  lemma GatheredStep(slugs: seq<string>, i: nat, fetch: string -> FetchOutcome)
    requires i < |slugs|
    ensures Gathered(slugs[..i + 1], fetch)
         == Gathered(slugs[..i], fetch) + (if fetch(slugs[i]).Fetched? then fetch(slugs[i]).postings else [])
  {
    PrefixStep(slugs, i);
  }

  /** job_agent.py `fetch_all_jobs`: Greenhouse boards first, then Lever boards. */
  method FetchAllJobs(sources: SourcesConfig, fetchGreenhouse: string -> FetchOutcome, fetchLever: string -> FetchOutcome)
    returns (jobs: seq<RawPosting>)
    ensures jobs == Gathered(sources.greenhouse, fetchGreenhouse) + Gathered(sources.lever, fetchLever)
  {
    jobs := [];
    var ghCompanies := sources.greenhouse;
    var leverCompanies := sources.lever;
    for i := 0 to |ghCompanies|
      invariant jobs == Gathered(ghCompanies[..i], fetchGreenhouse)
    {
      GatheredStep(ghCompanies, i, fetchGreenhouse);
      var outcome := fetchGreenhouse(ghCompanies[i]);
      if outcome.Fetched? {
        jobs := jobs + outcome.postings;
      }
    }
    assert ghCompanies[..|ghCompanies|] == ghCompanies;
    ghost var fromGreenhouse := jobs;
    for i := 0 to |leverCompanies|
      invariant jobs == fromGreenhouse + Gathered(leverCompanies[..i], fetchLever)
    {
      GatheredStep(leverCompanies, i, fetchLever);
      var outcome := fetchLever(leverCompanies[i]);
      if outcome.Fetched? {
        jobs := jobs + outcome.postings;
      }
    }
    assert leverCompanies[..|leverCompanies|] == leverCompanies;
  }

  /** Boards are gathered independently: the results for `a + b` are those for `a`, then for `b`. */
  lemma {:induction false} GatheredConcat(a: seq<string>, b: seq<string>, fetch: string -> FetchOutcome)
    ensures Gathered(a + b, fetch) == Gathered(a, fetch) + Gathered(b, fetch)
    decreases |b|
  {
    if b == [] {
      assert a + b == a;
    } else {
      assert (a + b)[..|a + b| - 1] == a + b[..|b| - 1];
      GatheredConcat(a, b[..|b| - 1], fetch);
    }
  }

  lemma GatheredOne(slug: string, fetch: string -> FetchOutcome)
    ensures Gathered([slug], fetch) == if fetch(slug).Fetched? then fetch(slug).postings else []
  {
    assert [slug][..0] == [];
  }

  /** A failing board contributes nothing and does not stop the boards after it. */
  lemma FailedBoardSkipped(a: seq<string>, slug: string, b: seq<string>, fetch: string -> FetchOutcome)
    requires fetch(slug).FetchFailed?
    ensures Gathered(a + [slug] + b, fetch) == Gathered(a, fetch) + Gathered(b, fetch)
  {
    GatheredConcat(a + [slug], b, fetch);
    GatheredConcat(a, [slug], fetch);
    GatheredOne(slug, fetch);
  }

  /** A board that succeeds contributes all of its postings, in order, at its place. */
  lemma FetchedBoardIncluded(a: seq<string>, slug: string, b: seq<string>, fetch: string -> FetchOutcome)
    requires fetch(slug).Fetched?
    ensures Gathered(a + [slug] + b, fetch) == Gathered(a, fetch) + fetch(slug).postings + Gathered(b, fetch)
  {
    GatheredConcat(a + [slug], b, fetch);
    GatheredConcat(a, [slug], fetch);
    GatheredOne(slug, fetch);
  }
}
