# Job agent scoring core, modelled in Dafny

This project models the scoring and aggregation pipeline of a job-search agent
and proves properties of it. The agent gathers raw postings from job boards,
normalises the Greenhouse board's records and strips their HTML, and scores
each posting on three axes:

- how entry-level the posting is, with a hard seniority veto;
- how likely the employer is to sponsor an H-1B visa, with a hard
  negative-phrase veto;
- how well it matches a weighted skill profile taken from the configuration
  or from the text of a resume document.

Postings go through three gates: a US location, a positive entry score and a
minimum resume match. Those that pass are combined into
`0.5*match + 0.3*h1b + 0.2*entry`, ranked by a stable descending sort, and
recorded in an insert-or-update job store.

Modules, one per source file plus three shared ones:

- `Wrappers`: `Option`.
- `Text`: the Python string primitives the scorers use. These are `in` on
  strings, ASCII `lower`/`upper`, the `str.isspace` set (also what the
  regular-expression class `\s` matches), and `strip`.
- `Config`: the loaded configuration document as a datatype. Every missing
  key is replaced by the value the code falls back to.
- `Filters` (agent/filters.py): the location filter, the entry-level score
  and the H-1B confidence, as functions whose contracts state the priority
  ladders.
- `ResumeMatching` (agent/resume_matching.py): the skill dictionary is an
  insertion-ordered sequence of distinct keys. Assigning to an existing key
  keeps its position, as a Python `dict` does. Profile building and match
  scoring are methods with loops, proved against specification functions.
- `Greenhouse` (agent/sources/greenhouse.py): tag removal, whitespace
  collapsing and trimming as recursive functions; the record mapping as a loop.
- `JobAgent` (agent/job_agent.py): the per-posting gates, the scoring loop,
  the stable sort, the job store as a class over a map, and the
  gathering loop over the boards.

All scores are exact `real`s. SHA-256, the clock, `str.title`,
`html.unescape`, the extracted resume text and the per-board fetch results are
parameters.

## Model

| member | source | states |
|---|---|---|
| Text.Lower | agent/filters.py:28 | lower-casing keeps the length and maps each character through the ASCII case map |
| Text.Upper | agent/filters.py:31 | upper-casing keeps the length and maps each character through the ASCII case map |
| Text.Strip | agent/filters.py:61 | `strip()` yields a slice of the input with no whitespace at either end, and every character before the slice and every character after it is whitespace |
| Text.StripUnchanged | agent/filters.py:61 | a string with no whitespace at its ends is left unchanged by `strip()` |
| Text.LowerIdempotent | agent/filters.py:61 | lower-casing twice is lower-casing once |
| Text.ContainsLower | agent/resume_matching.py:82 | a substring stays a substring when both strings are lower-cased |
| Text.ContainedInEmpty | agent/resume_matching.py:82 | only the empty string occurs in the empty string |
| Filters.IsUsLocation | agent/filters.py:25-32 | the empty location is not a US location; one containing "united states" after lower-casing is; so is a non-empty one that lower-cases and strips to us, usa, u.s. or u.s.a. |
| Filters.SplitTokens | agent/filters.py:31 | `re.split(r'[,\s]+', u)` yields at least one piece, the first being the text before the first separator; no piece holds a separator; a text without separators is its own single piece |
| Filters.IsUsLocationPolicy | agent/filters.py:25-32 | a location is a US location iff it is non-empty and either contains "united states" in any case, or strips and lower-cases to us/usa/u.s./u.s.a., or is split by `[,\s]+` into a token that is an upper-cased state code or DC (a code standing alone between commas, whitespace or the ends) |
| Filters.SplitMeetsCodes | agent/filters.py:31-32 | some piece of `re.split(r'[,\s]+', u)` is in a code set iff some maximal separator-free run of `u` is |
| Filters.TokenIsStandalone | agent/filters.py:31 | every non-empty piece of the split is a maximal run between separators or the string's ends |
| Filters.StandaloneIsToken | agent/filters.py:31 | every maximal run between separators is a piece of the split |
| Filters.UnitedStatesInAnyCase | agent/filters.py:29-30 | any string containing "united states" in any mixture of case is a US location |
| Filters.ExcludedTerms | agent/filters.py:39 | the excluded terms are the lower-cased configured list, or the senior block when that list is empty |
| Filters.EntryTerms | agent/filters.py:43 | the entry terms are the lower-cased configured list, or the default entry keywords when that list is empty |
| Filters.NegativePhrases | agent/filters.py:68 | the negative phrases are the lower-cased configured list, or the default negative phrases when that list is empty |
| Filters.PositivePhrases | agent/filters.py:72 | the positive phrases are the lower-cased configured list, or the default positive phrases when that list is empty |
| Filters.EntryLevelScore | agent/filters.py:35-57 | an excluded term in the lower-cased title gives exactly 0, whatever the description says. Otherwise: 0.9 for an entry term in the title, else 0.8 for one in the description, else 0.6 for a title of interest in the title, else 0 if the description has an excluded term, else 0.4. The result is in {0, 0.4, 0.6, 0.8, 0.9}, hence in [0,1] |
| Filters.SeniorTitleVetoedByDefault | agent/filters.py:39-41 | with no exclusions configured, a title containing "senior" in any case scores exactly 0 |
| Filters.CleanCompanyName | agent/filters.py:60-61 | the cleaned name is the stripped name lower-cased character by character: same length as the stripped name, each character its case-mapped counterpart; hence no whitespace at its ends and no upper-case ASCII letter |
| Filters.CleanCompanyNameIdempotent | agent/filters.py:60-61 | cleaning a cleaned name changes nothing |
| Filters.SponsorSignal | agent/filters.py:73-78 | the confidence after the positive-phrase and known-sponsor updates is in {0, 0.7, 1}, and is 0 exactly when neither signal fired, so the `0.4` fallback for a known sponsor is never taken |
| Filters.H1bConfidence | agent/filters.py:64-83 | a negative phrase in the lower-cased text gives exactly 0, even beside positive phrases. Otherwise: 1.0 for a positive phrase, else 0.7 for a known sponsor, else 0.2. The result is in {0, 0.2, 0.7, 1}, hence in [0,1] |
| Filters.NoSponsorshipVetoesByDefault | agent/filters.py:68-70 | with the default negative phrases, "no sponsorship" anywhere in the text forces confidence 0 |
| ResumeMatching.Normalize | agent/resume_matching.py:18-19 | normalising keeps the length and maps each character through the ASCII case map, so no upper-case ASCII letter remains |
| ResumeMatching.MentionInAnyCase | agent/resume_matching.py:80-83 | a skill mentioned in the text in any mixture of case occurs in the normalised text |
| ResumeMatching.IndexOf | agent/resume_matching.py:14 | the position found holds the key and no earlier position does; a missing key gives the length |
| ResumeMatching.KeySet | agent/resume_matching.py:14 | every entry's key is a key, and every key is found at a position |
| ResumeMatching.Put | agent/resume_matching.py:52 | `skills[k] = v` keeps keys distinct and adds `k` to the keys. `k` then maps to `v` and every other key keeps its weight. An existing key keeps its position; a new key is appended at the end |
| ResumeMatching.Assign | agent/resume_matching.py:41-67 | filling a dictionary entry by entry yields distinct keys |
| ResumeMatching.AssignKeys | agent/resume_matching.py:64-65 | the filled dictionary's keys are exactly the entries' keys |
| ResumeMatching.AssignDistinct | agent/resume_matching.py:60-61 | entries whose keys are already distinct are kept as they are, in order |
| ResumeMatching.AssignLastWins | agent/resume_matching.py:64-65 | a key maps to the weight of its last entry, so a later duplicate overwrites an earlier one |
| ResumeMatching.NormalizeKeys | agent/resume_matching.py:64-65 | each entry's key is lower-cased and its weight kept |
| ResumeMatching.Present | agent/resume_matching.py:50-52 | an entry is kept iff it is an input entry whose key occurs in the text |
| ResumeMatching.MentionedConfigured | agent/resume_matching.py:50-52 | the resume-document loop over configured skills yields the dictionary of the lower-cased configured entries whose key occurs in the text |
| ResumeMatching.MentionedDefaults | agent/resume_matching.py:54-61 | the resume-document loop over the built-in skills yields the dictionary of the built-in entries that occur in the text |
| ResumeMatching.AllConfigured | agent/resume_matching.py:63-67 | outside resume-document mode the loop yields the dictionary of all configured entries with lower-cased keys |
| ResumeMatching.BuildResumeProfile | agent/resume_matching.py:41-68 | the profile's keys are distinct, and its skills follow the mode. Outside resume-document mode, every configured entry is assigned with a lower-cased key. In resume-document mode, only the configured entries (or, with none configured, the built-in ones) whose key occurs in the lower-cased text are kept. The titles are the set of lower-cased configured titles |
| ResumeMatching.ConfiguredKeys | agent/resume_matching.py:63-67 | outside resume-document mode the keys are exactly the lower-cased configured keys |
| ResumeMatching.ConfiguredWeights | agent/resume_matching.py:63-67 | each key maps to the weight of the last configured key that lower-cases to it |
| ResumeMatching.DocumentSkillsOccurInText | agent/resume_matching.py:45-61 | in resume-document mode every skill of the profile occurs in the lower-cased document text |
| ResumeMatching.PresentDistinct | agent/resume_matching.py:59-61 | keeping only some entries keeps keys distinct |
| ResumeMatching.DefaultDocumentSkills | agent/resume_matching.py:54-61 | with no skills configured, resume-document mode keeps exactly the built-in skills that occur in the text, at their built-in weights and in built-in order |
| ResumeMatching.NoTextNoSkills | agent/resume_matching.py:45-61 | when extraction yields the empty text, resume-document mode keeps no non-empty skill |
| ResumeMatching.TotalWeight | agent/resume_matching.py:76 | the sum of no weights is 0, and non-negative weights sum to a non-negative total |
| ResumeMatching.MatchedWeight | agent/resume_matching.py:80-83 | when no skill occurs in the text the matched weight is 0 |
| ResumeMatching.MatchScore | agent/resume_matching.py:71-84 | the score lies in [0,1]; an empty skill map or a total weight of at most 0 gives 0 |
| ResumeMatching.ComputeMatchScore | agent/resume_matching.py:71-84 | the weight-summing loop computes the match score of the text against the profile's skills |
| ResumeMatching.MatchedWithinTotal | agent/resume_matching.py:80-84 | with non-negative weights the matched weight lies between 0 and the total |
| ResumeMatching.ExactFraction | agent/resume_matching.py:80-84 | with non-negative weights and a positive total W, the score is exactly w/W, where w sums the weights of the skills occurring in the lower-cased text |
| ResumeMatching.FractionBounds | agent/resume_matching.py:84 | a weight between 0 and a positive total gives a ratio in [0,1], so the clamp does not fire |
| ResumeMatching.AllPresentMatchesTotal | agent/resume_matching.py:80-83 | when every skill occurs in the text, the matched weight is the total |
| ResumeMatching.FullCoverage | agent/resume_matching.py:80-84 | with a positive total weight, a text containing every skill scores exactly 1 |
| ResumeMatching.WholeWeightScoresOne | agent/resume_matching.py:84 | a matched weight equal to a positive total scores exactly 1 |
| ResumeMatching.PresenceOnly | agent/resume_matching.py:81-83 | the matched weight depends only on which skills occur, not how often or where |
| Greenhouse.TagEnd | agent/sources/greenhouse.py:13 | the index found holds the first `>` at or after the start, or is the length when there is none |
| Greenhouse.TagEndsAtFirstGt | agent/sources/greenhouse.py:13 | a tag `<[^>]+>` starting at a position ends exactly at the first `>` after it |
| Greenhouse.RemoveTagsFrom | agent/sources/greenhouse.py:13 | the substitution never lengthens the text |
| Greenhouse.RemoveTags | agent/sources/greenhouse.py:13 | after `re.sub('<[^>]+>', ' ', …)` no `<`, one or more non-`>` characters and `>` remain, and the text is no longer than before |
| Greenhouse.NoTagAfterRemoval | agent/sources/greenhouse.py:13 | whatever scan position the substitution starts from, its output contains no tag |
| Greenhouse.NoTagUnchanged | agent/sources/greenhouse.py:13 | text with no tag is left unchanged by the substitution |
| Greenhouse.TagReplaced | agent/sources/greenhouse.py:13 | a tag at the scan position becomes a single space, and scanning resumes after its `>` |
| Greenhouse.CharKept | agent/sources/greenhouse.py:13 | a character that does not start a tag is kept before the rest is scanned |
| Greenhouse.CollapseFrom | agent/sources/greenhouse.py:15 | the collapsed suffix is no longer than the suffix scanned |
| Greenhouse.CollapseHead | agent/sources/greenhouse.py:15 | a non-empty suffix collapses to a text starting with its first character, or with a space when that is whitespace |
| Greenhouse.CollapseSingleSpaced | agent/sources/greenhouse.py:15 | after `re.sub(r'\s+', ' ', …)` the only whitespace is the plain space and no two whitespace characters are adjacent |
| Greenhouse.CollapseWhitespace | agent/sources/greenhouse.py:15 | the collapsed text has single plain spaces only |
| Greenhouse.CollapseSplit | agent/sources/greenhouse.py:15 | collapsing `x + y` is collapsing `x`, then `y`, when the join does not fall inside a whitespace run |
| Greenhouse.SpacesCollapse | agent/sources/greenhouse.py:15 | a non-empty run of whitespace collapses to exactly one space |
| Greenhouse.SpaceRunCollapses | agent/sources/greenhouse.py:15 | a whitespace run between non-whitespace neighbours becomes exactly one space and the text on each side collapses on its own |
| Greenhouse.NonSpaceKept | agent/sources/greenhouse.py:15 | a single non-whitespace character is left as it is |
| Greenhouse.CollapseKeepsText | agent/sources/greenhouse.py:15 | collapsing changes only whitespace: the non-whitespace characters are kept, in order |
| Greenhouse.StripKeepsText | agent/sources/greenhouse.py:16 | stripping changes only whitespace: the non-whitespace characters are kept, in order |
| Greenhouse.StripSingleSpaced | agent/sources/greenhouse.py:16 | stripping single-spaced text keeps it single-spaced |
| Greenhouse.StripHtml | agent/sources/greenhouse.py:10-16 | an empty input gives the empty string; the output has no whitespace at either end, no whitespace but the plain space, and no two adjacent whitespace characters |
| Greenhouse.StripHtmlKeepsText | agent/sources/greenhouse.py:13-16 | the output's non-whitespace characters are exactly those of the decoded tag-free text, in order |
| Greenhouse.DatePosted | agent/sources/greenhouse.py:31 | `updated_at` when it is present and non-empty, else `created_at` |
| Greenhouse.ToPosting | agent/sources/greenhouse.py:26-40 | a record maps to: its title or ""; the title-cased slug as company; its location's name or ""; its absolute URL or ""; source "greenhouse:" + slug; the date above |
| Greenhouse.PostingsPointwise | agent/sources/greenhouse.py:25-41 | posting `i` is built from record `i` |
| Greenhouse.FetchJobs | agent/sources/greenhouse.py:24-42 | one posting per record, in order: posting `i` is the mapping of record `i` |
| JobAgent.Field | agent/job_agent.py:130-135 | a missing field reads as ""; a present one reads as its stripped value, so it has no whitespace at either end |
| JobAgent.ScoredText | agent/job_agent.py:146-149 | the scored text is the title, one newline, then the description |
| JobAgent.ScoredTextContains | agent/job_agent.py:146-149 | a phrase in the title or in the description occurs in the scored text |
| JobAgent.FinalScoreBounds | agent/job_agent.py:155 | three scores in [0,1] give a final score in [0,1]; raising any score never lowers it; three perfect scores give exactly 1 |
| JobAgent.Accept | agent/job_agent.py:130-172 | a job built from a posting satisfies every gate: entry score > 0, resume match at least the minimum, a US location when required, final score equal to the weighted sum and in [0,1], and id equal to the hash of its url |
| JobAgent.AcceptGates | agent/job_agent.py:138-153 | a posting is rejected exactly when the location gate, the entry-score gate or the minimum-match gate fails |
| JobAgent.AcceptedFields | agent/job_agent.py:130-171 | an accepted job carries the posting's stripped fields, its date as given, the three scores computed from those fields, and the hash of its stripped url as id |
| JobAgent.ScorePosting | agent/job_agent.py:130-172 | the loop body builds exactly the job the gates admit, or nothing where the loop would `continue` |
| JobAgent.AcceptAll | agent/job_agent.py:128-172 | the accepted jobs are no more than the postings |
| JobAgent.AcceptedJobs | agent/job_agent.py:128-172 | every accepted job satisfies the gates and was built from one of the postings |
| JobAgent.AdmittedIsKept | agent/job_agent.py:128-172 | a posting every gate admits is among the accepted jobs |
| JobAgent.InsertDesc | agent/job_agent.py:174 | inserting adds exactly the one job |
| JobAgent.InsertDescSorted | agent/job_agent.py:174 | inserting into a descending list keeps it descending |
| JobAgent.InsertDescStable | agent/job_agent.py:174 | an inserted job goes after every job of equal score already there |
| JobAgent.SortByFinalScoreDesc | agent/job_agent.py:174 | the stable descending sort's result is sorted by final score, is a permutation of its input, and lists the jobs of each score in input order |
| JobAgent.GateAll | agent/job_agent.py:128-172 | the gating loop builds exactly the accepted jobs, in input order |
| JobAgent.ScoreAndFilterJobs | agent/job_agent.py:121-175 | the output is the stable descending sort of the accepted jobs, in input order |
| JobAgent.RankedOutput | agent/job_agent.py:121-175 | the output holds no more jobs than there are postings, is sorted descending by final score, holds only jobs satisfying the gates and built from postings, holds every admitted posting's job, and keeps equal scores in input order |
| JobAgent.Upserted | agent/job_agent.py:79-98 | storing a job adds its id and leaves every other row unchanged. Its row's `first_seen` stays as before, or is `now` for a new id; its `last_seen` is `now`; the other fields come from the job |
| JobAgent.UpsertAgain | agent/job_agent.py:83-90 | storing the same job again only moves its `last_seen` |
| JobAgent.UpsertsKeepIds | agent/job_agent.py:79-98 | storing a list of jobs, each at its own time, removes no row and leaves every job's id present |
| JobAgent.JobStore.constructor | agent/job_agent.py:52-71 | opening the store keeps every row already in the table (`CREATE TABLE IF NOT EXISTS`) |
| JobAgent.JobStore.Upsert | agent/job_agent.py:79-98 | the store's new table is the old one with the job stored at time `now` |
| JobAgent.FetchAllJobs | agent/job_agent.py:101-118 | the result is the Greenhouse boards' postings in slug order, then the Lever boards', with every failed board contributing nothing |
| JobAgent.GatheredConcat | agent/job_agent.py:106-116 | gathering the boards `a + b` gives those of `a`, then those of `b` |
| JobAgent.GatheredOne | agent/job_agent.py:107-110 | one board contributes its postings, or nothing when its fetch fails |
| JobAgent.FailedBoardSkipped | agent/job_agent.py:107-110 | a failing board contributes nothing and does not stop the boards after it |
| JobAgent.FetchedBoardIncluded | agent/job_agent.py:107-108 | a successful board contributes all its postings, in order, at its place |

## Left out

- Case mapping is ASCII-only: `str.lower`/`str.upper` change only `A`–`Z`/`a`–`z`, so Unicode case mapping (including characters that change length) is not modelled. The whitespace set is the full `str.isspace` set.
- HTTP and JSON transport: `requests.get`, `raise_for_status` and `r.json()`. `FetchJobs` takes the decoded `jobs` list; a response without that key is the empty list. An exception from a board's fetch is the `FetchFailed` outcome in `FetchAllJobs`.
- The SQLite database: `ensure_db` and the SQL text of `upsert_job`. Only the map semantics of the `jobs` table is kept, in `JobStore`.
- `load_config` (YAML and the file system); `Config` is the document after loading. Values of the wrong type (a skill weight that `float()` must convert, a non-list where a list is expected) are not modelled, and neither is the truthiness of non-string values.
- `render_html_report`, `send_email`, the `run` orchestration, the CLI wrappers and `reports/` output: templating, SMTP, environment variables and file I/O.
- PDF extraction (`_extract_text_from_pdf`, PyPDF2): `BuildResumeProfile` takes the extracted text as a parameter, the empty string standing for a missing or unreadable file.
- Loading the known-sponsors file in `score_and_filter_jobs`: `knownSet` is a parameter holding the stripped, lower-cased names.
- SHA-256 (`job_hash`), `datetime.utcnow()`, `str.title()` and `html.unescape` are function parameters, not implementations.
- agent/sources/lever.py is not part of this model. Its tag pattern `<[^>}+>` is an unterminated character class, so `re.sub` raises for any posting with content; the per-board Lever result is an abstract parameter of `FetchAllJobs`, and nothing about Lever's field mapping is claimed.
- agent/sources/amazon.py is not part of this model: it calls helpers it does not define, and nothing imports it.
- Floating point: scores are exact reals, so the weighted sum and the bounds hold exactly. IEEE rounding is not modelled.
- The source text stores the separator in `f"{title}\n{description}"` as a line break inside the literal. The model reads it as one newline character between title and description (`ScoredText`).
- `out.sort(...)` sorts the list in place; the model states the sorted list as the function `SortByFinalScoreDesc` of the accepted list, so aliasing of the list is not modelled.
- Greenhouse.CollapseFrom: its own contract states only the length bound; the run-by-run behaviour is stated by `CollapseHead`, `CollapseSingleSpaced`, `CollapseSplit`, `SpacesCollapse` and `SpaceRunCollapses`.
- JobAgent.FinalScore: carries no contract of its own; its bounds and monotonicity are stated by `FinalScoreBounds`.
- Greenhouse.ToPosting: its contract does not restate the description field. The body sets it to `StripHtml` of the content (or of "" when missing), and `StripHtml`'s own contract carries the properties.
- JobAgent.UpsertsKeepIds: states that no id is lost and every stored job's id is present; the per-row contents after a whole list are left to `Upserted`, applied step by step.
