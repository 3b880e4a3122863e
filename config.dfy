/**
 * The configuration document after loading: one record per section the
 * scoring pipeline reads, with every missing key already replaced by the value
 * the code falls back to (an empty list, `require_us_location` true,
 * `min_match_score` 0.0, `use_pdf` false). Keyword lists stay as configured;
 * the scorers substitute their module defaults for an empty list.
 */
module Config {

  /** The `filters` section. */
  datatype FiltersConfig = FiltersConfig(
    excludedSeniority: seq<string>,
    entryLevelKeywords: seq<string>,
    titlesOfInterest: seq<string>,
    requireUsLocation: bool)

  /** The `h1b` section (the known-sponsors file is read by the caller). */
  datatype H1bConfig = H1bConfig(
    negativeKeywords: seq<string>,
    positiveKeywords: seq<string>)

  /** The `resume` section; `skills` keeps the mapping's entries in document order. */
  datatype ResumeConfig = ResumeConfig(
    usePdf: bool,
    skills: seq<(string, real)>,
    titlesOfInterest: seq<string>,
    minMatchScore: real)

  /** The `sources` section: board slugs per adapter. */
  datatype SourcesConfig = SourcesConfig(
    greenhouse: seq<string>,
    lever: seq<string>)

  datatype AgentConfig = AgentConfig(
    filters: FiltersConfig,
    h1b: H1bConfig,
    resume: ResumeConfig,
    sources: SourcesConfig)
}
