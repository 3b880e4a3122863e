/**
 * The three heuristic scorers of the job agent: the US-location filter, the
 * entry-level score with its seniority veto, and the H-1B sponsorship
 * confidence with its negative-phrase veto. All matching is case-insensitive
 * substring containment.
 */
module Filters {
  import opened Text
  import opened Config

  /** The 50 state postal codes and DC (written as two displays so the verifier can enumerate them). */
  const US_STATES: set<string> :=
      {"AL", "AK", "AZ", "AR", "CA", "CO", "CT", "DE", "FL", "GA", "HI", "ID", "IL", "IN", "IA", "KS", "KY",
       "LA", "ME", "MD", "MA", "MI", "MN", "MS", "MO"}
    + {"MT", "NE", "NV", "NH", "NJ", "NM", "NY", "NC", "ND",
       "OH", "OK", "OR", "PA", "RI", "SC", "SD", "TN", "TX", "UT", "VT", "VA", "WA", "WV", "WI", "WY", "DC"}

  /** Whole-string spellings of the country that count as a US location. */
  const US_ABBREVIATIONS: set<string> := {"us", "usa", "u.s.", "u.s.a."}

  const NEGATIVE_SPONSOR_PHRASES: seq<string> := [
    "no sponsorship",
    "cannot sponsor",
    "not sponsor",
    "without sponsorship",
    "must be authorized to work in the us without sponsorship"
  ]

  const POSITIVE_SPONSOR_PHRASES: seq<string> :=
    ["h-1b", "h1b", "visa sponsorship", "sponsor work visa", "visa support"]

  const SENIOR_BLOCK: seq<string> := ["senior", "sr.", "staff", "principal", "lead", "manager", "director"]

  const ENTRY_KEYWORDS_DEFAULT: seq<string> := [
    "new grad", "entry-level", "junior", "graduate", "early career", "university", "campus",
    "recent graduate", "0-2 years", "1+ years"
  ]

  function Max(a: real, b: real): real { if a >= b then a else b }

  function Min(a: real, b: real): real { if a <= b then a else b }

  // ---------------------------------------------------------------------------
  // Location

  /** The character class `[,\s]` that separates location tokens. */
  predicate IsSeparator(c: char) { c == ',' || IsSpace(c) }

  /** Index of the first separator at or after `p`, or `|s|` when there is none. */
  function NextSeparator(s: string, p: nat): (k: nat)
    requires p <= |s|
    ensures p <= k <= |s|
    ensures forall i :: p <= i < k ==> !IsSeparator(s[i])
    ensures k < |s| ==> IsSeparator(s[k])
    decreases |s| - p
  {
    if p == |s| || IsSeparator(s[p]) then p else NextSeparator(s, p + 1)
  }

  /** Index just past the run of separators starting at `p`. */
  function SkipSeparators(s: string, p: nat): (q: nat)
    requires p <= |s|
    ensures p <= q <= |s|
    ensures forall i :: p <= i < q ==> IsSeparator(s[i])
    ensures q < |s| ==> !IsSeparator(s[q])
    decreases |s| - p
  {
    if p < |s| && IsSeparator(s[p]) then SkipSeparators(s, p + 1) else p
  }

  /** The pieces of `s[p..]` split at maximal runs of separators. */
  function SplitFrom(s: string, p: nat): (r: seq<string>)
    requires p <= |s|
    ensures |r| >= 1 && r[0] == s[p..NextSeparator(s, p)]
    ensures forall n, c :: 0 <= n < |r| && 0 <= c < |r[n]| ==> !IsSeparator(r[n][c])
    ensures (forall i :: p <= i < |s| ==> !IsSeparator(s[i])) ==> r == [s[p..]]
    decreases |s| - p
  {
    var k := NextSeparator(s, p);
    if k == |s| then [s[p..]] else [s[p..k]] + SplitFrom(s, SkipSeparators(s, k))
  }

  /**
   * `re.split(r'[,\s]+', s)`: the pieces between maximal runs of separators,
   * with an empty first (last) piece when `s` starts (ends) with a separator.
   */
  function SplitTokens(s: string): (r: seq<string>)
    ensures |r| >= 1
    ensures forall n, c :: 0 <= n < |r| && 0 <= c < |r[n]| ==> !IsSeparator(r[n][c])
    ensures (forall i :: 0 <= i < |s| ==> !IsSeparator(s[i])) ==> r == [s]
  {
    SplitFrom(s, 0)
  }

  /** `u[i..j]` is a maximal separator-free run: it stands alone between separators or the string's ends. */
  predicate StandaloneAt(u: string, i: nat, j: nat) {
    && i <= j <= |u|
    && (i == 0 || IsSeparator(u[i - 1]))
    && (j == |u| || IsSeparator(u[j]))
    && forall k :: i <= k < j ==> !IsSeparator(u[k])
  }

  /** Every non-empty piece of the split is a maximal separator-free run. */
  lemma {:induction false} TokenIsStandalone(u: string, p: nat, t: string) returns (i: nat, j: nat)
    requires p <= |u| && (p == 0 || IsSeparator(u[p - 1]))
    requires t != [] && t in SplitFrom(u, p)
    ensures p <= i && StandaloneAt(u, i, j) && u[i..j] == t
    decreases |u| - p
  {
    var k := NextSeparator(u, p);
    if k == |u| {
      i, j := p, |u|;
    } else {
      var q := SkipSeparators(u, k);
      if t == u[p..k] {
        i, j := p, k;
      } else {
        i, j := TokenIsStandalone(u, q, t);
      }
    }
  }

  /** Every maximal separator-free run is a piece of the split. */
  lemma {:induction false} StandaloneIsToken(u: string, p: nat, i: nat, j: nat)
    requires p <= |u| && (p == 0 || IsSeparator(u[p - 1]))
    requires p <= i < j && StandaloneAt(u, i, j)
    ensures u[i..j] in SplitFrom(u, p)
    decreases |u| - p
  {
    var k := NextSeparator(u, p);
    assert !IsSeparator(u[i]);
    if k == |u| {
      assert i == p && j == |u|;
      assert u[i..j] == u[p..];
    } else {
      var q := SkipSeparators(u, k);
      if i < k {
        assert i == p && j == k;
      } else {
        assert q <= i;
        StandaloneIsToken(u, q, i, j);
      }
    }
  }

  /** Some piece of the split lies in `codes` iff some maximal separator-free run does. */
  lemma SplitMeetsCodes(u: string, codes: set<string>)
    requires "" !in codes
    ensures (exists tok :: tok in SplitTokens(u) && tok in codes) <==>
            exists i: nat, j: nat :: StandaloneAt(u, i, j) && u[i..j] in codes
  {
    if exists tok :: tok in SplitTokens(u) && tok in codes {
      var tok :| tok in SplitTokens(u) && tok in codes;
      var i, j := TokenIsStandalone(u, 0, tok);
    }
    if exists i: nat, j: nat :: StandaloneAt(u, i, j) && u[i..j] in codes {
      var i: nat, j: nat :| StandaloneAt(u, i, j) && u[i..j] in codes;
      assert u[i..j] != "";
      StandaloneIsToken(u, 0, i, j);
    }
  }

  /** filters.py `is_us_location`. */
  function IsUsLocation(location: string): (r: bool)
    ensures location == [] ==> !r
    ensures Contains(Lower(location), "united states") ==> r
    ensures location != [] && Strip(Lower(location)) in US_ABBREVIATIONS ==> r
  {
    if location == [] then false
    else
      var s := Lower(location);
      if Contains(s, "united states") || Strip(s) in US_ABBREVIATIONS then true
      else exists tok :: tok in SplitTokens(Upper(location)) && tok in US_STATES
  }

  /**
   * The location policy with the tokenizer replaced by what it means: a state
   * code (or DC) standing alone between commas, whitespace or the string's ends.
   */
  lemma IsUsLocationPolicy(location: string)
    ensures IsUsLocation(location) <==>
      && location != []
      && (|| Contains(Lower(location), "united states")
          || Strip(Lower(location)) in US_ABBREVIATIONS
          || exists i: nat, j: nat :: StandaloneAt(Upper(location), i, j) && Upper(location)[i..j] in US_STATES)
  {
    assert "" !in US_STATES;
    SplitMeetsCodes(Upper(location), US_STATES);
  }

  /** "united states" in any mix of case, anywhere in the string, makes it a US location. */
  lemma UnitedStatesInAnyCase(before: string, country: string, after: string)
    requires Lower(country) == "united states"
    ensures IsUsLocation(before + country + after)
  {
    var s := before + country + after;
    LowerConcat(before + country, after);
    LowerConcat(before, country);
    assert Lower(s)[|before|..] == "united states" + Lower(after);
    assert Contains(Lower(s), "united states");
  }

  // ---------------------------------------------------------------------------
  // Keyword lists

  function LowerAll(xs: seq<string>): (r: seq<string>)
    ensures |r| == |xs|
    ensures forall i :: 0 <= i < |xs| ==> r[i] == Lower(xs[i])
  {
    seq(|xs|, i requires 0 <= i < |xs| => Lower(xs[i]))
  }

  /** `[x.lower() for x in configured] or default`. */
  function OrDefault(configured: seq<string>, default: seq<string>): seq<string> {
    var lowered := LowerAll(configured);
    if lowered == [] then default else lowered
  }

  /** The terms that veto an entry-level score. */
  function ExcludedTerms(cfg: FiltersConfig): (r: seq<string>)
    ensures cfg.excludedSeniority == [] ==> r == SENIOR_BLOCK
    ensures cfg.excludedSeniority != [] ==>
      |r| == |cfg.excludedSeniority| && forall i :: 0 <= i < |r| ==> r[i] == Lower(cfg.excludedSeniority[i])
  {
    OrDefault(cfg.excludedSeniority, SENIOR_BLOCK)
  }

  /** The terms that mark a posting as entry level. */
  function EntryTerms(cfg: FiltersConfig): (r: seq<string>)
    ensures cfg.entryLevelKeywords == [] ==> r == ENTRY_KEYWORDS_DEFAULT
    ensures cfg.entryLevelKeywords != [] ==>
      |r| == |cfg.entryLevelKeywords| && forall i :: 0 <= i < |r| ==> r[i] == Lower(cfg.entryLevelKeywords[i])
  {
    OrDefault(cfg.entryLevelKeywords, ENTRY_KEYWORDS_DEFAULT)
  }

  /** The phrases that veto sponsorship. */
  function NegativePhrases(cfg: H1bConfig): (r: seq<string>)
    ensures cfg.negativeKeywords == [] ==> r == NEGATIVE_SPONSOR_PHRASES
    ensures cfg.negativeKeywords != [] ==>
      |r| == |cfg.negativeKeywords| && forall i :: 0 <= i < |r| ==> r[i] == Lower(cfg.negativeKeywords[i])
  {
    OrDefault(cfg.negativeKeywords, NEGATIVE_SPONSOR_PHRASES)
  }

  /** The phrases that signal sponsorship. */
  function PositivePhrases(cfg: H1bConfig): (r: seq<string>)
    ensures cfg.positiveKeywords == [] ==> r == POSITIVE_SPONSOR_PHRASES
    ensures cfg.positiveKeywords != [] ==>
      |r| == |cfg.positiveKeywords| && forall i :: 0 <= i < |r| ==> r[i] == Lower(cfg.positiveKeywords[i])
  {
    OrDefault(cfg.positiveKeywords, POSITIVE_SPONSOR_PHRASES)
  }

  // ---------------------------------------------------------------------------
  // Entry-level score

  /**
   * filters.py `compute_entry_level_score`, following its sequence of `max`
   * updates; the contract states the resulting priority ladder.
   */
  function EntryLevelScore(title: string, description: string, cfg: FiltersConfig): (r: real)
    ensures ContainsAny(Lower(title), ExcludedTerms(cfg)) ==> r == 0.0
    ensures !ContainsAny(Lower(title), ExcludedTerms(cfg)) ==>
      r == if ContainsAny(Lower(title), EntryTerms(cfg)) then 0.9
           else if ContainsAny(Lower(description), EntryTerms(cfg)) then 0.8
           else if ContainsAny(Lower(title), LowerAll(cfg.titlesOfInterest)) then 0.6
           else if ContainsAny(Lower(description), ExcludedTerms(cfg)) then 0.0
           else 0.4
    ensures r in {0.0, 0.4, 0.6, 0.8, 0.9}
    ensures 0.0 <= r <= 1.0
  {
    var t := Lower(title);
    var d := Lower(description);
    var excluded := ExcludedTerms(cfg);
    if ContainsAny(t, excluded) then 0.0
    else
      var entryTerms := EntryTerms(cfg);
      var score0 := 0.0;
      var score1 := if ContainsAny(t, entryTerms) then Max(score0, 0.9) else score0;
      var score2 := if ContainsAny(d, entryTerms) then Max(score1, 0.8) else score1;
      var interests := LowerAll(cfg.titlesOfInterest);
      var score3 := if interests != [] && ContainsAny(t, interests) then Max(score2, 0.6) else score2;
      var score4 := if score3 == 0.0 && !ContainsAny(d, excluded) then 0.4 else score3;
      Min(score4, 1.0)
  }

  /** With no exclusions configured, any title mentioning "senior" in any case scores exactly 0. */
  lemma SeniorTitleVetoedByDefault(title: string, description: string, cfg: FiltersConfig)
    requires cfg.excludedSeniority == []
    requires Contains(Lower(title), "senior")
    ensures EntryLevelScore(title, description, cfg) == 0.0
  {
    assert SENIOR_BLOCK[0] == "senior";
  }

  // ---------------------------------------------------------------------------
  // H-1B confidence

  /** filters.py `clean_company_name` (a missing name is the empty string). */
  function CleanCompanyName(name: string): (r: string)
    ensures |r| == |Strip(name)| <= |name|
    ensures forall i :: 0 <= i < |r| ==> r[i] == LowerChar(Strip(name)[i])
    ensures r == [] || (!IsSpace(r[0]) && !IsSpace(r[|r| - 1]))
    ensures forall i :: 0 <= i < |r| ==> !('A' <= r[i] <= 'Z')
  {
    var s := Strip(name);
    LowerKeepsStripped(s);
    Lower(s)
  }

  lemma CleanCompanyNameIdempotent(name: string)
    ensures CleanCompanyName(CleanCompanyName(name)) == CleanCompanyName(name)
  {
    var r := CleanCompanyName(name);
    StripUnchanged(r);
    assert Lower(r) == r;
  }

  /**
   * The confidence after the positive-phrase and known-sponsor updates, before
   * the fallback of filters.py:80-81. It is zero exactly when neither signal
   * fired, so the fallback never sees a known sponsor.
   */
  function SponsorSignal(comp: string, s: string, knownSponsors: set<string>, positive: seq<string>): (c: real)
    ensures c == 0.0 <==> !ContainsAny(s, positive) && comp !in knownSponsors
    ensures c in {0.0, 0.7, 1.0}
  {
    var confidence0 := 0.0;
    var confidence1 := if ContainsAny(s, positive) then Max(confidence0, 1.0) else confidence0;
    if comp in knownSponsors then Max(confidence1, 0.7) else confidence1
  }

  /** filters.py `compute_h1b_confidence`. */
  function H1bConfidence(company: string, text: string, knownSponsors: set<string>, cfg: H1bConfig): (r: real)
    ensures ContainsAny(Lower(text), NegativePhrases(cfg)) ==> r == 0.0
    ensures !ContainsAny(Lower(text), NegativePhrases(cfg)) ==>
      r == if ContainsAny(Lower(text), PositivePhrases(cfg)) then 1.0
           else if CleanCompanyName(company) in knownSponsors then 0.7
           else 0.2
    ensures r in {0.0, 0.2, 0.7, 1.0}
    ensures 0.0 <= r <= 1.0
  {
    var s := Lower(text);
    var comp := CleanCompanyName(company);
    if ContainsAny(s, NegativePhrases(cfg)) then 0.0
    else
      var confidence := SponsorSignal(comp, s, knownSponsors, PositivePhrases(cfg));
      var fallback := if confidence == 0.0 then (if comp in knownSponsors then 0.4 else 0.2) else confidence;
      Min(fallback, 1.0)
  }

  /** With the default negative phrases, "no sponsorship" anywhere forces 0 even beside "h1b". */
  lemma NoSponsorshipVetoesByDefault(company: string, text: string, knownSponsors: set<string>, cfg: H1bConfig)
    requires cfg.negativeKeywords == []
    requires Contains(Lower(text), "no sponsorship")
    ensures H1bConfidence(company, text, knownSponsors, cfg) == 0.0
  {
    assert NEGATIVE_SPONSOR_PHRASES[0] == "no sponsorship";
  }
}
