/**
 * The resume matcher: a weighted skill profile built from the configuration
 * (or from the text extracted from a resume document), and the weighted
 * fraction of those skills a posting's text mentions.
 *
 * A Python dictionary keeps its entries in insertion order, and assigning to
 * an existing key keeps that key's position; `Skills` is that dictionary, a
 * sequence of (key, weight) entries with distinct keys.
 */
module ResumeMatching {
  import opened Text
  import opened Config

  type Skills = seq<(string, real)>

  predicate DistinctKeys(s: Skills) {
    forall i, j :: 0 <= i < j < |s| ==> s[i].0 != s[j].0
  }


  /** resume_matching.py `ResumeProfile`. */
  datatype ResumeProfile = ResumeProfile(skills: Skills, titlesOfInterest: set<string>)

  /** The hard-coded skills used in resume-document mode when none are configured. */
  const DEFAULT_SKILLS: Skills := [
    ("python", 1.0), ("java", 0.8), ("javascript", 0.7), ("sql", 1.0),
    ("aws", 0.8), ("docker", 0.7), ("react", 0.6), ("node", 0.6),
    ("data structures", 0.9), ("algorithms", 0.9)
  ]

  /** resume_matching.py `_normalize` (a missing string is the empty string). */
  function Normalize(s: string): (r: string)
    ensures |r| == |s|
    ensures forall i :: 0 <= i < |r| ==> r[i] == LowerChar(s[i])
    ensures forall i :: 0 <= i < |r| ==> !('A' <= r[i] <= 'Z')
  {
    Lower(s)
  }

  // ---------------------------------------------------------------------------
  // The dictionary

  /** Position of key `k` in `s`, or `|s|` when absent. */
  function IndexOf(s: Skills, k: string): (i: nat)
    ensures i <= |s|
    ensures i < |s| ==> s[i].0 == k
    ensures forall j :: 0 <= j < i ==> s[j].0 != k
  {
    if s == [] then 0
    else if s[|s| - 1].0 != k && IndexOf(s[..|s| - 1], k) == |s| - 1 then |s|
    else IndexOf(s[..|s| - 1], k)
  }

  /** The keys of `s`. */
  function KeySet(s: Skills): (r: set<string>)
    ensures forall i :: 0 <= i < |s| ==> s[i].0 in r
    ensures forall k :: k in r ==> IndexOf(s, k) < |s|
  {
    if s == [] then {} else KeySet(s[..|s| - 1]) + {s[|s| - 1].0}
  }

  /** The weight stored under `k`. */
  function WeightOf(s: Skills, k: string): real
    requires k in KeySet(s)
  {
    var i := IndexOf(s, k);
    if i < |s| then s[i].1 else assert false; 0.0
  }

  /** Lookup depends only on the keys, not on the weights. */
  lemma {:induction false} SameKeys(a: Skills, b: Skills)
    requires |a| == |b| && forall j :: 0 <= j < |a| ==> a[j].0 == b[j].0
    ensures KeySet(a) == KeySet(b)
    ensures forall k :: IndexOf(a, k) == IndexOf(b, k)
  {
    if a != [] {
      SameKeys(a[..|a| - 1], b[..|b| - 1]);
    }
  }

  /** A key none of whose entries carries it is absent. */
  lemma Absent(s: Skills, k: string)
    requires forall j :: 0 <= j < |s| ==> s[j].0 != k
    ensures k !in KeySet(s) && IndexOf(s, k) == |s|
  {
  }

  /** Overwriting the entry at the key's position keeps the keys and changes one weight. */
  lemma Overwrite(s: Skills, k: string, v: real)
    requires DistinctKeys(s) && IndexOf(s, k) < |s|
    ensures k in KeySet(s)
    ensures DistinctKeys(s[IndexOf(s, k) := (k, v)])
    ensures KeySet(s[IndexOf(s, k) := (k, v)]) == KeySet(s)
    ensures WeightOf(s[IndexOf(s, k) := (k, v)], k) == v
    ensures forall k' :: k' in KeySet(s) && k' != k ==> WeightOf(s[IndexOf(s, k) := (k, v)], k') == WeightOf(s, k')
  {
    var r := s[IndexOf(s, k) := (k, v)];
    SameKeys(s, r);
  }

  /** Appending an absent key puts it last and leaves the other positions alone. */
  lemma Append(s: Skills, k: string, v: real)
    requires DistinctKeys(s) && IndexOf(s, k) == |s|
    ensures k !in KeySet(s)
    ensures DistinctKeys(s + [(k, v)])
    ensures KeySet(s + [(k, v)]) == KeySet(s) + {k}
    ensures WeightOf(s + [(k, v)], k) == v
    ensures forall k' :: k' in KeySet(s) && k' != k ==> WeightOf(s + [(k, v)], k') == WeightOf(s, k')
  {
    var r := s + [(k, v)];
    assert r[..|s|] == s;
    assert IndexOf(r, k) == |s|;
    forall k' | k' in KeySet(s) && k' != k
      ensures WeightOf(r, k') == WeightOf(s, k')
    {
      assert IndexOf(r, k') == IndexOf(s, k');
    }
  }

  /** The assignment `skills[k] = v`. */
  function Put(s: Skills, k: string, v: real): (r: Skills)
    requires DistinctKeys(s)
    ensures DistinctKeys(r)
    ensures KeySet(r) == KeySet(s) + {k}
    ensures WeightOf(r, k) == v
    ensures forall k' :: k' in KeySet(s) && k' != k ==> WeightOf(r, k') == WeightOf(s, k')
    ensures k in KeySet(s) ==> |r| == |s| && forall i :: 0 <= i < |s| ==> r[i].0 == s[i].0
    ensures k !in KeySet(s) ==> r == s + [(k, v)]
  {
    var i := IndexOf(s, k);
    if i < |s| then
      Overwrite(s, k, v);
      s[i := (k, v)]
    else
      Append(s, k, v);
      s + [(k, v)]
  }

  /** The dictionary produced by assigning each entry in turn. */
  function Assign(entries: seq<(string, real)>): (r: Skills)
    ensures DistinctKeys(r)
  {
    if entries == [] then []
    else
      var last := entries[|entries| - 1];
      Put(Assign(entries[..|entries| - 1]), last.0, last.1)
  }

  /** The keys of the assigned dictionary are the entries' keys. */
  lemma {:induction false} AssignKeys(entries: seq<(string, real)>)
    ensures KeySet(Assign(entries)) == KeySet(entries)
  {
    if entries != [] {
      AssignKeys(entries[..|entries| - 1]);
    }
  }

  /** Entries whose keys are already distinct are kept as they are, in order. */
  lemma {:induction false} AssignDistinct(entries: seq<(string, real)>)
    requires DistinctKeys(entries)
    ensures Assign(entries) == entries
  {
    if entries != [] {
      var front := entries[..|entries| - 1];
      AssignDistinct(front);
      var last := entries[|entries| - 1];
      Absent(front, last.0);
      assert front + [last] == entries;
    }
  }

  /** A later entry with the same key overwrites an earlier one. */
  lemma {:induction false} AssignLastWins(entries: seq<(string, real)>, i: nat)
    requires i < |entries|
    requires forall j :: i < j < |entries| ==> entries[j].0 != entries[i].0
    ensures entries[i].0 in KeySet(Assign(entries))
    ensures WeightOf(Assign(entries), entries[i].0) == entries[i].1
  {
    var front := entries[..|entries| - 1];
    if i < |entries| - 1 {
      AssignLastWins(front, i);
    }
  }

  /** The entries with their keys normalized. */
  function NormalizeKeys(entries: seq<(string, real)>): (r: seq<(string, real)>)
    ensures |r| == |entries|
    ensures forall i :: 0 <= i < |r| ==> r[i] == (Normalize(entries[i].0), entries[i].1)
  {
    seq(|entries|, i requires 0 <= i < |entries| => (Normalize(entries[i].0), entries[i].1))
  }

  /** The entries whose key occurs in `text`, in order. */
  function Present(entries: seq<(string, real)>, text: string): (r: seq<(string, real)>)
    ensures forall e :: e in r <==> e in entries && Contains(text, e.0)
  {
    if entries == [] then []
    else
      var last := entries[|entries| - 1];
      Present(entries[..|entries| - 1], text) + (if Contains(text, last.0) then [last] else [])
  }

  lemma PrefixStep<T>(s: seq<T>, i: nat)
    requires i < |s|
    ensures s[..i + 1][..i] == s[..i] && s[..i + 1][i] == s[i]
  {
  }

  lemma AssignSnoc(entries: seq<(string, real)>, e: (string, real))
    ensures Assign(entries + [e]) == Put(Assign(entries), e.0, e.1)
  {
    assert (entries + [e])[..|entries|] == entries;
  }

  lemma PresentSnoc(entries: seq<(string, real)>, e: (string, real), t: string)
    ensures Present(entries + [e], t) == Present(entries, t) + (if Contains(t, e.0) then [e] else [])
  {
    assert (entries + [e])[..|entries|] == entries;
  }

  lemma NormalizeKeysStep(cfg: seq<(string, real)>, i: nat)
    requires i < |cfg|
    ensures NormalizeKeys(cfg[..i + 1]) == NormalizeKeys(cfg[..i]) + [(Normalize(cfg[i].0), cfg[i].1)]
  {
    PrefixStep(cfg, i);
  }

  lemma PresentStep(entries: seq<(string, real)>, i: nat, t: string)
    requires i < |entries|
    ensures Present(entries[..i + 1], t)
         == Present(entries[..i], t) + (if Contains(t, entries[i].0) then [entries[i]] else [])
  {
    PrefixStep(entries, i);
  }

  // ---------------------------------------------------------------------------
  // Building the profile

  /** The resume-document loop over the configured skills: keep those the text mentions. */
  method MentionedConfigured(configured: seq<(string, real)>, t: string) returns (skills: Skills)
    ensures skills == Assign(Present(NormalizeKeys(configured), t))
  {
    skills := [];
    for i := 0 to |configured|
      invariant skills == Assign(Present(NormalizeKeys(configured[..i]), t))
    {
      var skill := configured[i].0;
      var wt := configured[i].1;
      var before := NormalizeKeys(configured[..i]);
      NormalizeKeysStep(configured, i);
      PresentSnoc(before, (Normalize(skill), wt), t);
      if Contains(t, Normalize(skill)) {
        AssignSnoc(Present(before, t), (Normalize(skill), wt));
        skills := Put(skills, Normalize(skill), wt);
      } else {
        assert Present(before + [(Normalize(skill), wt)], t) == Present(before, t);
      }
    }
    assert configured[..|configured|] == configured;
  }

  /** The resume-document loop over the built-in skills: keep those the text mentions. */
  method MentionedDefaults(t: string) returns (skills: Skills)
    ensures skills == Assign(Present(DEFAULT_SKILLS, t))
  {
    skills := [];
    var defaults := DEFAULT_SKILLS;
    for i := 0 to |defaults|
      invariant skills == Assign(Present(defaults[..i], t))
    {
      PresentStep(defaults, i, t);
      var k := defaults[i].0;
      var v := defaults[i].1;
      if Contains(t, k) {
        assert Present(defaults[..i + 1], t) == Present(defaults[..i], t) + [defaults[i]];
        AssignSnoc(Present(defaults[..i], t), defaults[i]);
        skills := Put(skills, k, v);
      } else {
        assert Present(defaults[..i + 1], t) == Present(defaults[..i], t);
      }
    }
    assert defaults[..|defaults|] == defaults;
  }

  /** The loop outside resume-document mode: every configured skill, key lower-cased. */
  method AllConfigured(configured: seq<(string, real)>) returns (skills: Skills)
    ensures skills == Assign(NormalizeKeys(configured))
  {
    skills := [];
    for i := 0 to |configured|
      invariant skills == Assign(NormalizeKeys(configured[..i]))
    {
      NormalizeKeysStep(configured, i);
      AssignSnoc(NormalizeKeys(configured[..i]), (Normalize(configured[i].0), configured[i].1));
      skills := Put(skills, Normalize(configured[i].0), configured[i].1);
    }
    assert configured[..|configured|] == configured;
  }

  /**
   * resume_matching.py `build_resume_profile`. `pdfText` is what the document
   * extraction returned: the empty string when the file is missing or cannot
   * be read.
   */
  method BuildResumeProfile(cfg: ResumeConfig, pdfText: string) returns (profile: ResumeProfile)
    ensures DistinctKeys(profile.skills)
    ensures !cfg.usePdf ==> profile.skills == Assign(NormalizeKeys(cfg.skills))
    ensures cfg.usePdf && cfg.skills != [] ==>
      profile.skills == Assign(Present(NormalizeKeys(cfg.skills), Normalize(pdfText)))
    ensures cfg.usePdf && cfg.skills == [] ==>
      profile.skills == Assign(Present(DEFAULT_SKILLS, Normalize(pdfText)))
    ensures profile.titlesOfInterest == set i | 0 <= i < |cfg.titlesOfInterest| :: Normalize(cfg.titlesOfInterest[i])
  {
    var skills: Skills;
    if cfg.usePdf {
      var t := Normalize(pdfText);
      var configured := cfg.skills;
      if configured != [] {
        skills := MentionedConfigured(configured, t);
      } else {
        skills := MentionedDefaults(t);
      }
    } else {
      skills := AllConfigured(cfg.skills);
    }
    var titles := set i | 0 <= i < |cfg.titlesOfInterest| :: Normalize(cfg.titlesOfInterest[i]);
    profile := ResumeProfile(skills, titles);
  }

  /**
   * Configured skills (outside resume-document mode): the keys are exactly
   * the lower-cased configured keys.
   */
  lemma ConfiguredKeys(cfg: seq<(string, real)>)
    ensures forall i :: 0 <= i < |cfg| ==> Normalize(cfg[i].0) in KeySet(Assign(NormalizeKeys(cfg)))
    ensures forall k :: k in KeySet(Assign(NormalizeKeys(cfg))) ==>
      exists i :: 0 <= i < |cfg| && Normalize(cfg[i].0) == k
  {
    var entries := NormalizeKeys(cfg);
    AssignKeys(entries);
    forall i | 0 <= i < |cfg| ensures Normalize(cfg[i].0) in KeySet(Assign(entries)) {
      assert entries[i].0 == Normalize(cfg[i].0);
    }
    forall k | k in KeySet(Assign(entries)) ensures exists i :: 0 <= i < |cfg| && Normalize(cfg[i].0) == k {
      var i := IndexOf(entries, k);
      assert Normalize(cfg[i].0) == k;
    }
  }

  /**
   * Each configured key maps to the weight of the last configured key that
   * lower-cases to the same string.
   */
  lemma ConfiguredWeights(cfg: seq<(string, real)>, i: nat)
    requires i < |cfg|
    requires forall j :: i < j < |cfg| ==> Normalize(cfg[j].0) != Normalize(cfg[i].0)
    ensures Normalize(cfg[i].0) in KeySet(Assign(NormalizeKeys(cfg)))
    ensures WeightOf(Assign(NormalizeKeys(cfg)), Normalize(cfg[i].0)) == cfg[i].1
  {
    var entries := NormalizeKeys(cfg);
    forall j | i < j < |entries| ensures entries[j].0 != entries[i].0 {
      assert entries[j].0 == Normalize(cfg[j].0);
    }
    AssignLastWins(entries, i);
  }

  /** In resume-document mode every skill of the profile occurs in the document's text. */
  lemma DocumentSkillsOccurInText(entries: seq<(string, real)>, text: string)
    ensures forall k :: k in KeySet(Assign(Present(entries, text))) ==> Contains(text, k)
  {
    var kept := Present(entries, text);
    AssignKeys(kept);
    forall k | k in KeySet(Assign(kept)) ensures Contains(text, k) {
      var i := IndexOf(kept, k);
      assert kept[i] in kept;
    }
  }

  /** Keeping only some entries keeps the keys distinct. */
  lemma {:induction false} PresentDistinct(entries: seq<(string, real)>, text: string)
    requires DistinctKeys(entries)
    ensures DistinctKeys(Present(entries, text))
  {
    if entries != [] {
      var front := entries[..|entries| - 1];
      PresentDistinct(front, text);
      var kept := Present(front, text);
      forall i | 0 <= i < |kept| ensures kept[i].0 != entries[|entries| - 1].0 {
        assert kept[i] in front;
      }
    }
  }

  lemma DefaultSkillsDistinct()
    ensures DistinctKeys(DEFAULT_SKILLS)
  {
  }

  /**
   * With no skills configured, resume-document mode keeps exactly the default
   * skills that occur in the text, at their default weights, in their
   * default order.
   */
  lemma DefaultDocumentSkills(text: string)
    ensures Assign(Present(DEFAULT_SKILLS, text)) == Present(DEFAULT_SKILLS, text)
    ensures forall e :: e in Assign(Present(DEFAULT_SKILLS, text)) <==> e in DEFAULT_SKILLS && Contains(text, e.0)
  {
    DefaultSkillsDistinct();
    PresentDistinct(DEFAULT_SKILLS, text);
    AssignDistinct(Present(DEFAULT_SKILLS, text));
  }

  /** When extraction yields no text, resume-document mode keeps no non-empty skill. */
  lemma NoTextNoSkills(entries: seq<(string, real)>)
    ensures forall k :: k in KeySet(Assign(Present(entries, ""))) ==> k == ""
  {
    DocumentSkillsOccurInText(entries, "");
    forall k | k in KeySet(Assign(Present(entries, ""))) ensures k == "" {
      ContainedInEmpty(k);
    }
  }

  // ---------------------------------------------------------------------------
  // Scoring

  /** `sum(skills.values())`. */
  function TotalWeight(s: Skills): (r: real)
    ensures s == [] ==> r == 0.0
    ensures NonNegativeWeights(s) ==> r >= 0.0
  {
    if s == [] then 0.0 else TotalWeight(s[..|s| - 1]) + s[|s| - 1].1
  }

  /** The summed weight of the skills that occur in `t`, each counted once. */
  function MatchedWeight(s: Skills, t: string): (r: real)
    ensures (forall i :: 0 <= i < |s| ==> !Contains(t, s[i].0)) ==> r == 0.0
  {
    if s == [] then 0.0
    else MatchedWeight(s[..|s| - 1], t) + (if Contains(t, s[|s| - 1].0) then s[|s| - 1].1 else 0.0)
  }

  predicate NonNegativeWeights(s: Skills) {
    forall i :: 0 <= i < |s| ==> s[i].1 >= 0.0
  }

  /** resume_matching.py `compute_match_score`, as a value. */
  function MatchScore(text: string, skills: Skills): (r: real)
    ensures 0.0 <= r <= 1.0
    ensures skills == [] ==> r == 0.0
    ensures TotalWeight(skills) <= 0.0 ==> r == 0.0
  {
    var t := Normalize(text);
    if skills == [] then 0.0
    else
      var total := TotalWeight(skills);
      if total <= 0.0 then 0.0
      else
        var ratio := MatchedWeight(skills, t) / total;
        if ratio > 1.0 then 1.0 else if ratio < 0.0 then 0.0 else ratio
  }

  /** resume_matching.py `compute_match_score`: the weight loop over the profile's skills. */
  method ComputeMatchScore(text: string, profile: ResumeProfile) returns (r: real)
    ensures r == MatchScore(text, profile.skills)
  {
    var t := Normalize(text);
    var skills := profile.skills;
    if skills == [] {
      return 0.0;
    }
    var totalWeight := TotalWeight(skills);
    if totalWeight <= 0.0 {
      return 0.0;
    }
    var score := 0.0;
    for i := 0 to |skills|
      invariant score == MatchedWeight(skills[..i], t)
    {
      PrefixStep(skills, i);
      var (skill, weight) := skills[i];
      if Contains(t, skill) {
        score := score + weight;
      }
    }
    assert skills[..|skills|] == skills;
    var ratio := score / totalWeight;
    r := if ratio > 1.0 then 1.0 else if ratio < 0.0 then 0.0 else ratio;
  }

  /** With non-negative weights, the matched weight is between 0 and the total. */
  lemma {:induction false} MatchedWithinTotal(s: Skills, t: string)
    requires NonNegativeWeights(s)
    ensures 0.0 <= MatchedWeight(s, t) <= TotalWeight(s)
  {
    if s != [] {
      MatchedWithinTotal(s[..|s| - 1], t);
    }
  }

  /** With non-negative weights summing to W > 0, the score is exactly w / W. */
  lemma ExactFraction(text: string, s: Skills)
    requires NonNegativeWeights(s) && TotalWeight(s) > 0.0
    ensures MatchScore(text, s) == MatchedWeight(s, Normalize(text)) / TotalWeight(s)
  {
    var w := MatchedWeight(s, Normalize(text));
    var total := TotalWeight(s);
    MatchedWithinTotal(s, Normalize(text));
    FractionBounds(w, total);
  }

  lemma FractionBounds(w: real, total: real)
    requires 0.0 <= w <= total && total > 0.0
    ensures 0.0 <= w / total <= 1.0
  {
    assert w / total * total == w;
  }

  /** When every skill occurs in the text, the matched weight is the total. */
  lemma {:induction false} AllPresentMatchesTotal(s: Skills, t: string)
    requires forall i :: 0 <= i < |s| ==> Contains(t, s[i].0)
    ensures MatchedWeight(s, t) == TotalWeight(s)
  {
    if s != [] {
      AllPresentMatchesTotal(s[..|s| - 1], t);
    }
  }

  /** A text mentioning every skill scores 1 whenever the total weight is positive. */
  lemma FullCoverage(text: string, s: Skills)
    requires TotalWeight(s) > 0.0
    requires forall i :: 0 <= i < |s| ==> Contains(Normalize(text), s[i].0)
    ensures MatchScore(text, s) == 1.0
  {
    AllPresentMatchesTotal(s, Normalize(text));
    WholeWeightScoresOne(text, s);
  }

  lemma WholeWeightScoresOne(text: string, s: Skills)
    requires TotalWeight(s) > 0.0 && MatchedWeight(s, Normalize(text)) == TotalWeight(s)
    ensures MatchScore(text, s) == 1.0
  {
    DivSelf(TotalWeight(s));
  }

  lemma DivSelf(x: real)
    requires x > 0.0
    ensures x / x == 1.0
  {
  }

  /** A skill key mentioned in the text in any mixture of case is found in the normalized text. */
  lemma MentionInAnyCase(text: string, mention: string, key: string)
    requires Contains(text, mention) && Lower(mention) == key
    ensures Contains(Normalize(text), key)
  {
    ContainsLower(text, mention);
  }

  /** Only whether each skill occurs matters, not how often or where. */
  lemma {:induction false} PresenceOnly(s: Skills, t1: string, t2: string)
    requires forall i :: 0 <= i < |s| ==> (Contains(t1, s[i].0) <==> Contains(t2, s[i].0))
    ensures MatchedWeight(s, t1) == MatchedWeight(s, t2)
  {
    if s != [] {
      PresenceOnly(s[..|s| - 1], t1, t2);
    }
  }
}
