/**
 * The Greenhouse board adapter: the HTML-to-text normalisation of a posting's
 * content, and the mapping of each job record of the board's response to a
 * raw posting. The HTTP request and the JSON decoding are outside the model:
 * `FetchJobs` receives the decoded records. `html.unescape` and `str.title`
 * are parameters.
 */
module Greenhouse {
  import opened Wrappers
  import opened Text

  /**
   * A raw posting as the sources hand it to the scorer: a dictionary whose
   * keys may be missing (`None`).
   */
  datatype RawPosting = RawPosting(
    title: Option<string>,
    company: Option<string>,
    location: Option<string>,
    url: Option<string>,
    source: Option<string>,
    description: Option<string>,
    datePosted: Option<string>)

  /** The `location` object of a job record. */
  datatype GhLocation = GhLocation(name: Option<string>)

  /** The fields of one element of the response's `jobs` list that the adapter reads. */
  datatype GhJob = GhJob(
    title: Option<string>,
    location: Option<GhLocation>,
    absoluteUrl: Option<string>,
    content: Option<string>,
    updatedAt: Option<string>,
    createdAt: Option<string>)

  // ---------------------------------------------------------------------------
  // re.sub(r'<[^>]+>', ' ', html)

  /** The first index at or after `p` holding '>', or `|s|`. */
  function TagEnd(s: string, p: nat): (k: nat)
    requires p <= |s|
    ensures p <= k <= |s|
    ensures k < |s| ==> s[k] == '>'
    ensures forall m :: p <= m < k ==> s[m] != '>'
    decreases |s| - p
  {
    if p == |s| || s[p] == '>' then p else TagEnd(s, p + 1)
  }

  /** `s[i..j+1]` is a match of `<[^>]+>`: '<', at least one non-'>' character, then '>'. */
  predicate IsTag(s: string, i: int, j: int) {
    0 <= i && i + 2 <= j < |s| && s[i] == '<' && s[j] == '>' && forall m :: i < m < j ==> s[m] != '>'
  }

  ghost predicate NoTag(s: string) {
    forall i, j :: !IsTag(s, i, j)
  }

  /** A tag starting at `i` can only end at the first '>' after it. */
  lemma TagEndsAtFirstGt(s: string, i: nat, j: int)
    requires i < |s|
    ensures IsTag(s, i, j) <==> s[i] == '<' && j == TagEnd(s, i + 1) && i + 2 <= j < |s|
  {
  }

  /** Where the left-to-right scan stands at `p`, the pattern matches there. */
  predicate MatchAt(s: string, p: nat)
    requires p < |s|
  {
    s[p] == '<' && p + 2 <= TagEnd(s, p + 1) < |s|
  }

  /** The substitution from position `p` on. */
  function RemoveTagsFrom(s: string, p: nat): (r: string)
    requires p <= |s|
    ensures |r| <= |s| - p
    decreases |s| - p
  {
    if p == |s| then []
    else if MatchAt(s, p) then " " + RemoveTagsFrom(s, TagEnd(s, p + 1) + 1)
    else [s[p]] + RemoveTagsFrom(s, p + 1)
  }

  /** `re.sub(r'<[^>]+>', ' ', s)`: every tag, scanning left to right, becomes one space. */
  function RemoveTags(s: string): (r: string)
    ensures |r| <= |s|
    ensures NoTag(r)
  {
    NoTagAfterRemoval(s, 0);
    RemoveTagsFrom(s, 0)
  }

  /** Text with no '>' from `p` on comes out with no '>'. */
  lemma {:induction false} NoGtStaysNoGt(s: string, p: nat)
    requires p <= |s|
    requires forall m :: p <= m < |s| ==> s[m] != '>'
    ensures forall k :: 0 <= k < |RemoveTagsFrom(s, p)| ==> RemoveTagsFrom(s, p)[k] != '>'
    decreases |s| - p
  {
    if p < |s| {
      NoGtStaysNoGt(s, p + 1);
    }
  }

  lemma ShiftTag(c: char, rest: string, i: int, j: int)
    requires 1 <= i
    ensures IsTag([c] + rest, i, j) <==> IsTag(rest, i - 1, j - 1)
  {
    var r := [c] + rest;
    if IsTag(r, i, j) {
      forall m | i - 1 < m < j - 1 ensures rest[m] != '>' {
        assert rest[m] == r[m + 1];
      }
    }
    if IsTag(rest, i - 1, j - 1) {
      forall m | i < m < j ensures r[m] != '>' {
        assert r[m] == rest[m - 1];
      }
    }
  }

  /** A character put in front of tag-free text starts no tag if it is not '<' followed only by non-'>' text. */
  lemma ConsNoTag(c: char, rest: string)
    requires NoTag(rest)
    requires c == '<' ==> (rest != [] && rest[0] == '>') || forall k :: 0 <= k < |rest| ==> rest[k] != '>'
    ensures NoTag([c] + rest)
  {
    var r := [c] + rest;
    forall i, j ensures !IsTag(r, i, j) {
      if 1 <= i {
        ShiftTag(c, rest, i, j);
      } else if i == 0 && c == '<' && i + 2 <= j < |r| {
        if rest != [] && rest[0] == '>' {
          assert r[1] == '>';
        } else {
          assert r[j] == rest[j - 1];
        }
      }
    }
  }

  /** No tag survives the substitution. */
  lemma {:induction false} NoTagAfterRemoval(s: string, p: nat)
    requires p <= |s|
    ensures NoTag(RemoveTagsFrom(s, p))
    decreases |s| - p
  {
    if p < |s| {
      if MatchAt(s, p) {
        var next := TagEnd(s, p + 1) + 1;
        assert RemoveTagsFrom(s, p) == [' '] + RemoveTagsFrom(s, next);
        NoTagAfterRemoval(s, next);
        ConsNoTag(' ', RemoveTagsFrom(s, next));
      } else {
        var rest := RemoveTagsFrom(s, p + 1);
        assert RemoveTagsFrom(s, p) == [s[p]] + rest;
        NoTagAfterRemoval(s, p + 1);
        if s[p] == '<' {
          if TagEnd(s, p + 1) == |s| {
            NoGtStaysNoGt(s, p + 1);
          } else {
            assert s[p + 1] == '>';
            assert rest == [s[p + 1]] + RemoveTagsFrom(s, p + 2);
          }
        }
        ConsNoTag(s[p], rest);
      }
    }
  }


  /** A tag-free string is left as it is. */
  lemma {:induction false} NoTagUnchanged(s: string, p: nat)
    requires p <= |s|
    requires NoTag(s)
    ensures RemoveTagsFrom(s, p) == s[p..]
    decreases |s| - p
  {
    if p < |s| {
      TagEndsAtFirstGt(s, p, TagEnd(s, p + 1));
      NoTagUnchanged(s, p + 1);
    }
  }

  /** Where a tag starts at the scan position, it is replaced by one space and the scan resumes after it. */
  lemma TagReplaced(s: string, p: nat, j: int)
    requires p < |s| && IsTag(s, p, j)
    ensures RemoveTagsFrom(s, p) == " " + RemoveTagsFrom(s, j + 1)
  {
    TagEndsAtFirstGt(s, p, j);
  }

  /** Where no tag starts at the scan position, that character is kept. */
  lemma CharKept(s: string, p: nat)
    requires p < |s| && forall j :: !IsTag(s, p, j)
    ensures RemoveTagsFrom(s, p) == [s[p]] + RemoveTagsFrom(s, p + 1)
  {
    TagEndsAtFirstGt(s, p, TagEnd(s, p + 1));
  }

  // ---------------------------------------------------------------------------
  // re.sub(r'\s+', ' ', text)

  /** Positions `i - 1` and `i` of `r` both hold whitespace. */
  predicate DoubleSpaceAt(r: string, i: int) {
    1 <= i < |r| && IsSpace(r[i - 1]) && IsSpace(r[i])
  }

  /** The only whitespace is ' ', and never two whitespace characters side by side. */
  predicate SingleSpaced(r: string) {
    && (forall i :: 0 <= i < |r| && IsSpace(r[i]) ==> r[i] == ' ')
    && (forall i :: 1 <= i < |r| ==> !DoubleSpaceAt(r, i))
  }

  /** Putting `c` in front of a single-spaced string keeps it single-spaced unless two spaces meet. */
  lemma ConsSingleSpaced(c: char, rest: string)
    requires SingleSpaced(rest)
    requires IsSpace(c) ==> c == ' ' && (rest == [] || !IsSpace(rest[0]))
    ensures SingleSpaced([c] + rest)
  {
    var r := [c] + rest;
    forall i | 1 <= i < |r| ensures !DoubleSpaceAt(r, i) {
      if i >= 2 {
        assert !DoubleSpaceAt(rest, i - 1);
        assert r[i - 1] == rest[i - 2] && r[i] == rest[i - 1];
      }
    }
  }

  /** The substitution from position `p` on. */
  function CollapseFrom(s: string, p: nat): (r: string)
    requires p <= |s|
    ensures |r| <= |s| - p
    decreases |s| - p
  {
    if p == |s| then []
    else if IsSpace(s[p]) then " " + CollapseFrom(s, SpaceRunEnd(s, p))
    else [s[p]] + CollapseFrom(s, p + 1)
  }

  /** The output starts with the first character of the input, a space standing for whitespace. */
  lemma CollapseHead(s: string, p: nat)
    requires p < |s|
    ensures |CollapseFrom(s, p)| > 0
    ensures CollapseFrom(s, p)[0] == if IsSpace(s[p]) then ' ' else s[p]
  {
  }

  /** The substitution leaves only single spaces. */
  lemma {:induction false} CollapseSingleSpaced(s: string, p: nat)
    requires p <= |s|
    ensures SingleSpaced(CollapseFrom(s, p))
    decreases |s| - p
  {
    if p < |s| {
      if IsSpace(s[p]) {
        var k := SpaceRunEnd(s, p);
        var rest := CollapseFrom(s, k);
        CollapseSingleSpaced(s, k);
        if k < |s| {
          CollapseHead(s, k);
        }
        ConsSingleSpaced(' ', rest);
      } else {
        var rest := CollapseFrom(s, p + 1);
        CollapseSingleSpaced(s, p + 1);
        ConsSingleSpaced(s[p], rest);
      }
    }
  }

  /** `re.sub(r'\s+', ' ', s)`: every maximal run of whitespace becomes one space. */
  function CollapseWhitespace(s: string): (r: string)
    ensures SingleSpaced(r)
  {
    CollapseSingleSpaced(s, 0);
    CollapseFrom(s, 0)
  }

  lemma CollapseSpaceStep(s: string, p: nat)
    requires p < |s| && IsSpace(s[p])
    ensures CollapseFrom(s, p) == " " + CollapseFrom(s, SpaceRunEnd(s, p))
  {
  }

  lemma CollapseCharStep(s: string, p: nat)
    requires p < |s| && !IsSpace(s[p])
    ensures CollapseFrom(s, p) == [s[p]] + CollapseFrom(s, p + 1)
  {
  }

  /** A whitespace run inside the suffix `y` of `x + y` ends where it ends in `y`. */
  lemma {:induction false} SpaceRunEndShift(x: string, y: string, q: nat)
    requires q <= |y|
    ensures SpaceRunEnd(x + y, |x| + q) == |x| + SpaceRunEnd(y, q)
    decreases |y| - q
  {
    if q < |y| {
      assert (x + y)[|x| + q] == y[q];
      if IsSpace(y[q]) {
        SpaceRunEndShift(x, y, q + 1);
      }
    }
  }

  /** Collapsing `x + y` from inside `y` is collapsing `y` alone. */
  lemma {:induction false} CollapseShift(x: string, y: string, q: nat)
    requires q <= |y|
    ensures CollapseFrom(x + y, |x| + q) == CollapseFrom(y, q)
    decreases |y| - q
  {
    if q < |y| {
      assert (x + y)[|x| + q] == y[q];
      if IsSpace(y[q]) {
        SpaceRunEndShift(x, y, q);
        CollapseShift(x, y, SpaceRunEnd(y, q));
      } else {
        CollapseShift(x, y, q + 1);
      }
    }
  }

  /** Unless `x` ends and `y` starts with whitespace, a run starting in `x` ends where it ends in `x`. */
  lemma {:induction false} SpaceRunEndPrefix(x: string, y: string, p: nat)
    requires p <= |x|
    requires SpaceRunEnd(x, p) < |x| || y == [] || !IsSpace(y[0])
    ensures SpaceRunEnd(x + y, p) == SpaceRunEnd(x, p)
    decreases |x| - p
  {
    if p < |x| {
      assert (x + y)[p] == x[p];
      if IsSpace(x[p]) {
        SpaceRunEndPrefix(x, y, p + 1);
      }
    } else if y != [] {
      assert (x + y)[p] == y[0];
    }
  }

  /** `x` ends, or `y` starts, with something other than whitespace. */
  predicate NotCutInRun(x: string, y: string) {
    x == [] || !IsSpace(x[|x| - 1]) || y == [] || !IsSpace(y[0])
  }

  /** One step of `CollapseSplit` where the scan meets whitespace in `x`. */
  lemma CollapseSplitSpace(x: string, y: string, p: nat)
    requires p < |x| && IsSpace(x[p]) && NotCutInRun(x, y)
    requires CollapseFrom(x + y, SpaceRunEnd(x, p)) == CollapseFrom(x, SpaceRunEnd(x, p)) + CollapseFrom(y, 0)
    ensures CollapseFrom(x + y, p) == CollapseFrom(x, p) + CollapseFrom(y, 0)
  {
    var s := x + y;
    var k := SpaceRunEnd(x, p);
    assert s[p] == x[p];
    if k == |x| {
      assert IsSpace(x[|x| - 1]);
      assert y == [] || !IsSpace(y[0]);
    }
    SpaceRunEndPrefix(x, y, p);
    assert SpaceRunEnd(s, p) == k;
    CollapseSpaceStep(s, p);
    CollapseSpaceStep(x, p);
    AppendAssoc(" ", CollapseFrom(x, k), CollapseFrom(y, 0));
  }

  /** One step of `CollapseSplit` where the scan meets a non-space character of `x`. */
  lemma CollapseSplitChar(x: string, y: string, p: nat)
    requires p < |x| && !IsSpace(x[p])
    requires CollapseFrom(x + y, p + 1) == CollapseFrom(x, p + 1) + CollapseFrom(y, 0)
    ensures CollapseFrom(x + y, p) == CollapseFrom(x, p) + CollapseFrom(y, 0)
  {
    var s := x + y;
    assert s[p] == x[p];
    CollapseCharStep(s, p);
    CollapseCharStep(x, p);
    AppendAssoc([x[p]], CollapseFrom(x, p + 1), CollapseFrom(y, 0));
  }

  /**
   * Where `x + y` is not cut inside a run of whitespace, collapsing it is
   * collapsing `x`, then `y`: the substitution works run by run.
   */
  lemma {:induction false} CollapseSplit(x: string, y: string, p: nat)
    requires p <= |x| && NotCutInRun(x, y)
    ensures CollapseFrom(x + y, p) == CollapseFrom(x, p) + CollapseFrom(y, 0)
    decreases |x| - p
  {
    if p == |x| {
      CollapseShift(x, y, 0);
    } else if IsSpace(x[p]) {
      CollapseSplit(x, y, SpaceRunEnd(x, p));
      CollapseSplitSpace(x, y, p);
    } else {
      CollapseSplit(x, y, p + 1);
      CollapseSplitChar(x, y, p);
    }
  }

  /** A non-empty run of whitespace collapses to a single space. */
  lemma SpacesCollapse(w: string)
    requires w != [] && forall i :: 0 <= i < |w| ==> IsSpace(w[i])
    ensures CollapseWhitespace(w) == " "
  {
    assert SpaceRunEnd(w, 0) == |w|;
  }

  /** `re.sub(r'\s+', ' ', ...)` turns a whitespace run between two words into exactly one space. */
  lemma SpaceRunCollapses(a: string, w: string, b: string)
    requires a == [] || !IsSpace(a[|a| - 1])
    requires b == [] || !IsSpace(b[0])
    requires w != [] && forall i :: 0 <= i < |w| ==> IsSpace(w[i])
    ensures CollapseWhitespace(a + w + b) == CollapseWhitespace(a) + " " + CollapseWhitespace(b)
  {
    AppendAssoc(a, w, b);
    CollapseSplit(a, w + b, 0);
    CollapseSplit(w, b, 0);
    SpacesCollapse(w);
    AppendAssoc(CollapseWhitespace(a), " ", CollapseWhitespace(b));
  }

  /** A character that is not whitespace is kept as it is. */
  lemma NonSpaceKept(c: char)
    requires !IsSpace(c)
    ensures CollapseWhitespace([c]) == [c]
  {
  }

  /** The characters of `s` that are not whitespace, in order. */
  function NonSpace(s: string): (r: string)
    ensures forall i :: 0 <= i < |r| ==> !IsSpace(r[i])
  {
    if s == [] then [] else NonSpace(s[..|s| - 1]) + (if IsSpace(s[|s| - 1]) then [] else [s[|s| - 1]])
  }

  lemma {:induction false} NonSpaceConcat(a: string, b: string)
    ensures NonSpace(a + b) == NonSpace(a) + NonSpace(b)
    decreases |b|
  {
    if b != [] {
      assert (a + b)[..|a + b| - 1] == a + b[..|b| - 1];
      assert (a + b)[|a + b| - 1] == b[|b| - 1];
      NonSpaceConcat(a, b[..|b| - 1]);
    } else {
      assert a + b == a;
    }
  }

  lemma {:induction false} NonSpaceOfSpaces(s: string, p: nat, q: nat)
    requires p <= q <= |s|
    requires forall m :: p <= m < q ==> IsSpace(s[m])
    ensures NonSpace(s[p..q]) == []
    decreases q - p
  {
    if p < q {
      assert s[p..q][..q - p - 1] == s[p..q - 1];
      NonSpaceOfSpaces(s, p, q - 1);
    }
  }

  /** Collapsing whitespace changes only whitespace: the other characters are kept in order. */
  lemma {:induction false} CollapseKeepsText(s: string, p: nat)
    requires p <= |s|
    ensures NonSpace(CollapseFrom(s, p)) == NonSpace(s[p..])
    decreases |s| - p
  {
    if p < |s| {
      var next := if IsSpace(s[p]) then SpaceRunEnd(s, p) else p + 1;
      CollapseKeepsText(s, next);
      var head := if IsSpace(s[p]) then " " else [s[p]];
      NonSpaceConcat(head, CollapseFrom(s, next));
      assert s[p..] == s[p..next] + s[next..];
      NonSpaceConcat(s[p..next], s[next..]);
      if IsSpace(s[p]) {
        NonSpaceOfSpaces(s, p, next);
        assert NonSpace(" ") == NonSpace(" "[..0]) + [];
      } else {
        assert s[p..next] == [s[p]];
        assert NonSpace([s[p]]) == NonSpace([s[p]][..0]) + [s[p]];
      }
    }
  }

  /** A slice of a single-spaced string is single-spaced. */
  lemma SliceSingleSpaced(r: string, a: nat, b: nat)
    requires a <= b <= |r| && SingleSpaced(r)
    ensures SingleSpaced(r[a..b])
  {
    var t := r[a..b];
    forall i | 0 <= i < |t| && IsSpace(t[i]) ensures t[i] == ' ' {
      assert t[i] == r[a + i];
    }
    forall i | 1 <= i < |t| ensures !DoubleSpaceAt(t, i) {
      assert !DoubleSpaceAt(r, a + i);
      assert t[i - 1] == r[a + i - 1] && t[i] == r[a + i];
    }
  }

  lemma StripSingleSpaced(c: string)
    requires SingleSpaced(c)
    ensures SingleSpaced(Strip(c))
  {
    var a := SpaceRunEnd(c, 0);
    var r := Strip(c);
    assert r == c[a..a + |r|];
    SliceSingleSpaced(c, a, a + |r|);
  }

  // ---------------------------------------------------------------------------
  // _strip_html

  /**
   * greenhouse.py `_strip_html`: tags become spaces, entities are decoded,
   * whitespace runs become one space, and the ends are trimmed.
   */
  function StripHtml(html: string, unescape: string -> string): (r: string)
    ensures html == "" ==> r == ""
    ensures r == [] || (!IsSpace(r[0]) && !IsSpace(r[|r| - 1]))
    ensures SingleSpaced(r)
  {
    if html == "" then ""
    else
      var c := CollapseWhitespace(unescape(RemoveTags(html)));
      StripSingleSpaced(c);
      Strip(c)
  }

  /** Cutting away leading whitespace keeps the non-whitespace characters. */
  lemma {:induction false} DropLeadingSpace(c: string, a: nat)
    requires a <= |c|
    requires forall i :: 0 <= i < a ==> IsSpace(c[i])
    ensures NonSpace(c[a..]) == NonSpace(c)
    decreases a
  {
    if a > 0 {
      var rest := c[1..];
      assert rest[a - 1..] == c[a..];
      DropLeadingSpace(rest, a - 1);
      assert [c[0]] + rest == c;
      NonSpaceConcat([c[0]], rest);
      assert NonSpace([c[0]]) == NonSpace([c[0]][..0]) + [];
    }
  }

  /** Cutting away trailing whitespace keeps the non-whitespace characters. */
  lemma {:induction false} DropTrailingSpace(d: string, k: nat)
    requires k <= |d|
    requires forall i :: k <= i < |d| ==> IsSpace(d[i])
    ensures NonSpace(d[..k]) == NonSpace(d)
    decreases |d|
  {
    if k < |d| {
      var front := d[..|d| - 1];
      assert front[..k] == d[..k];
      DropTrailingSpace(front, k);
    } else {
      assert d[..k] == d;
    }
  }

  /** Cutting away only whitespace keeps the non-whitespace characters. */
  lemma NonSpaceOfSlice(c: string, a: nat, b: nat)
    requires a <= b <= |c|
    requires forall i :: 0 <= i < a ==> IsSpace(c[i])
    requires forall i :: b <= i < |c| ==> IsSpace(c[i])
    ensures NonSpace(c[a..b]) == NonSpace(c)
  {
    DropTrailingSpace(c, b);
    var d := c[..b];
    assert forall i :: 0 <= i < a ==> d[i] == c[i];
    DropLeadingSpace(d, a);
    assert d[a..] == c[a..b];
  }

  /** Stripping drops only whitespace. */
  lemma StripKeepsText(c: string)
    ensures NonSpace(Strip(c)) == NonSpace(c)
  {
    var a := SpaceRunEnd(c, 0);
    NonSpaceOfSlice(c, a, a + |Strip(c)|);
  }

  /** The non-whitespace characters are those of the decoded, tag-free text. */
  lemma StripHtmlKeepsText(html: string, unescape: string -> string)
    requires html != ""
    ensures NonSpace(StripHtml(html, unescape)) == NonSpace(unescape(RemoveTags(html)))
  {
    var u := unescape(RemoveTags(html));
    CollapseKeepsText(u, 0);
    assert u[0..] == u;
    StripKeepsText(CollapseWhitespace(u));
  }

  // ---------------------------------------------------------------------------
  // fetch_jobs

  /** `j.get('updated_at') or j.get('created_at')`. */
  function DatePosted(j: GhJob): (d: Option<string>)
    ensures d.Some? && d.value != "" ==> d == j.updatedAt || d == j.createdAt
    ensures j.updatedAt.Some? && j.updatedAt.value != "" ==> d == j.updatedAt
    ensures (j.updatedAt.None? || j.updatedAt.value == "") ==> d == j.createdAt
  {
    if j.updatedAt.Some? && j.updatedAt.value != "" then j.updatedAt else j.createdAt
  }

  /** The raw posting built from one job record of board `slug`. */
  function ToPosting(slug: string, j: GhJob, titleCase: string -> string, unescape: string -> string): (p: RawPosting)
    ensures p.title == Some(j.title.GetOr(""))
    ensures p.company == Some(titleCase(slug))
    ensures p.location == Some(if j.location.Some? then j.location.value.name.GetOr("") else "")
    ensures p.url == Some(j.absoluteUrl.GetOr(""))
    ensures p.source == Some("greenhouse:" + slug)
    ensures p.datePosted == DatePosted(j)
  {
    RawPosting(
      Some(j.title.GetOr("")),
      Some(titleCase(slug)),
      Some(if j.location.Some? then j.location.value.name.GetOr("") else ""),
      Some(j.absoluteUrl.GetOr("")),
      Some("greenhouse:" + slug),
      Some(StripHtml(j.content.GetOr(""), unescape)),
      DatePosted(j))
  }

  /** The postings built from `jobs`, in order. */
  function Postings(slug: string, jobs: seq<GhJob>, titleCase: string -> string, unescape: string -> string): (r: seq<RawPosting>)
    ensures |r| == |jobs|
  {
    if jobs == [] then []
    else Postings(slug, jobs[..|jobs| - 1], titleCase, unescape) + [ToPosting(slug, jobs[|jobs| - 1], titleCase, unescape)]
  }

  /** Posting `i` is built from job record `i`. */
  lemma {:induction false} PostingsPointwise(slug: string, jobs: seq<GhJob>, titleCase: string -> string, unescape: string -> string, i: nat)
    requires i < |jobs|
    ensures Postings(slug, jobs, titleCase, unescape)[i] == ToPosting(slug, jobs[i], titleCase, unescape)
  {
    if i < |jobs| - 1 {
      PostingsPointwise(slug, jobs[..|jobs| - 1], titleCase, unescape, i);
    }
  }

  /** greenhouse.py `fetch_jobs`, given the decoded `jobs` list of the response. */
  method FetchJobs(slug: string, jobs: seq<GhJob>, titleCase: string -> string, unescape: string -> string)
    returns (out: seq<RawPosting>)
    ensures out == Postings(slug, jobs, titleCase, unescape)
    ensures |out| == |jobs|
    ensures forall i :: 0 <= i < |jobs| ==> out[i] == ToPosting(slug, jobs[i], titleCase, unescape)
  {
    out := [];
    for i := 0 to |jobs|
      invariant out == Postings(slug, jobs[..i], titleCase, unescape)
    {
      assert jobs[..i + 1][..i] == jobs[..i];
      out := out + [ToPosting(slug, jobs[i], titleCase, unescape)];
    }
    assert jobs[..|jobs|] == jobs;
    forall i | 0 <= i < |jobs|
      ensures out[i] == ToPosting(slug, jobs[i], titleCase, unescape)
    {
      PostingsPointwise(slug, jobs, titleCase, unescape, i);
    }
  }
}
