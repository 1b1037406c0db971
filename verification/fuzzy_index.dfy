/**
 * The query surface over the fuzzy index: `getSuggestions` and `getAutoCorrectCandidate`.
 * The Fuse index itself is an oracle: `Ranking` gives, for a trimmed query, every hit in
 * rank order with its optional score, and a search with a limit returns the first hits.
 */
module FuzzyIndex {
  import opened Wrappers
  import opened Text
  import opened Corpus

  /** One Fuse result: the matched corpus item and its score, which Fuse may leave undefined. */
  datatype Hit = Hit(item: SearchCorpusItem, score: Option<real>)

  /** The index's ranking of all matching items for a query, best first. */
  type Ranking = string -> seq<Hit>

  datatype Suggestion = Suggestion(text: string, itemType: ItemType, score: real)

  /** The defaults of the two entry points. */
  const DEFAULT_LIMIT: nat := 5
  const DEFAULT_MAX_SCORE: real := 0.45

  /** `fuse.search(q, { limit })`: the first `limit` hits of the ranking, or all of them when there are fewer. */
  function Search(rank: Ranking, q: string, limit: nat): (r: seq<Hit>)
    ensures |r| == if limit < |rank(q)| then limit else |rank(q)|
    ensures r == rank(q)[..|r|]
  {
    var all := rank(q);
    if limit < |all| then all[..limit] else all
  }

  /** A result copied into a suggestion; a missing score is reported as 0. */
  function ToSuggestion(h: Hit): Suggestion {
    Suggestion(h.item.text, h.item.itemType, h.score.GetOr(0.0))
  }

  /**
   * `getSuggestions`: nothing for a blank query; otherwise one suggestion per hit of the
   * limited search on the trimmed query, in rank order, with label and type copied and a
   * missing score read as 0.
   */
  function GetSuggestions(rank: Ranking, query: string, limit: nat := DEFAULT_LIMIT): (r: seq<Suggestion>)
    ensures AllWhitespace(query) ==> r == []
    ensures !AllWhitespace(query) ==>
      var hits := Search(rank, Trim(query), limit);
      && |r| == |hits|
      && forall k :: 0 <= k < |r| ==>
           && r[k].text == hits[k].item.text
           && r[k].itemType == hits[k].item.itemType
           && r[k].score == (if hits[k].score.Some? then hits[k].score.value else 0.0)
  {
    TrimEmptyIff(query);
    var q := Trim(query);
    if q == [] then []
    else
      var hits := Search(rank, q, limit);
      seq(|hits|, k requires 0 <= k < |hits| => ToSuggestion(hits[k]))
  }

  /**
   * `getAutoCorrectCandidate`: the best hit for the trimmed query, but only when the query is
   * not blank, there is a hit, its score is defined and the score is at most `maxScore`.
   */
  function GetAutoCorrectCandidate(rank: Ranking, query: string, maxScore: real := DEFAULT_MAX_SCORE): (r: Option<Suggestion>)
    ensures AllWhitespace(query) ==> r == None
    ensures r.Some? <==>
      && !AllWhitespace(query)
      && |rank(Trim(query))| > 0
      && rank(Trim(query))[0].score.Some?
      && rank(Trim(query))[0].score.value <= maxScore
    ensures r.Some? ==>
      var best := rank(Trim(query))[0];
      && r.value.text == best.item.text
      && r.value.itemType == best.item.itemType
      && r.value.score == best.score.value
      && r.value.score <= maxScore
  {
    TrimEmptyIff(query);
    var q := Trim(query);
    if q == [] then None
    else
      var results := Search(rank, q, 1);
      if results == [] then None
      else
        var best := results[0];
        if best.score.Some? && best.score.value <= maxScore then
          Some(Suggestion(best.item.text, best.item.itemType, best.score.value))
        else None
  }

  /** White space around a query changes neither answer. */
  lemma QueryPaddingIgnored(rank: Ranking, p: string, query: string, q: string, limit: nat, maxScore: real)
    requires AllWhitespace(p) && AllWhitespace(q)
    ensures GetSuggestions(rank, p + query + q, limit) == GetSuggestions(rank, query, limit)
    ensures GetAutoCorrectCandidate(rank, p + query + q, maxScore) == GetAutoCorrectCandidate(rank, query, maxScore)
  {
    TrimPadding(p, query, q);
    TrimEmptyIff(p + query + q);
    TrimEmptyIff(query);
  }

  /** Raising the limit only appends suggestions: it never reorders or drops earlier ones. */
  lemma LimitOnlyAppends(rank: Ranking, query: string, limit: nat, limit': nat)
    requires limit <= limit'
    ensures var short := GetSuggestions(rank, query, limit);
      var long := GetSuggestions(rank, query, limit');
      |short| <= |long| && long[..|short|] == short
  {
  }

  /** A candidate found under one threshold is the same candidate under any larger threshold. */
  lemma ThresholdMonotone(rank: Ranking, query: string, maxScore: real, maxScore': real)
    requires maxScore <= maxScore'
    requires GetAutoCorrectCandidate(rank, query, maxScore).Some?
    ensures GetAutoCorrectCandidate(rank, query, maxScore') == GetAutoCorrectCandidate(rank, query, maxScore)
  {
  }

  /** When a candidate exists it is the first suggestion for the same query, under any positive limit. */
  lemma CandidateIsFirstSuggestion(rank: Ranking, query: string, maxScore: real, limit: nat)
    requires limit >= 1
    requires GetAutoCorrectCandidate(rank, query, maxScore).Some?
    ensures var s := GetSuggestions(rank, query, limit);
      |s| >= 1 && s[0] == GetAutoCorrectCandidate(rank, query, maxScore).value
  {
  }

  /**
   * The two entry points disagree on an undefined best score: the suggestion list reports it
   * as 0, while no auto-correct candidate is offered, whatever the threshold.
   */
  lemma UndefinedBestScore(rank: Ranking, query: string, limit: nat, maxScore: real)
    requires !AllWhitespace(query) && limit >= 1
    requires |rank(Trim(query))| > 0 && rank(Trim(query))[0].score.None?
    ensures |GetSuggestions(rank, query, limit)| >= 1 && GetSuggestions(rank, query, limit)[0].score == 0.0
    ensures GetAutoCorrectCandidate(rank, query, maxScore) == None
  {
  }

  /** Called with its defaults, the suggestion list has at most five entries, and a candidate scores at most 0.45. */
  lemma DefaultCalls(rank: Ranking, query: string)
    ensures |GetSuggestions(rank, query)| <= 5
    ensures GetAutoCorrectCandidate(rank, query).Some? ==> GetAutoCorrectCandidate(rank, query).value.score <= 0.45
  {
  }
}
