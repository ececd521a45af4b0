/**
 * The fuzzy best-match selector. The string similarity itself is abstract:
 * a scorer is any total function from a query and a candidate to a score
 * between 0 and 100.
 */
module Fuzzy {
  import opened Wrappers
  import opened Frame

  /** A similarity scorer; its scores lie in [0, 100]. */
  type Scorer = f: (string, string) -> int | forall q: string, c: string :: 0 <= f(q, c) <= 100
    witness (q: string, c: string) => 0

  /** The chosen candidate and its score. */
  datatype Best = Best(choice: string, score: int)

  /** Some present candidate scores `s` against `query`. */
  ghost predicate Scores(query: string, choices: seq<Cell>, scorer: Scorer, s: int)
  {
    exists k :: 0 <= k < |choices| && choices[k].Some? && scorer(query, choices[k].value) == s
  }

  /** `s` is the highest score of any present candidate. */
  ghost predicate IsTopScore(query: string, choices: seq<Cell>, scorer: Scorer, s: int)
  {
    && Scores(query, choices, scorer, s)
    && forall k :: 0 <= k < |choices| && choices[k].Some? ==> scorer(query, choices[k].value) <= s
  }

  /**
   * The best-scoring candidate. Missing candidates are skipped, there is no
   * result exactly when every candidate is missing, and among equal top
   * scores the earliest candidate wins.
   */
  function ExtractOne(query: string, choices: seq<Cell>, scorer: Scorer): (r: Option<Best>)
    ensures r.None? <==> forall k :: 0 <= k < |choices| ==> choices[k].None?
    ensures r.Some? ==> Some(r.value.choice) in choices && r.value.score == scorer(query, r.value.choice)
    ensures r.Some? ==> 0 <= r.value.score <= 100
    ensures r.Some? ==> forall k :: 0 <= k < |choices| && choices[k].Some? ==> scorer(query, choices[k].value) <= r.value.score
    ensures r.Some? ==> forall k :: 0 <= k < |choices| && choices[k].Some? && scorer(query, choices[k].value) == r.value.score ==>
              IndexOf(Some(r.value.choice), choices).value <= k
  {
    if |choices| == 0 then None
    else
      var rest := ExtractOne(query, choices[1..], scorer);
      match choices[0]
      case None =>
        assert forall k :: 1 <= k < |choices| ==> choices[k] == choices[1..][k - 1];
        rest
      case Some(c) =>
        if rest.Some? && rest.value.score > scorer(query, c) then
          assert forall k :: 1 <= k < |choices| ==> choices[k] == choices[1..][k - 1];
          rest
        else
          assert forall k :: 1 <= k < |choices| ==> choices[k] == choices[1..][k - 1];
          Some(Best(c, scorer(query, c)))
  }

  /** When `s` is the top score there is a best candidate and it carries `s`. */
  lemma ExtractOneFindsTopScore(query: string, choices: seq<Cell>, scorer: Scorer, s: int)
    requires IsTopScore(query, choices, scorer, s)
    ensures ExtractOne(query, choices, scorer).Some?
    ensures ExtractOne(query, choices, scorer).value.score == s
  {
    var k :| 0 <= k < |choices| && choices[k].Some? && scorer(query, choices[k].value) == s;
    var r := ExtractOne(query, choices, scorer);
    assert r.Some?;
    var j := IndexOf(Some(r.value.choice), choices).value;
    assert choices[j].Some? && choices[j].value == r.value.choice;
  }
}
