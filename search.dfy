/**
 * The score-threshold filter of `search_in_faiss` (utils/search.py): it keeps,
 * in rank order, every position of the first row of scores whose score is at
 * least the threshold, paired with that score.
 *
 * Scores are floating-point numbers in the source; here they are any type
 * `S` with the comparison `atLeast(x, t)` standing for Python's `x >= t`, so
 * nothing depends on float arithmetic.  The search itself (`index.search`)
 * is outside the model: its first row of scores is the input.
 */
module Search {

  /** The hits at positions `start` and later. */
  function HitsFrom<S>(row: seq<S>, threshold: S, atLeast: (S, S) -> bool, start: nat): (r: seq<(nat, S)>)
    requires start <= |row|
    ensures |r| <= |row| - start
    ensures forall j :: 0 <= j < |r| ==>
              start <= r[j].0 < |row| && r[j].1 == row[r[j].0] && atLeast(r[j].1, threshold)
    ensures forall j, k :: 0 <= j < k < |r| ==> r[j].0 < r[k].0
    ensures forall p :: start <= p < |row| && atLeast(row[p], threshold) ==> (p, row[p]) in r
    decreases |row| - start
  {
    if start == |row| then []
    else
      var rest := HitsFrom(row, threshold, atLeast, start + 1);
      if atLeast(row[start], threshold) then [(start, row[start])] + rest else rest
  }

  /**
   * `[(i, D[0][i]) for i in range(len(D[0])) if D[0][i] >= threshold]`: the
   * positions (within the row, not the document ids of `I`) whose score passes,
   * each with its score, in increasing position order; no passing position is
   * left out.
   */
  function SearchInFaiss<S>(scores: seq<S>, threshold: S, atLeast: (S, S) -> bool): (r: seq<(nat, S)>)
    ensures |r| <= |scores|
    ensures forall j :: 0 <= j < |r| ==>
              r[j].0 < |scores| && r[j].1 == scores[r[j].0] && atLeast(r[j].1, threshold)
    ensures forall j, k :: 0 <= j < k < |r| ==> r[j].0 < r[k].0
    ensures forall p :: 0 <= p < |scores| && atLeast(scores[p], threshold) ==> (p, scores[p]) in r
  {
    HitsFrom(scores, threshold, atLeast, 0)
  }

  /** Scores 0.9, 0.5, 0.1 against the threshold 0.4 keep the first two, in that order. */
  lemma ThresholdExample()
    ensures SearchInFaiss([0.9, 0.5, 0.1], 0.4, (x: real, t: real) => x >= t) == [(0, 0.9), (1, 0.5)]
  {
    var ge := (x: real, t: real) => x >= t;
    var row := [0.9, 0.5, 0.1];
    assert HitsFrom(row, 0.4, ge, 3) == [];
    assert HitsFrom(row, 0.4, ge, 2) == [];
    assert HitsFrom(row, 0.4, ge, 1) == [(1, 0.5)];
  }
}
