/** Choosing the winning candidate from scores: the classifier's raw output for one
    (context, candidate) pair, Python's `probs.index(max(probs))`, and the pairwise
    choice of the batched path. */
module Selection {

  /** One row of the classifier's raw output: the logit of "the candidate does not
      fit the context" (column 0) and of "it fits" (column 1). */
  datatype Logits = Logits(falseLogit: real, trueLogit: real)

  /** The quantity that orders candidates when one output row is normalised on its
      own: softmax over the row gives the "fits" column the probability
      1 / (1 + exp(falseLogit - trueLogit)), a strictly increasing function of this
      margin, so comparing probabilities compares margins. */
  function TrueMargin(l: Logits): (m: real)
    ensures (m > 0.0) == (l.trueLogit > l.falseLogit)
    ensures (m == 0.0) == (l.trueLogit == l.falseLogit)
  {
    l.trueLogit - l.falseLogit
  }

  /** `k` is the first index holding the maximum of `xs`. */
  predicate IsFirstMax(xs: seq<real>, k: int)
  {
    0 <= k < |xs|
    && (forall j :: 0 <= j < |xs| ==> xs[j] <= xs[k])
    && (forall j :: 0 <= j < k ==> xs[j] < xs[k])
  }

  /** The first index of the maximum of a non-empty list of scores. */
  function FirstMax(xs: seq<real>): (k: nat)
    requires |xs| > 0
    ensures IsFirstMax(xs, k)
    decreases |xs|
  {
    if |xs| == 1 then 0
    else
      var k := FirstMax(xs[..|xs| - 1]);
      if xs[|xs| - 1] > xs[k] then |xs| - 1 else k
  }

  /** The first index of the maximum is unique. */
  lemma FirstMaxUnique(xs: seq<real>, k: int)
    requires IsFirstMax(xs, k)
    ensures k == FirstMax(xs)
  {
  }

  /** Python's built-in `max` on a non-empty list. */
  method MaxOf(xs: seq<real>) returns (m: real)
    requires |xs| > 0
    ensures m in xs
    ensures forall j :: 0 <= j < |xs| ==> xs[j] <= m
  {
    m := xs[0];
    var i := 1;
    while i < |xs|
      invariant 1 <= i <= |xs|
      invariant m in xs[..i]
      invariant forall j :: 0 <= j < i ==> xs[j] <= m
    {
      if xs[i] > m {
        m := xs[i];
      }
      i := i + 1;
    }
    assert xs[..i] == xs;
  }

  /** Python's `list.index`: the first position holding `v`. */
  method IndexOf(xs: seq<real>, v: real) returns (k: nat)
    requires v in xs
    ensures k < |xs| && xs[k] == v
    ensures forall j :: 0 <= j < k ==> xs[j] != v
  {
    k := 0;
    while xs[k] != v
      invariant k < |xs|
      invariant forall j :: 0 <= j < k ==> xs[j] != v
      decreases |xs| - k
    {
      k := k + 1;
    }
  }

  /** `probs.index(max(probs))`: the index of the first maximum. */
  method FirstMaxIndex(probs: seq<real>) returns (k: nat)
    requires |probs| > 0
    ensures IsFirstMax(probs, k) && k == FirstMax(probs)
  {
    var m := MaxOf(probs);
    k := IndexOf(probs, m);
    FirstMaxUnique(probs, k);
  }

  /** `pair1[pair2.index(max(pair2))]`: the first candidate of the pair unless the
      second one scores strictly higher. */
  function PickFromPair<T>(candidates: (T, T), scores: (real, real)): (w: T)
    ensures w == candidates.0 || w == candidates.1
  {
    if scores.0 >= scores.1 then candidates.0 else candidates.1
  }

  /** The pairwise choice is the first-maximum choice over a two-element list, so
      both paths break ties the same way: toward the first candidate. */
  lemma PickFromPairIsFirstMax<T>(candidates: (T, T), scores: (real, real))
    ensures PickFromPair(candidates, scores)
         == [candidates.0, candidates.1][FirstMax([scores.0, scores.1])]
  {
    var xs := [scores.0, scores.1];
    assert xs[..1] == [scores.0];
  }
}
