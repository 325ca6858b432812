/** What `OmographModel.classify` returns: the path choice, the batched pairwise
    path and the per-group fallback path, with the tokenizer and the inference
    session replaced by an oracle that gives the raw output row of one
    (context, candidate) pair. */
module Classification {
  import opened Text
  import opened Seqs
  import opened Grouping
  import opened Selection

  /** The exceptions the code raises instead of returning winners. */
  datatype ClassifyError =
    | BatchLengthMismatch  // the batched tokenizer call is given more contexts than candidates or fewer (the tokenizer raises)
    | IndexOutOfRange      // `t[0]` on an empty context slice, or pairing a list of odd length

  datatype Result<T> = Success(value: T) | Failure(error: ClassifyError)

  /** `all([i % 2 == 0 for i in num_hypotheses])`: the batched path is taken. */
  predicate AllEven(nums: seq<int>)
  {
    forall i :: 0 <= i < |nums| ==> nums[i] % 2 == 0
  }

  /** The preprocessing applied to every context. */
  function PreprocessAll(texts: seq<string>): seq<string>
  {
    seq(|texts|, i requires 0 <= i < |texts| => Preprocess(texts[i]))
  }

  /** The fallback path's score of each candidate of a group against one context. */
  function Scores(context: string, group: seq<string>, logits: (string, string) -> Logits): seq<real>
  {
    seq(|group|, j requires 0 <= j < |group| => TrueMargin(logits(context, group[j])))
  }

  /** The fallback path's choice for one group: the candidate at the first maximum score. */
  function Winner(context: string, group: seq<string>, logits: (string, string) -> Logits): (w: string)
    requires group != []
    ensures w in group
  {
    group[FirstMax(Scores(context, group, logits))]
  }

  /** The fallback path: group the candidates, realign the contexts to the groups,
      and pick one winner per group against the group's first context. */
  function FallbackWinners(pre: seq<string>, hyps: seq<string>, logits: (string, string) -> Logits,
                           special: seq<string>): (r: Result<seq<string>>)
    ensures r.Success? ==> |r.value| == |Groups(hyps, special)|
    ensures r.Success? ==> forall k :: 0 <= k < |r.value| ==> r.value[k] in Groups(hyps, special)[k]
  {
    var groups := Groups(hyps, special);
    GroupWinners(groups, Realign(groups, pre), logits)
  }

  /** The loop over `zip(grouped_h, grouped_t)`: the winner of every group against
      the first context of its slice, or the error `t[0]` raises on an empty slice. */
  function GroupWinners(groups: seq<seq<string>>, contexts: seq<seq<string>>, logits: (string, string) -> Logits): (r: Result<seq<string>>)
    requires |contexts| == |groups|
    requires forall k :: 0 <= k < |groups| ==> groups[k] != []
    ensures r.Success? <==> forall k :: 0 <= k < |groups| ==> contexts[k] != []
    ensures r.Success? ==> |r.value| == |groups|
    ensures r.Success? ==> forall k :: 0 <= k < |r.value| ==> r.value[k] in groups[k]
  {
    if exists k :: 0 <= k < |groups| && contexts[k] == [] then Failure(IndexOutOfRange)
    else Success(seq(|groups|, k requires 0 <= k < |groups| => Winner(contexts[k][0], groups[k], logits)))
  }

  /** Column 1 of every row of the batched output. The code normalises the whole
      output matrix at once (one maximum, one sum over all entries), which rescales
      every entry by the same positive factor after `exp`; comparing two entries of
      column 1 therefore compares the raw logits. */
  function BatchedTrueLogits(pre: seq<string>, hyps: seq<string>, logits: (string, string) -> Logits): seq<real>
    requires |pre| == |hyps|
  {
    seq(|hyps|, i requires 0 <= i < |hyps| => logits(pre[i], hyps[i]).trueLogit)
  }

  /** The batched path as written: one inference over all pairs, then candidates and
      scores paired two by two and the better of each pair taken. */
  function BatchedWinners(pre: seq<string>, hyps: seq<string>, logits: (string, string) -> Logits): (r: Result<seq<string>>)
    ensures r.Success? <==> |pre| == |hyps| && |hyps| % 2 == 0
    ensures r.Success? ==> |r.value| == |hyps| / 2
    ensures r.Success? ==> forall i :: 0 <= i < |r.value| ==> r.value[i] == hyps[2 * i] || r.value[i] == hyps[2 * i + 1]
  {
    if |pre| != |hyps| then Failure(BatchLengthMismatch)
    else if |hyps| % 2 != 0 then Failure(IndexOutOfRange)
    else
      var candidatePairs := Pairs(hyps);
      var scorePairs := Pairs(BatchedTrueLogits(pre, hyps, logits));
      Success(seq(|candidatePairs|, i requires 0 <= i < |candidatePairs| => PickFromPair(candidatePairs[i], scorePairs[i])))
  }

  /** `classify(texts, hypotheses, num_hypotheses)`. */
  function ClassifySpec(texts: seq<string>, hyps: seq<string>, nums: seq<int>,
                        logits: (string, string) -> Logits, special: seq<string>): (r: Result<seq<string>>)
    ensures r.Success? && AllEven(nums) ==> |r.value| == |hyps| / 2
    ensures r.Success? && !AllEven(nums) ==> |r.value| == |Groups(hyps, special)|
  {
    var pre := PreprocessAll(texts);
    if !AllEven(nums) then FallbackWinners(pre, hyps, logits, special)
    else BatchedWinners(pre, hyps, logits)
  }

  /** One odd entry of `num_hypotheses` sends the whole call down the fallback path;
      otherwise the batched path is taken. */
  lemma {:induction false} ClassifyChoosesPath(texts: seq<string>, hyps: seq<string>, nums: seq<int>,
                            logits: (string, string) -> Logits, special: seq<string>)
    ensures (exists i :: 0 <= i < |nums| && nums[i] % 2 != 0) ==>
      ClassifySpec(texts, hyps, nums, logits, special) == FallbackWinners(PreprocessAll(texts), hyps, logits, special)
    ensures (forall i :: 0 <= i < |nums| ==> nums[i] % 2 == 0) ==>
      ClassifySpec(texts, hyps, nums, logits, special) == BatchedWinners(PreprocessAll(texts), hyps, logits)
  {
  }

  /** The start of group `k` within a list of groups is before its end, which is
      within the total. */
  lemma {:induction false} TotalLenPrefix<T>(gs: seq<seq<T>>, k: nat)
    requires k < |gs|
    ensures TotalLen(gs[..k]) + |gs[k]| <= TotalLen(gs)
    decreases |gs|
  {
    var init := gs[..|gs| - 1];
    assert gs[..|gs|][..k] == gs[..k];
    if k < |init| {
      TotalLenPrefix(init, k);
      assert init[..k] == gs[..k];
    } else {
      assert init == gs[..k];
    }
  }

  /** Context slice `k` is empty exactly when the contexts run out before group `k`
      starts; otherwise its first element is the context at the group's start. */
  lemma RealignContext(groups: seq<seq<string>>, pre: seq<string>, k: nat)
    requires k < |groups| && groups[k] != []
    ensures var start := TotalLen(groups[..k]);
      (Realign(groups, pre)[k] == []) == (start >= |pre|)
      && (start < |pre| ==> Realign(groups, pre)[k][0] == pre[start])
  {
    RealignAt(groups, pre, k);
  }

  /** Every group starts inside the candidate list. */
  lemma GroupStartsInside(hyps: seq<string>, special: seq<string>, k: nat)
    requires k < |Groups(hyps, special)|
    ensures TotalLen(Groups(hyps, special)[..k]) < |hyps|
  {
    var groups := Groups(hyps, special);
    GroupsPartition(hyps, special);
    TotalLenFlatten(groups);
    TotalLenPrefix(groups, k);
    assert groups[k] != [];
  }

  /** The fallback path fails exactly when the contexts run out before some group
      starts. */
  lemma {:induction false} FallbackFailsExactly(pre: seq<string>, hyps: seq<string>,
                                                logits: (string, string) -> Logits, special: seq<string>)
    ensures var groups := Groups(hyps, special);
      FallbackWinners(pre, hyps, logits, special).Success?
        == (forall k :: 0 <= k < |groups| ==> TotalLen(groups[..k]) < |pre|)
  {
    var groups := Groups(hyps, special);
    var contexts := Realign(groups, pre);
    forall k | 0 <= k < |groups|
      ensures (contexts[k] == []) == (TotalLen(groups[..k]) >= |pre|)
    {
      assert groups[k] != [];
      RealignContext(groups, pre, k);
    }
  }

  /** With at least as many contexts as candidates the fallback path never fails. */
  lemma {:induction false} FallbackSucceeds(pre: seq<string>, hyps: seq<string>,
                                            logits: (string, string) -> Logits, special: seq<string>)
    requires |hyps| <= |pre|
    ensures FallbackWinners(pre, hyps, logits, special).Success?
  {
    var groups := Groups(hyps, special);
    forall k | 0 <= k < |groups| ensures TotalLen(groups[..k]) < |pre| {
      GroupStartsInside(hyps, special, k);
    }
    FallbackFailsExactly(pre, hyps, logits, special);
  }

  /** On success the fallback path returns one winner per group: the first-maximum
      candidate of the group, scored against the context at the group's first
      position. */
  lemma {:induction false} FallbackWinnersSpec(pre: seq<string>, hyps: seq<string>,
                                               logits: (string, string) -> Logits, special: seq<string>)
    requires FallbackWinners(pre, hyps, logits, special).Success?
    ensures var groups := Groups(hyps, special);
      var outs := FallbackWinners(pre, hyps, logits, special).value;
      |outs| == |groups|
      && forall k :: 0 <= k < |groups| ==>
           TotalLen(groups[..k]) < |pre|
           && outs[k] in groups[k]
           && outs[k] == groups[k][FirstMax(Scores(pre[TotalLen(groups[..k])], groups[k], logits))]
  {
    var groups := Groups(hyps, special);
    var contexts := Realign(groups, pre);
    var outs := FallbackWinners(pre, hyps, logits, special).value;
    forall k | 0 <= k < |groups|
      ensures TotalLen(groups[..k]) < |pre|
      ensures outs[k] == groups[k][FirstMax(Scores(pre[TotalLen(groups[..k])], groups[k], logits))]
    {
      assert groups[k] != [];
      RealignContext(groups, pre, k);
      assert contexts[k] != [];
    }
  }

  /** The batched path as written: it fails exactly on a length mismatch or an odd
      number of candidates; otherwise result `i` is candidate `2i` when its "fits"
      logit is at least that of candidate `2i+1` (ties go to the first), and
      candidate `2i+1` otherwise. */
  lemma {:induction false} BatchedWinnersSpec(pre: seq<string>, hyps: seq<string>, logits: (string, string) -> Logits)
    ensures BatchedWinners(pre, hyps, logits).Success? <==> |pre| == |hyps| && |hyps| % 2 == 0
    ensures BatchedWinners(pre, hyps, logits).Success? ==>
      var outs := BatchedWinners(pre, hyps, logits).value;
      |outs| == |hyps| / 2
      && forall i :: 0 <= i < |outs| ==>
           outs[i] == if logits(pre[2 * i], hyps[2 * i]).trueLogit >= logits(pre[2 * i + 1], hyps[2 * i + 1]).trueLogit
                      then hyps[2 * i] else hyps[2 * i + 1]
  {
  }

  /** The batched path with every output row normalised on its own, as the
      fallback path normalises its single row: pairs are compared by margin. */
  function RowwiseBatchedWinners(pre: seq<string>, hyps: seq<string>, logits: (string, string) -> Logits): (r: Result<seq<string>>)
    ensures r.Success? <==> |pre| == |hyps| && |hyps| % 2 == 0
    ensures r.Success? ==> |r.value| == |hyps| / 2
    ensures r.Success? ==> forall i :: 0 <= i < |r.value| ==> r.value[i] == hyps[2 * i] || r.value[i] == hyps[2 * i + 1]
  {
    if |pre| != |hyps| then Failure(BatchLengthMismatch)
    else if |hyps| % 2 != 0 then Failure(IndexOutOfRange)
    else
      var candidatePairs := Pairs(hyps);
      var margins := seq(|hyps|, i requires 0 <= i < |hyps| => TrueMargin(logits(pre[i], hyps[i])));
      var scorePairs := Pairs(margins);
      Success(seq(|candidatePairs|, i requires 0 <= i < |candidatePairs| => PickFromPair(candidatePairs[i], scorePairs[i])))
  }

  /** With row-wise normalisation the batched path agrees with the fallback path:
      when both candidates of an occurrence come with the same context, the winner
      of the pair is the fallback winner of the two-candidate group. */
  lemma {:induction false} RowwiseBatchedMatchesFallback(pre: seq<string>, hyps: seq<string>,
                                                         logits: (string, string) -> Logits)
    requires |pre| == |hyps| && |hyps| % 2 == 0
    requires forall i :: 0 <= i < |hyps| / 2 ==> pre[2 * i] == pre[2 * i + 1]
    ensures RowwiseBatchedWinners(pre, hyps, logits).Success?
    ensures var outs := RowwiseBatchedWinners(pre, hyps, logits).value;
      |outs| == |hyps| / 2
      && forall i :: 0 <= i < |outs| ==> outs[i] == Winner(pre[2 * i], [hyps[2 * i], hyps[2 * i + 1]], logits)
  {
    var outs := RowwiseBatchedWinners(pre, hyps, logits).value;
    forall i | 0 <= i < |outs|
      ensures outs[i] == Winner(pre[2 * i], [hyps[2 * i], hyps[2 * i + 1]], logits)
    {
      var group := [hyps[2 * i], hyps[2 * i + 1]];
      var a, b := TrueMargin(logits(pre[2 * i], hyps[2 * i])), TrueMargin(logits(pre[2 * i + 1], hyps[2 * i + 1]));
      PickFromPairIsFirstMax((hyps[2 * i], hyps[2 * i + 1]), (a, b));
      assert Scores(pre[2 * i], group, logits) == [a, b];
    }
  }

  /** A classifier output for the counterexample below: "за+мок" fits with
      probability about 0.99 on its own row (margin 5), "замо+к" about 0.02
      (margin -4), but the raw "fits" logit of "замо+к" is the larger one. */
  function DisputedLogits(context: string, candidate: string): Logits
  {
    if candidate == "за+мок" then Logits(0.0, 5.0) else Logits(10.0, 6.0)
  }

  /** The batched path as written can overturn the fallback path's choice for the
      same occurrence and context, while the row-wise batched path agrees with it. */
  lemma BatchedDisagreesWithFallback()
    ensures BatchedWinners(["Он купил замок.", "Он купил замок."], ["за+мок", "замо+к"], DisputedLogits)
         == Success(["замо+к"])
    ensures Winner("Он купил замок.", ["за+мок", "замо+к"], DisputedLogits) == "за+мок"
    ensures RowwiseBatchedWinners(["Он купил замок.", "Он купил замок."], ["за+мок", "замо+к"], DisputedLogits)
         == Success(["за+мок"])
  {
    var ctx := "Он купил замок.";
    var hyps := ["за+мок", "замо+к"];
    assert hyps[1][2] != hyps[0][2];
    var f := DisputedLogits;
    assert f(ctx, hyps[0]) == Logits(0.0, 5.0);
    assert f(ctx, hyps[1]) == Logits(10.0, 6.0);
    var sc := Scores(ctx, hyps, f);
    assert sc[0] == 5.0;
    assert sc[1] == -4.0;
    assert Pairs(hyps) == [("за+мок", "замо+к")];
    assert sc[..1] == [5.0];
    var pre := [ctx, ctx];
    var raw := BatchedTrueLogits(pre, hyps, f);
    assert raw[0] == 5.0 && raw[1] == 6.0;
    assert Pairs(raw) == [(5.0, 6.0)];
    var margins := seq(|hyps|, i requires 0 <= i < |hyps| => TrueMargin(f(pre[i], hyps[i])));
    assert margins[0] == 5.0 && margins[1] == -4.0;
    assert Pairs(margins) == [(5.0, -4.0)];
    var asWritten := BatchedWinners(pre, hyps, f).value;
    assert |asWritten| == 1 && asWritten[0] == PickFromPair(Pairs(hyps)[0], Pairs(raw)[0]);
    assert asWritten == ["замо+к"];
    var rowwise := RowwiseBatchedWinners(pre, hyps, f).value;
    assert |rowwise| == 1 && rowwise[0] == PickFromPair(Pairs(hyps)[0], Pairs(margins)[0]);
    assert rowwise == ["за+мок"];
  }
}
