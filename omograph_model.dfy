/** The homograph classifier object: the fixed list of special words, and the
    grouping, realignment and classification steps written as the loops the object
    runs, each proved against the specification functions of `Grouping` and
    `Classification`. */
module Omograph {
  import opened Text
  import opened Seqs
  import opened Grouping
  import opened Selection
  import opened Classification

  /** Base forms whose runs of more than 3 candidates are cut into threes rather than
      pairs: forms the default rule would otherwise merge wrongly. */
  const SpecialWords: seq<string> := [
    "балчуга", "вертела", "волоки", "волоку", "воронью", "выбродите", "вывозите",
    "выносите", "выноситесь", "выходите", "железы", "начала", "округа", "перепела",
    "развитая", "развитого", "развитое", "развитой", "развитом", "развитому",
    "развитою", "развитую", "развитые", "развитым", "развитыми", "развитых", "сторожа",
    "сторожи", "сторожу", "удало", "начался", "началась", "началось", "бутиках",
    "ожила", "создало", "коротки", "проклята", "роженица", "роженицы", "рожениц",
    "роженице", "роженицам", "роженицу", "роженицей", "роженицею", "роженицами",
    "роженицах", "пристава", "приставов", "приставам", "приставами", "приставах",
    "пережитое", "пережитого", "пережитые", "пережитых", "пережитому", "пережитым",
    "пережитыми", "пережитом", "нипоняла"
  ]

  class OmographModel {
    /** Set once at construction and only read afterwards. */
    const specialWords: seq<string>

    constructor ()
      ensures specialWords == SpecialWords
    {
      specialWords := SpecialWords;
    }

    /** `group_words`: one scan over the candidates that keeps the open run and its
        base form, and passes each run through the split policy when it closes. */
    method GroupWords(words: seq<string>) returns (result: seq<seq<string>>)
      ensures result == Groups(words, specialWords)
      ensures words == [] ==> result == []
    {
      if words == [] {
        GroupsEmpty(specialWords);
        return [];
      }
      result := [];
      var currentGroup := [words[0]];
      var currentBase := BaseForm(words[0]);
      ghost var closed: seq<seq<string>> := [];
      var i := 1;
      while i < |words|
        invariant 1 <= i <= |words|
        invariant forall k :: 0 <= k < |closed| ==> closed[k] != []
        invariant currentGroup != [] && currentBase == BaseForm(currentGroup[0])
        invariant Scan(closed, currentGroup, words[i..]) == Runs(words)
        invariant result == SplitAll(closed, specialWords)
      {
        var word := words[i];
        var baseWord := BaseForm(word);
        assert words[i..][1..] == words[i + 1..];
        if baseWord == currentBase {
          currentGroup := currentGroup + [word];
        } else {
          assert SplitAll(closed + [currentGroup], specialWords) == result + SplitRun(currentGroup, specialWords) by {
            SplitAllSnoc(closed, currentGroup, specialWords);
          }
          var pieces := SplitGroup(currentGroup, currentBase);
          result := result + pieces;
          closed := closed + [currentGroup];
          currentGroup := [word];
          currentBase := baseWord;
        }
        i := i + 1;
      }
      assert Groups(words, specialWords) == result + SplitRun(currentGroup, specialWords) by {
        assert words[i..] == [];
        SplitAllSnoc(closed, currentGroup, specialWords);
      }
      var pieces := SplitGroup(currentGroup, currentBase);
      result := result + pieces;
    }

    /** The split policy `group_words` applies to a run when it closes, and once more
        to the last run after the scan; the source repeats this policy inline at
        both places, and it is written once here, proved equal to `SplitRun`. */
    method SplitGroup(group: seq<string>, base: string) returns (pieces: seq<seq<string>>)
      requires group != [] && base == BaseForm(group[0])
      ensures pieces == SplitRun(group, specialWords)
      ensures Flatten(pieces) == group
    {
      SplitRunPolicy(group, specialWords);
      if base in specialWords && |group| > 3 {
        pieces := Chunks(group, 3);
      } else if |group| > 3 && |group| % 2 == 0 {
        pieces := Chunks(group, 2);
      } else {
        pieces := [group];
      }
    }

    /** `transfer_grouping`: cut `targetList` into consecutive slices as long as the
        groups, advancing the start index group by group. */
    method TransferGrouping<A, B>(groupedList: seq<seq<A>>, targetList: seq<B>) returns (newGroupedList: seq<seq<B>>)
      ensures newGroupedList == Realign(groupedList, targetList)
      ensures |newGroupedList| == |groupedList|
    {
      newGroupedList := [];
      var startIndex: nat := 0;
      var i := 0;
      while i < |groupedList|
        invariant 0 <= i <= |groupedList|
        invariant newGroupedList == Realign(groupedList[..i], targetList)
        invariant startIndex == TotalLen(groupedList[..i])
      {
        var group := groupedList[i];
        var groupLength := |group|;
        var newGroup := Slice(targetList, startIndex, startIndex + groupLength);
        newGroupedList := newGroupedList + [newGroup];
        startIndex := startIndex + groupLength;
        assert groupedList[..i + 1][..i] == groupedList[..i];
        i := i + 1;
      }
      assert groupedList[..i] == groupedList;
    }

    /** `classify`: preprocess the contexts, then take the fallback path if any
        occurrence has an odd number of candidates and the batched path otherwise.
        `logits` gives the classifier's raw output row for one (context, candidate)
        pair, standing for the tokenizer and the inference session. */
    method Classify(texts: seq<string>, hypotheses: seq<string>, numHypotheses: seq<int>,
                    logits: (string, string) -> Logits)
      returns (outs: Result<seq<string>>)
      ensures outs == ClassifySpec(texts, hypotheses, numHypotheses, logits, specialWords)
    {
      var preprocessedTexts := PreprocessAll(texts);
      if !AllEven(numHypotheses) {
        outs := ClassifyEach(preprocessedTexts, hypotheses, logits);
      } else {
        outs := ClassifyBatch(preprocessedTexts, hypotheses, logits);
      }
    }

    /** The fallback path: every candidate of a group is scored on its own against
        the group's first context, and the first candidate with the best score wins. */
    method ClassifyEach(preprocessedTexts: seq<string>, hypotheses: seq<string>, logits: (string, string) -> Logits)
      returns (outs: Result<seq<string>>)
      ensures outs == FallbackWinners(preprocessedTexts, hypotheses, logits, specialWords)
    {
      var groupedH := GroupWords(hypotheses);
      var groupedT := TransferGrouping(groupedH, preprocessedTexts);
      outs := PickWinners(groupedH, groupedT, logits);
    }

    /** The loop over the groups and their context slices of the fallback path. */
    method PickWinners(groupedH: seq<seq<string>>, groupedT: seq<seq<string>>, logits: (string, string) -> Logits)
      returns (outs: Result<seq<string>>)
      requires |groupedT| == |groupedH|
      requires forall k :: 0 <= k < |groupedH| ==> groupedH[k] != []
      ensures outs == GroupWinners(groupedH, groupedT, logits)
    {
      var winners: seq<string> := [];
      var g := 0;
      while g < |groupedH|
        invariant 0 <= g <= |groupedH|
        invariant |winners| == g
        invariant forall k :: 0 <= k < g ==> groupedT[k] != []
        invariant forall k :: 0 <= k < g ==> winners[k] == Winner(groupedT[k][0], groupedH[k], logits)
      {
        var h, t := groupedH[g], groupedT[g];
        if t == [] {
          return Failure(IndexOutOfRange);
        }
        var w := BestCandidate(t[0], h, logits);
        winners := winners + [w];
        g := g + 1;
      }
      assert winners == seq(|groupedH|, k requires 0 <= k < |groupedH| => Winner(groupedT[k][0], groupedH[k], logits));
      outs := Success(winners);
    }

    /** One group of the fallback path: each candidate scored on its own against the
        context, then `probs.index(max(probs))`. */
    method BestCandidate(context: string, group: seq<string>, logits: (string, string) -> Logits)
      returns (w: string)
      requires group != []
      ensures w == Winner(context, group, logits)
    {
      var probs: seq<real> := [];
      var j := 0;
      while j < |group|
        invariant 0 <= j <= |group|
        invariant |probs| == j
        invariant forall q :: 0 <= q < j ==> probs[q] == TrueMargin(logits(context, group[q]))
      {
        probs := probs + [TrueMargin(logits(context, group[j]))];
        j := j + 1;
      }
      assert probs == Scores(context, group, logits);
      var best := FirstMaxIndex(probs);
      w := group[best];
    }

    /** The batched path: one inference over all (context, candidate) pairs, then
        candidates and "fits" scores paired two by two, the better of each pair
        winning and a tie going to the first. */
    method ClassifyBatch(preprocessedTexts: seq<string>, hypotheses: seq<string>, logits: (string, string) -> Logits)
      returns (outs: Result<seq<string>>)
      ensures outs == BatchedWinners(preprocessedTexts, hypotheses, logits)
    {
      if |preprocessedTexts| != |hypotheses| {
        return Failure(BatchLengthMismatch);
      }
      var outputs := seq(|hypotheses|, i requires 0 <= i < |hypotheses| => logits(preprocessedTexts[i], hypotheses[i]));
      if |hypotheses| % 2 != 0 {
        return Failure(IndexOutOfRange);
      }
      var hypothesisPairs := Pairs(hypotheses);
      var hypothesesProbs: seq<real> := [];
      var i := 0;
      while i < |preprocessedTexts|
        invariant 0 <= i <= |preprocessedTexts|
        invariant |hypothesesProbs| == i
        invariant forall q :: 0 <= q < i ==> hypothesesProbs[q] == outputs[q].trueLogit
      {
        hypothesesProbs := hypothesesProbs + [outputs[i].trueLogit];
        i := i + 1;
      }
      assert hypothesesProbs == BatchedTrueLogits(preprocessedTexts, hypotheses, logits);
      var probPairs := Pairs(hypothesesProbs);
      var winners: seq<string> := [];
      var p := 0;
      while p < |hypothesisPairs|
        invariant 0 <= p <= |hypothesisPairs|
        invariant |winners| == p
        invariant forall q :: 0 <= q < p ==> winners[q] == PickFromPair(hypothesisPairs[q], probPairs[q])
      {
        winners := winners + [PickFromPair(hypothesisPairs[p], probPairs[p])];
        p := p + 1;
      }
      assert winners == seq(|hypothesisPairs|, q requires 0 <= q < |hypothesisPairs| => PickFromPair(hypothesisPairs[q], probPairs[q]));
      outs := Success(winners);
    }
  }
}
