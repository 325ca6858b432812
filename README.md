# Homograph classifier of ruaccent, modelled in Dafny

`OmographModel` in `ruaccent/omograph_model.py` chooses one stress variant for each
occurrence of a Russian homograph. It receives three things:

- a flat list of stress-marked candidates such as `"за+мок"` and `"замо+к"`, where
  `+` follows the stressed vowel;
- the context sentence of each candidate;
- the number of candidates per occurrence.

It works in four steps:

1. It cleans the contexts by deleting whitespace that stands before punctuation.
2. It cuts the candidate list into occurrence groups (`group_words`). A group is a
   run of consecutive candidates with the same base form (`+` removed). A run longer
   than three is split into threes when its base form is on a fixed list of special
   words, and into pairs when its length is even; every other run stays whole.
3. It re-slices the contexts to the same group boundaries (`transfer_grouping`).
4. It asks a neural classifier how well each candidate fits its context and keeps
   the best candidate. There are two paths. The per-group fallback path scores each
   candidate on its own. The batched path scores everything at once and picks the
   better of each consecutive pair.

The project contains these modules:

- `Text` (`text.dfy`): the base form and the context clean-up. The clean-up is
  proved equal to an independent left-to-right scan. The module also proves that the
  clean-up deletes only whitespace, removes every space before a punctuation mark,
  and is idempotent.
- `Seqs` (`seqs.dfy`): Python's chunking comprehension, slicing with truncation, and
  pairing.
- `Grouping` (`grouping.dfy`): the specification of `group_words` and
  `transfer_grouping`. The runs are the result of the same scan the loop performs.
  The groups partition the input. Every group is non-empty and has one base form.
  Neighbouring runs have different base forms.
- `Selection` (`selection.dfy`): first-index-of-maximum, which is Python's
  `probs.index(max(probs))`, and the pairwise choice.
- `Classification` (`classification.dfy`): what `classify` returns on each path,
  including its error cases.
- `Omograph` (`omograph_model.dfy`): the class `OmographModel`. It holds the
  special-word list, and its loop methods (`GroupWords`, `TransferGrouping`,
  `Classify` and its helpers) are each proved equal to the specification functions
  above.

The tokenizer and the inference session are replaced by an oracle
`logits(context, candidate)`. It gives the classifier's raw output row
`Logits(falseLogit, trueLogit)` for one (context, candidate) pair.

The softmax is not computed. The model uses only the ordering it induces:

- On the fallback path, softmax is applied to one 1×2 row. The "fits" probability
  then grows strictly with `trueLogit - falseLogit` (`TrueMargin`), so candidates are
  compared by that margin.
- On the batched path, the code applies `softmax` to the whole N×2 output matrix.
  There is one maximum and one sum over all entries. Every entry is therefore scaled
  by the same positive factor, and candidates are compared by their raw `trueLogit`.

Normalising each row on its own, as the fallback path does, would be the natural
reading of the batched path. The code normalises the whole matrix, and the model
follows the code (see Findings).

## Model

| member | source | states |
|---|---|---|
| Omograph.OmographModel.constructor | ruaccent/omograph_model.py:8-9 | The special-word list is the fixed list of 62 base forms. |
| Omograph.OmographModel.GroupWords | ruaccent/omograph_model.py:20-55 | The scan loop returns exactly `Groups(words)`, and `[]` for an empty list. |
| Omograph.OmographModel.SplitGroup | ruaccent/omograph_model.py:34-41 | The policy branches applied to a closed run give `SplitRun` of the run, and concatenating the pieces gives the run back. |
| Omograph.OmographModel.TransferGrouping | ruaccent/omograph_model.py:57-65 | The slicing loop returns exactly `Realign(groups, target)`, with one slice per group. |
| Omograph.OmographModel.Classify | ruaccent/omograph_model.py:67-108 | The method returns exactly `ClassifySpec`: preprocessing, then the path chosen by the parity of `num_hypotheses`. |
| Omograph.OmographModel.ClassifyEach | ruaccent/omograph_model.py:73-89 | The fallback path is grouping, then realignment, then the per-group winners, which is `FallbackWinners`. |
| Omograph.OmographModel.PickWinners | ruaccent/omograph_model.py:78-89 | The loop over the groups and their context slices returns one winner per group. It fails exactly when some slice is empty, because `t[0]` raises. |
| Omograph.OmographModel.BestCandidate | ruaccent/omograph_model.py:79-88 | Scoring every candidate against the context and taking `probs.index(max(probs))` gives `Winner`. |
| Omograph.OmographModel.ClassifyBatch | ruaccent/omograph_model.py:91-108 | The batched loops return exactly `BatchedWinners`. They fail on an odd count, and on a context/candidate count mismatch, which the batched tokenizer call at line 91 rejects. |
| Text.BaseForm | ruaccent/omograph_model.py:26 | The base form contains no `+` and is no longer than the word. |
| Text.BaseFormConcat | ruaccent/omograph_model.py:29 | Removing `+` distributes over concatenation, so every other character is kept in order. |
| Text.BaseFormUnmarked | ruaccent/omograph_model.py:29 | A string without `+` is its own base form. |
| Text.Preprocess | ruaccent/omograph_model.py:69 | The cleaned text is no longer than the original and contains only characters of the original; its partner lemmas below pin down exactly which characters go. |
| Text.PreprocessIsScan | ruaccent/omograph_model.py:69 | The deletion rule equals an independent scan that drops a pending whitespace run exactly when a punctuation mark follows it. |
| Text.PreprocessKeepsNonSpace | ruaccent/omograph_model.py:69 | Preprocessing removes only whitespace: the non-whitespace characters are unchanged and in order. |
| Text.PreprocessRemovesSpaceBeforePunct | ruaccent/omograph_model.py:69 | After preprocessing, no whitespace character directly precedes `, . ? ! : ; …`. |
| Text.PreprocessFixesClean | ruaccent/omograph_model.py:69 | A text with no whitespace before punctuation is returned unchanged. |
| Text.PreprocessIdempotent | ruaccent/omograph_model.py:69 | Preprocessing twice equals preprocessing once. |
| Seqs.Chunks | ruaccent/omograph_model.py:35 | Every chunk has between 1 and n elements, all chunks but the last have exactly n, and every element comes from the list. |
| Seqs.ChunksFlatten | ruaccent/omograph_model.py:35 | Concatenating the chunks gives the list back. |
| Seqs.ChunkAt | ruaccent/omograph_model.py:35 | Chunk k is the slice `s[k*n : k*n+n]`, truncated at the end of the list. |
| Seqs.Slice | ruaccent/omograph_model.py:62 | A Python slice past the end is truncated. Its length and its elements are those of the target from the start index. |
| Seqs.Pairs | ruaccent/omograph_model.py:97-98 | An even-length list gives half as many pairs; `UnpairPairs` proves the pairing loses nothing. |
| Seqs.UnpairPairs | ruaccent/omograph_model.py:97-98 | Pairing consecutive elements of an even-length list drops, duplicates and reorders nothing. |
| Grouping.Scan | ruaccent/omograph_model.py:28-44 | Every run the scan produces is non-empty, and it produces at least one run more than the runs already closed. |
| Grouping.Runs | ruaccent/omograph_model.py:21-32 | There are no runs exactly when there are no words, and every run is non-empty. |
| Grouping.RunsFlatten | ruaccent/omograph_model.py:24-44 | Concatenating the runs gives the word list back. |
| Grouping.RunsUniform | ruaccent/omograph_model.py:25-32 | All words of a run share one base form. |
| Grouping.RunsMaximal | ruaccent/omograph_model.py:31-44 | Two neighbouring runs never share a base form, so the runs are maximal. |
| Grouping.SplitRun | ruaccent/omograph_model.py:34-41 | Every piece of a split run is non-empty. |
| Grouping.SplitRunPolicy | ruaccent/omograph_model.py:34-41 | A special run longer than 3 gives ⌈len/3⌉ chunks of 3, with the last of 1 to 3. A non-special run longer than 3 of even length gives len/2 chunks of exactly 2. Any other run stays whole. Concatenating the pieces gives the run back. |
| Grouping.ChunksSizes | ruaccent/omograph_model.py:35-38 | For sizes 2 and 3 there are ⌈len/n⌉ chunks, and all are full when n divides the length. |
| Grouping.SplitAll | ruaccent/omograph_model.py:34-53 | Splitting non-empty runs gives non-empty groups. |
| Grouping.SplitAllUniform | ruaccent/omograph_model.py:34-53 | Splitting runs of one base form gives groups of one base form. |
| Grouping.SplitAllFlatten | ruaccent/omograph_model.py:34-53 | Splitting all runs keeps their concatenation. |
| Grouping.Groups | ruaccent/omograph_model.py:20-55 | Every group is non-empty. |
| Grouping.GroupsEmpty | ruaccent/omograph_model.py:21-22 | An empty candidate list has no groups. |
| Grouping.GroupsPartition | ruaccent/omograph_model.py:24-55 | Concatenating the groups in order gives back the candidate list exactly. |
| Grouping.GroupsUniform | ruaccent/omograph_model.py:25-32 | All candidates of a group share one base form. |
| Grouping.TotalLenFlatten | ruaccent/omograph_model.py:64 | The sum of the group lengths is the length of their concatenation. |
| Grouping.Realign | ruaccent/omograph_model.py:57-65 | There is one slice per group. |
| Grouping.RealignAt | ruaccent/omograph_model.py:59-64 | Slice k starts at the total length of the groups before it, is as long as group k, and is truncated at the end of the target. |
| Grouping.RealignFlatten | ruaccent/omograph_model.py:57-65 | Concatenating the slices gives the target's prefix as long as all groups together, or the whole target if it is shorter. |
| Grouping.RealignLengths | ruaccent/omograph_model.py:57-65 | When the target is long enough, every slice is exactly as long as its group. |
| Selection.TrueMargin | ruaccent/omograph_model.py:84 | The margin is positive exactly when the "fits" logit exceeds the "does not fit" logit, and zero exactly when they are equal: the row's "fits" probability is above, or at, one half. |
| Selection.FirstMax | ruaccent/omograph_model.py:88 | The result is an index holding the maximum, and no earlier index holds the maximum. |
| Selection.MaxOf | ruaccent/omograph_model.py:88 | Python's `max` returns an element of the list that is at least every element. |
| Selection.IndexOf | ruaccent/omograph_model.py:88 | `list.index(v)` returns the first position holding `v`. |
| Selection.FirstMaxIndex | ruaccent/omograph_model.py:88 | `probs.index(max(probs))` is the first index of the maximum. |
| Selection.PickFromPair | ruaccent/omograph_model.py:107 | The pairwise choice returns one of the two candidates. |
| Selection.PickFromPairIsFirstMax | ruaccent/omograph_model.py:107 | The pairwise choice is the first-maximum choice over a two-element list, so ties go to the first candidate on both paths. |
| Classification.Winner | ruaccent/omograph_model.py:88 | The winner of a group is a member of the group. |
| Classification.ClassifySpec | ruaccent/omograph_model.py:67-108 | On success the batched path gives one result per pair of candidates and the fallback path one result per group. |
| Classification.FallbackWinners | ruaccent/omograph_model.py:73-89 | On success there is one winner per group, and winner k is a member of group k. |
| Classification.GroupWinners | ruaccent/omograph_model.py:78-89 | The loop succeeds exactly when no context slice is empty; it then gives one winner per group, each a member of its group. |
| Classification.BatchedWinners | ruaccent/omograph_model.py:91-108 | The batched path succeeds exactly when the counts agree and are even; it then gives len/2 results, result i being candidate 2i or candidate 2i+1. |
| Classification.RowwiseBatchedWinners | ruaccent/omograph_model.py:91-108 | The corrected batched path has the same success condition and shape as the path as written: len/2 results, result i being candidate 2i or 2i+1. |
| Classification.ClassifyChoosesPath | ruaccent/omograph_model.py:71 | If some entry of `num_hypotheses` is odd, the fallback path is taken. Otherwise the batched path is taken. |
| Classification.TotalLenPrefix | ruaccent/omograph_model.py:59-64 | Group k ends within the total length of all groups. |
| Classification.RealignContext | ruaccent/omograph_model.py:81 | The context slice of group k is empty exactly when the contexts run out before the group starts. Otherwise `t[0]` is the context at the group's start. |
| Classification.GroupStartsInside | ruaccent/omograph_model.py:20-55 | Every group starts before the end of the candidate list. |
| Classification.FallbackFailsExactly | ruaccent/omograph_model.py:77-81 | The fallback path succeeds exactly when every group starts inside the context list. |
| Classification.FallbackSucceeds | ruaccent/omograph_model.py:77-81 | With at least as many contexts as candidates, the fallback path never fails. |
| Classification.FallbackWinnersSpec | ruaccent/omograph_model.py:73-89 | On success there is one result per group. Result k is a member of group k: the one at the first maximum score against the context at the group's first position. |
| Classification.BatchedWinnersSpec | ruaccent/omograph_model.py:91-108 | The batched path succeeds exactly when the counts agree and are even. It then gives len/2 results. Result i is candidate 2i if its "fits" logit is at least that of candidate 2i+1, and candidate 2i+1 otherwise. |
| Classification.RowwiseBatchedMatchesFallback | ruaccent/omograph_model.py:95-107 | With row-wise normalisation, the batched winner of every pair with one context is the fallback winner of that two-candidate group. |
| Classification.BatchedDisagreesWithFallback | ruaccent/omograph_model.py:95-107 | Concrete input: the batched path as written picks `замо+к`, while the fallback rule and the row-wise batched path pick `за+мок`. |

## Left out

- `load` (`ruaccent/omograph_model.py:12-14`) is left out. It builds the ONNX session
  and loads the tokenizer from files: foreign library calls and file I/O.
- `softmax` (`ruaccent/omograph_model.py:16-18`) is floating-point numpy arithmetic
  and is not computed. Only the order it induces is modelled: margins on the fallback
  path and raw "fits" logits on the batched path, as explained above. The model
  uses exact real numbers. It does not capture the case where `exp` underflows or
  rounds two different scores to the same float, which would turn a strict
  comparison into a tie.
- The tokenizer, `session.run` and the `int64` conversion
  (`ruaccent/omograph_model.py:81-83, 91-94`) are replaced by the oracle `logits`.
  The oracle takes the context and the candidate, so truncation to 512 tokens is
  part of it. The model assumes that a row of the padded batch equals the row of the
  same pair scored alone.
- The batched tokenizer call (`ruaccent/omograph_model.py:91`) is assumed to
  raise when it is given more contexts than candidates or fewer; the model writes
  that failure as `BatchLengthMismatch`. The tokenizer library is not part of this
  model, so this behaviour is an assumption about that library.
- Classify: on an empty batch the model returns an empty result. What the tokenizer
  and the session do with an empty input is not modelled.
- How many inference calls each path makes is not modelled, only what it returns.
- The regular-expression engine is not modelled. Its effect on line 69 is written
  as the character-level function `Text.Preprocess` and checked against a second,
  scanning definition.
- `test.py` is not part of this model. It is a driver script doing file I/O through
  code outside this class.

## Findings

| source | as written | input that shows it | evidently intended | confidence | as-written member | corrected member |
|---|---|---|---|---|---|---|
| ruaccent/omograph_model.py:95 | `self.softmax(outputs)` normalises the whole N×2 batch output at once. The pairwise comparison at lines 104-107 therefore compares raw "fits" logits of different rows, ignoring each row's "does not fit" logit. | context "Он купил замок." twice, candidates `за+мок` with logits (0, 5) and `замо+к` with logits (10, 6): the batched path picks `замо+к` (6 > 5), while the per-row probabilities are about 0.99 for `за+мок` and 0.02 for `замо+к` | Each output row normalised on its own, as on the fallback path (line 84), so that both paths agree on a two-candidate occurrence. | medium, not executed | Classification.BatchedDisagreesWithFallback | Classification.RowwiseBatchedMatchesFallback |

`Classify` and `ClassifyBatch` keep the behaviour as written.
`Classification.RowwiseBatchedWinners` is the corrected batched path, proved to agree
with the fallback rule in `Classification.RowwiseBatchedMatchesFallback`.
