/** How the flat list of candidate variants is cut into occurrence groups, and how a
    parallel list is re-sliced to the same group boundaries. The functions here are
    the specification the loops of `OmographModel.GroupWords` and
    `OmographModel.TransferGrouping` are proved against. */
module Grouping {
  import opened Text
  import opened Seqs

  /** A group as the classifier needs it: non-empty, every member with one base form. */
  predicate Uniform(g: seq<string>)
  {
    g != [] && forall i :: 0 <= i < |g| ==> BaseForm(g[i]) == BaseForm(g[0])
  }

  /** The scan over the remaining words with its state: the runs already closed and
      the open run. A word with the open run's base form joins it; any other word
      closes it and opens a run of its own; at the end the open run is closed too. */
  function Scan(closed: seq<seq<string>>, open: seq<string>, rest: seq<string>): (rs: seq<seq<string>>)
    requires open != [] && forall k :: 0 <= k < |closed| ==> closed[k] != []
    ensures |rs| > |closed|
    ensures forall k :: 0 <= k < |rs| ==> rs[k] != []
    decreases |rest|
  {
    if rest == [] then closed + [open]
    else if BaseForm(rest[0]) == BaseForm(open[0]) then Scan(closed, open + [rest[0]], rest[1..])
    else Scan(closed + [open], [rest[0]], rest[1..])
  }

  /** The maximal runs of consecutive candidates sharing a base form, as the scan over
      `words[1:]` builds them starting from the run `[words[0]]`. */
  function Runs(words: seq<string>): (rs: seq<seq<string>>)
    ensures (rs == []) == (words == [])
    ensures forall k :: 0 <= k < |rs| ==> rs[k] != []
  {
    if words == [] then [] else Scan([], [words[0]], words[1..])
  }

  lemma {:induction false} ScanFlatten(closed: seq<seq<string>>, open: seq<string>, rest: seq<string>)
    requires open != [] && forall k :: 0 <= k < |closed| ==> closed[k] != []
    ensures Flatten(Scan(closed, open, rest)) == Flatten(closed) + open + rest
    decreases |rest|
  {
    if rest == [] {
      FlattenSnoc(closed, open);
    } else if BaseForm(rest[0]) == BaseForm(open[0]) {
      assert Scan(closed, open, rest) == Scan(closed, open + [rest[0]], rest[1..]);
      ScanFlatten(closed, open + [rest[0]], rest[1..]);
      assert (open + [rest[0]]) + rest[1..] == open + rest;
    } else {
      assert Scan(closed, open, rest) == Scan(closed + [open], [rest[0]], rest[1..]);
      ScanFlatten(closed + [open], [rest[0]], rest[1..]);
      FlattenSnoc(closed, open);
      assert [rest[0]] + rest[1..] == rest;
      assert Flatten(closed + [open]) + [rest[0]] + rest[1..] == Flatten(closed) + open + rest;
    }
  }

  /** Concatenating the runs gives back the input. */
  lemma RunsFlatten(words: seq<string>)
    ensures Flatten(Runs(words)) == words
  {
    if words != [] {
      ScanFlatten([], [words[0]], words[1..]);
      assert [words[0]] + words[1..] == words;
    }
  }

  lemma {:induction false} ScanUniform(closed: seq<seq<string>>, open: seq<string>, rest: seq<string>)
    requires forall k :: 0 <= k < |closed| ==> closed[k] != [] && Uniform(closed[k])
    requires Uniform(open)
    ensures forall k :: 0 <= k < |Scan(closed, open, rest)| ==> Uniform(Scan(closed, open, rest)[k])
    decreases |rest|
  {
    if rest != [] {
      if BaseForm(rest[0]) == BaseForm(open[0]) {
        assert Uniform(open + [rest[0]]);
        ScanUniform(closed, open + [rest[0]], rest[1..]);
      } else {
        ScanUniform(closed + [open], [rest[0]], rest[1..]);
      }
    }
  }

  /** Every run is one base form throughout. */
  lemma RunsUniform(words: seq<string>)
    ensures forall k :: 0 <= k < |Runs(words)| ==> Uniform(Runs(words)[k])
  {
    if words != [] {
      ScanUniform([], [words[0]], words[1..]);
    }
  }

  /** Neighbouring runs of a list of non-empty runs have different base forms. */
  ghost predicate Separated(rs: seq<seq<string>>)
    requires forall k :: 0 <= k < |rs| ==> rs[k] != []
  {
    forall i, j :: 0 <= i < j < |rs| && j == i + 1 ==> BaseForm(rs[i][0]) != BaseForm(rs[j][0])
  }

  lemma {:induction false} ScanSeparated(closed: seq<seq<string>>, open: seq<string>, rest: seq<string>)
    requires open != [] && forall k :: 0 <= k < |closed| ==> closed[k] != []
    requires Separated(closed + [open])
    ensures Separated(Scan(closed, open, rest))
    decreases |rest|
  {
    if rest != [] {
      var c := closed + [open];
      if BaseForm(rest[0]) == BaseForm(open[0]) {
        var d := closed + [open + [rest[0]]];
        assert forall k :: 0 <= k < |d| ==> d[k][0] == c[k][0];
        ScanSeparated(closed, open + [rest[0]], rest[1..]);
      } else {
        var d := c + [[rest[0]]];
        assert forall k :: 0 <= k < |c| ==> d[k] == c[k];
        ScanSeparated(c, [rest[0]], rest[1..]);
      }
    }
  }

  /** Runs are maximal: two neighbouring runs never share a base form. */
  lemma RunsMaximal(words: seq<string>)
    ensures Separated(Runs(words))
  {
    if words != [] {
      ScanSeparated([], [words[0]], words[1..]);
    }
  }

  /** Closing one more run appends its split to the groups so far. */
  lemma SplitAllSnoc(runs: seq<seq<string>>, run: seq<string>, special: seq<string>)
    requires forall k :: 0 <= k < |runs| ==> runs[k] != []
    requires run != []
    ensures forall k :: 0 <= k < |runs + [run]| ==> (runs + [run])[k] != []
    ensures SplitAll(runs + [run], special) == SplitAll(runs, special) + SplitRun(run, special)
  {
    assert (runs + [run])[..|runs|] == runs;
  }

  /** The split policy applied to one finished run, in priority order: a run of a
      special word longer than 3 is cut into chunks of 3; any other run longer than 3
      of even length is cut into chunks of 2; every other run stays whole. */
  function SplitRun(run: seq<string>, special: seq<string>): (gs: seq<seq<string>>)
    requires run != []
    ensures forall k :: 0 <= k < |gs| ==> gs[k] != []
  {
    if BaseForm(run[0]) in special && |run| > 3 then Chunks(run, 3)
    else if |run| > 3 && |run| % 2 == 0 then Chunks(run, 2)
    else [run]
  }

  /** What the split policy produces for each kind of run, stated by sizes. */
  lemma SplitRunPolicy(run: seq<string>, special: seq<string>)
    requires run != []
    ensures Flatten(SplitRun(run, special)) == run
    ensures BaseForm(run[0]) in special && |run| > 3 ==>
      var gs := SplitRun(run, special);
      |gs| == (|run| + 2) / 3
      && (forall k :: 0 <= k < |gs| - 1 ==> |gs[k]| == 3)
      && 0 < |gs[|gs| - 1]| <= 3
    ensures BaseForm(run[0]) !in special && |run| > 3 && |run| % 2 == 0 ==>
      var gs := SplitRun(run, special);
      |gs| == |run| / 2 && forall k :: 0 <= k < |gs| ==> |gs[k]| == 2
    ensures |run| <= 3 || (BaseForm(run[0]) !in special && |run| % 2 == 1) ==>
      SplitRun(run, special) == [run]
  {
    var gs := SplitRun(run, special);
    if BaseForm(run[0]) in special && |run| > 3 {
      ChunksFlatten(run, 3);
      ChunksSizes(run, 3, gs);
    } else if |run| > 3 && |run| % 2 == 0 {
      ChunksFlatten(run, 2);
      ChunksSizes(run, 2, gs);
    } else {
      assert Flatten([run]) == run + Flatten([]);
    }
  }

  /** For the two chunk sizes the policy uses: the number of chunks is the number
      of elements divided by the chunk size, rounded up, and when the size divides
      the length every chunk is full. */
  lemma {:induction false} ChunksSizes(s: seq<string>, n: nat, cs: seq<seq<string>>)
    requires n == 2 || n == 3
    requires cs == Chunks(s, n)
    ensures |cs| == (|s| + n - 1) / n
    ensures |s| % n == 0 ==> forall k :: 0 <= k < |cs| ==> |cs[k]| == n
    decreases |s|
  {
    if |s| > n {
      var rest := Chunks(s[n..], n);
      ChunksSizes(s[n..], n, rest);
      assert cs == [s[..n]] + rest;
    }
  }

  /** Every finished run passed through the split policy, in order. */
  function SplitAll(runs: seq<seq<string>>, special: seq<string>): (gs: seq<seq<string>>)
    requires forall k :: 0 <= k < |runs| ==> runs[k] != []
    ensures forall k :: 0 <= k < |gs| ==> gs[k] != []
    decreases |runs|
  {
    if runs == [] then []
    else
      var init, last := runs[..|runs| - 1], runs[|runs| - 1];
      SplitAll(init, special) + SplitRun(last, special)
  }

  /** Splitting cuts runs but never mixes them: from uniform runs come uniform groups. */
  lemma {:induction false} SplitAllUniform(runs: seq<seq<string>>, special: seq<string>)
    requires forall k :: 0 <= k < |runs| ==> runs[k] != [] && Uniform(runs[k])
    ensures forall k :: 0 <= k < |SplitAll(runs, special)| ==> Uniform(SplitAll(runs, special)[k])
    decreases |runs|
  {
    if runs != [] {
      var init, last := runs[..|runs| - 1], runs[|runs| - 1];
      assert Uniform(last);
      SplitAllUniform(init, special);
      var split := SplitRun(last, special);
      forall k | 0 <= k < |split| ensures Uniform(split[k]) {
        var g := split[k];
        forall i | 0 <= i < |g| ensures BaseForm(g[i]) == BaseForm(last[0]) {
          assert g[i] in g;
          assert g[i] in last;
          var j :| 0 <= j < |last| && last[j] == g[i];
        }
      }
      var gs := SplitAll(runs, special);
      assert gs == SplitAll(init, special) + split;
      forall k | 0 <= k < |gs| ensures Uniform(gs[k]) {
        if k >= |SplitAll(init, special)| {
          assert gs[k] == split[k - |SplitAll(init, special)|];
        }
      }
    }
  }

  lemma {:induction false} SplitAllFlatten(runs: seq<seq<string>>, special: seq<string>)
    requires forall k :: 0 <= k < |runs| ==> runs[k] != []
    ensures Flatten(SplitAll(runs, special)) == Flatten(runs)
    decreases |runs|
  {
    if runs != [] {
      var init, last := runs[..|runs| - 1], runs[|runs| - 1];
      SplitAllFlatten(init, special);
      FlattenAppend(SplitAll(init, special), SplitRun(last, special));
      SplitRunPolicy(last, special);
      assert init + [last] == runs;
      FlattenSnoc(init, last);
    }
  }

  /** `group_words`: the occurrence groups of a flat candidate list. */
  function Groups(words: seq<string>, special: seq<string>): (gs: seq<seq<string>>)
    ensures forall k :: 0 <= k < |gs| ==> gs[k] != []
  {
    SplitAll(Runs(words), special)
  }

  /** All candidates of a group share one base form: a group never spans two words. */
  lemma GroupsUniform(words: seq<string>, special: seq<string>)
    ensures forall k :: 0 <= k < |Groups(words, special)| ==> Uniform(Groups(words, special)[k])
  {
    RunsUniform(words);
    SplitAllUniform(Runs(words), special);
  }

  /** An empty candidate list has no groups. */
  lemma GroupsEmpty(special: seq<string>)
    ensures Groups([], special) == []
  {
  }

  /** Concatenating the groups, in order, gives back the candidate list exactly. */
  lemma GroupsPartition(words: seq<string>, special: seq<string>)
    ensures Flatten(Groups(words, special)) == words
  {
    RunsFlatten(words);
    SplitAllFlatten(Runs(words), special);
  }

  /** The sum of the lengths of a list of lists. */
  function TotalLen<T>(gs: seq<seq<T>>): nat
    decreases |gs|
  {
    if gs == [] then 0 else TotalLen(gs[..|gs| - 1]) + |gs[|gs| - 1]|
  }

  lemma {:induction false} TotalLenFlatten<T>(gs: seq<seq<T>>)
    ensures TotalLen(gs) == |Flatten(gs)|
    decreases |gs|
  {
    if gs != [] {
      var init := gs[..|gs| - 1];
      TotalLenFlatten(init);
      assert init + [gs[|gs| - 1]] == gs;
      FlattenSnoc(init, gs[|gs| - 1]);
    }
  }

  /** `transfer_grouping`: slice `k` of the target starts where the first `k`
      groups end and is as long as group `k`, cut short at the end of the target. */
  function Realign<A, B>(groups: seq<seq<A>>, target: seq<B>): (r: seq<seq<B>>)
    ensures |r| == |groups|
    decreases |groups|
  {
    if groups == [] then []
    else
      var init := groups[..|groups| - 1];
      var start := TotalLen(init);
      Realign(init, target) + [Slice(target, start, start + |groups[|groups| - 1]|)]
  }

  /** Slice `k` is `target[start : start + len(groups[k])]` with `start` the total
      length of the groups before it. */
  lemma {:induction false} RealignAt<A, B>(groups: seq<seq<A>>, target: seq<B>, k: nat)
    requires k < |groups|
    ensures Realign(groups, target)[k]
         == Slice(target, TotalLen(groups[..k]), TotalLen(groups[..k]) + |groups[k]|)
    decreases |groups|
  {
    var init := groups[..|groups| - 1];
    if k < |init| {
      RealignAt(init, target, k);
      assert init[..k] == groups[..k];
    }
  }

  /** Concatenating the slices gives the target's prefix as long as all groups
      together, or the whole target when it is shorter. */
  lemma {:induction false} RealignFlatten<A, B>(groups: seq<seq<A>>, target: seq<B>)
    ensures var n := TotalLen(groups);
      Flatten(Realign(groups, target)) == target[..if n <= |target| then n else |target|]
    decreases |groups|
  {
    if groups != [] {
      var init := groups[..|groups| - 1];
      var start := TotalLen(init);
      RealignFlatten(init, target);
      FlattenSnoc(Realign(init, target), Slice(target, start, start + |groups[|groups| - 1]|));
    }
  }

  /** When the target is long enough, every slice is exactly as long as its group. */
  lemma {:induction false} RealignLengths<A, B>(groups: seq<seq<A>>, target: seq<B>)
    requires TotalLen(groups) <= |target|
    ensures forall k :: 0 <= k < |groups| ==> |Realign(groups, target)[k]| == |groups[k]|
    decreases |groups|
  {
    if groups != [] {
      RealignLengths(groups[..|groups| - 1], target);
    }
  }
}
