/** Python list idioms the classifier relies on: flattening a list of lists,
    cutting a list into fixed-size chunks, slicing with silent truncation, and
    pairing consecutive elements. */
module Seqs {

  /** The concatenation, in order, of a list of lists. */
  function Flatten<T>(xs: seq<seq<T>>): seq<T>
  {
    if xs == [] then [] else xs[0] + Flatten(xs[1..])
  }

  lemma {:induction false} FlattenAppend<T>(a: seq<seq<T>>, b: seq<seq<T>>)
    ensures Flatten(a + b) == Flatten(a) + Flatten(b)
  {
    if a == [] {
      assert a + b == b;
    } else {
      assert (a + b)[1..] == a[1..] + b;
      FlattenAppend(a[1..], b);
    }
  }

  lemma FlattenSnoc<T>(a: seq<seq<T>>, x: seq<T>)
    ensures Flatten(a + [x]) == Flatten(a) + x
  {
    FlattenAppend(a, [x]);
    assert Flatten([x]) == x + Flatten([x][1..]);
    assert [x][1..] == [];
  }

  /** `[s[i:i+n] for i in range(0, len(s), n)]`: the list cut into consecutive
      chunks of `n` elements, the last one possibly shorter. */
  function Chunks<T>(s: seq<T>, n: nat): (cs: seq<seq<T>>)
    requires n > 0
    ensures forall k :: 0 <= k < |cs| ==> 0 < |cs[k]| <= n
    ensures forall k :: 0 <= k < |cs| - 1 ==> |cs[k]| == n
    ensures forall k, x :: 0 <= k < |cs| && x in cs[k] ==> x in s
    decreases |s|
  {
    if |s| == 0 then []
    else if |s| <= n then [s]
    else
      var rest := Chunks(s[n..], n);
      assert forall k, x :: 0 <= k < |rest| && x in rest[k] ==> x in s by {
        forall k, x | 0 <= k < |rest| && x in rest[k] ensures x in s {
          assert x in s[n..];
          var j :| 0 <= j < |s[n..]| && s[n..][j] == x;
          assert s[n + j] == x;
        }
      }
      [s[..n]] + rest
  }

  /** Chunking neither drops, duplicates nor reorders anything. */
  lemma {:induction false} ChunksFlatten<T>(s: seq<T>, n: nat)
    requires n > 0
    ensures Flatten(Chunks(s, n)) == s
    decreases |s|
  {
    if |s| > n {
      ChunksFlatten(s[n..], n);
      assert ([s[..n]] + Chunks(s[n..], n))[1..] == Chunks(s[n..], n);
      assert s == s[..n] + s[n..];
    } else if |s| > 0 {
      assert Flatten([s]) == s + Flatten([]);
    }
  }

  /** Helper for `ChunkAt`: where chunk `k` starts, `k * n` (the `k`-th value of
      `range(0, len(s), n)`), spelled as repeated addition so that the induction
      in `ChunkAt` stays linear. */
  function ChunkStart(k: nat, n: nat): (lo: nat)
    ensures lo == k * n
  {
    if k == 0 then 0 else ChunkStart(k - 1, n) + n
  }

  /** Chunk `k` is the Python slice `s[k*n : k*n + n]`, truncated at the end of `s`. */
  lemma {:induction false} ChunkAt<T>(s: seq<T>, n: nat, k: nat)
    requires n > 0 && k < |Chunks(s, n)|
    ensures ChunkStart(k, n) < |s|
    ensures Chunks(s, n)[k] == s[ChunkStart(k, n) .. if ChunkStart(k, n) + n <= |s| then ChunkStart(k, n) + n else |s|]
    decreases |s|
  {
    if |s| <= n {
      assert Chunks(s, n) == [s];
    } else if k > 0 {
      var t := s[n..];
      ChunkAt(t, n, k - 1);
      var lo := ChunkStart(k, n);
      assert lo == ChunkStart(k - 1, n) + n;
      assert Chunks(s, n)[k] == Chunks(t, n)[k - 1];
      var hi := if lo + n <= |s| then lo + n else |s|;
      assert |t[lo - n .. hi - n]| == |s[lo .. hi]|;
      assert forall i :: 0 <= i < hi - lo ==> t[lo - n .. hi - n][i] == s[lo .. hi][i];
    }
  }

  /** Python slicing `s[lo:hi]` for `0 <= lo <= hi`: out-of-range bounds are cut
      back to the end of the list instead of raising. */
  function Slice<T>(s: seq<T>, lo: nat, hi: nat): (r: seq<T>)
    requires lo <= hi
    ensures |r| == (if hi <= |s| then hi else |s|) - (if lo <= |s| then lo else |s|)
    ensures forall i :: 0 <= i < |r| ==> r[i] == s[lo + i]
  {
    s[(if lo <= |s| then lo else |s|) .. if hi <= |s| then hi else |s|]
  }

  /** `[(s[i], s[i+1]) for i in range(0, len(s), 2)]` for a list of even length. */
  function Pairs<T>(s: seq<T>): (ps: seq<(T, T)>)
    requires |s| % 2 == 0
    ensures 2 * |ps| == |s|
  {
    seq(|s| / 2, i requires 0 <= i < |s| / 2 => (s[2 * i], s[2 * i + 1]))
  }

  /** Flattening a list of pairs back into a list. */
  function Unpair<T>(ps: seq<(T, T)>): (s: seq<T>)
    ensures |s| == 2 * |ps|
  {
    if ps == [] then [] else [ps[0].0, ps[0].1] + Unpair(ps[1..])
  }

  /** Pairing neither drops, duplicates nor reorders anything. */
  lemma {:induction false} UnpairPairs<T>(s: seq<T>)
    requires |s| % 2 == 0
    ensures Unpair(Pairs(s)) == s
    decreases |s|
  {
    if s != [] {
      var ps := Pairs(s);
      assert ps[1..] == Pairs(s[2..]);
      UnpairPairs(s[2..]);
      assert s == [s[0], s[1]] + s[2..];
    }
  }
}
