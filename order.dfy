/**
 * Ordering representatives of areas by the sizes of their areas, as pure
 * values: the facts one pass of the engine's bubble sort relies on.
 */
module Order {
  import opened Fields

  /** The first `n` cells of `s` have recorded sizes of at least `lo`. */
  ghost predicate AtLeast(s: seq<Field>, S: map<Field, nat>, n: nat, lo: nat)
    requires n <= |s|
  {
    forall k :: 0 <= k < n ==> s[k] in S && S[s[k]] >= lo
  }

  /** The cell at `j` has the smallest size among the first `j + 1`. */
  ghost predicate SmallestLast(s: seq<Field>, S: map<Field, nat>, j: nat)
    requires j < |s|
  {
    s[j] in S && forall a :: 0 <= a < j ==> s[a] in S && S[s[a]] >= S[s[j]]
  }

  /** The cells of `s` from `lo` up to `hi` are ordered by size, largest first. */
  ghost predicate Descending(s: seq<Field>, S: map<Field, nat>, lo: nat, hi: nat)
    requires lo <= hi <= |s|
  {
    forall a, b :: lo <= a < b < hi ==> s[a] in S && s[b] in S && S[s[a]] >= S[s[b]]
  }

  /** `s` with the entries at `j` and `j + 1` exchanged. */
  function SwapAt(s: seq<Field>, j: nat): (t: seq<Field>)
    requires j + 1 < |s|
    ensures |t| == |s| && t[j] == s[j + 1] && t[j + 1] == s[j]
    ensures forall k :: 0 <= k < |s| && k != j && k != j + 1 ==> t[k] == s[k]
  {
    s[j := s[j + 1]][j + 1 := s[j]]
  }

  /** Exchanging two neighbouring entries below `n` keeps the multiset of the first `n` and the rest. */
  lemma SwapPerm(s: seq<Field>, j: nat, n: nat)
    requires j + 1 < n <= |s|
    ensures multiset(SwapAt(s, j)[..n]) == multiset(s[..n]) && SwapAt(s, j)[n..] == s[n..]
  {
    var t := SwapAt(s, j);
    assert t[..n] == s[..j] + [s[j + 1], s[j]] + s[j + 2..n];
    assert s[..n] == s[..j] + [s[j], s[j + 1]] + s[j + 2..n];
  }

  /** A step of the pass that exchanges: the smaller of the two moves up to `j + 1`. */
  lemma SwapStep(s: seq<Field>, S: map<Field, nat>, j: nat, n: nat, lo: nat)
    requires j + 1 < n <= |s| && AtLeast(s, S, n, lo) && SmallestLast(s, S, j)
    requires s[j + 1] in S && S[s[j]] < S[s[j + 1]]
    ensures AtLeast(SwapAt(s, j), S, n, lo) && SmallestLast(SwapAt(s, j), S, j + 1)
  {
  }

  /** A step of the pass that keeps the order: `j + 1` already holds the smaller. */
  lemma KeepStep(s: seq<Field>, S: map<Field, nat>, j: nat)
    requires j + 1 < |s| && SmallestLast(s, S, j)
    requires s[j + 1] in S && S[s[j]] >= S[s[j + 1]]
    ensures SmallestLast(s, S, j + 1)
  {
  }

  /**
   * After a pass over the first `n` cells, whose sizes were all at least the
   * largest size `lo` of the ordered rest, the ordered part starts at `n - 1`.
   */
  lemma PassExtends(s0: seq<Field>, s1: seq<Field>, S: map<Field, nat>, n: nat, l: nat, lo: nat)
    requires 1 <= n <= l <= |s0| == |s1| && s1[n..] == s0[n..]
    requires Descending(s0, S, n, l) && (n < l ==> s0[n] in S && lo == S[s0[n]])
    requires AtLeast(s1, S, n, lo) && SmallestLast(s1, S, n - 1)
    ensures Descending(s1, S, n - 1, l) && AtLeast(s1, S, n - 1, S[s1[n - 1]])
  {
    forall b | n <= b < l
      ensures s1[b] == s0[b]
    {
      assert s1[b] == s1[n..][b - n];
    }
  }

  /** Permuting the first `n` entries permutes the first `l` for any `l` from `n` on. */
  lemma PrefixPerm(s0: seq<Field>, s1: seq<Field>, n: nat, l: nat)
    requires n <= l <= |s0| == |s1|
    requires multiset(s1[..n]) == multiset(s0[..n]) && s1[n..] == s0[n..]
    ensures multiset(s1[..l]) == multiset(s0[..l])
  {
    assert s1[..l] == s1[..n] + s1[n..][..l - n];
    assert s0[..l] == s0[..n] + s0[n..][..l - n];
  }

  /**
   * The bubble sort of the first `l` entries of `s0` after `i` passes: `s`
   * permutes them, and its last `i` among them are the largest, in order,
   * the first of them of size `lo`.
   */
  ghost predicate SortedTail(s0: seq<Field>, s: seq<Field>, S: map<Field, nat>, l: nat, i: nat, lo: nat) {
    |s| == |s0| && i <= l <= |s| &&
    multiset(s[..l]) == multiset(s0[..l]) && s[l..] == s0[l..] &&
    Descending(s, S, l - i, l) && AtLeast(s, S, l - i, lo) &&
    (i > 0 ==> s[l - i] in S && lo == S[s[l - i]])
  }

  /** A pass over the unsorted prefix extends the sorted tail by one entry. */
  lemma SortRound(s0: seq<Field>, s: seq<Field>, s1: seq<Field>, S: map<Field, nat>, l: nat, i: nat, lo: nat)
    requires i < l && SortedTail(s0, s, S, l, i, lo) && |s1| == |s|
    requires multiset(s1[..l - i]) == multiset(s[..l - i]) && s1[l - i..] == s[l - i..]
    requires AtLeast(s1, S, l - i, lo) && SmallestLast(s1, S, l - i - 1)
    ensures s1[l - i - 1] in S && SortedTail(s0, s1, S, l, i + 1, S[s1[l - i - 1]])
  {
    PassExtends(s, s1, S, l - i, l, lo);
    PrefixPerm(s, s1, l - i, l);
    assert s1[l..] == s1[l - i..][i..];
    assert s[l..] == s[l - i..][i..];
  }

  /** After `l` passes the first `l` entries are permuted into descending order. */
  lemma SortDone(s0: seq<Field>, s: seq<Field>, S: map<Field, nat>, l: nat, lo: nat)
    requires SortedTail(s0, s, S, l, l, lo)
    ensures multiset(s[..l]) == multiset(s0[..l]) && s[l..] == s0[l..] && Descending(s, S, 0, l)
  {
  }

  /** A permutation has the same members. */
  lemma PermMembers(s: seq<Field>, t: seq<Field>)
    requires multiset(s) == multiset(t)
    ensures forall x :: x in s <==> x in t
  {
    forall x
      ensures x in s <==> x in t
    {
      assert x in s <==> x in multiset(s);
      assert x in t <==> x in multiset(t);
    }
  }
}
