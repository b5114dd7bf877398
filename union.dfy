/**
 * The union-find operations of the game engine (gamma/src/gamma.c) on the
 * contents of `parents` and `areas_size`, held as maps `P` and `S` over the
 * cells of the board. Each operation takes the ghost forest `u` whose
 * `parent` and `size` they are and states the forest it leaves behind; the
 * owners `O` of the cells do not change here.
 */
module Union {
  import opened Fields
  import opened Grid
  import opened Areas
  import opened UnionFind
  import opened Order

  /**
   * `find_parent`: the representative of the area of the owned cell `f`,
   * pointing every cell on the way straight at it.
   */
  method FindParent(P: map<Field, Field>, f: Field, ghost O: map<Field, nat>, ghost u: Forest,
                    ghost skip: bool, ghost c: Field)
    returns (r: Field, P': map<Field, Field>)
    requires P.Keys == O.Keys && u.root.Keys == O.Keys && u.rank.Keys == O.Keys
    requires ForestBut(O, P, u.root, u.rank, u.bound, skip, c)
    requires f in O && O[f] != 0 && !(skip && f == c)
    ensures P'.Keys == P.Keys && ForestBut(O, P', u.root, u.rank, u.bound, skip, c)
    ensures r == u.root[f] && P'[f] == r
    decreases u.bound - u.rank[f]
  {
    assert ForestAt(O, P, u.root, u.rank, f);
    P' := P;
    if !FieldEquals(f, P[f]) {
      var q;
      q, P' := FindParent(P, P[f], O, u, skip, c);
      Compress(O, P', u.root, u.rank, u.bound, skip, c, f);
      P' := P'[f := q];
    }
    r := P'[f];
  }

  /** `parents_compare`: the area represented by `f1` is smaller than that of `f2`. */
  predicate ParentsCompare(S: map<Field, nat>, f1: Field, f2: Field)
    requires f1 in S && f2 in S
  {
    S[f1] < S[f2]
  }

  /** Exchanges the cells at positions `j` and `j + 1` of `np`. */
  method SwapNext(np: array<Field>, j: nat)
    requires j + 1 < np.Length
    modifies np
    ensures np[..] == SwapAt(old(np[..]), j)
  {
    np[j], np[j + 1] := np[j + 1], np[j];
  }

  /**
   * One pass of `sort_n_parents` over the first `n` cells of `np`: the
   * smallest area among them ends up at position `n - 1`.
   */
  method BubblePass(np: array<Field>, n: nat, S: map<Field, nat>, ghost lo: nat)
    requires 1 <= n <= np.Length && AtLeast(np[..], S, n, lo)
    modifies np
    ensures multiset(np[..n]) == multiset(old(np[..n])) && np[n..] == old(np[n..])
    ensures AtLeast(np[..], S, n, lo) && SmallestLast(np[..], S, n - 1)
  {
    for j := 0 to n - 1
      invariant multiset(np[..n]) == multiset(old(np[..n])) && np[n..] == old(np[n..])
      invariant AtLeast(np[..], S, n, lo) && SmallestLast(np[..], S, j)
    {
      ghost var s := np[..];
      if ParentsCompare(S, np[j], np[j + 1]) {
        SwapNext(np, j);
        SwapPerm(s, j, n);
        SwapStep(s, S, j, n, lo);
      } else {
        KeepStep(s, S, j);
      }
    }
  }

  /**
   * `sort_n_parents`: bubble sort of the first `l` cells of `np` by the
   * sizes `S` of their areas, largest first.
   */
  method SortNParents(np: array<Field>, l: nat, S: map<Field, nat>)
    requires l <= np.Length && AtLeast(np[..], S, l, 0)
    modifies np
    ensures multiset(np[..l]) == multiset(old(np[..l])) && np[l..] == old(np[l..])
    ensures Descending(np[..], S, 0, l)
  {
    ghost var lo := 0;
    ghost var s0 := np[..];
    for i := 0 to l
      invariant SortedTail(s0, np[..], S, l, i, lo)
    {
      ghost var s := np[..];
      BubblePass(np, l - i, S, lo);
      SortRound(s0, s, np[..], S, l, i, lo);
      lo := S[np[l - i - 1]];
    }
    SortDone(s0, np[..], S, l, lo);
  }

  /**
   * `union_areas`: the area represented by `smaller` joins the connected
   * area of the same player represented by `bigger`, which takes over its
   * size; the forest stays a partition of the board into areas.
   */
  method UnionAreas(P: map<Field, Field>, S: map<Field, nat>, bigger: Field, smaller: Field,
                    ghost O: map<Field, nat>, ghost u: Forest, ghost c: Field)
    returns (P': map<Field, Field>, S': map<Field, nat>)
    requires u.parent == P && u.size == S && Partition(O, u, c)
    requires bigger in O && smaller in O && bigger != smaller
    requires O[bigger] != 0 && O[smaller] == O[bigger]
    requires u.root[bigger] == bigger && u.root[smaller] == smaller
    requires ConnectedIn(OwnedBy(O, O[bigger]), bigger, smaller)
    ensures P' == Merged(u, smaller, bigger).parent && S' == Merged(u, smaller, bigger).size
    ensures Partition(O, Merged(u, smaller, bigger), c)
  {
    ConnectedSym(OwnedBy(O, O[bigger]), bigger, smaller);
    Merge(O, u, c, smaller, bigger);
    var s2 := S[smaller];
    P' := P[smaller := bigger];
    S' := S[bigger := S[bigger] + s2];
    S' := S'[smaller := 0];
  }

  /**
   * The cells `xs` that `remove_same_areas` merges: representatives of
   * areas of player `p` connected to `c`.
   */
  ghost predicate Candidates(O: map<Field, nat>, R: map<Field, Field>, xs: seq<Field>, p: nat, c: Field) {
    forall k :: 0 <= k < |xs| ==>
      xs[k] in O && O[xs[k]] == p && xs[k] in R && R[xs[k]] == xs[k] && ConnectedIn(OwnedBy(O, p), c, xs[k])
  }

  /**
   * One iteration of the loop of `remove_same_areas` at position `it` of
   * `xs`: the area of `x == xs[it]`, found afresh, joins the area
   * represented by `acc == xs[0]` unless it is that area already. `R` are
   * the representatives before the loop, and the areas represented in `M`
   * have joined `acc` already.
   */
  method MergeStep(x: Field, acc: Field, p: nat, n: nat, P: map<Field, Field>, S: map<Field, nat>,
                   ghost O: map<Field, nat>, ghost R: map<Field, Field>, ghost xs: seq<Field>, ghost it: nat,
                   ghost M: set<Field>, ghost u: Forest, ghost c: Field)
    returns (n': nat, P': map<Field, Field>, S': map<Field, nat>, ghost u': Forest, ghost M': set<Field>)
    requires u.parent == P && u.size == S && Partition(O, u, c)
    requires p != 0 && c in O && R.Keys == O.Keys && Candidates(O, R, xs, p, c)
    requires 1 <= it < |xs| && x == xs[it] && acc == xs[0]
    requires u.root == Gather(R, M, acc) && acc !in M && n == |RootsOf(O, u.root, p)|
    ensures u'.parent == P' && u'.size == S' && Partition(O, u', c)
    ensures M' == M + ({x} - {acc}) && u'.root == Gather(R, M', acc) && n' == |RootsOf(O, u'.root, p)|
  {
    GatherRoot(R, M, acc, x);
    var r;
    r, P' := FindParent(P, x, O, u, false, Field(0, 0));
    Refound(O, u, c, P');
    u', S', n', M' := u.(parent := P'), S, n, M;
    if !FieldEquals(r, acc) {
      ConnectedSym(OwnedBy(O, p), c, acc);
      ConnectedTrans(OwnedBy(O, p), acc, c, r);
      GatherStep(R, M, acc, r);
      GatherDrop(O, R, M, acc, r, p);
      P', S' := UnionAreas(P', S', acc, r, O, u', c);
      u' := Merged(u', r, acc);
      n' := n' - 1;
      M' := M + {r};
      AddOne(M, x, acc);
    } else {
      AddNothing(M, x, acc);
    }
  }

  /**
   * The loop of `remove_same_areas`: every area represented in the first
   * `l` cells of `np` joins the area represented by `np[0]`, and the count
   * `n` of the areas of player `p` drops by one for each that was apart.
   */
  method MergeRoots(np: array<Field>, l: nat, p: nat, n: nat, P: map<Field, Field>, S: map<Field, nat>,
                    ghost O: map<Field, nat>, ghost u: Forest, ghost c: Field)
    returns (n': nat, P': map<Field, Field>, S': map<Field, nat>, ghost u': Forest)
    requires u.parent == P && u.size == S && Partition(O, u, c)
    requires 1 <= l <= np.Length && p != 0 && c in O
    requires Candidates(O, u.root, np[..l], p, c)
    requires n == |RootsOf(O, u.root, p)|
    ensures u'.parent == P' && u'.size == S' && Partition(O, u', c)
    ensures u'.root == Gather(u.root, Members(np[..l]), np[0])
    ensures n' == |RootsOf(O, u'.root, p)|
  {
    var acc := np[0];
    ghost var xs := np[..l];
    ghost var M: set<Field> := {};
    n', P', S', u' := n, P, S, u;
    GatherEmpty(u.root, acc);
    var it := 1;
    while it < l
      invariant 1 <= it <= l
      invariant u'.parent == P' && u'.size == S' && Partition(O, u', c)
      invariant u'.root == Gather(u.root, M, acc) && M == Tail(xs, it) - {acc}
      invariant n' == |RootsOf(O, u'.root, p)|
    {
      TailNext(xs, it, acc);
      n', P', S', u', M := MergeStep(np[it], acc, p, n', P', S', O, u.root, xs, it, M, u', c);
      it := it + 1;
    }
    GatherAll(u.root, xs);
  }

  /** Reordering the candidates keeps them candidates. */
  lemma CandidatesPerm(O: map<Field, nat>, R: map<Field, Field>, xs: seq<Field>, ys: seq<Field>, p: nat, c: Field)
    requires multiset(xs) == multiset(ys) && Candidates(O, R, xs, p, c)
    ensures Candidates(O, R, ys, p, c)
  {
    PermMembers(xs, ys);
    forall k | 0 <= k < |ys|
      ensures ys[k] in O && O[ys[k]] == p && ys[k] in R && R[ys[k]] == ys[k]
      ensures ConnectedIn(OwnedBy(O, p), c, ys[k])
    {
      assert ys[k] in ys;
      var j :| 0 <= j < |xs| && xs[j] == ys[k];
    }
  }

  /** The representatives of the neighbours `ns` of `c` owned by the owner `p` of `c` are candidates. */
  lemma NeighbourCandidates(O: map<Field, nat>, u: Forest, c: Field, ns: seq<Field>, xs: seq<Field>)
    requires Partition(O, u, c) && c in O && O[c] != 0
    requires forall k :: 0 <= k < |ns| ==> ns[k] in O && O[ns[k]] == O[c] && Adjacent(c, ns[k])
    requires |xs| == |ns| && forall k :: 0 <= k < |ns| ==> xs[k] == u.root[ns[k]]
    ensures Candidates(O, u.root, xs, O[c], c)
  {
    forall k | 0 <= k < |xs|
      ensures xs[k] in O && O[xs[k]] == O[c] && xs[k] in u.root && u.root[xs[k]] == xs[k]
      ensures ConnectedIn(OwnedBy(O, O[c]), c, xs[k])
    {
      NeighbourRoot(O, u, c, ns[k]);
    }
  }

  /**
   * Gathering the areas represented by `L` into one of them, `a`: player
   * `p`, whose areas they are, has `|L| - 1` areas fewer, every other player
   * as many as before.
   */
  lemma GatherCount(O: map<Field, nat>, R: map<Field, Field>, L: set<Field>, a: Field, p: nat)
    requires a in L && L <= RootsOf(O, R, p)
    ensures |RootsOf(O, Gather(R, L, a), p)| + |L| == |RootsOf(O, R, p)| + 1
    ensures forall q :: q != p ==> RootsOf(O, Gather(R, L, a), q) == RootsOf(O, R, q)
  {
    var M := L - {a};
    assert L == M + {a};
    GatherSelf(R, M, a);
    forall q
      ensures RootsOf(O, Gather(R, L, a), q) == RootsOf(O, R, q) - M
    {
      GatherRoots(O, R, M, a, q);
    }
    assert M <= RootsOf(O, R, p);
    assert |RootsOf(O, R, p) - M| == |RootsOf(O, R, p)| - |M|;
  }

  /**
   * What sorting the representatives `xs` of the neighbours `ns` of `c`
   * into `ys`, largest area first, gives `remove_same_areas`: candidates
   * whose members are the labels of `ns`, `ys[0]` of largest size.
   */
  lemma SortedCandidates(O: map<Field, nat>, u: Forest, c: Field, ns: seq<Field>, xs: seq<Field>, ys: seq<Field>)
    requires Partition(O, u, c) && c in O && O[c] != 0 && 1 <= |ns|
    requires forall k :: 0 <= k < |ns| ==> ns[k] in O && O[ns[k]] == O[c] && Adjacent(c, ns[k])
    requires |xs| == |ns| && forall k :: 0 <= k < |ns| ==> xs[k] == u.root[ns[k]]
    requires |ns| <= |ys| && multiset(xs) == multiset(ys[..|ns|]) && Descending(ys, u.size, 0, |ns|)
    ensures Candidates(O, u.root, ys[..|ns|], O[c], c) && Members(ys[..|ns|]) == Labels(u.root, ns)
    ensures ys[0] in u.size && forall b :: b in Labels(u.root, ns) ==> b in u.size && u.size[b] <= u.size[ys[0]]
  {
    var zs := ys[..|ns|];
    NeighbourCandidates(O, u, c, ns, xs);
    CandidatesPerm(O, u.root, xs, zs, O[c], c);
    PermMembers(xs, zs);
    LabelsMembers(u.root, ns, xs);
    assert |zs| == |multiset(zs)|;
    forall b | b in Labels(u.root, ns)
      ensures b in u.size && u.size[b] <= u.size[ys[0]]
    {
      assert b in xs;
      var k :| 0 <= k < |zs| && zs[k] == b;
    }
  }

  /** The first loop of `remove_same_areas`: the representative of every neighbour in `ns`. */
  method FindRoots(ns: seq<Field>, P: map<Field, Field>, ghost O: map<Field, nat>, ghost u: Forest)
    returns (np: array<Field>, P': map<Field, Field>)
    requires P.Keys == O.Keys && u.root.Keys == O.Keys && u.rank.Keys == O.Keys
    requires ForestBut(O, P, u.root, u.rank, u.bound, false, Field(0, 0))
    requires |ns| <= Directions && forall k :: 0 <= k < |ns| ==> ns[k] in O && O[ns[k]] != 0
    ensures fresh(np) && np.Length == Directions
    ensures forall k :: 0 <= k < |ns| ==> np[k] == u.root[ns[k]] && np[k] in O
    ensures P'.Keys == P.Keys && ForestBut(O, P', u.root, u.rank, u.bound, false, Field(0, 0))
  {
    np := new Field[Directions];
    P' := P;
    for i := 0 to |ns|
      invariant P'.Keys == O.Keys && ForestBut(O, P', u.root, u.rank, u.bound, false, Field(0, 0))
      invariant forall k :: 0 <= k < i ==> np[k] == u.root[ns[k]] && np[k] in O
    {
      assert ForestAt(O, P', u.root, u.rank, ns[i]);
      var r;
      r, P' := FindParent(P', ns[i], O, u, false, Field(0, 0));
      np[i] := r;
    }
  }

  /**
   * `remove_same_areas`: the areas of the neighbours `ns` of the cell `c`,
   * all owned by the owner `p` of `c`, become one, represented by the root
   * `a` of largest size among theirs; `p` has one area fewer for every
   * other distinct area among them and no other player is affected.
   */
  method RemoveSameAreas(ns: seq<Field>, p: nat, n: nat, P: map<Field, Field>, S: map<Field, nat>,
                         ghost O: map<Field, nat>, ghost u: Forest, ghost c: Field)
    returns (n': nat, P': map<Field, Field>, S': map<Field, nat>, ghost u': Forest, ghost a: Field)
    requires u.parent == P && u.size == S && Partition(O, u, c)
    requires 1 <= |ns| <= Directions && c in O && O[c] == p && p != 0
    requires forall k :: 0 <= k < |ns| ==> ns[k] in O && O[ns[k]] == p && Adjacent(c, ns[k])
    requires n == |RootsOf(O, u.root, p)|
    ensures u'.parent == P' && u'.size == S' && Partition(O, u', c)
    ensures forall k :: 0 <= k < |ns| ==> ns[k] in u.root
    ensures a in Labels(u.root, ns) && a in S
    ensures forall b :: b in Labels(u.root, ns) ==> b in S && S[b] <= S[a]
    ensures u'.root == Gather(u.root, Labels(u.root, ns), a)
    ensures n' + |Labels(u.root, ns)| == n + 1 && n' == |RootsOf(O, u'.root, p)|
    ensures forall q :: q != p ==> RootsOf(O, u'.root, q) == RootsOf(O, u.root, q)
  {
    var l := |ns|;
    var np;
    np, P' := FindRoots(ns, P, O, u);
    Refound(O, u, c, P');
    ghost var xs := np[..l];
    assert S.Keys == O.Keys;
    SortNParents(np, l, S);
    SortedCandidates(O, u, c, ns, xs, np[..]);
    a := np[0];
    n', P', S', u' := MergeRoots(np, l, p, n, P', S, O, u.(parent := P'), c);
    GatherCount(O, u.root, Labels(u.root, ns), a, p);
  }
}
