/**
 * The areas of the game engine as pure values: which cells a player owns,
 * the representative (root) of each owned cell, and what merging two areas
 * or placing and removing a cell does to roots, classes and connectivity.
 */
module Areas {
  import opened Fields
  import opened Grid

  /** The cells owned by `p` (0 means unowned). */
  ghost function OwnedBy(owner: map<Field, nat>, p: nat): set<Field> {
    set f | f in owner && owner[f] == p
  }

  /** The owned cells whose representative is `r`: the area represented by `r`. */
  ghost function ClassOf(owner: map<Field, nat>, root: map<Field, Field>, r: Field): set<Field> {
    set f | f in owner && f in root && owner[f] != 0 && root[f] == r
  }

  /** The representatives of the areas of player `p`. */
  ghost function RootsOf(owner: map<Field, nat>, root: map<Field, Field>, p: nat): set<Field> {
    set f | f in owner && f in root && owner[f] == p && root[f] == f
  }

  /** On a board with no owned cell, no player owns a cell or an area. */
  lemma NothingOwned(owner: map<Field, nat>, root: map<Field, Field>, q: nat)
    requires forall f :: f in owner ==> owner[f] == 0
    requires q != 0
    ensures OwnedBy(owner, q) == {} && RootsOf(owner, root, q) == {}
    ensures forall r :: ClassOf(owner, root, r) == {}
  {
  }

  /** Adjacent cells owned by the same player have the same representative. */
  ghost predicate Separated(owner: map<Field, nat>, root: map<Field, Field>) {
    forall f, g {:trigger Adjacent(f, g)} ::
      f in owner && g in owner && f in root && g in root &&
      owner[f] != 0 && owner[g] == owner[f] && Adjacent(f, g)
      ==> root[f] == root[g]
  }

  /** The cell `f` reaches its representative through cells of its owner. */
  ghost predicate ReachesRoot(owner: map<Field, nat>, root: map<Field, Field>, f: Field) {
    f in owner && f in root && ConnectedIn(OwnedBy(owner, owner[f]), f, root[f])
  }

  /** Every owned cell reaches its representative through cells of its owner. */
  ghost predicate RootConnected(owner: map<Field, nat>, root: map<Field, Field>) {
    forall f {:trigger ReachesRoot(owner, root, f)} :: f in owner && f in root && owner[f] != 0 ==>
      ReachesRoot(owner, root, f)
  }

  /** A labelling constant across every edge of `S` is constant along paths of `S`. */
  lemma LabelConstant(S: set<Field>, L: map<Field, Field>, a: Field, b: Field)
    requires S <= L.Keys
    requires forall u, v :: u in S && v in S && Adjacent(u, v) ==> L[u] == L[v]
    requires ConnectedIn(S, a, b)
    ensures L[a] == L[b]
  {
    ConnectedEnds(S, a, b);
    var V := set u | u in S && L[u] == L[a];
    ClosedReach(S, V, a, b);
  }

  /**
   * Under `Separated` and `RootConnected` the areas are exactly the
   * connected components of each player's cells.
   */
  lemma AreasAreComponents(owner: map<Field, nat>, root: map<Field, Field>, f: Field, g: Field)
    requires owner.Keys == root.Keys
    requires Separated(owner, root) && RootConnected(owner, root)
    requires f in owner && g in owner && owner[f] != 0 && owner[g] == owner[f]
    ensures root[f] == root[g] <==> ConnectedIn(OwnedBy(owner, owner[f]), f, g)
  {
    var S := OwnedBy(owner, owner[f]);
    assert ReachesRoot(owner, root, f) && ReachesRoot(owner, root, g);
    if root[f] == root[g] {
      ConnectedSym(S, g, root[g]);
      ConnectedTrans(S, f, root[f], g);
    }
    if ConnectedIn(S, f, g) {
      LabelConstant(S, root, f, g);
    }
  }

  /** `root` with the area represented by `s` handed over to `a`. */
  ghost function Relabel(root: map<Field, Field>, s: Field, a: Field): map<Field, Field> {
    map f | f in root :: if root[f] == s then a else root[f]
  }

  /** Handing area `s` over to `a` unites the two classes and leaves every other class alone. */
  lemma RelabelClasses(owner: map<Field, nat>, root: map<Field, Field>, s: Field, a: Field)
    requires s != a
    ensures ClassOf(owner, Relabel(root, s, a), a) == ClassOf(owner, root, a) + ClassOf(owner, root, s)
    ensures ClassOf(owner, root, a) !! ClassOf(owner, root, s)
    ensures ClassOf(owner, Relabel(root, s, a), s) == {}
    ensures forall r :: r != a && r != s ==> ClassOf(owner, Relabel(root, s, a), r) == ClassOf(owner, root, r)
  {
  }

  // ---------------------------------------------------------------------
  // Counting distinct areas among a few cells

  /**
   * How many of the cells in `xs` are not related by `R` to an earlier one.
   * With `R` the connectivity of a set of cells, this is the number of
   * distinct components that `xs` touches.
   */
  ghost function CountNew(R: (Field, Field) -> bool, xs: seq<Field>): nat {
    if xs == [] then 0
    else
      CountNew(R, xs[..|xs| - 1]) +
      (if exists j :: 0 <= j < |xs| - 1 && R(xs[j], xs[|xs| - 1]) then 0 else 1)
  }

  /** The number of distinct components of `S` touched by `xs`. */
  ghost function DistinctComps(S: set<Field>, xs: seq<Field>): nat {
    CountNew((a, b) => ConnectedIn(S, a, b), xs)
  }

  ghost function Labels(L: map<Field, Field>, xs: seq<Field>): set<Field>
    requires forall n :: n in xs ==> n in L
  {
    set n | n in xs :: L[n]
  }

  lemma LabelsSnoc(L: map<Field, Field>, ys: seq<Field>, x: Field)
    requires forall n :: n in ys + [x] ==> n in L
    ensures Labels(L, ys + [x]) == Labels(L, ys) + {L[x]}
  {
  }

  lemma CountNewSnoc(R: (Field, Field) -> bool, ys: seq<Field>, x: Field)
    ensures CountNew(R, ys + [x]) ==
      CountNew(R, ys) + (if exists j :: 0 <= j < |ys| && R(ys[j], x) then 0 else 1)
  {
    var xs := ys + [x];
    assert xs[..|xs| - 1] == ys;
    assert forall j :: 0 <= j < |ys| ==> xs[j] == ys[j];
  }

  lemma {:induction false} LabelsCountNew(R: (Field, Field) -> bool, L: map<Field, Field>, xs: seq<Field>)
    requires forall n :: n in xs ==> n in L
    requires forall i, j :: 0 <= i < |xs| && 0 <= j < |xs| ==>
      (L[xs[i]] == L[xs[j]] <==> R(xs[i], xs[j]))
    ensures |Labels(L, xs)| == CountNew(R, xs)
  {
    if xs != [] {
      var ys := xs[..|xs| - 1];
      var x := xs[|xs| - 1];
      assert xs == ys + [x];
      assert forall j :: 0 <= j < |ys| ==> ys[j] == xs[j];
      LabelsCountNew(R, L, ys);
      LabelsSnoc(L, ys, x);
      CountNewSnoc(R, ys, x);
      if exists j :: 0 <= j < |ys| && R(ys[j], x) {
        var j :| 0 <= j < |ys| && R(ys[j], x);
        assert L[xs[j]] == L[xs[|xs| - 1]];
        assert L[x] in Labels(L, ys);
      } else {
        forall n | n in ys
          ensures L[n] != L[x]
        {
          var j :| 0 <= j < |ys| && ys[j] == n;
          assert !R(xs[j], xs[|xs| - 1]);
        }
        assert L[x] !in Labels(L, ys);
      }
    }
  }

  /**
   * A labelling whose equal labels are exactly the connected pairs has as
   * many distinct labels on `xs` as `xs` touches components.
   */
  lemma LabelsCountComps(S: set<Field>, L: map<Field, Field>, xs: seq<Field>)
    requires forall n :: n in xs ==> n in L
    requires forall i, j :: 0 <= i < |xs| && 0 <= j < |xs| ==>
      (L[xs[i]] == L[xs[j]] <==> ConnectedIn(S, xs[i], xs[j]))
    ensures |Labels(L, xs)| == DistinctComps(S, xs)
  {
    LabelsCountNew((a, b) => ConnectedIn(S, a, b), L, xs);
  }

  /** The empty sequence touches no component. */
  lemma NoCompsOfEmpty(S: set<Field>)
    ensures DistinctComps(S, []) == 0
  {
  }

  // ---------------------------------------------------------------------
  // Placing a cell and merging areas

  /** Adjacent cells owned by the same player, neither of them `c`, have the same representative. */
  ghost predicate SeparatedExcept(owner: map<Field, nat>, root: map<Field, Field>, c: Field) {
    forall f, g {:trigger Adjacent(f, g)} ::
      f in owner && g in owner && f in root && g in root && f != c && g != c &&
      owner[f] != 0 && owner[g] == owner[f] && Adjacent(f, g)
      ==> root[f] == root[g]
  }

  /**
   * Player `p` taking the empty cell `c`, which becomes an area of its own:
   * the counted sets and the classes change by `c` alone.
   */
  lemma TakeCell(owner: map<Field, nat>, root: map<Field, Field>, c: Field, p: nat)
    requires owner.Keys == root.Keys && c in owner && owner[c] == 0 && p != 0
    requires forall f :: f in owner && owner[f] != 0 ==> root[f] != c
    ensures OwnedBy(owner[c := p], p) == OwnedBy(owner, p) + {c} && c !in OwnedBy(owner, p)
    ensures OwnedBy(owner[c := p], 0) == OwnedBy(owner, 0) - {c} && c in OwnedBy(owner, 0)
    ensures forall q :: q != p && q != 0 ==> OwnedBy(owner[c := p], q) == OwnedBy(owner, q)
    ensures RootsOf(owner[c := p], root[c := c], p) == RootsOf(owner, root, p) + {c}
    ensures c !in RootsOf(owner, root, p)
    ensures forall q :: q != p && q != 0 ==> RootsOf(owner[c := p], root[c := c], q) == RootsOf(owner, root, q)
    ensures ClassOf(owner[c := p], root[c := c], c) == {c}
    ensures forall r :: r != c ==> ClassOf(owner[c := p], root[c := c], r) == ClassOf(owner, root, r)
  {
  }

  /** After `TakeCell` every area is still connected and only `c` may touch a foreign area. */
  lemma TakeCellAreas(owner: map<Field, nat>, root: map<Field, Field>, c: Field, p: nat)
    requires owner.Keys == root.Keys && c in owner && owner[c] == 0 && p != 0
    requires Separated(owner, root) && RootConnected(owner, root)
    ensures RootConnected(owner[c := p], root[c := c])
    ensures SeparatedExcept(owner[c := p], root[c := c], c)
  {
    var o', r' := owner[c := p], root[c := c];
    forall f | f in o' && f in r' && o'[f] != 0
      ensures ReachesRoot(o', r', f)
    {
      if f == c {
        ConnectedRefl(OwnedBy(o', p), c);
      } else {
        assert ReachesRoot(owner, root, f);
        ConnectedMono(OwnedBy(owner, owner[f]), OwnedBy(o', o'[f]), f, r'[f]);
      }
    }
  }

  /**
   * The newly taken cell `c` joining the area of its neighbour `n`: that
   * class gains `c`, the class of `c` empties and `c` stops being a root.
   */
  lemma AttachCell(owner: map<Field, nat>, root: map<Field, Field>, c: Field, n: Field)
    requires owner.Keys == root.Keys && c in owner && n in owner && owner[c] != 0
    requires root[c] == c && root[n] != c
    ensures ClassOf(owner, root[c := root[n]], root[n]) == ClassOf(owner, root, root[n]) + {c}
    ensures ClassOf(owner, root[c := root[n]], c) == ClassOf(owner, root, c) - {c}
    ensures forall r :: r != c && r != root[n] ==> ClassOf(owner, root[c := root[n]], r) == ClassOf(owner, root, r)
    ensures forall q :: RootsOf(owner, root[c := root[n]], q) == RootsOf(owner, root, q) - {c}
  {
  }

  /** Attaching `c` to the area of an adjacent cell of the same owner keeps every area connected. */
  lemma AttachCellAreas(owner: map<Field, nat>, root: map<Field, Field>, c: Field, n: Field)
    requires owner.Keys == root.Keys && c in owner && n in owner
    requires owner[c] != 0 && owner[n] == owner[c] && Adjacent(c, n)
    requires RootConnected(owner, root) && SeparatedExcept(owner, root, c)
    ensures RootConnected(owner, root[c := root[n]])
    ensures SeparatedExcept(owner, root[c := root[n]], c)
  {
    var r' := root[c := root[n]];
    forall f | f in owner && f in r' && owner[f] != 0
      ensures ReachesRoot(owner, r', f)
    {
      if f == c {
        var S := OwnedBy(owner, owner[c]);
        assert ReachesRoot(owner, root, n);
        ConnectedAdjacent(S, c, n);
        ConnectedTrans(S, c, n, root[n]);
      } else {
        assert ReachesRoot(owner, root, f);
      }
    }
    forall f, g | f in owner && g in owner && f in r' && g in r' && f != c && g != c &&
      owner[f] != 0 && owner[g] == owner[f] && Adjacent(f, g)
      ensures r'[f] == r'[g]
    {
      assert r'[f] == root[f] && r'[g] == root[g];
    }
  }

  /**
   * Handing the area represented by `s` over to the connected area
   * represented by `a` of the same player: `s` stops being a root and the
   * areas stay connected.
   */
  lemma MergeAreas(owner: map<Field, nat>, root: map<Field, Field>, s: Field, a: Field, c: Field)
    requires owner.Keys == root.Keys && s != a && s in owner && a in owner
    requires owner[s] != 0 && owner[a] == owner[s] && root[s] == s && root[a] == a
    requires ConnectedIn(OwnedBy(owner, owner[s]), a, s)
    requires RootConnected(owner, root) && SeparatedExcept(owner, root, c)
    ensures RootsOf(owner, Relabel(root, s, a), owner[s]) == RootsOf(owner, root, owner[s]) - {s}
    ensures forall q :: q != owner[s] ==> RootsOf(owner, Relabel(root, s, a), q) == RootsOf(owner, root, q)
    ensures RootConnected(owner, Relabel(root, s, a))
    ensures SeparatedExcept(owner, Relabel(root, s, a), c)
  {
    var r' := Relabel(root, s, a);
    var S := OwnedBy(owner, owner[s]);
    forall f | f in owner && f in r' && owner[f] != 0
      ensures ReachesRoot(owner, r', f)
    {
      assert ReachesRoot(owner, root, f);
      if root[f] == s {
        ConnectedEnds(OwnedBy(owner, owner[f]), f, s);
        ConnectedSym(S, a, s);
        ConnectedTrans(S, f, s, a);
      }
    }
  }

  /** Once every same-owner neighbour of `c` shares the representative of `c`, no two adjacent areas of one player remain. */
  lemma SeparatedClose(owner: map<Field, nat>, root: map<Field, Field>, c: Field)
    requires owner.Keys == root.Keys && c in owner
    requires SeparatedExcept(owner, root, c)
    requires forall g :: g in owner && owner[g] == owner[c] && Adjacent(c, g) ==> root[g] == root[c]
    ensures Separated(owner, root)
  {
    forall f, g | f in owner && g in owner && f in root && g in root &&
      owner[f] != 0 && owner[g] == owner[f] && Adjacent(f, g)
      ensures root[f] == root[g]
    {
      if f == c {
      } else if g == c {
        assert Adjacent(c, f);
      }
    }
  }

  // ---------------------------------------------------------------------
  // Merging several areas into one

  /** `root` with every area represented by a member of `M` handed over to `a`. */
  ghost function Gather(root: map<Field, Field>, M: set<Field>, a: Field): map<Field, Field> {
    map f | f in root :: if root[f] in M then a else root[f]
  }

  lemma GatherEmpty(root: map<Field, Field>, a: Field)
    ensures Gather(root, {}, a) == root
  {
  }

  /** Handing one more area over to `a` extends the gathered set by it. */
  lemma GatherStep(root: map<Field, Field>, M: set<Field>, a: Field, g: Field)
    ensures Relabel(Gather(root, M, a), g, a) == Gather(root, M + {g}, a)
  {
  }

  /** Handing `a` over to itself changes nothing. */
  lemma GatherSelf(root: map<Field, Field>, M: set<Field>, a: Field)
    ensures Gather(root, M + {a}, a) == Gather(root, M, a)
  {
  }

  /** Adding `x` unless it is `a` leaves `M` as it is when `x` is `a` or in `M`. */
  lemma AddNothing(M: set<Field>, x: Field, a: Field)
    requires x == a || x in M
    ensures M + ({x} - {a}) == M
  {
  }

  /** Adding `x` unless it is `a` adds `x` when it is not `a`. */
  lemma AddOne(M: set<Field>, x: Field, a: Field)
    requires x != a
    ensures M + ({x} - {a}) == M + {x}
  {
  }

  /** The entries of a sequence, as a set. */
  ghost function Members(s: seq<Field>): set<Field> {
    set x | x in s
  }

  lemma MembersSnoc(s: seq<Field>, x: Field)
    ensures Members(s + [x]) == Members(s) + {x}
  {
  }

  /** The entries of `xs` after the first and before index `n`. */
  ghost function Tail(xs: seq<Field>, n: nat): set<Field>
    requires n <= |xs|
  {
    if n <= 1 then {} else Tail(xs, n - 1) + {xs[n - 1]}
  }

  /** One more entry of `xs`, unless it is `a`, joins the entries up to `n`. */
  lemma TailNext(xs: seq<Field>, n: nat, a: Field)
    requires 1 <= n < |xs|
    ensures Tail(xs, n + 1) - {a} == (Tail(xs, n) - {a}) + ({xs[n]} - {a})
  {
  }

  /** Gathering the entries of `xs` after the first into `xs[0]` gathers all of `xs`. */
  lemma GatherAll(root: map<Field, Field>, xs: seq<Field>)
    requires |xs| >= 1
    ensures Gather(root, Tail(xs, |xs|) - {xs[0]}, xs[0]) == Gather(root, Members(xs), xs[0])
  {
    TailMembers(xs, |xs|);
    assert xs[..|xs|] == xs;
    GatherSelf(root, Tail(xs, |xs|) - {xs[0]}, xs[0]);
    assert (Tail(xs, |xs|) - {xs[0]}) + {xs[0]} == Members(xs);
  }

  /** Together with the first entry, the entries up to `n` are all of `xs[..n]`. */
  lemma {:induction false} TailMembers(xs: seq<Field>, n: nat)
    requires 1 <= n <= |xs|
    ensures Tail(xs, n) + {xs[0]} == Members(xs[..n])
  {
    if n == 1 {
      assert xs[..1] == [xs[0]];
    } else {
      TailMembers(xs, n - 1);
      assert xs[..n] == xs[..n - 1] + [xs[n - 1]];
      MembersSnoc(xs[..n - 1], xs[n - 1]);
    }
  }

  /** A sequence listing the labels of `ns` in order has exactly those labels as members. */
  lemma LabelsMembers(L: map<Field, Field>, ns: seq<Field>, b: seq<Field>)
    requires |b| == |ns| && forall k :: 0 <= k < |ns| ==> ns[k] in L && b[k] == L[ns[k]]
    ensures Members(b) == Labels(L, ns)
  {
  }

  /**
   * Where a representative `x` ends up after gathering into `a`: at `a`
   * when it was `a` or one of `M`, and at itself otherwise.
   */
  lemma GatherRoot(root: map<Field, Field>, M: set<Field>, a: Field, x: Field)
    requires x in root && root[x] == x
    ensures Gather(root, M, a)[x] == a <==> x == a || x in M
    ensures Gather(root, M, a)[x] != a ==> Gather(root, M, a)[x] == x
  {
  }

  /**
   * Gathering into a representative `a` removes exactly the gathered
   * representatives from every player's list of areas.
   */
  lemma GatherRoots(owner: map<Field, nat>, root: map<Field, Field>, M: set<Field>, a: Field, q: nat)
    requires a in root && root[a] == a && a !in M
    ensures RootsOf(owner, Gather(root, M, a), q) == RootsOf(owner, root, q) - M
  {
  }

  /**
   * One more representative `r` of player `p` gathered into `a`: player
   * `p` loses the area of `r`, every other player keeps theirs.
   */
  lemma GatherDrop(owner: map<Field, nat>, root: map<Field, Field>, M: set<Field>, a: Field, r: Field, p: nat)
    requires a in root && root[a] == a && a !in M && r != a && r !in M
    requires r in owner && owner[r] == p && r in root && root[r] == r
    ensures r in RootsOf(owner, Gather(root, M, a), p)
    ensures RootsOf(owner, Gather(root, M + {r}, a), p) == RootsOf(owner, Gather(root, M, a), p) - {r}
    ensures forall q :: q != p ==> RootsOf(owner, Gather(root, M + {r}, a), q) == RootsOf(owner, Gather(root, M, a), q)
    ensures |RootsOf(owner, Gather(root, M + {r}, a), p)| == |RootsOf(owner, Gather(root, M, a), p)| - 1
  {
    forall q | true
      ensures RootsOf(owner, Gather(root, M + {r}, a), q) == RootsOf(owner, Gather(root, M, a), q) - {r}
    {
      GatherRoots(owner, root, M, a, q);
      GatherRoots(owner, root, M + {r}, a, q);
    }
    GatherRoots(owner, root, M, a, p);
  }
}
