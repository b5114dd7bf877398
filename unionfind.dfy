/**
 * The union-find forest of the game engine as pure values. `parent` is the
 * parent pointer of every cell, `root` the representative each owned cell
 * reaches by following them, `rank` a measure that grows strictly along
 * every pointer (so chains end), and `size` the number of cells of the
 * area at each representative. Each lemma states what one step of the
 * engine does to these maps.
 */
module UnionFind {
  import opened Fields
  import opened Grid
  import opened Areas

  /** The maps of the forest share the domain of `owner`: the cells of the board. */
  ghost predicate SameKeys(owner: map<Field, nat>, parent: map<Field, Field>, root: map<Field, Field>,
                           rank: map<Field, nat>, size: map<Field, nat>)
  {
    parent.Keys == owner.Keys && root.Keys == owner.Keys && rank.Keys == owner.Keys && size.Keys == owner.Keys
  }

  /** The forest conditions at the owned cell `f`. */
  ghost predicate ForestAt(owner: map<Field, nat>, parent: map<Field, Field>, root: map<Field, Field>,
                           rank: map<Field, nat>, f: Field)
  {
    && f in owner && f in parent && f in root && f in rank
    && var p := parent[f];
    && var r := root[f];
    && p in owner && p in root && p in rank && r in owner && r in parent && r in root && r in rank
    && owner[p] == owner[f]
    && (p != f ==> rank[p] > rank[f])
    && root[p] == r
    && owner[r] == owner[f]
    && parent[r] == r
    && root[r] == r
    && (r != f ==> rank[r] > rank[f])
    && (p == f ==> r == f)
  }

  /**
   * Every rank is below `bound`, and the forest conditions hold at every
   * owned cell other than `c` when `skip` is set, no such cell pointing at
   * or represented by `c`.
   */
  ghost predicate ForestBut(owner: map<Field, nat>, parent: map<Field, Field>, root: map<Field, Field>,
                            rank: map<Field, nat>, bound: nat, skip: bool, c: Field)
  {
    && (forall f :: f in rank ==> rank[f] < bound)
    && (forall f {:trigger ForestAt(owner, parent, root, rank, f)} ::
          f in owner && owner[f] != 0 && !(skip && f == c) ==>
            ForestAt(owner, parent, root, rank, f) && (skip ==> parent[f] != c && root[f] != c))
  }

  /** `size` holds the number of cells of the area at a representative and 0 elsewhere. */
  ghost predicate SizeAt(owner: map<Field, nat>, root: map<Field, Field>, size: map<Field, nat>, f: Field) {
    && f in owner && f in root && f in size
    && size[f] == if owner[f] != 0 && root[f] == f then |ClassOf(owner, root, f)| else 0
  }

  /** `SizeAt` holds at every cell other than `c` when `skip` is set. */
  ghost predicate SizesBut(owner: map<Field, nat>, root: map<Field, Field>, size: map<Field, nat>,
                           skip: bool, c: Field)
  {
    forall f {:trigger SizeAt(owner, root, size, f)} :: f in owner && !(skip && f == c) ==>
      SizeAt(owner, root, size, f)
  }

  /** The forest conditions at every owned cell. */
  ghost predicate IsForest(owner: map<Field, nat>, parent: map<Field, Field>, root: map<Field, Field>,
                           rank: map<Field, nat>, bound: nat)
  {
    ForestBut(owner, parent, root, rank, bound, false, Field(0, 0))
  }

  /** `SizeAt` holds at every cell. */
  ghost predicate SizesCorrect(owner: map<Field, nat>, root: map<Field, Field>, size: map<Field, nat>) {
    SizesBut(owner, root, size, false, Field(0, 0))
  }

  /** A rank for `a` above both its own and that of `s`. */
  function RaiseRank(rank: map<Field, nat>, a: Field, s: Field): (r: map<Field, nat>)
    requires a in rank && s in rank
    ensures r.Keys == rank.Keys && r[a] > rank[s] && r[a] >= rank[a]
    ensures forall f :: f in rank && f != a ==> r[f] == rank[f]
  {
    rank[a := if rank[a] > rank[s] then rank[a] else rank[s] + 1]
  }

  /**
   * Path compression: pointing the owned cell `f` straight at its
   * representative keeps the forest.
   */
  lemma Compress(owner: map<Field, nat>, parent: map<Field, Field>, root: map<Field, Field>,
                 rank: map<Field, nat>, bound: nat, skip: bool, c: Field, f: Field)
    requires ForestBut(owner, parent, root, rank, bound, skip, c)
    requires f in owner && owner[f] != 0 && !(skip && f == c)
    ensures f in root && ForestBut(owner, parent[f := root[f]], root, rank, bound, skip, c)
  {
    assert ForestAt(owner, parent, root, rank, f);
    var parent' := parent[f := root[f]];
    forall g | g in owner && owner[g] != 0 && !(skip && g == c)
      ensures ForestAt(owner, parent', root, rank, g) && (skip ==> parent'[g] != c && root[g] != c)
    {
      assert ForestAt(owner, parent, root, rank, g);
    }
  }

  /**
   * Merging: pointing the representative `s` at the representative `a` of
   * another area of the same player keeps the forest, with `a` now
   * representing both areas.
   */
  lemma MergeForest(owner: map<Field, nat>, parent: map<Field, Field>, root: map<Field, Field>,
                    rank: map<Field, nat>, size: map<Field, nat>, bound: nat, s: Field, a: Field)
    requires SameKeys(owner, parent, root, rank, size) && IsForest(owner, parent, root, rank, bound)
    requires s in owner && a in owner && s != a && owner[s] != 0 && owner[a] == owner[s]
    requires root[s] == s && root[a] == a
    ensures IsForest(owner, parent[s := a], Relabel(root, s, a), RaiseRank(rank, a, s), bound + 1)
  {
    var parent', root', rank' := parent[s := a], Relabel(root, s, a), RaiseRank(rank, a, s);
    assert ForestAt(owner, parent, root, rank, s) && ForestAt(owner, parent, root, rank, a);
    forall g | g in owner && owner[g] != 0
      ensures ForestAt(owner, parent', root', rank', g)
    {
      assert ForestAt(owner, parent, root, rank, g);
    }
  }

  /** Merging area `s` into area `a` moves the size of `s` over to `a`. */
  lemma MergeSizes(owner: map<Field, nat>, parent: map<Field, Field>, root: map<Field, Field>,
                   rank: map<Field, nat>, size: map<Field, nat>, s: Field, a: Field)
    requires SameKeys(owner, parent, root, rank, size) && SizesCorrect(owner, root, size)
    requires s in owner && a in owner && s != a && owner[s] != 0 && owner[a] == owner[s]
    requires root[s] == s && root[a] == a
    ensures SizesCorrect(owner, Relabel(root, s, a), size[a := size[a] + size[s]][s := 0])
  {
    var root', size' := Relabel(root, s, a), size[a := size[a] + size[s]][s := 0];
    RelabelClasses(owner, root, s, a);
    assert SizeAt(owner, root, size, s) && SizeAt(owner, root, size, a);
    forall f | f in owner
      ensures SizeAt(owner, root', size', f)
    {
      assert SizeAt(owner, root, size, f);
    }
  }
  // ---------------------------------------------------------------------
  // The steps of a move

  /** The union-find maps of a board together, ranks below `bound`. */
  datatype Forest = Forest(parent: map<Field, Field>, root: map<Field, Field>, rank: map<Field, nat>,
                           bound: nat, size: map<Field, nat>)

  /**
   * The union-find maps describe the areas of the board: a forest whose
   * roots carry the sizes of their areas, areas connected, and adjacent
   * cells of one player in one area unless one of them is `c`.
   */
  ghost predicate Partition(owner: map<Field, nat>, u: Forest, c: Field) {
    u in Partitions(owner, c)
  }

  ghost function Partitions(owner: map<Field, nat>, c: Field): iset<Forest> {
    iset u | PartitionBody(owner, u, c)
  }

  ghost predicate PartitionBody(owner: map<Field, nat>, u: Forest, c: Field) {
    && SameKeys(owner, u.parent, u.root, u.rank, u.size) && IsForest(owner, u.parent, u.root, u.rank, u.bound)
    && SizesCorrect(owner, u.root, u.size) && SeparatedExcept(owner, u.root, c) && RootConnected(owner, u.root)
  }

  /**
   * The cell `c` has just been taken: it is an area of its own that nothing
   * points at, with no parent and no size recorded yet.
   */
  ghost predicate Fresh(owner: map<Field, nat>, u: Forest, c: Field) {
    u in FreshForests(owner, c)
  }

  ghost function FreshForests(owner: map<Field, nat>, c: Field): iset<Forest> {
    iset u | FreshBody(owner, u, c)
  }

  ghost predicate FreshBody(owner: map<Field, nat>, u: Forest, c: Field) {
    && SameKeys(owner, u.parent, u.root, u.rank, u.size) && c in owner && owner[c] != 0
    && ForestBut(owner, u.parent, u.root, u.rank, u.bound, true, c) && SizesBut(owner, u.root, u.size, true, c)
    && u.root[c] == c && ClassOf(owner, u.root, c) == {c} && u.size[c] == 0
    && SeparatedExcept(owner, u.root, c) && RootConnected(owner, u.root)
  }

  /** Taking the empty cell `c` keeps the forest at every other owned cell, none of them pointing at `c`. */
  lemma TakeForest(owner: map<Field, nat>, parent: map<Field, Field>, root: map<Field, Field>,
                   rank: map<Field, nat>, bound: nat, c: Field, p: nat)
    requires IsForest(owner, parent, root, rank, bound) && root.Keys == owner.Keys
    requires c in owner && owner[c] == 0 && p != 0
    ensures ForestBut(owner[c := p], parent, root[c := c], rank, bound, true, c)
  {
    var owner', root' := owner[c := p], root[c := c];
    forall f | f in owner' && owner'[f] != 0 && f != c
      ensures ForestAt(owner', parent, root', rank, f) && parent[f] != c && root'[f] != c
    {
      assert ForestAt(owner, parent, root, rank, f);
      assert ForestAt(owner, parent, root, rank, parent[f]);
    }
  }

  /** Taking the empty cell `c` keeps the sizes at every other cell. */
  lemma TakeSizes(owner: map<Field, nat>, parent: map<Field, Field>, root: map<Field, Field>,
                  rank: map<Field, nat>, bound: nat, size: map<Field, nat>, c: Field, p: nat)
    requires IsForest(owner, parent, root, rank, bound) && SizesCorrect(owner, root, size)
    requires root.Keys == owner.Keys && size.Keys == owner.Keys
    requires c in owner && owner[c] == 0 && p != 0
    ensures SizesBut(owner[c := p], root[c := c], size, true, c) && size[c] == 0
  {
    var owner', root' := owner[c := p], root[c := c];
    forall f | f in owner && owner[f] != 0
      ensures root[f] != c
    {
      assert ForestAt(owner, parent, root, rank, f);
    }
    TakeCell(owner, root, c, p);
    assert SizeAt(owner, root, size, c);
    forall f | f in owner' && f != c
      ensures SizeAt(owner', root', size, f)
    {
      assert SizeAt(owner, root, size, f);
    }
  }

  /** `take_field`: player `p` taking the empty cell `c` leaves it a fresh area of its own. */
  lemma Take(owner: map<Field, nat>, u: Forest, c: Field, p: nat)
    requires Partition(owner, u, Field(0, 0)) && Separated(owner, u.root)
    requires c in owner && owner[c] == 0 && p != 0
    ensures forall f :: f in owner && owner[f] != 0 ==> u.root[f] != c
    ensures Fresh(owner[c := p], u.(root := u.root[c := c]), c)
  {
    forall f | f in owner && owner[f] != 0
      ensures u.root[f] != c
    {
      assert ForestAt(owner, u.parent, u.root, u.rank, f);
    }
    TakeCell(owner, u.root, c, p);
    TakeCellAreas(owner, u.root, c, p);
    TakeForest(owner, u.parent, u.root, u.rank, u.bound, c, p);
    TakeSizes(owner, u.parent, u.root, u.rank, u.bound, u.size, c, p);
  }

  /** Pointing the fresh cell `c` at the root of the owned cell `n` of the same player keeps the forest. */
  lemma AttachForest(owner: map<Field, nat>, parent: map<Field, Field>, root: map<Field, Field>,
                     rank: map<Field, nat>, bound: nat, c: Field, n: Field)
    requires ForestBut(owner, parent, root, rank, bound, true, c)
    requires c in owner && c in parent && c in root && c in rank && owner[c] != 0 && root[c] == c
    requires n in owner && owner[n] == owner[c] && n != c
    ensures n in root && root[n] != c && root[n] in rank
    ensures IsForest(owner, parent[c := root[n]], root[c := root[n]], RaiseRank(rank, root[n], c), bound + 1)
  {
    assert ForestAt(owner, parent, root, rank, n);
    var a := root[n];
    assert ForestAt(owner, parent, root, rank, a);
    var parent', root', rank' := parent[c := a], root[c := a], RaiseRank(rank, a, c);
    forall f | f in owner && owner[f] != 0
      ensures ForestAt(owner, parent', root', rank', f)
    {
      if f != c {
        assert ForestAt(owner, parent, root, rank, f);
      }
    }
  }

  /** Adding the fresh cell `c` to the area of the root `a` adds one to its size. */
  lemma AttachSizes(owner: map<Field, nat>, root: map<Field, Field>, size: map<Field, nat>, c: Field, a: Field)
    requires SizesBut(owner, root, size, true, c) && root.Keys == owner.Keys && size.Keys == owner.Keys
    requires c in owner && owner[c] != 0 && root[c] == c && size[c] == 0
    requires a in owner && a != c && owner[a] != 0 && root[a] == a
    ensures SizesCorrect(owner, root[c := a], size[a := size[a] + 1])
  {
    var root', size' := root[c := a], size[a := size[a] + 1];
    assert ClassOf(owner, root', a) == ClassOf(owner, root, a) + {c};
    assert c !in ClassOf(owner, root, a);
    assert forall r :: r != c && r != a ==> ClassOf(owner, root', r) == ClassOf(owner, root, r);
    assert SizeAt(owner, root, size, a);
    forall f | f in owner
      ensures SizeAt(owner, root', size', f)
    {
      if f != c {
        assert SizeAt(owner, root, size, f);
      }
    }
  }

  /** The maps after the fresh cell `c` joins the area represented by `a`. */
  ghost function Attached(u: Forest, c: Field, a: Field): (v: Forest)
    requires a in u.rank && c in u.rank && a in u.size
    ensures v.root == u.root[c := a] && v.parent == u.parent[c := a] && v.size == u.size[a := u.size[a] + 1]
  {
    Forest(u.parent[c := a], u.root[c := a], RaiseRank(u.rank, a, c), u.bound + 1, u.size[a := u.size[a] + 1])
  }

  /**
   * The fresh cell `c` joining the area of its neighbour `n` of the same
   * player: `c` points at the root of `n`, whose area grows by one.
   */
  lemma Attach(owner: map<Field, nat>, u: Forest, c: Field, n: Field)
    requires Fresh(owner, u, c)
    requires n in owner && owner[n] == owner[c] && Adjacent(c, n)
    ensures n in u.root && u.root[n] in u.size && u.root[n] in u.rank && u.root[n] != c
    ensures Partition(owner, Attached(u, c, u.root[n]), c)
    ensures forall q :: RootsOf(owner, u.root[c := u.root[n]], q) == RootsOf(owner, u.root, q) - {c}
  {
    AttachForest(owner, u.parent, u.root, u.rank, u.bound, c, n);
    assert ForestAt(owner, u.parent, u.root, u.rank, n);
    assert ForestAt(owner, u.parent, u.root, u.rank, u.root[n]);
    AttachSizes(owner, u.root, u.size, c, u.root[n]);
    AttachCell(owner, u.root, c, n);
    AttachCellAreas(owner, u.root, c, n);
  }

  /** Making the fresh cell `c` its own parent keeps the forest. */
  lemma IsolateForest(owner: map<Field, nat>, parent: map<Field, Field>, root: map<Field, Field>,
                      rank: map<Field, nat>, bound: nat, c: Field)
    requires ForestBut(owner, parent, root, rank, bound, true, c)
    requires c in owner && c in parent && c in root && c in rank && root[c] == c
    ensures IsForest(owner, parent[c := c], root, rank, bound)
  {
    var parent' := parent[c := c];
    forall f | f in owner && owner[f] != 0
      ensures ForestAt(owner, parent', root, rank, f)
    {
      if f != c {
        assert ForestAt(owner, parent, root, rank, f);
      }
    }
  }

  /** The fresh cell `c`, alone in its area, has size one. */
  lemma IsolateSizes(owner: map<Field, nat>, root: map<Field, Field>, size: map<Field, nat>, c: Field)
    requires SizesBut(owner, root, size, true, c) && c in owner && c in root && c in size
    requires owner[c] != 0 && root[c] == c && ClassOf(owner, root, c) == {c}
    ensures SizesCorrect(owner, root, size[c := 1])
  {
    var size' := size[c := 1];
    forall f | f in owner
      ensures SizeAt(owner, root, size', f)
    {
      if f != c {
        assert SizeAt(owner, root, size, f);
      }
    }
  }

  /** The fresh cell `c` with no neighbour of its player becomes a root of size one. */
  lemma Isolate(owner: map<Field, nat>, u: Forest, c: Field)
    requires Fresh(owner, u, c)
    requires forall g :: g in owner && Adjacent(c, g) ==> owner[g] != owner[c]
    ensures Partition(owner, u.(parent := u.parent[c := c], size := u.size[c := 1]), c)
    ensures Separated(owner, u.root)
  {
    IsolateForest(owner, u.parent, u.root, u.rank, u.bound, c);
    IsolateSizes(owner, u.root, u.size, c);
    SeparatedClose(owner, u.root, c);
  }

  /** The maps after `union_areas` hands the area represented by `s` over to `a`. */
  ghost function Merged(u: Forest, s: Field, a: Field): (v: Forest)
    requires a in u.rank && s in u.rank && a in u.size && s in u.size
    ensures v.root == Relabel(u.root, s, a) && v.parent == u.parent[s := a]
    ensures v.size == u.size[a := u.size[a] + u.size[s]][s := 0]
  {
    Forest(u.parent[s := a], Relabel(u.root, s, a), RaiseRank(u.rank, a, s), u.bound + 1,
           u.size[a := u.size[a] + u.size[s]][s := 0])
  }

  /**
   * `union_areas` on the maps: the root `s` points at the root `a` of a
   * connected area of the same player, which takes over its cells and size.
   */
  lemma Merge(owner: map<Field, nat>, u: Forest, c: Field, s: Field, a: Field)
    requires Partition(owner, u, c)
    requires s in owner && a in owner && s != a && owner[s] != 0 && owner[a] == owner[s]
    requires u.root[s] == s && u.root[a] == a
    requires ConnectedIn(OwnedBy(owner, owner[s]), a, s)
    ensures Partition(owner, Merged(u, s, a), c)
    ensures RootsOf(owner, Relabel(u.root, s, a), owner[s]) == RootsOf(owner, u.root, owner[s]) - {s}
    ensures forall q :: q != owner[s] ==> RootsOf(owner, Relabel(u.root, s, a), q) == RootsOf(owner, u.root, q)
  {
    MergeAreas(owner, u.root, s, a, c);
    MergeForest(owner, u.parent, u.root, u.rank, u.size, u.bound, s, a);
    MergeSizes(owner, u.parent, u.root, u.rank, u.size, s, a);
  }

  /**
   * The representative of an area of the owner of `c` reached from a
   * neighbour `n` of `c`: an owned root, connected to `c` through cells of
   * that owner.
   */
  lemma NeighbourRoot(owner: map<Field, nat>, u: Forest, c: Field, n: Field)
    requires Partition(owner, u, c)
    requires c in owner && owner[c] != 0 && n in owner && owner[n] == owner[c] && Adjacent(c, n)
    ensures var r := u.root[n];
      r in owner && owner[r] == owner[c] && u.root[r] == r && ConnectedIn(OwnedBy(owner, owner[c]), c, r)
  {
    assert ForestAt(owner, u.parent, u.root, u.rank, n);
    assert ReachesRoot(owner, u.root, n);
    ConnectedAdjacent(OwnedBy(owner, owner[c]), c, n);
    ConnectedTrans(OwnedBy(owner, owner[c]), c, n, u.root[n]);
  }

  /** Path compression by `find_parent` keeps the partition: only parent pointers change. */
  lemma Refound(owner: map<Field, nat>, u: Forest, c: Field, parent: map<Field, Field>)
    requires Partition(owner, u, c) && parent.Keys == u.parent.Keys
    requires ForestBut(owner, parent, u.root, u.rank, u.bound, false, Field(0, 0))
    ensures Partition(owner, u.(parent := parent), c)
  {
  }

  /** Path compression by `find_parent` keeps a fresh cell fresh: only parent pointers change. */
  lemma Refresh(owner: map<Field, nat>, u: Forest, c: Field, parent: map<Field, Field>)
    requires Fresh(owner, u, c) && parent.Keys == u.parent.Keys
    requires ForestBut(owner, parent, u.root, u.rank, u.bound, true, c)
    ensures Fresh(owner, u.(parent := parent), c)
  {
    assert FreshBody(owner, u.(parent := parent), c);
  }

  /** Once no adjacent pair of one player is split any more, the partition needs no exception. */
  lemma Settle(owner: map<Field, nat>, u: Forest, c: Field)
    requires Partition(owner, u, c) && Separated(owner, u.root)
    ensures Partition(owner, u, Field(0, 0))
  {
    assert PartitionBody(owner, u, Field(0, 0));
  }
}
