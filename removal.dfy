/**
 * What removing a cell does to the areas of its owner, as pure values:
 * the board `delete_util` leaves behind, the state of its flood fills
 * that rebuild the areas around the removed cell, and how a removal and
 * a move on the same cell undo each other.
 */
module Removal {
  import opened Fields
  import opened Grid
  import opened Areas
  import opened UnionFind
  import opened Moves
  import opened Flood

  // ---------------------------------------------------------------------
  // The board after a removal

  /**
   * The record `pl'` of a player after a cell of theirs was removed whose
   * neighbours of theirs lie, once it is gone, in `d` distinct areas: one
   * cell fewer, and one area fewer plus one per such area.
   */
  ghost predicate Removed(pl: Player, pl': Player, d: nat) {
    && pl'.hasPlayedGolden == pl.hasPlayedGolden && pl'.busyFields + 1 == pl.busyFields
    && pl'.numAreas + 1 == pl.numAreas + d
  }

  /**
   * `b'` is a board `delete_util` may leave after removing the cell `c`
   * of player `q` from `b`: it is sound, `c` is empty, there is one empty
   * cell more, the records of the other players are unchanged, and `q`
   * has one cell fewer and the areas `Removed` says.
   */
  ghost predicate RemoveBody(b: Board, b': Board, c: Field, q: nat) {
    && Sound(b') && b'.width == b.width && b'.height == b.height
    && c in b.owner && b.owner[c] == q && 1 <= q <= |b.ps| && |b'.ps| == |b.ps|
    && b'.owner == b.owner[c := 0] && b'.empty == b.empty + 1
    && (forall i :: 0 <= i < |b.ps| && i != q - 1 ==> b'.ps[i] == b.ps[i])
    && Removed(b.ps[q - 1], b'.ps[q - 1], DistinctComps(OwnedBy(b'.owner, q), SameNbrs(b'.owner, c, q, Directions)))
  }

  ghost function RemoveBoards(b: Board, c: Field, q: nat): iset<Board> {
    iset b': Board | RemoveBody(b, b', c, q)
  }

  /** `b'` is the outcome of `delete_util` on the cell `c` of `q` of `b`, as a single fact. */
  ghost predicate RemovedBoard(b: Board, b': Board, c: Field, q: nat) {
    b' in RemoveBoards(b, c, q)
  }

  lemma RemovedBoardParts(b: Board, b': Board, c: Field, q: nat)
    requires RemovedBoard(b, b', c, q)
    ensures RemoveBody(b, b', c, q)
  {
  }

  /**
   * Giving the cell just removed from `q` back to `q` restores the owners,
   * the number of empty cells and every record.
   */
  lemma MoveUndoesRemove(b: Board, b1: Board, b2: Board, c: Field, q: nat)
    requires RemovedBoard(b, b1, c, q) && MovedBoard(b1, b2, c, q)
    ensures b2.owner == b.owner && b2.empty == b.empty && b2.ps == b.ps
  {
    RemovedBoardParts(b, b1, c, q);
    MovedBoardParts(b1, b2, c, q);
    OwnerBack(b.owner, c, q, 0);
    assert b2.ps[q - 1].busyFields == b.ps[q - 1].busyFields && b2.ps[q - 1].numAreas == b.ps[q - 1].numAreas;
    RecordsBack(b.ps, b1.ps, b2.ps, q);
  }

  /**
   * Removing the cell just taken by `p` restores the owners, the number of
   * empty cells and every record.
   */
  lemma RemoveUndoesMove(b: Board, b1: Board, b2: Board, c: Field, p: nat)
    requires MovedBoard(b, b1, c, p) && RemovedBoard(b1, b2, c, p)
    ensures b2.owner == b.owner && b2.empty == b.empty && b2.ps == b.ps
  {
    MovedBoardParts(b, b1, c, p);
    RemovedBoardParts(b1, b2, c, p);
    OwnerBack(b.owner, c, 0, p);
    assert b2.ps[p - 1].busyFields == b.ps[p - 1].busyFields && b2.ps[p - 1].numAreas == b.ps[p - 1].numAreas;
    RecordsBack(b.ps, b1.ps, b2.ps, p);
  }

  /** Giving `c` an owner and then its old owner `q` back restores the owners. */
  lemma OwnerBack(O: map<Field, nat>, c: Field, q: nat, p: nat)
    requires c in O && O[c] == q
    ensures O[c := p][c := q] == O
  {
  }

  /**
   * Records `ps2` that agree with `ps1`, and so with `ps`, off player `q`,
   * and with `ps` on every field of `q`, are `ps`.
   */
  lemma RecordsBack(ps: seq<Player>, ps1: seq<Player>, ps2: seq<Player>, q: nat)
    requires 1 <= q <= |ps| && |ps1| == |ps| && |ps2| == |ps|
    requires forall i :: 0 <= i < |ps| && i != q - 1 ==> ps1[i] == ps[i]
    requires forall i :: 0 <= i < |ps| && i != q - 1 ==> ps2[i] == ps1[i]
    requires ps2[q - 1].hasPlayedGolden == ps[q - 1].hasPlayedGolden
    requires ps2[q - 1].busyFields == ps[q - 1].busyFields && ps2[q - 1].numAreas == ps[q - 1].numAreas
    ensures ps2 == ps
  {
  }

  // ---------------------------------------------------------------------
  // The flood fills of delete_util

  /** The cells of `S` joined through `S` to one of the cells `ns`. */
  ghost function Reach(S: set<Field>, ns: seq<Field>): set<Field> {
    set v | v in S && exists j :: 0 <= j < |ns| && ConnectedIn(S, ns[j], v)
  }

  /** A cell of `S` joined to a cell reached from `ns` is reached from `ns`. */
  lemma ReachStep(S: set<Field>, ns: seq<Field>, u: Field, v: Field)
    requires u in Reach(S, ns) && ConnectedIn(S, u, v)
    ensures v in Reach(S, ns)
  {
    var j :| 0 <= j < |ns| && ConnectedIn(S, ns[j], u);
    ConnectedTrans(S, ns[j], u, v);
    ConnectedEnds(S, u, v);
  }

  /** One more cell `f` of `S` reaches its component as well. */
  lemma ReachSnoc(S: set<Field>, ns: seq<Field>, f: Field)
    ensures Reach(S, ns + [f]) == Reach(S, ns) + Comp(S, f)
  {
    var xs := ns + [f];
    assert forall j :: 0 <= j < |ns| ==> xs[j] == ns[j];
    assert xs[|ns|] == f;
  }

  /** One more cell `f` of `S` adds a component exactly when it is not reached from `ns`. */
  lemma CompsSnoc(S: set<Field>, ns: seq<Field>, f: Field)
    requires f in S
    ensures DistinctComps(S, ns + [f]) == DistinctComps(S, ns) + if f in Reach(S, ns) then 0 else 1
  {
    CountNewSnoc((a, b) => ConnectedIn(S, a, b), ns, f);
  }

  /**
   * The state of the loop of `delete_util` once the neighbours `ns` of
   * the removed cell have been seen, `S1` being the cells of its owner
   * after the removal: the marked cells `V` are those joined to one of
   * them; each has been handed in `P` its head, a cell of `H` joined to
   * it; the heads, no two of them joined, are as many as the components
   * seen and carry the sizes of their components in `S`; all other
   * parents and sizes are those of `P0` and `S0`.
   */
  ghost predicate Rebuilding(S1: set<Field>, ns: seq<Field>, V: set<Field>, H: set<Field>,
                             P0: map<Field, Field>, P: map<Field, Field>, S0: map<Field, nat>, S: map<Field, nat>)
  {
    (V, H, P, S) in RebuildStates(S1, ns, P0, S0)
  }

  ghost function RebuildStates(S1: set<Field>, ns: seq<Field>, P0: map<Field, Field>, S0: map<Field, nat>)
    : iset<(set<Field>, set<Field>, map<Field, Field>, map<Field, nat>)>
  {
    iset t: (set<Field>, set<Field>, map<Field, Field>, map<Field, nat>) | RebuildBody(S1, ns, t.0, t.1, P0, t.2, S0, t.3)
  }

  ghost predicate RebuildBody(S1: set<Field>, ns: seq<Field>, V: set<Field>, H: set<Field>,
                              P0: map<Field, Field>, P: map<Field, Field>, S0: map<Field, nat>, S: map<Field, nat>)
  {
    && S1 <= P0.Keys && S1 <= S0.Keys
    && V == Reach(S1, ns) && H <= V && |H| == DistinctComps(S1, ns)
    && HeadsOf(S1, V, H, P0, P) && SizesOf(S1, H, S0, S)
  }

  /**
   * Each cell of `V` is handed in `P` a head of `H` joined to it, no two
   * heads are joined, and the other cells keep their parents in `P0`.
   */
  ghost predicate HeadsOf(S1: set<Field>, V: set<Field>, H: set<Field>, P0: map<Field, Field>, P: map<Field, Field>) {
    && P.Keys == P0.Keys
    && (forall v :: v in V ==> v in P && P[v] in H && ConnectedIn(S1, P[v], v))
    && (forall h, h' :: h in H && h' in H && ConnectedIn(S1, h, h') ==> h == h')
    && (forall v :: v in P0 && v !in V ==> P[v] == P0[v])
  }

  /** Each head carries in `S` the size of its component, and the other cells their sizes in `S0`. */
  ghost predicate SizesOf(S1: set<Field>, H: set<Field>, S0: map<Field, nat>, S: map<Field, nat>) {
    S.Keys == S0.Keys && forall v :: v in S0 ==> S[v] == if v in H then |Comp(S1, v)| else S0[v]
  }

  lemma RebuildingParts(S1: set<Field>, ns: seq<Field>, V: set<Field>, H: set<Field>,
                        P0: map<Field, Field>, P: map<Field, Field>, S0: map<Field, nat>, S: map<Field, nat>)
    requires Rebuilding(S1, ns, V, H, P0, P, S0, S)
    ensures RebuildBody(S1, ns, V, H, P0, P, S0, S)
  {
  }

  lemma RebuildingIntro(S1: set<Field>, ns: seq<Field>, V: set<Field>, H: set<Field>,
                        P0: map<Field, Field>, P: map<Field, Field>, S0: map<Field, nat>, S: map<Field, nat>)
    requires RebuildBody(S1, ns, V, H, P0, P, S0, S)
    ensures Rebuilding(S1, ns, V, H, P0, P, S0, S)
  {
  }

  /** Before the first direction nothing is marked and nothing has changed. */
  lemma RebuildStart(S1: set<Field>, P0: map<Field, Field>, S0: map<Field, nat>)
    requires S1 <= P0.Keys && S1 <= S0.Keys
    ensures Rebuilding(S1, [], {}, {}, P0, P0, S0, S0)
  {
    assert Reach(S1, []) == {};
    NoCompsOfEmpty(S1);
    RebuildingIntro(S1, [], {}, {}, P0, P0, S0, S0);
  }

  /**
   * A neighbour `f` that is already marked lies in a component seen
   * before: nothing changes, and it adds no component.
   */
  lemma RebuildSeen(S1: set<Field>, ns: seq<Field>, V: set<Field>, H: set<Field>,
                    P0: map<Field, Field>, P: map<Field, Field>, S0: map<Field, nat>, S: map<Field, nat>, f: Field)
    requires Rebuilding(S1, ns, V, H, P0, P, S0, S) && f in V
    ensures Rebuilding(S1, ns + [f], V, H, P0, P, S0, S)
  {
    RebuildingParts(S1, ns, V, H, P0, P, S0, S);
    ReachSeen(S1, ns, f);
    CompsSnoc(S1, ns, f);
    RebuildingIntro(S1, ns + [f], V, H, P0, P, S0, S);
  }

  /** A cell already reached from `ns` reaches nothing new. */
  lemma ReachSeen(S: set<Field>, ns: seq<Field>, f: Field)
    requires f in Reach(S, ns)
    ensures f in S && Reach(S, ns + [f]) == Reach(S, ns)
  {
    ReachSnoc(S, ns, f);
    forall v | v in Comp(S, f)
      ensures v in Reach(S, ns)
    {
      ReachStep(S, ns, f, v);
    }
  }

  /** An unmarked cell `f` of `S1` has a component apart from the marked cells. */
  lemma RebuildFresh(S1: set<Field>, ns: seq<Field>, V: set<Field>, H: set<Field>,
                     P0: map<Field, Field>, P: map<Field, Field>, S0: map<Field, nat>, S: map<Field, nat>, f: Field)
    requires Rebuilding(S1, ns, V, H, P0, P, S0, S) && f in S1 && f !in V
    ensures Comp(S1, f) !! V
  {
    RebuildingParts(S1, ns, V, H, P0, P, S0, S);
    forall v | v in Comp(S1, f) && v in V
      ensures false
    {
      ConnectedSym(S1, f, v);
      ReachStep(S1, ns, v, f);
    }
  }

  /**
   * A neighbour `f` not yet marked: the fill from it marks its component,
   * hands it `f` as head in `P'` and counts its `count` cells, so `f`
   * is a new head and one more component is seen.
   */
  lemma RebuildFill(S1: set<Field>, ns: seq<Field>, V: set<Field>, H: set<Field>,
                    P0: map<Field, Field>, P: map<Field, Field>, S0: map<Field, nat>, S: map<Field, nat>,
                    f: Field, P': map<Field, Field>, count: nat)
    requires Rebuilding(S1, ns, V, H, P0, P, S0, S) && f in S1 && f !in V
    requires Handed(Comp(S1, f), f, P, P') && count == |Comp(S1, f)|
    ensures |H + {f}| == |H| + 1 && Rebuilding(S1, ns + [f], V + Comp(S1, f), H + {f}, P0, P', S0, S[f := count])
  {
    RebuildingParts(S1, ns, V, H, P0, P, S0, S);
    RebuildFresh(S1, ns, V, H, P0, P, S0, S, f);
    var C := Comp(S1, f);
    ConnectedRefl(S1, f);
    assert f in C;
    ReachSnoc(S1, ns, f);
    CompsSnoc(S1, ns, f);
    assert f !in H;
    HeadsFill(S1, ns, V, H, P0, P, f, P');
    SizesFill(S1, H, S0, S, f, count);
    assert |H + {f}| == DistinctComps(S1, ns + [f]);
    assert V + C == Reach(S1, ns + [f]);
    RebuildingIntro(S1, ns + [f], V + C, H + {f}, P0, P', S0, S[f := count]);
  }

  /** The fill from the unmarked neighbour `f` makes `f` the head of its component. */
  lemma HeadsFill(S1: set<Field>, ns: seq<Field>, V: set<Field>, H: set<Field>,
                  P0: map<Field, Field>, P: map<Field, Field>, f: Field, P': map<Field, Field>)
    requires HeadsOf(S1, V, H, P0, P) && V == Reach(S1, ns) && H <= V
    requires f in S1 && f !in V && Comp(S1, f) !! V && Handed(Comp(S1, f), f, P, P') && S1 <= P.Keys
    ensures HeadsOf(S1, V + Comp(S1, f), H + {f}, P0, P')
  {
    HandFill(S1, V, H, P, f, P');
    HeadsApart(S1, ns, V, H, f);
  }

  /** After the fill from `f`, every marked cell points at a head joined to it. */
  lemma HandFill(S1: set<Field>, V: set<Field>, H: set<Field>, P: map<Field, Field>, f: Field, P': map<Field, Field>)
    requires forall v :: v in V ==> v in P && P[v] in H && ConnectedIn(S1, P[v], v)
    requires Comp(S1, f) !! V && Handed(Comp(S1, f), f, P, P') && S1 <= P.Keys
    ensures forall v :: v in V + Comp(S1, f) ==> v in P' && P'[v] in H + {f} && ConnectedIn(S1, P'[v], v)
  {
    var C := Comp(S1, f);
    forall v | v in V + C
      ensures v in P' && P'[v] in H + {f} && ConnectedIn(S1, P'[v], v)
    {
      if v !in C {
        assert P'[v] == P[v];
      } else {
        assert P'[v] == f;
      }
    }
  }

  /** The unmarked cell `f` is joined to no head, so the heads stay apart with it. */
  lemma HeadsApart(S1: set<Field>, ns: seq<Field>, V: set<Field>, H: set<Field>, f: Field)
    requires forall h, h' :: h in H && h' in H && ConnectedIn(S1, h, h') ==> h == h'
    requires V == Reach(S1, ns) && H <= V && f !in V
    ensures forall h, h' :: h in H + {f} && h' in H + {f} && ConnectedIn(S1, h, h') ==> h == h'
  {
    forall h, h' | h in H + {f} && h' in H + {f} && ConnectedIn(S1, h, h')
      ensures h == h'
    {
      if h == f && h' != f {
        ConnectedSym(S1, f, h');
        ReachStep(S1, ns, h', f);
      } else if h != f && h' == f {
        ReachStep(S1, ns, h, f);
      }
    }
  }

  /** The head `f` of a new component records its `count` cells. */
  lemma SizesFill(S1: set<Field>, H: set<Field>, S0: map<Field, nat>, S: map<Field, nat>, f: Field, count: nat)
    requires SizesOf(S1, H, S0, S) && f in S0 && count == |Comp(S1, f)|
    ensures SizesOf(S1, H + {f}, S0, S[f := count])
  {
  }

  // ---------------------------------------------------------------------
  // The board after the flood fills

  /** The area of the removed cell `c`, less `c`, is what the fills from its neighbours reach. */
  lemma ClassAfterRemove(O: map<Field, nat>, P0: map<Field, Field>, root: map<Field, Field>, rank: map<Field, nat>,
                         bound: nat, c: Field, q: nat)
    requires O.Keys == root.Keys && Separated(O, root) && RootConnected(O, root)
    requires IsForest(O, P0, root, rank, bound) && c in O && O[c] == q && q != 0
    ensures Reach(OwnedBy(O[c := 0], q), SameNbrs(O[c := 0], c, q, Directions)) == ClassOf(O, root, root[c]) - {c}
  {
    var O1 := O[c := 0];
    var S1 := OwnedBy(O1, q);
    var Sq := OwnedBy(O, q);
    var ns := SameNbrs(O1, c, q, Directions);
    var r := root[c];
    assert S1 == Sq - {c};
    forall v | v in Reach(S1, ns)
      ensures v in ClassOf(O, root, r) && v != c
    {
      var j :| 0 <= j < |ns| && ConnectedIn(S1, ns[j], v);
      var n := ns[j];
      ConnectedMono(S1, Sq, n, v);
      ConnectedEnds(S1, n, v);
      AreasAreComponents(O, root, n, v);
      assert Adjacent(c, n);
    }
    assert ForestAt(O, P0, root, rank, c);
    forall v | v in ClassOf(O, root, r) && v != c
      ensures v in Reach(S1, ns)
    {
      assert ForestAt(O, P0, root, rank, v);
      AreasAreComponents(O, root, v, c);
      CutBefore(Sq, v, c);
      var n :| n in Sq && Adjacent(n, c) && ConnectedIn(Sq - {c}, v, n);
      assert DirTo(c, n) < Directions;
      assert n in ns;
      var j :| 0 <= j < |ns| && ns[j] == n;
      ConnectedSym(S1, v, n);
      ConnectedEnds(S1, n, v);
    }
  }

  /** The representatives after `delete_util`: the head in `P` for the cells `V` filled, the old one elsewhere. */
  ghost function RebuiltRoot(root: map<Field, Field>, V: set<Field>, P: map<Field, Field>): map<Field, Field> {
    map v | v in root :: if v in V && v in P then P[v] else root[v]
  }

  /** The ranks after `delete_util`: 1 at the heads `H`, 0 at the other cells filled, the old ones elsewhere. */
  ghost function RebuiltRank(rank: map<Field, nat>, V: set<Field>, H: set<Field>): map<Field, nat> {
    map v | v in rank :: if v in H then 1 else if v in V then 0 else rank[v]
  }

  /**
   * The setting of the lemmas below: the forest `P0`, `root`, `rank` of
   * the owners `O` before the removal of `c`, owned by `q`; the cells `V`
   * of the area of `c` other than `c`, reached from the neighbours `ns`
   * of `c` among the cells `S1` of `q` after the removal; and the heads
   * `H` handed to them in `P`.
   */
  ghost predicate Setting(O: map<Field, nat>, P0: map<Field, Field>, root: map<Field, Field>, rank: map<Field, nat>,
                          bound: nat, c: Field, q: nat, ns: seq<Field>, V: set<Field>, H: set<Field>, P: map<Field, Field>)
  {
    && O.Keys == root.Keys && O.Keys == rank.Keys && O.Keys == P0.Keys
    && IsForest(O, P0, root, rank, bound) && Separated(O, root) && RootConnected(O, root)
    && c in O && O[c] == q && q != 0
    && V == ClassOf(O, root, root[c]) - {c} && V == Reach(OwnedBy(O[c := 0], q), ns)
    && H <= V && HeadsOf(OwnedBy(O[c := 0], q), V, H, P0, P)
  }

  /** A head is its own head. */
  lemma HeadSelf(S1: set<Field>, V: set<Field>, H: set<Field>, P0: map<Field, Field>, P: map<Field, Field>, h: Field)
    requires HeadsOf(S1, V, H, P0, P) && H <= V && h in H
    ensures P[h] == h
  {
  }

  /** A filled cell that is its own head is a head. */
  lemma HeadOnly(S1: set<Field>, V: set<Field>, H: set<Field>, P0: map<Field, Field>, P: map<Field, Field>, v: Field)
    requires HeadsOf(S1, V, H, P0, P) && H <= V && v in V && v in H
    ensures P[v] == v
  {
    assert ConnectedIn(S1, P[v], v);
  }

  /**
   * A cell outside the area of `c`, its parent and its representative
   * lie outside the area too, and so keep their entries.
   */
  lemma Outside(O: map<Field, nat>, P0: map<Field, Field>, root: map<Field, Field>, rank: map<Field, nat>,
                bound: nat, c: Field, q: nat, ns: seq<Field>, V: set<Field>, H: set<Field>, P: map<Field, Field>, f: Field)
    requires Setting(O, P0, root, rank, bound, c, q, ns, V, H, P)
    requires f in O && O[f] != 0 && f !in V && f != c
    ensures ForestAt(O, P0, root, rank, f) && root[f] != root[c]
    ensures P0[f] !in V && P0[f] != c && root[f] !in V && root[f] != c
  {
    assert ForestAt(O, P0, root, rank, f);
    assert ForestAt(O, P0, root, rank, c);
  }

  /** The forest conditions hold after `delete_util`. */
  lemma RebuiltForest(O: map<Field, nat>, P0: map<Field, Field>, root: map<Field, Field>, rank: map<Field, nat>,
                      bound: nat, c: Field, q: nat, ns: seq<Field>, V: set<Field>, H: set<Field>, P: map<Field, Field>)
    requires Setting(O, P0, root, rank, bound, c, q, ns, V, H, P)
    ensures IsForest(O[c := 0], P, RebuiltRoot(root, V, P), RebuiltRank(rank, V, H), bound + 2)
  {
    var O1 := O[c := 0];
    forall f | f in O1 && O1[f] != 0
      ensures ForestAt(O1, P, RebuiltRoot(root, V, P), RebuiltRank(rank, V, H), f)
    {
      RebuiltAt(O, P0, root, rank, bound, c, q, ns, V, H, P, f);
    }
    RebuiltRankBound(rank, V, H, bound);
  }

  /** The new ranks stay below the old bound and two. */
  lemma RebuiltRankBound(rank: map<Field, nat>, V: set<Field>, H: set<Field>, bound: nat)
    requires forall f :: f in rank ==> rank[f] < bound
    ensures forall f :: f in RebuiltRank(rank, V, H) ==> RebuiltRank(rank, V, H)[f] < bound + 2
  {
  }

  /** The forest conditions after `delete_util` at an owned cell. */
  lemma RebuiltAt(O: map<Field, nat>, P0: map<Field, Field>, root: map<Field, Field>, rank: map<Field, nat>,
                  bound: nat, c: Field, q: nat, ns: seq<Field>, V: set<Field>, H: set<Field>, P: map<Field, Field>,
                  f: Field)
    requires Setting(O, P0, root, rank, bound, c, q, ns, V, H, P)
    requires f in O[c := 0] && O[c := 0][f] != 0
    ensures ForestAt(O[c := 0], P, RebuiltRoot(root, V, P), RebuiltRank(rank, V, H), f)
  {
    if f in V {
      ForestInside(O, P0, root, rank, bound, c, q, ns, V, H, P, f);
    } else {
      ForestOutside(O, P0, root, rank, bound, c, q, ns, V, H, P, f);
    }
  }

  /** The forest conditions at a cell outside the removed area: they hold as before. */
  lemma ForestOutside(O: map<Field, nat>, P0: map<Field, Field>, root: map<Field, Field>, rank: map<Field, nat>,
                      bound: nat, c: Field, q: nat, ns: seq<Field>, V: set<Field>, H: set<Field>, P: map<Field, Field>,
                      f: Field)
    requires Setting(O, P0, root, rank, bound, c, q, ns, V, H, P)
    requires f in O && f != c && O[f] != 0 && f !in V
    ensures ForestAt(O[c := 0], P, RebuiltRoot(root, V, P), RebuiltRank(rank, V, H), f)
  {
    Outside(O, P0, root, rank, bound, c, q, ns, V, H, P, f);
  }

  /** The forest conditions at a filled cell: it points at its head, a root of rank 1. */
  lemma ForestInside(O: map<Field, nat>, P0: map<Field, Field>, root: map<Field, Field>, rank: map<Field, nat>,
                     bound: nat, c: Field, q: nat, ns: seq<Field>, V: set<Field>, H: set<Field>, P: map<Field, Field>,
                     f: Field)
    requires Setting(O, P0, root, rank, bound, c, q, ns, V, H, P) && f in V
    ensures ForestAt(O[c := 0], P, RebuiltRoot(root, V, P), RebuiltRank(rank, V, H), f)
  {
    var S1 := OwnedBy(O[c := 0], q);
    var h := P[f];
    HeadSelf(S1, V, H, P0, P, h);
    if f in H {
      HeadOnly(S1, V, H, P0, P, f);
    }
    ConnectedEnds(S1, h, f);
  }

  /** A head's area after `delete_util` is its component. */
  lemma ClassOfHead(O: map<Field, nat>, P0: map<Field, Field>, root: map<Field, Field>, rank: map<Field, nat>,
                    bound: nat, c: Field, q: nat, ns: seq<Field>, V: set<Field>, H: set<Field>, P: map<Field, Field>,
                    h: Field)
    requires Setting(O, P0, root, rank, bound, c, q, ns, V, H, P) && h in H
    ensures ClassOf(O[c := 0], RebuiltRoot(root, V, P), h) == Comp(OwnedBy(O[c := 0], q), h)
  {
    var O1 := O[c := 0];
    var S1 := OwnedBy(O1, q);
    var R := RebuiltRoot(root, V, P);
    forall v | v in ClassOf(O1, R, h)
      ensures v in Comp(S1, h)
    {
      if v in V {
        ConnectedEnds(S1, h, v);
      } else {
        Outside(O, P0, root, rank, bound, c, q, ns, V, H, P, v);
        assert false;
      }
    }
    forall v | v in Comp(S1, h)
      ensures v in ClassOf(O1, R, h)
    {
      ReachStep(S1, ns, h, v);
      ConnectedSym(S1, P[v], v);
      ConnectedTrans(S1, h, v, P[v]);
    }
  }

  /** An area other than that of `c` is the same after `delete_util`. */
  lemma ClassOfOther(O: map<Field, nat>, P0: map<Field, Field>, root: map<Field, Field>, rank: map<Field, nat>,
                     bound: nat, c: Field, q: nat, ns: seq<Field>, V: set<Field>, H: set<Field>, P: map<Field, Field>,
                     g: Field)
    requires Setting(O, P0, root, rank, bound, c, q, ns, V, H, P) && g !in V && g != c && root[c] in V + {c}
    ensures ClassOf(O[c := 0], RebuiltRoot(root, V, P), g) == ClassOf(O, root, g)
  {
    var O1 := O[c := 0];
    var R := RebuiltRoot(root, V, P);
    forall v | v in ClassOf(O1, R, g)
      ensures v in ClassOf(O, root, g)
    {
      if v in V {
        assert false;
      }
    }
    forall v | v in ClassOf(O, root, g)
      ensures v in ClassOf(O1, R, g)
    {
    }
  }

  /** The sizes hold after `delete_util`. */
  lemma RebuiltSizes(O: map<Field, nat>, P0: map<Field, Field>, root: map<Field, Field>, rank: map<Field, nat>,
                     bound: nat, c: Field, q: nat, ns: seq<Field>, V: set<Field>, H: set<Field>, P: map<Field, Field>,
                     size: map<Field, nat>, S: map<Field, nat>)
    requires Setting(O, P0, root, rank, bound, c, q, ns, V, H, P)
    requires size.Keys == O.Keys && SizesCorrect(O, root, size)
    requires SizesOf(OwnedBy(O[c := 0], q), H, size[root[c] := 0], S)
    ensures SizesCorrect(O[c := 0], RebuiltRoot(root, V, P), S)
  {
    var O1 := O[c := 0];
    var R := RebuiltRoot(root, V, P);
    forall f | f in O1
      ensures SizeAt(O1, R, S, f)
    {
      SizeRebuilt(O, P0, root, rank, bound, c, q, ns, V, H, P, size, S, f);
    }
  }

  /** The size at one cell after `delete_util`. */
  lemma SizeRebuilt(O: map<Field, nat>, P0: map<Field, Field>, root: map<Field, Field>, rank: map<Field, nat>,
                    bound: nat, c: Field, q: nat, ns: seq<Field>, V: set<Field>, H: set<Field>, P: map<Field, Field>,
                    size: map<Field, nat>, S: map<Field, nat>, f: Field)
    requires Setting(O, P0, root, rank, bound, c, q, ns, V, H, P)
    requires size.Keys == O.Keys && SizesCorrect(O, root, size)
    requires SizesOf(OwnedBy(O[c := 0], q), H, size[root[c] := 0], S) && f in O
    ensures SizeAt(O[c := 0], RebuiltRoot(root, V, P), S, f)
  {
    assert ForestAt(O, P0, root, rank, c);
    assert root[c] in ClassOf(O, root, root[c]);
    assert SizeAt(O, root, size, f);
    assert SizeAt(O, root, size, c);
    if f in H {
      SizeHead(O, P0, root, rank, bound, c, q, ns, V, H, P, size, S, f);
    } else if f in V {
      SizeFilled(O, P0, root, rank, bound, c, q, ns, V, H, P, size, S, f);
    } else if f != c {
      SizeOutside(O, P0, root, rank, bound, c, q, ns, V, H, P, size, S, f);
    }
  }

  /** The size at a head after `delete_util` is that of its component. */
  lemma SizeHead(O: map<Field, nat>, P0: map<Field, Field>, root: map<Field, Field>, rank: map<Field, nat>,
                 bound: nat, c: Field, q: nat, ns: seq<Field>, V: set<Field>, H: set<Field>, P: map<Field, Field>,
                 size: map<Field, nat>, S: map<Field, nat>, f: Field)
    requires Setting(O, P0, root, rank, bound, c, q, ns, V, H, P)
    requires size.Keys == O.Keys && SizesOf(OwnedBy(O[c := 0], q), H, size[root[c] := 0], S) && f in H
    ensures SizeAt(O[c := 0], RebuiltRoot(root, V, P), S, f)
  {
    HeadSelf(OwnedBy(O[c := 0], q), V, H, P0, P, f);
    ClassOfHead(O, P0, root, rank, bound, c, q, ns, V, H, P, f);
  }

  /** A filled cell other than a head has size 0 after `delete_util`. */
  lemma SizeFilled(O: map<Field, nat>, P0: map<Field, Field>, root: map<Field, Field>, rank: map<Field, nat>,
                   bound: nat, c: Field, q: nat, ns: seq<Field>, V: set<Field>, H: set<Field>, P: map<Field, Field>,
                   size: map<Field, nat>, S: map<Field, nat>, f: Field)
    requires Setting(O, P0, root, rank, bound, c, q, ns, V, H, P) && size.Keys == O.Keys
    requires SizeAt(O, root, size, f) && SizesOf(OwnedBy(O[c := 0], q), H, size[root[c] := 0], S)
    requires f in V && f !in H
    ensures SizeAt(O[c := 0], RebuiltRoot(root, V, P), S, f)
  {
    assert P[f] in H;
  }

  /** The size at a cell outside the area of `c` is unchanged by `delete_util`. */
  lemma SizeOutside(O: map<Field, nat>, P0: map<Field, Field>, root: map<Field, Field>, rank: map<Field, nat>,
                    bound: nat, c: Field, q: nat, ns: seq<Field>, V: set<Field>, H: set<Field>, P: map<Field, Field>,
                    size: map<Field, nat>, S: map<Field, nat>, f: Field)
    requires Setting(O, P0, root, rank, bound, c, q, ns, V, H, P)
    requires size.Keys == O.Keys && SizeAt(O, root, size, f) && root[c] in V + {c}
    requires SizesOf(OwnedBy(O[c := 0], q), H, size[root[c] := 0], S) && f in O && f !in V && f != c
    ensures SizeAt(O[c := 0], RebuiltRoot(root, V, P), S, f)
  {
    if O[f] != 0 && root[f] == f {
      ClassOfOther(O, P0, root, rank, bound, c, q, ns, V, H, P, f);
    }
  }

  /** Adjacent cells of one player share a representative after `delete_util`. */
  lemma RebuiltSeparated(O: map<Field, nat>, P0: map<Field, Field>, root: map<Field, Field>, rank: map<Field, nat>,
                         bound: nat, c: Field, q: nat, ns: seq<Field>, V: set<Field>, H: set<Field>, P: map<Field, Field>)
    requires Setting(O, P0, root, rank, bound, c, q, ns, V, H, P)
    ensures Separated(O[c := 0], RebuiltRoot(root, V, P))
  {
    var O1 := O[c := 0];
    var S1 := OwnedBy(O1, q);
    var R := RebuiltRoot(root, V, P);
    forall f, g | f in O1 && g in O1 && f in R && g in R && O1[f] != 0 && O1[g] == O1[f] && Adjacent(f, g)
      ensures R[f] == R[g]
    {
      if O1[f] == q {
        ConnectedAdjacent(S1, f, g);
        ConnectedAdjacent(S1, g, f);
        if f in V || g in V {
          if f in V {
            ReachStep(S1, ns, f, g);
          } else {
            ReachStep(S1, ns, g, f);
          }
          ConnectedTrans(S1, P[f], f, g);
          ConnectedSym(S1, P[g], g);
          ConnectedTrans(S1, P[f], g, P[g]);
        }
      }
    }
  }

  /** Every owned cell reaches its representative through cells of its owner after `delete_util`. */
  lemma RebuiltConnected(O: map<Field, nat>, P0: map<Field, Field>, root: map<Field, Field>, rank: map<Field, nat>,
                         bound: nat, c: Field, q: nat, ns: seq<Field>, V: set<Field>, H: set<Field>, P: map<Field, Field>)
    requires Setting(O, P0, root, rank, bound, c, q, ns, V, H, P)
    ensures RootConnected(O[c := 0], RebuiltRoot(root, V, P))
  {
    var O1 := O[c := 0];
    var S1 := OwnedBy(O1, q);
    var R := RebuiltRoot(root, V, P);
    forall f | f in O1 && f in R && O1[f] != 0
      ensures ReachesRoot(O1, R, f)
    {
      if f in V {
        ConnectedSym(S1, P[f], f);
      } else {
        KeepsPath(O, P0, root, rank, bound, c, q, ns, V, H, P, f);
      }
    }
  }

  /** A cell outside the area of `c` reaches its representative without passing `c`. */
  lemma KeepsPath(O: map<Field, nat>, P0: map<Field, Field>, root: map<Field, Field>, rank: map<Field, nat>,
                  bound: nat, c: Field, q: nat, ns: seq<Field>, V: set<Field>, H: set<Field>, P: map<Field, Field>,
                  f: Field)
    requires Setting(O, P0, root, rank, bound, c, q, ns, V, H, P)
    requires f in O && O[f] != 0 && f != c && f !in V
    ensures ConnectedIn(OwnedBy(O[c := 0], O[f]), f, root[f])
  {
    Outside(O, P0, root, rank, bound, c, q, ns, V, H, P, f);
    var o := O[f];
    var So := OwnedBy(O, o);
    assert ReachesRoot(O, root, f);
    var T := set v | v in So && root[v] == root[f];
    assert Closed(So, T);
    ClosedWithin(So, T, f, root[f]);
    ConnectedMono(T, OwnedBy(O[c := 0], o), f, root[f]);
  }

  /** The counters after `delete_util` count the board after it. */
  lemma RebuiltCounts(O: map<Field, nat>, P0: map<Field, Field>, root: map<Field, Field>, rank: map<Field, nat>,
                      bound: nat, c: Field, q: nat, ns: seq<Field>, V: set<Field>, H: set<Field>, P: map<Field, Field>,
                      empty: nat, ps: seq<Player>, ps': seq<Player>)
    requires Setting(O, P0, root, rank, bound, c, q, ns, V, H, P) && CountsOf(O, root, empty, ps)
    requires 1 <= q <= |ps| && |ps'| == |ps| && (forall i :: 0 <= i < |ps| && i != q - 1 ==> ps'[i] == ps[i])
    requires Removed(ps[q - 1], ps'[q - 1], |H|)
    ensures CountsOf(O[c := 0], RebuiltRoot(root, V, P), empty + 1, ps')
  {
    var O1 := O[c := 0];
    var R := RebuiltRoot(root, V, P);
    OwnedRemoved(O, c, q);
    RootsAfter(O, P0, root, rank, bound, c, q, ns, V, H, P);
    forall p | p != q && p != 0
      ensures OwnedBy(O1, p) == OwnedBy(O, p) && RootsOf(O1, R, p) == RootsOf(O, root, p)
    {
      CountsElsewhere(O, P0, root, rank, bound, c, q, ns, V, H, P, p);
    }
    Recount(O, root, O1, R, empty, ps, ps', q);
  }

  /** Emptying the cell `c` of `q` gives the empty cells one more and `q` one fewer. */
  lemma OwnedRemoved(O: map<Field, nat>, c: Field, q: nat)
    requires c in O && O[c] == q && q != 0
    ensures |OwnedBy(O[c := 0], 0)| == |OwnedBy(O, 0)| + 1 && |OwnedBy(O[c := 0], q)| + 1 == |OwnedBy(O, q)|
  {
    assert OwnedBy(O[c := 0], 0) == OwnedBy(O, 0) + {c} && c !in OwnedBy(O, 0);
    assert OwnedBy(O[c := 0], q) == OwnedBy(O, q) - {c} && c in OwnedBy(O, q);
  }

  /** The counters after a change that adds an empty cell and touches only the cells and areas of `q`. */
  lemma Recount(O: map<Field, nat>, root: map<Field, Field>, O1: map<Field, nat>, R: map<Field, Field>,
                empty: nat, ps: seq<Player>, ps': seq<Player>, q: nat)
    requires CountsOf(O, root, empty, ps) && 1 <= q <= |ps| && |ps'| == |ps|
    requires |OwnedBy(O1, 0)| == empty + 1
    requires forall p :: p != q && p != 0 ==> OwnedBy(O1, p) == OwnedBy(O, p) && RootsOf(O1, R, p) == RootsOf(O, root, p)
    requires forall i :: 0 <= i < |ps| && i != q - 1 ==> ps'[i] == ps[i]
    requires ps'[q - 1].busyFields == |OwnedBy(O1, q)| && ps'[q - 1].numAreas == |RootsOf(O1, R, q)|
    ensures CountsOf(O1, R, empty + 1, ps')
  {
  }

  /** The areas of `q` after `delete_util`: those before, but that of `c`, and one per head. */
  lemma RootsAfter(O: map<Field, nat>, P0: map<Field, Field>, root: map<Field, Field>, rank: map<Field, nat>,
                   bound: nat, c: Field, q: nat, ns: seq<Field>, V: set<Field>, H: set<Field>, P: map<Field, Field>)
    requires Setting(O, P0, root, rank, bound, c, q, ns, V, H, P)
    ensures |RootsOf(O[c := 0], RebuiltRoot(root, V, P), q)| + 1 == |RootsOf(O, root, q)| + |H|
  {
    var O1 := O[c := 0];
    var S1 := OwnedBy(O1, q);
    var R := RebuiltRoot(root, V, P);
    var old_ := RootsOf(O, root, q);
    assert ForestAt(O, P0, root, rank, c);
    assert root[c] in old_;
    RootsAfterSub(O, P0, root, rank, bound, c, q, ns, V, H, P);
    RootsAfterSup(O, P0, root, rank, bound, c, q, ns, V, H, P);
    assert RootsOf(O1, R, q) == (old_ - {root[c]}) + H;
    assert (old_ - {root[c]}) !! H;
  }

  lemma RootsAfterSub(O: map<Field, nat>, P0: map<Field, Field>, root: map<Field, Field>, rank: map<Field, nat>,
                      bound: nat, c: Field, q: nat, ns: seq<Field>, V: set<Field>, H: set<Field>, P: map<Field, Field>)
    requires Setting(O, P0, root, rank, bound, c, q, ns, V, H, P)
    ensures RootsOf(O[c := 0], RebuiltRoot(root, V, P), q) <= (RootsOf(O, root, q) - {root[c]}) + H
  {
    forall v | v in RootsOf(O[c := 0], RebuiltRoot(root, V, P), q)
      ensures v in (RootsOf(O, root, q) - {root[c]}) + H
    {
      if v !in V {
        Outside(O, P0, root, rank, bound, c, q, ns, V, H, P, v);
      }
    }
  }

  lemma RootsAfterSup(O: map<Field, nat>, P0: map<Field, Field>, root: map<Field, Field>, rank: map<Field, nat>,
                      bound: nat, c: Field, q: nat, ns: seq<Field>, V: set<Field>, H: set<Field>, P: map<Field, Field>)
    requires Setting(O, P0, root, rank, bound, c, q, ns, V, H, P)
    ensures (RootsOf(O, root, q) - {root[c]}) + H <= RootsOf(O[c := 0], RebuiltRoot(root, V, P), q)
  {
    forall v | v in (RootsOf(O, root, q) - {root[c]}) + H
      ensures v in RootsOf(O[c := 0], RebuiltRoot(root, V, P), q)
    {
      if v in H {
        HeadSelf(OwnedBy(O[c := 0], q), V, H, P0, P, v);
      }
    }
  }

  /** The cells and areas of a player other than `q` are those before `delete_util`. */
  lemma CountsElsewhere(O: map<Field, nat>, P0: map<Field, Field>, root: map<Field, Field>, rank: map<Field, nat>,
                        bound: nat, c: Field, q: nat, ns: seq<Field>, V: set<Field>, H: set<Field>, P: map<Field, Field>,
                        p: nat)
    requires Setting(O, P0, root, rank, bound, c, q, ns, V, H, P) && p != q && p != 0
    ensures OwnedBy(O[c := 0], p) == OwnedBy(O, p)
    ensures RootsOf(O[c := 0], RebuiltRoot(root, V, P), p) == RootsOf(O, root, p)
  {
    forall v | v in RootsOf(O[c := 0], RebuiltRoot(root, V, P), p)
      ensures v in RootsOf(O, root, p)
    {
    }
  }

  /** The board `delete_util` leaves: the owners without `c`, the rebuilt forest, and the given counters. */
  ghost function Rebuilt(b: Board, c: Field, V: set<Field>, H: set<Field>, P: map<Field, Field>,
                         S: map<Field, nat>, ps': seq<Player>): Board
  {
    Board(b.width, b.height, b.owner[c := 0],
          Forest(P, RebuiltRoot(b.forest.root, V, P), RebuiltRank(b.forest.rank, V, H), b.forest.bound + 2, S),
          b.empty + 1, ps')
  }

  /**
   * Once the fills around the removed cell `c` of `q` have covered all of
   * its neighbours, with `P0` the parents `find_parent` left, the sizes of
   * the area of `c` cleared and the record of `q` updated by the areas
   * found, the board is the outcome of a removal.
   */
  lemma RebuildDone(b: Board, c: Field, q: nat, P0: map<Field, Field>, ns: seq<Field>, V: set<Field>,
                    H: set<Field>, P: map<Field, Field>, S: map<Field, nat>, ps': seq<Player>)
    requires Sound(b) && c in b.owner && b.owner[c] == q && 1 <= q <= |b.ps|
    requires P0.Keys == b.owner.Keys && IsForest(b.owner, P0, b.forest.root, b.forest.rank, b.forest.bound)
    requires ns == SameNbrs(b.owner[c := 0], c, q, Directions)
    requires Rebuilding(OwnedBy(b.owner[c := 0], q), ns, V, H, P0, P, b.forest.size[b.forest.root[c] := 0], S)
    requires |ps'| == |b.ps| && forall i :: 0 <= i < |b.ps| && i != q - 1 ==> ps'[i] == b.ps[i]
    requires Removed(b.ps[q - 1], ps'[q - 1], DistinctComps(OwnedBy(b.owner[c := 0], q), ns))
    ensures RemovedBoard(b, Rebuilt(b, c, V, H, P, S, ps'), c, q)
  {
    var b' := Rebuilt(b, c, V, H, P, S, ps');
    RebuiltSound(b, c, q, P0, ns, V, H, P, S, ps');
    assert RemoveBody(b, b', c, q);
  }

  /** The board `delete_util` leaves is sound. */
  lemma RebuiltSound(b: Board, c: Field, q: nat, P0: map<Field, Field>, ns: seq<Field>, V: set<Field>,
                     H: set<Field>, P: map<Field, Field>, S: map<Field, nat>, ps': seq<Player>)
    requires Sound(b) && c in b.owner && b.owner[c] == q && 1 <= q <= |b.ps|
    requires P0.Keys == b.owner.Keys && IsForest(b.owner, P0, b.forest.root, b.forest.rank, b.forest.bound)
    requires ns == SameNbrs(b.owner[c := 0], c, q, Directions)
    requires Rebuilding(OwnedBy(b.owner[c := 0], q), ns, V, H, P0, P, b.forest.size[b.forest.root[c] := 0], S)
    requires |ps'| == |b.ps| && forall i :: 0 <= i < |b.ps| && i != q - 1 ==> ps'[i] == b.ps[i]
    requires Removed(b.ps[q - 1], ps'[q - 1], DistinctComps(OwnedBy(b.owner[c := 0], q), ns))
    ensures Sound(Rebuilt(b, c, V, H, P, S, ps'))
  {
    RebuiltFacts(b, c, q, P0, ns, V, H, P, S, ps');
    SoundRebuilt(b, c, V, H, P, S, ps');
  }

  /** What `SoundRebuilt` needs of the board `delete_util` leaves. */
  lemma RebuiltFacts(b: Board, c: Field, q: nat, P0: map<Field, Field>, ns: seq<Field>, V: set<Field>,
                     H: set<Field>, P: map<Field, Field>, S: map<Field, nat>, ps': seq<Player>)
    requires Sound(b) && c in b.owner && b.owner[c] == q && 1 <= q <= |b.ps|
    requires P0.Keys == b.owner.Keys && IsForest(b.owner, P0, b.forest.root, b.forest.rank, b.forest.bound)
    requires ns == SameNbrs(b.owner[c := 0], c, q, Directions)
    requires Rebuilding(OwnedBy(b.owner[c := 0], q), ns, V, H, P0, P, b.forest.size[b.forest.root[c] := 0], S)
    requires |ps'| == |b.ps| && forall i :: 0 <= i < |b.ps| && i != q - 1 ==> ps'[i] == b.ps[i]
    requires Removed(b.ps[q - 1], ps'[q - 1], DistinctComps(OwnedBy(b.owner[c := 0], q), ns))
    ensures Shaped(b) && SameKeys(b.owner, b.forest.parent, b.forest.root, b.forest.rank, b.forest.size)
    ensures P.Keys == b.owner.Keys && S.Keys == b.owner.Keys
    ensures IsForest(b.owner[c := 0], P, RebuiltRoot(b.forest.root, V, P), RebuiltRank(b.forest.rank, V, H), b.forest.bound + 2)
    ensures SizesCorrect(b.owner[c := 0], RebuiltRoot(b.forest.root, V, P), S)
    ensures Separated(b.owner[c := 0], RebuiltRoot(b.forest.root, V, P))
    ensures RootConnected(b.owner[c := 0], RebuiltRoot(b.forest.root, V, P))
    ensures CountsOf(b.owner[c := 0], RebuiltRoot(b.forest.root, V, P), b.empty + 1, ps')
  {
    var u := b.forest;
    SettingOf(b, c, q, P0, ns, V, H, P, S);
    RebuiltPartition(b.owner, P0, u.root, u.rank, u.bound, c, q, ns, V, H, P, u.size, S, b.empty, b.ps, ps');
  }

  /** The board `delete_util` leaves is sound once its forest partitions its owned cells and its counters agree. */
  lemma SoundRebuilt(b: Board, c: Field, V: set<Field>, H: set<Field>, P: map<Field, Field>,
                     S: map<Field, nat>, ps': seq<Player>)
    requires Shaped(b) && c in b.owner && |ps'| == |b.ps|
    requires SameKeys(b.owner, b.forest.parent, b.forest.root, b.forest.rank, b.forest.size)
    requires P.Keys == b.owner.Keys && S.Keys == b.owner.Keys
    requires IsForest(b.owner[c := 0], P, RebuiltRoot(b.forest.root, V, P), RebuiltRank(b.forest.rank, V, H), b.forest.bound + 2)
    requires SizesCorrect(b.owner[c := 0], RebuiltRoot(b.forest.root, V, P), S)
    requires Separated(b.owner[c := 0], RebuiltRoot(b.forest.root, V, P))
    requires RootConnected(b.owner[c := 0], RebuiltRoot(b.forest.root, V, P))
    requires CountsOf(b.owner[c := 0], RebuiltRoot(b.forest.root, V, P), b.empty + 1, ps')
    ensures Sound(Rebuilt(b, c, V, H, P, S, ps'))
  {
    RebuiltShape(b, c, V, H, P, S, ps');
    SoundIntro(Rebuilt(b, c, V, H, P, S, ps'));
  }

  /** After `delete_util` the rebuilt forest partitions the owned cells and the counters agree. */
  lemma RebuiltPartition(O: map<Field, nat>, P0: map<Field, Field>, root: map<Field, Field>, rank: map<Field, nat>,
                         bound: nat, c: Field, q: nat, ns: seq<Field>, V: set<Field>, H: set<Field>, P: map<Field, Field>,
                         size: map<Field, nat>, S: map<Field, nat>, empty: nat, ps: seq<Player>, ps': seq<Player>)
    requires Setting(O, P0, root, rank, bound, c, q, ns, V, H, P) && CountsOf(O, root, empty, ps)
    requires size.Keys == O.Keys && SizesCorrect(O, root, size)
    requires SizesOf(OwnedBy(O[c := 0], q), H, size[root[c] := 0], S)
    requires 1 <= q <= |ps| && |ps'| == |ps| && (forall i :: 0 <= i < |ps| && i != q - 1 ==> ps'[i] == ps[i])
    requires Removed(ps[q - 1], ps'[q - 1], |H|)
    ensures IsForest(O[c := 0], P, RebuiltRoot(root, V, P), RebuiltRank(rank, V, H), bound + 2)
    ensures SizesCorrect(O[c := 0], RebuiltRoot(root, V, P), S)
    ensures Separated(O[c := 0], RebuiltRoot(root, V, P)) && RootConnected(O[c := 0], RebuiltRoot(root, V, P))
    ensures CountsOf(O[c := 0], RebuiltRoot(root, V, P), empty + 1, ps')
  {
    RebuiltForest(O, P0, root, rank, bound, c, q, ns, V, H, P);
    RebuiltSizes(O, P0, root, rank, bound, c, q, ns, V, H, P, size, S);
    RebuiltSeparated(O, P0, root, rank, bound, c, q, ns, V, H, P);
    RebuiltConnected(O, P0, root, rank, bound, c, q, ns, V, H, P);
    RebuiltCounts(O, P0, root, rank, bound, c, q, ns, V, H, P, empty, ps, ps');
  }

  /** The board `delete_util` leaves has the cells and keys of `b`. */
  lemma RebuiltShape(b: Board, c: Field, V: set<Field>, H: set<Field>, P: map<Field, Field>,
                     S: map<Field, nat>, ps': seq<Player>)
    requires Shaped(b) && c in b.owner && |ps'| == |b.ps|
    requires SameKeys(b.owner, b.forest.parent, b.forest.root, b.forest.rank, b.forest.size)
    requires P.Keys == b.owner.Keys && S.Keys == b.owner.Keys
    ensures var b' := Rebuilt(b, c, V, H, P, S, ps');
      Shaped(b') && SameKeys(b'.owner, b'.forest.parent, b'.forest.root, b'.forest.rank, b'.forest.size)
  {
  }

  /** The facts about the removal that the lemmas above take as their setting. */
  lemma SettingOf(b: Board, c: Field, q: nat, P0: map<Field, Field>, ns: seq<Field>, V: set<Field>,
                  H: set<Field>, P: map<Field, Field>, S: map<Field, nat>)
    requires Sound(b) && c in b.owner && b.owner[c] == q && 1 <= q <= |b.ps|
    requires P0.Keys == b.owner.Keys && IsForest(b.owner, P0, b.forest.root, b.forest.rank, b.forest.bound)
    requires ns == SameNbrs(b.owner[c := 0], c, q, Directions)
    requires Rebuilding(OwnedBy(b.owner[c := 0], q), ns, V, H, P0, P, b.forest.size[b.forest.root[c] := 0], S)
    ensures Setting(b.owner, P0, b.forest.root, b.forest.rank, b.forest.bound, c, q, ns, V, H, P)
    ensures CountsOf(b.owner, b.forest.root, b.empty, b.ps) && |H| == DistinctComps(OwnedBy(b.owner[c := 0], q), ns)
    ensures b.forest.size.Keys == b.owner.Keys && SizesCorrect(b.owner, b.forest.root, b.forest.size)
    ensures SizesOf(OwnedBy(b.owner[c := 0], q), H, b.forest.size[b.forest.root[c] := 0], S)
    ensures P.Keys == b.owner.Keys && S.Keys == b.owner.Keys && Shaped(b)
    ensures SameKeys(b.owner, b.forest.parent, b.forest.root, b.forest.rank, b.forest.size)
  {
    var O := b.owner;
    var u := b.forest;
    assert b in SoundBoards(b.width, b.height);
    assert PartitionBody(O, u, Field(0, 0));
    RebuildingParts(OwnedBy(O[c := 0], q), ns, V, H, P0, P, u.size[u.root[c] := 0], S);
    ClassAfterRemove(O, P0, u.root, u.rank, u.bound, c, q);
    assert ForestAt(O, P0, u.root, u.rank, c);
  }

  /** A shaped board whose forest partitions its owned cells and whose counters agree is sound. */
  lemma SoundIntro(b: Board)
    requires Shaped(b) && SameKeys(b.owner, b.forest.parent, b.forest.root, b.forest.rank, b.forest.size)
    requires IsForest(b.owner, b.forest.parent, b.forest.root, b.forest.rank, b.forest.bound)
    requires SizesCorrect(b.owner, b.forest.root, b.forest.size) && Separated(b.owner, b.forest.root)
    requires RootConnected(b.owner, b.forest.root) && CountsOf(b.owner, b.forest.root, b.empty, b.ps)
    ensures Sound(b)
  {
    assert PartitionBody(b.owner, b.forest, Field(0, 0));
    assert b.forest in Partitions(b.owner, Field(0, 0));
  }

  /**
   * The cells reached from the neighbours `ns` of `c` are joined to `c`
   * through cells reached and `c`: what `init_visited` from `c` needs to
   * clear their marks.
   */
  lemma ReachJoined(S: set<Field>, ns: seq<Field>, c: Field)
    requires forall k :: 0 <= k < |ns| ==> ns[k] in S && Adjacent(c, ns[k])
    ensures forall v :: v in Reach(S, ns) ==> ConnectedIn(Reach(S, ns) + {c}, c, v)
  {
    var V := Reach(S, ns);
    forall u, v | u in V && v in S && Adjacent(u, v)
      ensures v in V
    {
      ConnectedAdjacent(S, u, v);
      ReachStep(S, ns, u, v);
    }
    assert Closed(S, V);
    forall v | v in V
      ensures ConnectedIn(V + {c}, c, v)
    {
      var j :| 0 <= j < |ns| && ConnectedIn(S, ns[j], v);
      ConnectedRefl(S, ns[j]);
      assert ns[j] in V;
      ClosedWithin(S, V, ns[j], v);
      ConnectedMono(V, V + {c}, ns[j], v);
      ConnectedAdjacent(V + {c}, c, ns[j]);
      ConnectedTrans(V + {c}, c, ns[j], v);
    }
  }

  /** The owner of a cell has at least that cell and the area it lies in. */
  lemma OwnerCounts(b: Board, c: Field, q: nat)
    requires Sound(b) && c in b.owner && b.owner[c] == q && q != 0
    ensures 1 <= q <= |b.ps| && b.ps[q - 1].busyFields >= 1 && b.ps[q - 1].numAreas >= 1
  {
    assert b in SoundBoards(b.width, b.height);
    assert PartitionBody(b.owner, b.forest, Field(0, 0));
    assert ForestAt(b.owner, b.forest.parent, b.forest.root, b.forest.rank, c);
    assert c in OwnedBy(b.owner, q);
    assert b.forest.root[c] in RootsOf(b.owner, b.forest.root, q);
    assert b.ps[q - 1].busyFields == |OwnedBy(b.owner, q)|;
  }

  /** The keys and the forest conditions of a sound board. */
  lemma SoundForest(b: Board)
    requires Sound(b)
    ensures Shaped(b) && b.owner.Keys == Cells(b.width, b.height)
    ensures SameKeys(b.owner, b.forest.parent, b.forest.root, b.forest.rank, b.forest.size)
    ensures IsForest(b.owner, b.forest.parent, b.forest.root, b.forest.rank, b.forest.bound)
  {
    assert b in SoundBoards(b.width, b.height);
    assert PartitionBody(b.owner, b.forest, Field(0, 0));
  }

  /** The owners of a sound board cover its cells. */
  lemma OwnerCells(b: Board)
    requires Sound(b)
    ensures b.owner.Keys == Cells(b.width, b.height)
  {
    SoundForest(b);
  }

  /** What the fill from the unmarked neighbour `f` needs: the parents cover the cells, and its component is unmarked. */
  lemma FillReady(S1: set<Field>, ns: seq<Field>, V: set<Field>, H: set<Field>,
                  P0: map<Field, Field>, P: map<Field, Field>, S0: map<Field, nat>, S: map<Field, nat>, f: Field)
    requires Rebuilding(S1, ns, V, H, P0, P, S0, S) && f in S1 && f !in V
    ensures P.Keys == P0.Keys && Comp(S1, f) !! V
  {
    RebuildingParts(S1, ns, V, H, P0, P, S0, S);
    RebuildFresh(S1, ns, V, H, P0, P, S0, S, f);
  }
}
