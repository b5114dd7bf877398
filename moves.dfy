/**
 * What a move does to the areas of the mover, as pure values: the
 * neighbours of the taken cell, how many distinct areas they belong to,
 * and why all of them end up in one area with the taken cell.
 */
module Moves {
  import opened Fields
  import opened Grid
  import opened Areas
  import opened UnionFind

  /** Changing the owner of `c` does not change which neighbours of `c` a player owns. */
  lemma {:induction false} SameNbrsOwnerOfSelf(owner: map<Field, nat>, c: Field, p: nat, q: nat, i: nat)
    requires i <= Directions
    ensures SameNbrs(owner[c := q], c, p, i) == SameNbrs(owner, c, p, i)
  {
    if i > 0 {
      SameNbrsOwnerOfSelf(owner, c, p, q, i - 1);
      if StepDefined(c, i - 1) {
        assert Step(c, i - 1) != c;
      }
    }
  }

  /** Every cell counts as new until a related one has been seen, so a non-empty sequence counts at least one. */
  lemma {:induction false} CountNewPositive(R: (Field, Field) -> bool, xs: seq<Field>)
    requires xs != []
    ensures CountNew(R, xs) >= 1
  {
    if |xs| > 1 {
      CountNewPositive(R, xs[..|xs| - 1]);
    }
  }

  /** A non-empty sequence of cells touches at least one component. */
  lemma CompsPositive(S: set<Field>, xs: seq<Field>)
    requires xs != []
    ensures DistinctComps(S, xs) >= 1
  {
    CountNewPositive((a, b) => ConnectedIn(S, a, b), xs);
  }

  /**
   * The representatives of the neighbours `ns` of the empty cell `c`
   * owned by `p` are as many as the components of `p`'s cells that the
   * neighbours touch, under any relabelling `R2` that agrees with `R0` on
   * them.
   */
  lemma NeighbourLabels(owner: map<Field, nat>, R0: map<Field, Field>, R2: map<Field, Field>,
                        c: Field, p: nat, ns: seq<Field>)
    requires owner.Keys == R0.Keys && Separated(owner, R0) && RootConnected(owner, R0)
    requires p != 0 && ns == SameNbrs(owner, c, p, Directions)
    requires forall k :: 0 <= k < |ns| ==> ns[k] in R2 && R2[ns[k]] == R0[ns[k]]
    ensures forall k :: 0 <= k < |ns| ==> ns[k] in R0
    ensures |Labels(R2, ns)| == DistinctComps(OwnedBy(owner, p), ns)
  {
    assert Labels(R2, ns) == Labels(R0, ns);
    forall i, j | 0 <= i < |ns| && 0 <= j < |ns|
      ensures R0[ns[i]] == R0[ns[j]] <==> ConnectedIn(OwnedBy(owner, p), ns[i], ns[j])
    {
      AreasAreComponents(owner, R0, ns[i], ns[j]);
    }
    LabelsCountComps(OwnedBy(owner, p), R0, ns);
  }

  /**
   * The representatives of the neighbours `ns` of `c` owned by its owner,
   * one of which is that of `c`, cover `c` and all those neighbours.
   */
  lemma NeighbourLabelsCover(owner: map<Field, nat>, R: map<Field, Field>, c: Field, ns: seq<Field>)
    requires owner.Keys == R.Keys && c in owner && owner[c] != 0
    requires ns == SameNbrs(owner, c, owner[c], Directions) && ns != []
    requires R[c] == R[ns[0]]
    ensures NbrsIn(owner, R, c, Labels(R, ns))
  {
    forall g | g in owner && owner[g] == owner[c] && Adjacent(c, g)
      ensures R[g] in Labels(R, ns)
    {
      assert DirTo(c, g) < Directions;
      assert g in ns;
    }
  }

  /** `player_t`: what the engine remembers about one player. */
  datatype Player = Player(hasPlayedGolden: bool, numAreas: nat, busyFields: nat)

  /**
   * The counters agree with the board: `empty` counts the empty cells, and
   * player `i + 1`'s entry of `ps` its cells and the representatives of its areas.
   */
  ghost predicate CountsOf(owner: map<Field, nat>, root: map<Field, Field>, empty: nat, ps: seq<Player>) {
    ps in Tallies(owner, root, empty)
  }

  /** The records of players that agree with `owner` and `root`, given `empty` agrees too. */
  ghost function Tallies(owner: map<Field, nat>, root: map<Field, Field>, empty: nat): iset<seq<Player>> {
    iset ps: seq<Player> | && empty == |OwnedBy(owner, 0)|
                           && forall i :: 0 <= i < |ps| ==>
                                ps[i].busyFields == |OwnedBy(owner, i + 1)| && ps[i].numAreas == |RootsOf(owner, root, i + 1)|
  }

  /** The entry of player `p` after `take_field`: one more cell and, for now, one more area. */
  function Took(pl: Player): (r: Player)
    ensures r.hasPlayedGolden == pl.hasPlayedGolden
  {
    pl.(busyFields := pl.busyFields + 1, numAreas := pl.numAreas + 1)
  }

  /**
   * The record `pl'` of a player after a move of theirs whose cell touched
   * `d` distinct areas of theirs: one cell more, and one area more less
   * one per area touched.
   */
  ghost predicate Moved(pl: Player, pl': Player, d: nat) {
    && pl'.hasPlayedGolden == pl.hasPlayedGolden && pl'.busyFields == pl.busyFields + 1
    && pl'.numAreas + d == pl.numAreas + 1
  }

  /**
   * The state of the engine as values: the size of the board, the owners
   * of its cells, the union-find forest over them, the number of empty
   * cells and the record of each player.
   */
  datatype Board = Board(width: nat, height: nat, owner: map<Field, nat>, forest: Forest,
                         empty: nat, ps: seq<Player>)

  /** The owners cover the board and name players of the game or nobody. */
  ghost predicate Shaped(b: Board) {
    && b.owner.Keys == Cells(b.width, b.height)
    && forall f :: f in b.owner ==> b.owner[f] <= |b.ps|
  }

  /** A board with the size, owners and number of players of a shaped board is shaped. */
  lemma ShapedKeep(b: Board, b': Board)
    requires Shaped(b) && b'.width == b.width && b'.height == b.height
    requires b'.owner == b.owner && |b'.ps| == |b.ps|
    ensures Shaped(b')
  {
  }

  /**
   * The board between operations: the forest partitions the owned cells
   * into the connected areas of each player, and the counters agree.
   *
   * Like several other large invariants of this model, `Sound` is written
   * as membership in a set comprehension rather than as a plain
   * conjunction. The verifier does not look inside the comprehension
   * unless a proof asks it to, so the many methods that only carry a
   * sound board from one call to the next do not pay for its contents; the
   * `...Parts` and `...Intro` lemmas beside each such predicate open and
   * close it where its contents are needed.
   */
  ghost predicate Sound(b: Board) {
    b in SoundBoards(b.width, b.height)
  }

  /** The sound boards with `w` columns and `h` rows. */
  ghost function SoundBoards(w: nat, h: nat): iset<Board> {
    iset b: Board | && b.width == w && b.height == h && Shaped(b)
                    && Partition(b.owner, b.forest, Field(0, 0)) && Separated(b.owner, b.forest.root)
                    && CountsOf(b.owner, b.forest.root, b.empty, b.ps)
  }

  /** The owners of a sound board cover it and name players of the game or nobody. */
  lemma ShapedOf(b: Board)
    requires Sound(b)
    ensures Shaped(b)
  {
    assert b in SoundBoards(b.width, b.height);
  }

  /** The board right after `take_field` on `c`: `c` is an area of its own with no parent yet. */
  ghost predicate Taken(b: Board, c: Field) {
    b in TakenBoards(c)
  }

  ghost function TakenBoards(c: Field): iset<Board> {
    iset b | Shaped(b) && Fresh(b.owner, b.forest, c) && CountsOf(b.owner, b.forest.root, b.empty, b.ps)
  }

  /**
   * The board while `c` is being joined to the areas around it: a
   * partition, with the counters in step, in which the neighbours of `c`
   * may still lie in areas other than that of `c`.
   */
  ghost predicate Joining(b: Board, c: Field) {
    b in JoiningBoards(c)
  }

  ghost function JoiningBoards(c: Field): iset<Board> {
    iset b | Shaped(b) && Partition(b.owner, b.forest, c) && CountsOf(b.owner, b.forest.root, b.empty, b.ps)
  }

  /**
   * The board of `gamma_new` with `w` columns, `h` rows and `np` players:
   * every cell empty, its own representative with parent (0, 0) and size
   * 0, and every record zero.
   */
  ghost function NewBoard(w: nat, h: nat, np: nat): Board {
    var cells := Cells(w, h);
    Board(w, h, map f | f in cells :: 0,
          Forest(map f | f in cells :: Field(0, 0), map f | f in cells :: f, map f | f in cells :: 0, 1,
                 map f | f in cells :: 0),
          w * h, seq(np, _ => Player(false, 0, 0)))
  }

  /** The board of `gamma_new` is sound. */
  lemma NewBoardSound(w: nat, h: nat, np: nat)
    ensures Sound(NewBoard(w, h, np))
  {
    var b := NewBoard(w, h, np);
    CellsCard(w, h);
    NothingOwned(b.owner, b.forest.root, 1);
    forall f | f in b.owner
      ensures SizeAt(b.owner, b.forest.root, b.forest.size, f)
    {
    }
    assert OwnedBy(b.owner, 0) == Cells(w, h);
    forall i | 0 <= i < np
      ensures b.ps[i].busyFields == |OwnedBy(b.owner, i + 1)|
      ensures b.ps[i].numAreas == |RootsOf(b.owner, b.forest.root, i + 1)|
    {
      NothingOwned(b.owner, b.forest.root, i + 1);
    }
    assert PartitionBody(b.owner, b.forest, Field(0, 0));
    assert CountsOf(b.owner, b.forest.root, b.empty, b.ps);
  }

  /** No player has more than `max` areas. */
  ghost predicate AreasCapped(ps: seq<Player>, max: nat) {
    forall i :: 0 <= i < |ps| ==> ps[i].numAreas <= max
  }

  /**
   * A state of the engine between operations: a sound board of `w` by
   * `h` cells and `np` players, none of whom has more than `max` areas.
   */
  ghost predicate Fits(b: Board, w: nat, h: nat, np: nat, max: nat) {
    b in FitBoards(w, h, np, max)
  }

  ghost function FitBoards(w: nat, h: nat, np: nat, max: nat): iset<Board> {
    iset b: Board | Sound(b) && b.width == w && b.height == h && |b.ps| == np && AreasCapped(b.ps, max)
  }

  lemma FitsParts(b: Board, w: nat, h: nat, np: nat, max: nat)
    requires Fits(b, w, h, np, max)
    ensures Sound(b) && b.width == w && b.height == h && |b.ps| == np && AreasCapped(b.ps, max)
  {
  }

  /** The size of a board fitting the game, without the rest. */
  lemma FitsSize(b: Board, w: nat, h: nat, np: nat, max: nat)
    requires Fits(b, w, h, np, max)
    ensures b.width == w && b.height == h && |b.ps| == np
  {
    FitsParts(b, w, h, np, max);
  }

  /** The board of a new game fits any limit on areas. */
  lemma NewBoardFits(w: nat, h: nat, np: nat, max: nat)
    ensures Fits(NewBoard(w, h, np), w, h, np, max)
  {
    NewBoardSound(w, h, np);
  }

  /**
   * `gamma_move` lets `p` take (x, y) on `b`, where a player may have at
   * most `max` areas: `p` is a player, the cell is on the board and
   * empty, and `p` has fewer areas than allowed or owns a neighbour of it.
   */
  ghost predicate Legal(b: Board, max: nat, p: nat, x: nat, y: nat) {
    && 1 <= p <= |b.ps| && x < b.width && y < b.height
    && Field(x, y) in b.owner && b.owner[Field(x, y)] == 0
    && (b.ps[p - 1].numAreas < max || exists g :: g in b.owner && Adjacent(Field(x, y), g) && b.owner[g] == p)
  }

  /** The cells on which `gamma_move` would let `p` move: what `gamma_free_fields` counts. */
  ghost function MoveCells(b: Board, max: nat, p: nat): set<Field> {
    set f | f in b.owner && Legal(b, max, p, f.x, f.y)
  }

  /** The counters of a sound board count its cells and areas. */
  lemma SoundCounts(b: Board, p: nat)
    requires Sound(b) && 1 <= p <= |b.ps|
    ensures b.empty == |OwnedBy(b.owner, 0)|
    ensures b.ps[p - 1].busyFields == |OwnedBy(b.owner, p)|
    ensures b.ps[p - 1].numAreas == |RootsOf(b.owner, b.forest.root, p)|
  {
    assert b in SoundBoards(b.width, b.height);
    assert b.ps in Tallies(b.owner, b.forest.root, b.empty);
  }

  /** The cells the records `ps` say their players own, in all. */
  function TotalBusy(ps: seq<Player>): nat {
    if ps == [] then 0 else TotalBusy(ps[..|ps| - 1]) + ps[|ps| - 1].busyFields
  }

  /** The cells that are empty or owned by one of the players 1..n. */
  ghost function OwnedUpTo(owner: map<Field, nat>, n: nat): set<Field> {
    set f | f in owner && owner[f] <= n
  }

  /** Counters that count the cells of each owner add up to the cells owned by nobody or a player of `ps`. */
  lemma {:induction false} OwnedUpToCount(owner: map<Field, nat>, ps: seq<Player>, empty: nat)
    requires empty == |OwnedBy(owner, 0)|
    requires forall i :: 0 <= i < |ps| ==> ps[i].busyFields == |OwnedBy(owner, i + 1)|
    ensures |OwnedUpTo(owner, |ps|)| == empty + TotalBusy(ps)
    decreases |ps|
  {
    var n := |ps|;
    if n == 0 {
      assert OwnedUpTo(owner, 0) == OwnedBy(owner, 0);
    } else {
      OwnedUpToCount(owner, ps[..n - 1], empty);
      assert OwnedUpTo(owner, n) == OwnedUpTo(owner, n - 1) + OwnedBy(owner, n);
      assert OwnedUpTo(owner, n - 1) !! OwnedBy(owner, n);
    }
  }

  /**
   * Every cell is empty or owned by one player: the number of empty cells
   * and the cells of all players add up to the size of the board.
   */
  lemma CellsConserved(b: Board)
    requires Sound(b)
    ensures b.empty + TotalBusy(b.ps) == b.width * b.height
  {
    assert b in SoundBoards(b.width, b.height);
    assert b.ps in Tallies(b.owner, b.forest.root, b.empty);
    OwnedUpToCount(b.owner, b.ps, b.empty);
    assert OwnedUpTo(b.owner, |b.ps|) == Cells(b.width, b.height);
    CellsCard(b.width, b.height);
  }

  /**
   * A player with fewer areas than allowed may move on every empty cell,
   * so `gamma_free_fields` answers with the number of empty cells.
   */
  lemma MoveCellsWithRoom(b: Board, max: nat, p: nat)
    requires Sound(b) && 1 <= p <= |b.ps| && b.ps[p - 1].numAreas < max
    ensures MoveCells(b, max, p) == OwnedBy(b.owner, 0)
    ensures |MoveCells(b, max, p)| == b.empty
  {
    assert b in SoundBoards(b.width, b.height);
    forall f | f in OwnedBy(b.owner, 0)
      ensures f in MoveCells(b, max, p)
    {
      assert f in Cells(b.width, b.height);
    }
    SoundCounts(b, p);
  }

  /** Nobody but a player of the game may move anywhere. */
  lemma MoveCellsOfNonPlayer(b: Board, max: nat, p: nat)
    requires !(1 <= p <= |b.ps|)
    ensures MoveCells(b, max, p) == {}
  {
  }

  /** The board after `take_field(c, p)`. */
  ghost function TakeBoard(b: Board, c: Field, p: nat): Board
    requires b.empty >= 1 && 1 <= p <= |b.ps|
  {
    b.(owner := b.owner[c := p], forest := b.forest.(root := b.forest.root[c := c]),
       empty := b.empty - 1, ps := b.ps[p - 1 := Took(b.ps[p - 1])])
  }

  /**
   * `take_field` on the values: player `p` taking the empty cell `c`
   * leaves `c` a fresh area of its own, with the counters of `p` and of
   * the empty cells in step.
   */
  lemma TakeStep(b: Board, c: Field, p: nat)
    requires Sound(b) && c in b.owner && b.owner[c] == 0 && 1 <= p <= |b.ps|
    ensures b.empty >= 1 && Taken(TakeBoard(b, c, p), c)
  {
    Take(b.owner, b.forest, c, p);
    TakeCounts(b.owner, b.forest.root, b.empty, b.ps, c, p);
  }

  /** The counters after `take_field(c, p)` count the board after it. */
  lemma TakeCounts(owner: map<Field, nat>, root: map<Field, Field>, empty: nat, ps: seq<Player>, c: Field, p: nat)
    requires CountsOf(owner, root, empty, ps) && owner.Keys == root.Keys
    requires forall f :: f in owner && owner[f] != 0 ==> root[f] != c
    requires c in owner && owner[c] == 0 && 1 <= p <= |ps|
    ensures empty >= 1 && CountsOf(owner[c := p], root[c := c], empty - 1, ps[p - 1 := Took(ps[p - 1])])
  {
    TakeCell(owner, root, c, p);
  }

  /** What `find_parent` needs of a board right after `take_field` on `c`. */
  lemma TakenParts(b: Board, c: Field)
    requires Taken(b, c)
    ensures b.owner.Keys == Cells(b.width, b.height)
    ensures b.forest.parent.Keys == b.owner.Keys && b.forest.root.Keys == b.owner.Keys
    ensures b.forest.rank.Keys == b.owner.Keys
    ensures ForestBut(b.owner, b.forest.parent, b.forest.root, b.forest.rank, b.forest.bound, true, c)
  {
    assert FreshBody(b.owner, b.forest, c);
  }

  /** What `remove_same_areas` needs of a board while `c` is being joined. */
  lemma JoiningParts(b: Board, c: Field, p: nat)
    requires Joining(b, c) && 1 <= p <= |b.ps|
    ensures Partition(b.owner, b.forest, c) && b.ps[p - 1].numAreas == |RootsOf(b.owner, b.forest.root, p)|
  {
  }

  /** The board after the fresh cell `c` of `p` joins the area represented by `a`, with parents `P`. */
  ghost function JoinBoard(b: Board, c: Field, a: Field, P: map<Field, Field>, p: nat): Board
    requires a in b.forest.rank && c in b.forest.rank && a in b.forest.size
    requires 1 <= p <= |b.ps| && b.ps[p - 1].numAreas >= 1
  {
    b.(forest := Attached(b.forest.(parent := P), c, a),
       ps := b.ps[p - 1 := b.ps[p - 1].(numAreas := b.ps[p - 1].numAreas - 1)])
  }

  /** The board after the fresh cell `c` joins the area of `n` through the root `a` found by `find_parent`, field by field. */
  lemma JoinFirstBoard(b: Board, c: Field, n: Field, P: map<Field, Field>, p: nat, a: Field)
    requires Taken(b, c) && c in b.owner && b.owner[c] == p
    requires n in b.owner && b.owner[n] == p && Adjacent(c, n)
    requires P.Keys == b.forest.parent.Keys && a == b.forest.root[n]
    requires ForestBut(b.owner, P, b.forest.root, b.forest.rank, b.forest.bound, true, c)
    ensures 1 <= p <= |b.ps| && a in b.forest.size && b.ps[p - 1].numAreas >= 1 && a in b.forest.rank && c in b.forest.rank
    ensures var b' := JoinBoard(b, c, a, P, p);
      && Joined(b, b', c, n, p) && b'.forest.parent == P[c := a]
      && b'.forest.size == b.forest.size[a := b.forest.size[a] + 1] && b'.ps[p - 1].numAreas == b.ps[p - 1].numAreas - 1
  {
    JoinStep(b, c, n, P, p);
    JoinBoardFields(b, c, a, P, p);
  }

  /** The fields of the board after the fresh cell `c` of `p` joins the area represented by `a`. */
  lemma JoinBoardFields(b: Board, c: Field, a: Field, P: map<Field, Field>, p: nat)
    requires a in b.forest.rank && c in b.forest.rank && a in b.forest.size
    requires 1 <= p <= |b.ps| && b.ps[p - 1].numAreas >= 1
    ensures var b' := JoinBoard(b, c, a, P, p);
      && b'.forest.parent == P[c := a] && b'.forest.size == b.forest.size[a := b.forest.size[a] + 1]
      && b'.ps[p - 1].numAreas == b.ps[p - 1].numAreas - 1
  {
  }

  /**
   * The first neighbour `n` of the fresh cell `c` owned by `p`: once
   * `find_parent` has compressed the parents to `P`, `c` joins the area of
   * `n` and `p` has one area fewer again.
   */
  lemma JoinStep(b: Board, c: Field, n: Field, P: map<Field, Field>, p: nat)
    requires Taken(b, c) && c in b.owner && b.owner[c] == p
    requires n in b.owner && b.owner[n] == p && Adjacent(c, n)
    requires P.Keys == b.forest.parent.Keys
    requires ForestBut(b.owner, P, b.forest.root, b.forest.rank, b.forest.bound, true, c)
    ensures n in b.forest.root && b.forest.root[n] in b.forest.rank && c in b.forest.rank
    ensures b.forest.root[n] in b.forest.size && b.forest.root[n] != c
    ensures 1 <= p <= |b.ps| && b.ps[p - 1].numAreas >= 1
    ensures Joined(b, JoinBoard(b, c, b.forest.root[n], P, p), c, n, p)
  {
    var u := b.forest.(parent := P);
    Refresh(b.owner, b.forest, c, P);
    Attach(b.owner, u, c, n);
    JoinTally(b, c, b.forest.root[n], P, p);
    assert JoinedBody(b, JoinBoard(b, c, b.forest.root[n], P, p), c, n, p);
  }

  /** The counters of the board after the fresh cell `c` of `p` joins the area represented by `a` agree with it. */
  lemma JoinTally(b: Board, c: Field, a: Field, P: map<Field, Field>, p: nat)
    requires CountsOf(b.owner, b.forest.root, b.empty, b.ps) && 1 <= p <= |b.ps|
    requires c in b.owner && c in b.forest.root && b.owner[c] == p && b.forest.root[c] == c
    requires a in b.forest.rank && c in b.forest.rank && a in b.forest.size
    requires forall q :: RootsOf(b.owner, b.forest.root[c := a], q) == RootsOf(b.owner, b.forest.root, q) - {c}
    ensures b.ps[p - 1].numAreas >= 1
    ensures var b' := JoinBoard(b, c, a, P, p); CountsOf(b'.owner, b'.forest.root, b'.empty, b'.ps)
  {
    JoinCounts(b.owner, b.forest.root, b.empty, b.ps, c, a, p);
  }

  /**
   * `b'` is the board `b` after its fresh cell `c` of `p` joined the area
   * of its neighbour `n`: `c` is represented by the root of `n` and `p`
   * has one area fewer.
   */
  ghost predicate Joined(b: Board, b': Board, c: Field, n: Field, p: nat) {
    b' in JoinedBoards(b, c, n, p)
  }

  ghost function JoinedBoards(b: Board, c: Field, n: Field, p: nat): iset<Board> {
    iset b': Board | JoinedBody(b, b', c, n, p)
  }

  ghost predicate JoinedBody(b: Board, b': Board, c: Field, n: Field, p: nat) {
    && Joining(b', c)
    && b'.width == b.width && b'.height == b.height && b'.owner == b.owner && b'.empty == b.empty
    && n in b.forest.root && b'.forest.root == b.forest.root[c := b.forest.root[n]]
    && 1 <= p <= |b.ps| && b.ps[p - 1].numAreas >= 1
    && b'.ps == b.ps[p - 1 := b.ps[p - 1].(numAreas := b.ps[p - 1].numAreas - 1)]
  }

  /** What a joined board says. */
  lemma JoinedParts(b: Board, b': Board, c: Field, n: Field, p: nat)
    requires Joined(b, b', c, n, p)
    ensures JoinedBody(b, b', c, n, p)
  {
  }

  /** The counters after the fresh cell `c` of `p` joins the area represented by `a` count the board after it. */
  lemma JoinCounts(owner: map<Field, nat>, root: map<Field, Field>, empty: nat, ps: seq<Player>,
                   c: Field, a: Field, p: nat)
    requires CountsOf(owner, root, empty, ps) && 1 <= p <= |ps|
    requires c in owner && c in root && owner[c] == p && root[c] == c
    requires forall q :: RootsOf(owner, root[c := a], q) == RootsOf(owner, root, q) - {c}
    ensures ps[p - 1].numAreas >= 1
    ensures CountsOf(owner, root[c := a], empty, ps[p - 1 := ps[p - 1].(numAreas := ps[p - 1].numAreas - 1)])
  {
    assert c in RootsOf(owner, root, p);
  }

  /** The board once the fresh cell `c` is made a root of its own of size one. */
  ghost function IsolateBoard(b: Board, c: Field): Board {
    b.(forest := b.forest.(parent := b.forest.parent[c := c], size := b.forest.size[c := 1]))
  }

  /**
   * A fresh cell `c` none of whose neighbours belongs to its owner becomes
   * an area of its own of size one, and the board is sound again.
   */
  lemma IsolateStep(b: Board, c: Field)
    requires Taken(b, c) && c in b.owner && SameNbrs(b.owner, c, b.owner[c], Directions) == []
    ensures Sound(IsolateBoard(b, c))
  {
    forall g | g in b.owner && Adjacent(c, g)
      ensures b.owner[g] != b.owner[c]
    {
      assert DirTo(c, g) < Directions;
      assert g !in SameNbrs(b.owner, c, b.owner[c], Directions);
    }
    Isolate(b.owner, b.forest, c);
    Settle(b.owner, IsolateBoard(b, c).forest, c);
  }

  /** The board once `remove_same_areas` leaves the forest `u` and `n` areas to the owner `p` of `c`. */
  ghost function CloseBoard(b: Board, u: Forest, p: nat, n: nat): Board
    requires 1 <= p <= |b.ps|
  {
    b.(forest := u, ps := b.ps[p - 1 := b.ps[p - 1].(numAreas := n)])
  }

  /** Closing the board joined from `b` is closing `b` itself: the join changed only what closing overwrites. */
  lemma CloseJoined(b: Board, b': Board, c: Field, m: Field, p: nat, u: Forest, n: nat)
    requires Joined(b, b', c, m, p)
    ensures 1 <= p <= |b.ps| == |b'.ps| && CloseBoard(b', u, p, n) == CloseBoard(b, u, p, n)
  {
    JoinedParts(b, b', c, m, p);
    assert b'.ps[p - 1 := b'.ps[p - 1].(numAreas := n)] == b.ps[p - 1 := b.ps[p - 1].(numAreas := n)];
  }

  /**
   * The representatives `L` cover `c` and every neighbour of `c` of the
   * same owner.
   */
  ghost predicate NbrsIn(owner: map<Field, nat>, root: map<Field, Field>, c: Field, L: set<Field>)
    requires c in owner
  {
    && c in root && root[c] in L
    && forall g :: g in owner && owner[g] == owner[c] && Adjacent(c, g) ==> g in root && root[g] in L
  }

  /**
   * After `remove_same_areas` has gathered the areas `L` around `c` into
   * the one of `c`, no two adjacent cells of one player lie in different
   * areas, and the board is sound again.
   */
  lemma CloseStep(b: Board, c: Field, p: nat, u: Forest, n: nat, L: set<Field>, a: Field)
    requires Joining(b, c) && c in b.owner && b.owner[c] == p && 1 <= p <= |b.ps|
    requires NbrsIn(b.owner, b.forest.root, c, L)
    requires Partition(b.owner, u, c) && u.root == Gather(b.forest.root, L, a)
    requires n == |RootsOf(b.owner, u.root, p)|
    requires forall q :: q != p ==> RootsOf(b.owner, u.root, q) == RootsOf(b.owner, b.forest.root, q)
    ensures Sound(CloseBoard(b, u, p, n))
  {
    CloseAreas(b.owner, b.forest.root, u, c, L, a);
    CloseCounts(b.owner, b.forest.root, u.root, b.empty, b.ps, p, n);
    ShapedKeep(b, CloseBoard(b, u, p, n));
  }

  /** Gathering the areas `L` around `c` into one leaves no adjacent pair of one player in two areas. */
  lemma CloseAreas(owner: map<Field, nat>, R: map<Field, Field>, u: Forest, c: Field, L: set<Field>, a: Field)
    requires Partition(owner, u, c) && c in owner && NbrsIn(owner, R, c, L) && u.root == Gather(R, L, a)
    ensures Partition(owner, u, Field(0, 0)) && Separated(owner, u.root)
  {
    assert owner.Keys == u.root.Keys;
    forall g | g in owner && owner[g] == owner[c] && Adjacent(c, g)
      ensures u.root[g] == u.root[c]
    {
    }
    SeparatedClose(owner, u.root, c);
    Settle(owner, u, c);
  }

  /** The counters once the areas of `p` are those of `root'` and the others' are unchanged. */
  lemma CloseCounts(owner: map<Field, nat>, root: map<Field, Field>, root': map<Field, Field>,
                    empty: nat, ps: seq<Player>, p: nat, n: nat)
    requires CountsOf(owner, root, empty, ps) && 1 <= p <= |ps|
    requires n == |RootsOf(owner, root', p)|
    requires forall q :: q != p ==> RootsOf(owner, root', q) == RootsOf(owner, root, q)
    ensures CountsOf(owner, root', empty, ps[p - 1 := ps[p - 1].(numAreas := n)])
  {
  }

  /**
   * The areas of the neighbours of `c` after `p` takes it, under any
   * representatives `R` that agree with the board off `c`, are as many as
   * the components of `p`'s cells before the move that they touch.
   */
  lemma MoveCount(b: Board, c: Field, p: nat, ns: seq<Field>, R: map<Field, Field>)
    requires Sound(b) && c in b.owner && b.owner[c] == 0 && p != 0
    requires ns == SameNbrs(b.owner[c := p], c, p, Directions)
    requires forall f :: f in b.forest.root && f != c ==> f in R && R[f] == b.forest.root[f]
    ensures ns == SameNbrs(b.owner, c, p, Directions)
    ensures |Labels(R, ns)| == DistinctComps(OwnedBy(b.owner, p), ns)
  {
    SameNbrsOwnerOfSelf(b.owner, c, p, p, Directions);
    assert b in SoundBoards(b.width, b.height);
    assert PartitionBody(b.owner, b.forest, Field(0, 0));
    NeighbourLabels(b.owner, b.forest.root, R, c, p, ns);
  }

  /**
   * `b'` is a board `move_util` may leave after player `p` takes the empty
   * cell `c` of `b`: it is sound, `c` belongs to `p`, there is one empty
   * cell fewer, the records of the other players are unchanged, and `p`
   * has one cell more and one area more less one per distinct area of
   * `p` that `c` touches.
   */
  ghost predicate MoveBody(b: Board, b': Board, c: Field, p: nat) {
    && Sound(b') && b'.width == b.width && b'.height == b.height
    && c in b.owner && b.owner[c] == 0 && 1 <= p <= |b.ps| && |b'.ps| == |b.ps|
    && b'.owner == b.owner[c := p] && b'.empty + 1 == b.empty
    && (forall q :: 0 <= q < |b.ps| && q != p - 1 ==> b'.ps[q] == b.ps[q])
    && Moved(b.ps[p - 1], b'.ps[p - 1], DistinctComps(OwnedBy(b.owner, p), SameNbrs(b.owner, c, p, Directions)))
  }

  ghost function MoveBoards(b: Board, c: Field, p: nat): iset<Board> {
    iset b': Board | MoveBody(b, b', c, p)
  }

  /** `b'` is the outcome of `move_util` on `b`, as a single fact. */
  ghost predicate MovedBoard(b: Board, b': Board, c: Field, p: nat) {
    b' in MoveBoards(b, c, p)
  }

  lemma MovedBoardParts(b: Board, b': Board, c: Field, p: nat)
    requires MovedBoard(b, b', c, p)
    ensures MoveBody(b, b', c, p)
  {
  }

  /**
   * A move keeps every player within `max` areas when the mover was
   * below the limit or the cell touches at least one area of theirs.
   */
  lemma MoveCapped(b: Board, b': Board, c: Field, p: nat, max: nat)
    requires MovedBoard(b, b', c, p) && AreasCapped(b.ps, max)
    requires b.ps[p - 1].numAreas < max || SameNbrs(b.owner, c, p, Directions) != []
    ensures AreasCapped(b'.ps, max)
  {
    var ns := SameNbrs(b.owner, c, p, Directions);
    var d := DistinctComps(OwnedBy(b.owner, p), ns);
    MovedRecords(b, b', c, p);
    if ns != [] {
      CompsPositive(OwnedBy(b.owner, p), ns);
    }
    RecordsMovedCapped(b.ps, b'.ps, p, d, max);
  }

  /** The records of a move: only the mover's changes, as `Moved` says. */
  lemma MovedRecords(b: Board, b': Board, c: Field, p: nat)
    requires MovedBoard(b, b', c, p)
    ensures 1 <= p <= |b.ps| && |b'.ps| == |b.ps|
    ensures forall q :: 0 <= q < |b.ps| && q != p - 1 ==> b'.ps[q] == b.ps[q]
    ensures Moved(b.ps[p - 1], b'.ps[p - 1], DistinctComps(OwnedBy(b.owner, p), SameNbrs(b.owner, c, p, Directions)))
  {
    MovedBoardParts(b, b', c, p);
  }

  /**
   * Records changed by a move that joins `d` areas stay within `max`
   * areas when the mover was below it or joins at least one area.
   */
  lemma RecordsMovedCapped(ps: seq<Player>, ps': seq<Player>, p: nat, d: nat, max: nat)
    requires 1 <= p <= |ps| && |ps'| == |ps| && AreasCapped(ps, max)
    requires forall q :: 0 <= q < |ps| && q != p - 1 ==> ps'[q] == ps[q]
    requires Moved(ps[p - 1], ps'[p - 1], d) && (ps[p - 1].numAreas < max || d >= 1)
    ensures AreasCapped(ps', max)
  {
  }

  /**
   * A legal move keeps a board that fits the game fitting it: the move
   * itself keeps it sound, and the mover was below the limit or joins
   * an area of theirs.
   */
  lemma MoveFits(b: Board, b': Board, max: nat, p: nat, x: nat, y: nat, w: nat, h: nat, np: nat)
    requires Fits(b, w, h, np, max) && Legal(b, max, p, x, y) && MovedBoard(b, b', Field(x, y), p)
    ensures Fits(b', w, h, np, max)
  {
    FitsParts(b, w, h, np, max);
    if b.ps[p - 1].numAreas >= max {
      var g :| g in b.owner && Adjacent(Field(x, y), g) && b.owner[g] == p;
      assert DirTo(Field(x, y), g) < Directions;
      assert g in SameNbrs(b.owner, Field(x, y), p, Directions);
    }
    MoveCapped(b, b', Field(x, y), p, max);
    MovedBoardParts(b, b', Field(x, y), p);
    assert b' in FitBoards(w, h, np, max);
  }

  /** A move none of whose neighbours belongs to the mover leaves the cell an area of its own. */
  lemma IsolateMove(b: Board, c: Field, p: nat)
    requires Sound(b) && c in b.owner && b.owner[c] == 0 && 1 <= p <= |b.ps|
    requires SameNbrs(b.owner[c := p], c, p, Directions) == []
    ensures b.empty >= 1 && MovedBoard(b, IsolateBoard(TakeBoard(b, c, p), c), c, p)
  {
    TakeStep(b, c, p);
    IsolateStep(TakeBoard(b, c, p), c);
    MoveCount(b, c, p, [], b.forest.root);
    assert MoveBody(b, IsolateBoard(TakeBoard(b, c, p), c), c, p);
  }

  /**
   * A move whose cell joined the area of its first neighbour, giving `b2`
   * from `b1`, and whose areas around it were then gathered into the
   * forest `u` with `n` areas of the mover left.
   */
  lemma MergeClose(b: Board, b1: Board, b2: Board, c: Field, p: nat, ns: seq<Field>, u: Forest, n: nat)
    requires Sound(b) && c in b.owner && b.owner[c] == 0 && 1 <= p <= |b.ps|
    requires b.empty >= 1 && b1 == TakeBoard(b, c, p)
    requires ns == SameNbrs(b1.owner, c, p, Directions) && ns != [] && Joined(b1, b2, c, ns[0], p)
    requires Sound(CloseBoard(b1, u, p, n)) && n + |Labels(b2.forest.root, ns)| == b2.ps[p - 1].numAreas + 1
    ensures var b' := CloseBoard(b1, u, p, n);
      && MovedBoard(b, b', c, p) && b'.width == b1.width && b'.height == b1.height && b'.owner == b1.owner
      && b'.forest == u && b'.empty == b1.empty && b'.ps == b1.ps[p - 1 := b1.ps[p - 1].(numAreas := n)]
  {
    JoinMove(b, b1, b2, c, p, ns, u, n);
  }

  lemma JoinMove(b: Board, b1: Board, b2: Board, c: Field, p: nat, ns: seq<Field>, u: Forest, n: nat)
    requires Sound(b) && c in b.owner && b.owner[c] == 0 && 1 <= p <= |b.ps|
    requires b.empty >= 1 && b1 == TakeBoard(b, c, p)
    requires ns == SameNbrs(b1.owner, c, p, Directions) && ns != [] && Joined(b1, b2, c, ns[0], p)
    requires Sound(CloseBoard(b1, u, p, n)) && n + |Labels(b2.forest.root, ns)| == b2.ps[p - 1].numAreas + 1
    ensures MovedBoard(b, CloseBoard(b1, u, p, n), c, p)
  {
    JoinedComps(b, b1, b2, c, p, ns);
    CloseIntro(b, c, p, u, n);
  }

  /**
   * After the join, the representatives of the neighbours `ns` of `c`
   * count the distinct areas of `p` around `c` before the move, and `p`
   * has as many areas as before it.
   */
  lemma JoinedComps(b: Board, b1: Board, b2: Board, c: Field, p: nat, ns: seq<Field>)
    requires Sound(b) && c in b.owner && b.owner[c] == 0 && 1 <= p <= |b.ps|
    requires b.empty >= 1 && b1 == TakeBoard(b, c, p)
    requires ns == SameNbrs(b1.owner, c, p, Directions) && ns != [] && Joined(b1, b2, c, ns[0], p)
    ensures ns == SameNbrs(b.owner, c, p, Directions)
    ensures |Labels(b2.forest.root, ns)| == DistinctComps(OwnedBy(b.owner, p), ns)
    ensures 1 <= p <= |b2.ps| && b2.ps[p - 1].numAreas == b.ps[p - 1].numAreas
  {
    JoinedRelabels(b, b1, b2, c, p, ns[0]);
    MoveCount(b, c, p, ns, b2.forest.root);
  }

  /** The join after `take_field` on `c` relabels no cell but `c`, and leaves `p` as many areas as before the move. */
  lemma JoinedRelabels(b: Board, b1: Board, b2: Board, c: Field, p: nat, n: Field)
    requires 1 <= p <= |b.ps| && b.empty >= 1 && b1 == TakeBoard(b, c, p) && Joined(b1, b2, c, n, p)
    ensures forall f :: f in b.forest.root && f != c ==> f in b2.forest.root && b2.forest.root[f] == b.forest.root[f]
    ensures 1 <= p <= |b2.ps| && b2.ps[p - 1].numAreas == b.ps[p - 1].numAreas
  {
    JoinedRoots(b1, b2, c, n, p);
  }

  /** The representatives and the count of areas of `p` after the join. */
  lemma JoinedRoots(b: Board, b': Board, c: Field, n: Field, p: nat)
    requires Joined(b, b', c, n, p)
    ensures n in b.forest.root && b'.forest.root == b.forest.root[c := b.forest.root[n]]
    ensures 1 <= p <= |b.ps| == |b'.ps| && b'.ps[p - 1].numAreas + 1 == b.ps[p - 1].numAreas
  {
    JoinedParts(b, b', c, n, p);
  }

  /**
   * Taking `c` for `p` and then closing with the forest `u` and `a` areas
   * of `p` is a move, when the result is sound and `a` counts one area
   * more than before less one per distinct area of `p` around `c`.
   */
  lemma CloseIntro(b: Board, c: Field, p: nat, u: Forest, a: nat)
    requires c in b.owner && b.owner[c] == 0 && 1 <= p <= |b.ps| && b.empty >= 1
    requires Sound(CloseBoard(TakeBoard(b, c, p), u, p, a))
    requires a + DistinctComps(OwnedBy(b.owner, p), SameNbrs(b.owner, c, p, Directions)) == b.ps[p - 1].numAreas + 1
    ensures MovedBoard(b, CloseBoard(TakeBoard(b, c, p), u, p, a), c, p)
  {
    assert MoveBody(b, CloseBoard(TakeBoard(b, c, p), u, p, a), c, p);
  }

}
