/**
 * The game engine (gamma/src/gamma.c): a board of cells owned by players,
 * areas kept in a union-find forest, moves that merge areas, removals that
 * rebuild them with flood fills, golden moves with roll-back, and
 * feasibility probes.
 *
 * The static helpers of the engine are methods over the parts of the
 * state they use: the board array `player_arr`, the counters, and the
 * union-find maps, with the ghost `Board` that they stand for. The class
 * `Game` is the `gamma_t` structure and its public operations.
 */
module Gamma {
  import opened Fields
  import opened Grid
  import opened Areas
  import opened UnionFind
  import opened Union
  import opened FieldStack
  import opened Moves
  import opened Flood
  import opened Removal
  import opened Golden

  /** `NO_PLAYER`: the owner recorded for an empty cell. */
  const NoPlayer: nat := 0

  // ---------------------------------------------------------------------
  // The board array

  /** `player_arr` holds the owners `O` of the cells. */
  ghost predicate OwnersHold(arr: array2<nat>, O: map<Field, nat>)
    reads arr
  {
    forall i, j {:trigger arr[i, j]} :: 0 <= i < arr.Length0 && 0 <= j < arr.Length1 ==>
      Field(i, j) in O && arr[i, j] == O[Field(i, j)]
  }

  /** `player_arr` holds the owners of the board `b`, whose size it has. */
  ghost predicate Mirrors(arr: array2<nat>, b: Board)
    reads arr
  {
    b.width == arr.Length0 && b.height == arr.Length1 && OwnersHold(arr, b.owner)
  }

  /** An all-empty `player_arr` holds the owners of a new board of its size. */
  lemma NewOwnersHold(arr: array2<nat>, np: nat)
    requires forall i, j :: 0 <= i < arr.Length0 && 0 <= j < arr.Length1 ==> arr[i, j] == NoPlayer
    ensures OwnersHold(arr, NewBoard(arr.Length0, arr.Length1, np).owner)
  {
    var O := NewBoard(arr.Length0, arr.Length1, np).owner;
    forall i, j | 0 <= i < arr.Length0 && 0 <= j < arr.Length1
      ensures Field(i, j) in O && arr[i, j] == O[Field(i, j)]
    {
      assert Field(i, j) in Cells(arr.Length0, arr.Length1);
    }
  }

  /**
   * `wrong_field`: (x, y) is off a board of `w` columns and `h` rows. A
   * negative coordinate stands for the unsigned wrap-around of the
   * source, which also lands off the board.
   */
  predicate WrongField(w: nat, h: nat, x: int, y: int)
    ensures !WrongField(w, h, x, y) <==> 0 <= x && 0 <= y && Field(x, y) in Cells(w, h)
  {
    !(0 <= x < w && 0 <= y < h)
  }

  /**
   * Direction `i` extends the list of `p`'s neighbours of (x, y) exactly
   * when the position there is on the board and `player_arr` says `p`
   * owns it.
   */
  lemma NbrStep(arr: array2<nat>, O: map<Field, nat>, x: nat, y: nat, p: nat, i: nat)
    requires O.Keys == Cells(arr.Length0, arr.Length1) && OwnersHold(arr, O) && i < Directions
    ensures
      var xi := x + XDir[i];
      var yi := y + YDir[i];
      SameNbrs(O, Field(x, y), p, i + 1) ==
        if !WrongField(arr.Length0, arr.Length1, xi, yi) && arr[xi, yi] == p
        then SameNbrs(O, Field(x, y), p, i) + [Field(xi, yi)]
        else SameNbrs(O, Field(x, y), p, i)
  {
    var xi := x + XDir[i];
    var yi := y + YDir[i];
    if !WrongField(arr.Length0, arr.Length1, xi, yi) {
      assert Step(Field(x, y), i) == Field(xi, yi);
    }
  }

  /** `NbrStep` for a list `ns` of the neighbours found among the first `i` directions. */
  lemma NbrExtend(arr: array2<nat>, O: map<Field, nat>, x: nat, y: nat, p: nat, i: nat, ns: seq<Field>)
    requires O.Keys == Cells(arr.Length0, arr.Length1) && OwnersHold(arr, O) && i < Directions
    requires ns == SameNbrs(O, Field(x, y), p, i)
    ensures
      var xi := x + XDir[i];
      var yi := y + YDir[i];
      if !WrongField(arr.Length0, arr.Length1, xi, yi) && arr[xi, yi] == p
      then ns + [Field(xi, yi)] == SameNbrs(O, Field(x, y), p, i + 1)
      else ns == SameNbrs(O, Field(x, y), p, i + 1)
  {
    NbrStep(arr, O, x, y, p, i);
  }

  /** `count_neighbours`: how many edge neighbours of (x, y) player `p` owns. */
  method CountNeighbours(arr: array2<nat>, x: nat, y: nat, p: nat, ghost O: map<Field, nat>) returns (l: nat)
    requires O.Keys == Cells(arr.Length0, arr.Length1) && OwnersHold(arr, O)
    ensures l == |SameNbrs(O, Field(x, y), p, Directions)|
    ensures l == 0 <==> forall g :: g in O && Adjacent(Field(x, y), g) ==> O[g] != p
  {
    l := 0;
    for i := 0 to Directions
      invariant l == |SameNbrs(O, Field(x, y), p, i)|
    {
      var xi := x + XDir[i];
      var yi := y + YDir[i];
      NbrStep(arr, O, x, y, p, i);
      if !WrongField(arr.Length0, arr.Length1, xi, yi) && arr[xi, yi] == p {
        l := l + 1;
      }
    }
    ghost var ns := SameNbrs(O, Field(x, y), p, Directions);
    if l == 0 {
      forall g | g in O && Adjacent(Field(x, y), g)
        ensures O[g] != p
      {
        assert DirTo(Field(x, y), g) < Directions;
        assert g !in ns;
      }
    } else {
      assert ns[0] in ns;
    }
  }

  /** Writes one cell of `player_arr`, keeping it in step with the owners `O`. */
  method SetOwner(arr: array2<nat>, f: Field, v: nat, ghost O: map<Field, nat>)
    requires f.x < arr.Length0 && f.y < arr.Length1 && OwnersHold(arr, O)
    modifies arr
    ensures OwnersHold(arr, O[f := v])
  {
    arr[f.x, f.y] := v;
    forall i, j | 0 <= i < arr.Length0 && 0 <= j < arr.Length1
      ensures Field(i, j) in O[f := v] && arr[i, j] == O[f := v][Field(i, j)]
    {
      if i != f.x || j != f.y {
        assert arr[i, j] == old(arr[i, j]);
      }
    }
  }

  // ---------------------------------------------------------------------
  // Flood fills

  /** `visited` marks exactly the cells of `V` among its positions. */
  ghost predicate Marks(vis: array2<bool>, V: set<Field>)
    reads vis
  {
    forall i, j {:trigger vis[i, j]} :: 0 <= i < vis.Length0 && 0 <= j < vis.Length1 ==>
      (vis[i, j] <==> Field(i, j) in V)
  }

  /** Writes one cell of `visited`, keeping it in step with the marked cells `V`. */
  method SetMark(vis: array2<bool>, f: Field, m: bool, ghost V: set<Field>)
    requires f.x < vis.Length0 && f.y < vis.Length1 && Marks(vis, V)
    modifies vis
    ensures Marks(vis, if m then V + {f} else V - {f})
  {
    vis[f.x, f.y] := m;
    forall i, j | 0 <= i < vis.Length0 && 0 <= j < vis.Length1
      ensures vis[i, j] <==> Field(i, j) in (if m then V + {f} else V - {f})
    {
      if i != f.x || j != f.y {
        assert vis[i, j] == old(vis[i, j]);
      }
    }
  }

  /** The scratch state of the flood fills: a valid stack whose storage is apart from both arrays. */
  ghost predicate Scratchpad(arr: array2<nat>, vis: array2<bool>, st: Stack)
    reads st, st.Repr
  {
    st.Valid() && arr !in st.Repr && vis !in st.Repr
  }

  /** `dfs_condition`: (x, y) is on the board, not marked, and owned by `p`. */
  predicate DfsCondition(arr: array2<nat>, vis: array2<bool>, x: int, y: int, p: nat)
    requires vis.Length0 == arr.Length0 && vis.Length1 == arr.Length1
    reads arr, vis
  {
    !WrongField(arr.Length0, arr.Length1, x, y) && !vis[x, y] && arr[x, y] == p
  }

  /**
   * The search of `set_parent_dfs` goes on in direction `i` from `u`
   * exactly when the cell there is one of `p`'s and not yet marked.
   */
  lemma DfsConditionMeans(arr: array2<nat>, vis: array2<bool>, O: map<Field, nat>, V: set<Field>,
                          p: nat, u: Field, i: nat)
    requires O.Keys == Cells(arr.Length0, arr.Length1) && OwnersHold(arr, O)
    requires vis.Length0 == arr.Length0 && vis.Length1 == arr.Length1 && Marks(vis, V) && i < Directions
    ensures DfsCondition(arr, vis, u.x + XDir[i], u.y + YDir[i], p) <==>
      StepDefined(u, i) && Step(u, i) in OwnedBy(O, p) && Step(u, i) !in V
  {
    if StepDefined(u, i) && Step(u, i) in O {
      var v := Step(u, i);
      assert arr[v.x, v.y] == O[v] && (vis[v.x, v.y] <==> v in V);
    }
  }

  /**
   * One round of the inner loop of `set_parent_dfs` for the cell `u` just
   * popped: the neighbour in direction `i`, when owned by `p` and not yet
   * marked, is marked and pushed.
   */
  method DfsStep(arr: array2<nat>, vis: array2<bool>, st: Stack, u: Field, p: nat, i: nat, ghost O: map<Field, nat>,
                 ghost f: Field, ghost V0: set<Field>, ghost V: set<Field>, ghost count: nat,
                 ghost parent: Field, ghost P0: map<Field, Field>, ghost P: map<Field, Field>)
    returns (ghost V': set<Field>)
    requires O.Keys == Cells(arr.Length0, arr.Length1) && OwnersHold(arr, O) && i < Directions
    requires vis.Length0 == arr.Length0 && vis.Length1 == arr.Length1 && Marks(vis, V) && Scratchpad(arr, vis, st)
    requires Filling(OwnedBy(O, p), f, V0, V, st.Contents, count, parent, P0, P, u, i, true)
    modifies vis, st.Repr
    ensures Marks(vis, V') && Scratchpad(arr, vis, st) && fresh(st.Repr - old(st.Repr))
    ensures Filling(OwnedBy(O, p), f, V0, V', st.Contents, count, parent, P0, P, u, i + 1, true)
  {
    ghost var S := OwnedBy(O, p);
    ghost var cs := st.Contents;
    var xi := u.x + XDir[i];
    var yi := u.y + YDir[i];
    DfsConditionMeans(arr, vis, O, V, p, u, i);
    if DfsCondition(arr, vis, xi, yi, p) {
      var v := Field(xi, yi);
      assert v == Step(u, i);
      FillPush(S, f, V0, V, cs, count, parent, P0, P, u, i);
      SetMark(vis, v, true, V);
      st.Push(xi, yi);
      V' := V + {v};
    } else {
      FillSkip(S, f, V0, V, cs, count, parent, P0, P, u, i);
      V' := V;
    }
  }

  /**
   * The inner loop of `set_parent_dfs` for the cell `u` just popped: each
   * neighbour of `u` owned by `p` and not yet marked is marked and pushed.
   */
  method DfsVisit(arr: array2<nat>, vis: array2<bool>, st: Stack, u: Field, p: nat, ghost O: map<Field, nat>,
                  ghost f: Field, ghost V0: set<Field>, ghost V: set<Field>, ghost count: nat,
                  ghost parent: Field, ghost P0: map<Field, Field>, ghost P: map<Field, Field>)
    returns (ghost V': set<Field>)
    requires O.Keys == Cells(arr.Length0, arr.Length1) && OwnersHold(arr, O)
    requires vis.Length0 == arr.Length0 && vis.Length1 == arr.Length1 && Marks(vis, V) && Scratchpad(arr, vis, st)
    requires Filling(OwnedBy(O, p), f, V0, V, st.Contents, count, parent, P0, P, u, 0, true)
    modifies vis, st.Repr
    ensures Marks(vis, V') && Scratchpad(arr, vis, st) && fresh(st.Repr - old(st.Repr))
    ensures Filling(OwnedBy(O, p), f, V0, V', st.Contents, count, parent, P0, P, u, Directions, false)
  {
    V' := V;
    for i := 0 to Directions
      invariant Marks(vis, V') && Scratchpad(arr, vis, st) && fresh(st.Repr - old(st.Repr))
      invariant Filling(OwnedBy(O, p), f, V0, V', st.Contents, count, parent, P0, P, u, i, true)
    {
      V' := DfsStep(arr, vis, st, u, p, i, O, f, V0, V', count, parent, P0, P);
    }
    FillSettle(OwnedBy(O, p), f, V0, V', st.Contents, count, parent, P0, P, u);
  }

  /**
   * One round of the outer loop of `set_parent_dfs`: the top cell of the
   * stack is popped, handed `parent`, and its neighbours searched.
   */
  method DfsRound(arr: array2<nat>, vis: array2<bool>, st: Stack, parent: Field, p: nat, P: map<Field, Field>,
                  ghost O: map<Field, nat>, ghost f: Field, ghost V0: set<Field>, ghost V: set<Field>,
                  ghost count: nat, ghost P0: map<Field, Field>, ghost u: Field, ghost i: nat)
    returns (P': map<Field, Field>, ghost V': set<Field>, ghost g: Field)
    requires O.Keys == Cells(arr.Length0, arr.Length1) && OwnersHold(arr, O) && OwnedBy(O, p) <= P0.Keys
    requires vis.Length0 == arr.Length0 && vis.Length1 == arr.Length1 && Marks(vis, V) && Scratchpad(arr, vis, st)
    requires st.Contents != [] && Filling(OwnedBy(O, p), f, V0, V, st.Contents, count, parent, P0, P, u, i, false)
    modifies vis, st.Repr
    ensures Marks(vis, V') && Scratchpad(arr, vis, st) && fresh(st.Repr - old(st.Repr))
    ensures Filling(OwnedBy(O, p), f, V0, V', st.Contents, count + 1, parent, P0, P', g, Directions, false)
    ensures count < |OwnedBy(O, p)|
  {
    ghost var cs := st.Contents;
    var h := st.Pop();
    assert cs == st.Contents + [h];
    FillPop(OwnedBy(O, p), f, V0, V, st.Contents, count, parent, P0, P, h, u, i);
    P' := P[h := parent];
    V' := DfsVisit(arr, vis, st, h, p, O, f, V0, V, count + 1, parent, P0, P');
    g := h;
  }

  /**
   * The outer loop of `set_parent_dfs`: cells are popped and searched
   * until the stack is empty.
   */
  method DfsLoop(arr: array2<nat>, vis: array2<bool>, st: Stack, parent: Field, p: nat, P: map<Field, Field>,
                 ghost O: map<Field, nat>, ghost f: Field, ghost V0: set<Field>, ghost V: set<Field>)
    returns (count: nat, P': map<Field, Field>, ghost V': set<Field>, ghost u: Field, ghost i: nat)
    requires O.Keys == Cells(arr.Length0, arr.Length1) && OwnersHold(arr, O) && P.Keys == O.Keys
    requires vis.Length0 == arr.Length0 && vis.Length1 == arr.Length1 && Marks(vis, V) && Scratchpad(arr, vis, st)
    requires Filling(OwnedBy(O, p), f, V0, V, st.Contents, 0, parent, P, P, f, 0, false)
    modifies vis, st.Repr
    ensures Marks(vis, V') && Scratchpad(arr, vis, st) && fresh(st.Repr - old(st.Repr)) && st.Contents == []
    ensures Filling(OwnedBy(O, p), f, V0, V', [], count, parent, P, P', u, i, false)
  {
    ghost var S := OwnedBy(O, p);
    count, P', V', u, i := 0, P, V, f, 0;
    assert S <= P.Keys;
    var empty := st.IsEmpty();
    while !empty
      invariant Marks(vis, V') && Scratchpad(arr, vis, st) && fresh(st.Repr - old(st.Repr))
      invariant Filling(S, f, V0, V', st.Contents, count, parent, P, P', u, i, false)
      invariant (empty <==> st.Contents == []) && count <= |S|
      decreases |S| - count
    {
      P', V', u := DfsRound(arr, vis, st, parent, p, P', O, f, V0, V', count, P, u, i);
      count, i := count + 1, Directions;
      empty := st.IsEmpty();
    }
  }

  /**
   * `set_parent_dfs`: a search from (x, y), owned by `p`, through the
   * unmarked cells of `p` hands `parent` to the whole area of (x, y),
   * marks it, and counts its cells. The area must not hold marked cells.
   */
  method SetParentDfs(arr: array2<nat>, vis: array2<bool>, st: Stack, parent: Field, x: nat, y: nat, p: nat,
                      P: map<Field, Field>, ghost O: map<Field, nat>, ghost V0: set<Field>)
    returns (count: nat, P': map<Field, Field>)
    requires O.Keys == Cells(arr.Length0, arr.Length1) && OwnersHold(arr, O) && P.Keys == O.Keys
    requires vis.Length0 == arr.Length0 && vis.Length1 == arr.Length1 && Marks(vis, V0)
    requires Scratchpad(arr, vis, st) && st.Contents == []
    requires x < arr.Length0 && y < arr.Length1 && arr[x, y] == p && Field(x, y) !in V0
    requires Comp(OwnedBy(O, p), Field(x, y)) !! V0
    modifies vis, st.Repr
    ensures Marks(vis, V0 + Comp(OwnedBy(O, p), Field(x, y)))
    ensures Scratchpad(arr, vis, st) && fresh(st.Repr - old(st.Repr)) && st.Contents == []
    ensures count == |Comp(OwnedBy(O, p), Field(x, y))| && Handed(Comp(OwnedBy(O, p), Field(x, y)), parent, P, P')
  {
    ghost var S := OwnedBy(O, p);
    var f := Field(x, y);
    assert f in S by { assert arr[x, y] == O[f]; }
    count := 0;
    P' := P;
    st.Push(x, y);
    SetMark(vis, f, true, V0);
    ghost var V := V0 + {f};
    FillStart(S, f, V0, parent, P);
    ghost var u, i;
    count, P', V, u, i := DfsLoop(arr, vis, st, parent, p, P, O, f, V0, V);
    FillEnd(S, f, V0, V, count, parent, P, P', u, i);
  }

  /** The search of `init_visited` goes on in direction `i` from `u` exactly when the cell there is marked. */
  lemma ClearConditionMeans(vis: array2<bool>, V: set<Field>, u: Field, i: nat)
    requires V <= Cells(vis.Length0, vis.Length1) && Marks(vis, V) && i < Directions
    ensures (!WrongField(vis.Length0, vis.Length1, u.x + XDir[i], u.y + YDir[i]) && vis[u.x + XDir[i], u.y + YDir[i]])
      <==> StepDefined(u, i) && Step(u, i) in V
  {
    if StepDefined(u, i) && Step(u, i) in V {
      assert Step(u, i) in Cells(vis.Length0, vis.Length1);
    }
  }

  /** The scratch state of `init_visited`: a valid stack whose storage is apart from `visited`. */
  ghost predicate ClearPad(vis: array2<bool>, st: Stack)
    reads st, st.Repr
  {
    st.Valid() && vis !in st.Repr
  }

  /**
   * One round of the inner loop of `init_visited` for the cell `u` just
   * popped: the neighbour in direction `i`, when marked, is unmarked and pushed.
   */
  method ClearStep(vis: array2<bool>, st: Stack, u: Field, i: nat, ghost c: Field, ghost V0: set<Field>, ghost V: set<Field>)
    returns (ghost V': set<Field>)
    requires V0 <= Cells(vis.Length0, vis.Length1) && Marks(vis, V) && ClearPad(vis, st) && i < Directions
    requires Clearing(V0, c, V, st.Contents, u, i, true)
    modifies vis, st.Repr
    ensures Marks(vis, V') && ClearPad(vis, st) && fresh(st.Repr - old(st.Repr))
    ensures Clearing(V0, c, V', st.Contents, u, i + 1, true)
    ensures |st.Contents| >= old(|st.Contents|)
    ensures |V'| + |st.Contents| == |V| + old(|st.Contents|)
  {
    var xi := u.x + XDir[i];
    var yi := u.y + YDir[i];
    ClearConditionMeans(vis, V, u, i);
    if !WrongField(vis.Length0, vis.Length1, xi, yi) && vis[xi, yi] {
      var v := Field(xi, yi);
      ClearPush(V0, c, V, st.Contents, u, i);
      SetMark(vis, v, false, V);
      st.Push(xi, yi);
      V' := V - {v};
    } else {
      ClearSkip(V0, c, V, st.Contents, u, i);
      V' := V;
    }
  }

  /**
   * The inner loop of `init_visited` for the cell `u` just popped: each
   * marked neighbour of `u` is unmarked and pushed.
   */
  method ClearVisit(vis: array2<bool>, st: Stack, u: Field, ghost c: Field, ghost V0: set<Field>, ghost V: set<Field>)
    returns (ghost V': set<Field>)
    requires V0 <= Cells(vis.Length0, vis.Length1) && Marks(vis, V) && ClearPad(vis, st)
    requires Clearing(V0, c, V, st.Contents, u, 0, true)
    modifies vis, st.Repr
    ensures Marks(vis, V') && ClearPad(vis, st) && fresh(st.Repr - old(st.Repr))
    ensures Clearing(V0, c, V', st.Contents, u, Directions, false)
    ensures |V'| + |st.Contents| == |V| + old(|st.Contents|)
  {
    V' := V;
    for i := 0 to Directions
      invariant Marks(vis, V') && ClearPad(vis, st) && fresh(st.Repr - old(st.Repr))
      invariant Clearing(V0, c, V', st.Contents, u, i, true)
      invariant |V'| + |st.Contents| == |V| + old(|st.Contents|)
    {
      V' := ClearStep(vis, st, u, i, c, V0, V');
    }
    ClearSettle(V0, c, V', st.Contents, u);
  }

  /**
   * One round of the outer loop of `init_visited`: the top cell of the
   * stack is popped and its marked neighbours unmarked and pushed.
   */
  method ClearRound(vis: array2<bool>, st: Stack, ghost c: Field, ghost V0: set<Field>, ghost V: set<Field>,
                    ghost u: Field, ghost i: nat)
    returns (ghost V': set<Field>, ghost g: Field)
    requires V0 <= Cells(vis.Length0, vis.Length1) && Marks(vis, V) && ClearPad(vis, st)
    requires st.Contents != [] && Clearing(V0, c, V, st.Contents, u, i, false)
    modifies vis, st.Repr
    ensures Marks(vis, V') && ClearPad(vis, st) && fresh(st.Repr - old(st.Repr))
    ensures Clearing(V0, c, V', st.Contents, g, Directions, false)
    ensures |V'| + |st.Contents| < |V| + old(|st.Contents|)
  {
    ghost var cs := st.Contents;
    var h := st.Pop();
    assert cs == st.Contents + [h];
    ClearPop(V0, c, V, st.Contents, h, u, i);
    V' := ClearVisit(vis, st, h, c, V0, V);
    g := h;
  }

  /**
   * `init_visited`: a search from (x, y) through the marked cells unmarks
   * them all, when every marked cell is joined to (x, y) through marked
   * cells and (x, y) itself is not marked.
   */
  method InitVisited(vis: array2<bool>, st: Stack, x: nat, y: nat, ghost V0: set<Field>)
    requires x < vis.Length0 && y < vis.Length1 && Field(x, y) !in V0
    requires V0 <= Cells(vis.Length0, vis.Length1) && Marks(vis, V0)
    requires forall v :: v in V0 ==> ConnectedIn(V0 + {Field(x, y)}, Field(x, y), v)
    requires ClearPad(vis, st) && st.Contents == []
    modifies vis, st.Repr
    ensures Marks(vis, {}) && ClearPad(vis, st) && st.Contents == [] && fresh(st.Repr - old(st.Repr))
  {
    var c := Field(x, y);
    st.Push(x, y);
    SetMark(vis, c, false, V0);
    assert V0 - {c} == V0;
    ClearStart(V0, c);
    ghost var V, u, i := ClearLoop(vis, st, c, V0);
    ClearEnd(V0, c, V, u, i);
  }

  /** The outer loop of `init_visited`: cells are popped and searched until the stack is empty. */
  method ClearLoop(vis: array2<bool>, st: Stack, ghost c: Field, ghost V0: set<Field>)
    returns (ghost V: set<Field>, ghost u: Field, ghost i: nat)
    requires V0 <= Cells(vis.Length0, vis.Length1) && Marks(vis, V0) && ClearPad(vis, st)
    requires Clearing(V0, c, V0, st.Contents, c, 0, false)
    modifies vis, st.Repr
    ensures Marks(vis, V) && ClearPad(vis, st) && fresh(st.Repr - old(st.Repr)) && st.Contents == []
    ensures Clearing(V0, c, V, [], u, i, false)
  {
    V, u, i := V0, c, 0;
    var empty := st.IsEmpty();
    while !empty
      invariant Marks(vis, V) && ClearPad(vis, st) && fresh(st.Repr - old(st.Repr))
      invariant Clearing(V0, c, V, st.Contents, u, i, false)
      invariant empty <==> st.Contents == []
      decreases |V| + |st.Contents|
    {
      V, u := ClearRound(vis, st, c, V0, V, u, i);
      i := Directions;
      empty := st.IsEmpty();
    }
  }

  // ---------------------------------------------------------------------
  // Moves

  /**
   * `take_field`: player `p` takes the empty cell (x, y) of the sound
   * board `b`, whose empty count and records are `e` and `ps`; the cell
   * becomes an area of its own, not yet entered in the forest.
   */
  method TakeField(arr: array2<nat>, x: nat, y: nat, p: nat, e: nat, ps: seq<Player>, ghost b: Board)
    returns (e': nat, ps': seq<Player>, ghost b': Board)
    requires Sound(b) && Mirrors(arr, b) && x < b.width && y < b.height
    requires b.owner[Field(x, y)] == NoPlayer && 1 <= p <= |b.ps| && e == b.empty && ps == b.ps
    modifies arr
    ensures b.empty >= 1 && Mirrors(arr, b') && b' == TakeBoard(b, Field(x, y), p) && Taken(b', Field(x, y))
    ensures e' == b'.empty && ps' == b'.ps
  {
    TakeStep(b, Field(x, y), p);
    SetOwner(arr, Field(x, y), p, b.owner);
    ps' := ps[p - 1 := Took(ps[p - 1])];
    e' := e - 1;
    b' := TakeBoard(b, Field(x, y), p);
  }

  /**
   * `find_parent` on the first neighbour `n` of the fresh cell `c` of `p`:
   * the root `a` of its area and the compressed parents `P'`, from which
   * the cell joins that area.
   */
  method FindFirstRoot(c: Field, n: Field, p: nat, P: map<Field, Field>, ghost b: Board)
    returns (a: Field, P': map<Field, Field>, ghost b': Board)
    requires Taken(b, c) && c in b.owner && b.owner[c] == p
    requires n in b.owner && b.owner[n] == p && Adjacent(c, n) && P == b.forest.parent
    ensures 1 <= p <= |b.ps| == |b'.ps| && a in b.forest.size && b.ps[p - 1].numAreas >= 1
    ensures Joined(b, b', c, n, p) && b'.forest.parent == P'[c := a]
    ensures b'.forest.size == b.forest.size[a := b.forest.size[a] + 1] && b'.ps[p - 1].numAreas == b.ps[p - 1].numAreas - 1
  {
    TakenParts(b, c);
    a, P' := FindParent(P, n, b.owner, b.forest, true, c);
    JoinFirstBoard(b, c, n, P', p, a);
    b' := JoinBoard(b, c, a, P', p);
  }

  /**
   * The first neighbour `n` of the fresh cell `c` owned by its owner `p`
   * on the board `b`, with parents `P`, sizes `S` and `k` areas of `p`:
   * `c` points at the root of `n`, whose area grows by one, and `p` has
   * one area fewer.
   */
  method JoinFirst(c: Field, n: Field, p: nat, P: map<Field, Field>, S: map<Field, nat>, k: nat, ghost b: Board)
    returns (P': map<Field, Field>, S': map<Field, nat>, k': nat, ghost b': Board)
    requires Taken(b, c) && c in b.owner && b.owner[c] == p
    requires n in b.owner && b.owner[n] == p && Adjacent(c, n)
    requires P == b.forest.parent && S == b.forest.size && 1 <= p <= |b.ps| && k == b.ps[p - 1].numAreas
    ensures Joined(b, b', c, n, p) && P' == b'.forest.parent && S' == b'.forest.size && k' == b'.ps[p - 1].numAreas
  {
    var parent, P0;
    parent, P0, b' := FindFirstRoot(c, n, p, P, b);
    k' := k - 1;
    P' := P0[c := parent];
    S' := S[parent := S[parent] + 1];
  }

  /**
   * The state of the loop of `move_util` before direction `i` from the
   * cell (x, y) just taken by `p` on `b`: `ns` are the neighbours of `p`
   * found so far; once there is one, the cell has joined its area, giving
   * parents `P`, sizes `S`, `k` areas of `p` and the board `b'`.
   */
  ghost predicate Gathered(b: Board, x: nat, y: nat, p: nat, i: nat, ns: seq<Field>,
                           P: map<Field, Field>, S: map<Field, nat>, k: nat, b': Board) {
    (b, P, S, k, b') in GatheredStates(x, y, p, i, ns)
  }

  ghost function GatheredStates(x: nat, y: nat, p: nat, i: nat, ns: seq<Field>)
    : iset<(Board, map<Field, Field>, map<Field, nat>, nat, Board)>
  {
    iset t: (Board, map<Field, Field>, map<Field, nat>, nat, Board) |
      && i <= Directions && ns == SameNbrs(t.0.owner, Field(x, y), p, i)
      && (ns != [] ==> Joined(t.0, t.4, Field(x, y), ns[0], p))
      && (ns != [] ==> t.1 == t.4.forest.parent && t.2 == t.4.forest.size && 1 <= p <= |t.4.ps| && t.3 == t.4.ps[p - 1].numAreas)
  }

  /**
   * What the loop of `move_util` needs throughout: the cell (x, y) was
   * just taken by `p` on `b`, whose parents, sizes and count of areas of
   * `p` are `P`, `S` and `k`.
   */
  ghost predicate Ready(b: Board, x: nat, y: nat, p: nat, P: map<Field, Field>, S: map<Field, nat>, k: nat) {
    b in ReadyBoards(x, y, p, P, S, k)
  }

  ghost function ReadyBoards(x: nat, y: nat, p: nat, P: map<Field, Field>, S: map<Field, nat>, k: nat): iset<Board> {
    iset b: Board |
      && Taken(b, Field(x, y)) && x < b.width && y < b.height && b.owner.Keys == Cells(b.width, b.height)
      && b.owner[Field(x, y)] == p && P == b.forest.parent && S == b.forest.size
      && 1 <= p <= |b.ps| && k == b.ps[p - 1].numAreas
  }

  /**
   * The loop of `move_util` after `take_field` on (x, y): the neighbours
   * `ns` of the cell owned by `p`, in direction order; at the first of
   * them the cell joins its area, giving parents `P'`, sizes `S'`, `k'`
   * areas of `p` and the board `b'`.
   */
  method JoinNeighbours(arr: array2<nat>, x: nat, y: nat, p: nat, P: map<Field, Field>, S: map<Field, nat>, k: nat,
                        ghost b: Board)
    returns (ns: seq<Field>, P': map<Field, Field>, S': map<Field, nat>, k': nat, ghost b': Board)
    requires Ready(b, x, y, p, P, S, k) && Mirrors(arr, b)
    ensures Gathered(b, x, y, p, Directions, ns, P', S', k', b')
  {
    ns := [];
    P', S', k', b' := P, S, k, b;
    GatherStart(b, x, y, p, P, S, k);
    for i := 0 to Directions
      invariant Gathered(b, x, y, p, i, ns, P', S', k', b')
    {
      ns, P', S', k', b' := JoinAt(arr, x, y, p, i, ns, P, S, k, b, P', S', k', b');
    }
  }

  /** The state of the loop of `move_util` before the first direction: nothing found yet. */
  lemma GatherStart(b: Board, x: nat, y: nat, p: nat, P: map<Field, Field>, S: map<Field, nat>, k: nat)
    ensures Gathered(b, x, y, p, 0, [], P, S, k, b)
  {
    assert (b, P, S, k, b) in GatheredStates(x, y, p, 0, []);
  }

  /** The cell (x, y) just taken by `p` on `b` is where the loop of `move_util` starts. */
  lemma ReadyAfterTake(b: Board, x: nat, y: nat, p: nat, P: map<Field, Field>, S: map<Field, nat>, k: nat)
    requires Taken(b, Field(x, y)) && x < b.width && y < b.height
    requires b.owner[Field(x, y)] == p && P == b.forest.parent && S == b.forest.size
    requires 1 <= p <= |b.ps| && k == b.ps[p - 1].numAreas
    ensures Ready(b, x, y, p, P, S, k)
  {
    TakenParts(b, Field(x, y));
    assert b in ReadyBoards(x, y, p, P, S, k);
  }

  /** What the loop of `move_util` has gathered once all directions are seen. */
  lemma GatherEnd(b: Board, x: nat, y: nat, p: nat, ns: seq<Field>,
                  P: map<Field, Field>, S: map<Field, nat>, k: nat, b': Board)
    requires Gathered(b, x, y, p, Directions, ns, P, S, k, b')
    ensures ns == SameNbrs(b.owner, Field(x, y), p, Directions)
    ensures ns != [] ==> Joined(b, b', Field(x, y), ns[0], p)
    ensures ns != [] ==> P == b'.forest.parent && S == b'.forest.size && 1 <= p <= |b'.ps| && k == b'.ps[p - 1].numAreas
  {
    assert (b, P, S, k, b') in GatheredStates(x, y, p, Directions, ns);
  }

  /**
   * One round of the loop of `move_util`: direction `i` from (x, y)
   * extends the neighbours `ns` of the cell owned by `p`; the first one
   * found joins the cell to its area.
   */
  method JoinAt(arr: array2<nat>, x: nat, y: nat, p: nat, i: nat, ns: seq<Field>,
                P: map<Field, Field>, S: map<Field, nat>, k: nat, ghost b: Board,
                P1: map<Field, Field>, S1: map<Field, nat>, k1: nat, ghost b1: Board)
    returns (ns': seq<Field>, P': map<Field, Field>, S': map<Field, nat>, k': nat, ghost b': Board)
    requires Ready(b, x, y, p, P, S, k) && Mirrors(arr, b) && i < Directions
    requires Gathered(b, x, y, p, i, ns, P1, S1, k1, b1)
    ensures Gathered(b, x, y, p, i + 1, ns', P', S', k', b')
  {
    assert b.owner.Keys == Cells(arr.Length0, arr.Length1) && OwnersHold(arr, b.owner) by {
      assert b in ReadyBoards(x, y, p, P, S, k);
    }
    assert (b, P1, S1, k1, b1) in GatheredStates(x, y, p, i, ns);
    var found, f := NeighbourAt(arr, x, y, p, i, b.owner, ns);
    if found {
      ns' := ns + [f];
      P', S', k', b' := JoinFound(x, y, p, i, ns, f, P, S, k, b, P1, S1, k1, b1);
    } else {
      ns', P', S', k', b' := ns, P1, S1, k1, b1;
      GatherSkip(b, x, y, p, i, ns, P1, S1, k1, b1);
    }
  }

  /**
   * The neighbour of (x, y) in direction `i`, when it is on the board and
   * owned by `p`: the neighbours `ns` of `p` seen before `i` grow by it.
   */
  method NeighbourAt(arr: array2<nat>, x: nat, y: nat, p: nat, i: nat, ghost O: map<Field, nat>, ghost ns: seq<Field>)
    returns (found: bool, f: Field)
    requires O.Keys == Cells(arr.Length0, arr.Length1) && OwnersHold(arr, O) && i < Directions
    requires ns == SameNbrs(O, Field(x, y), p, i)
    ensures found ==> f in O && O[f] == p && Adjacent(Field(x, y), f) && ns + [f] == SameNbrs(O, Field(x, y), p, i + 1)
    ensures !found ==> ns == SameNbrs(O, Field(x, y), p, i + 1)
  {
    var xi := x + XDir[i];
    var yi := y + YDir[i];
    NbrExtend(arr, O, x, y, p, i, ns);
    found := !WrongField(arr.Length0, arr.Length1, xi, yi) && arr[xi, yi] == p;
    f := Field(x, y);
    if found {
      f := Field(xi, yi);
      assert arr[xi, yi] == O[f];
    }
  }

  /** A direction without a neighbour of `p` leaves the state of the loop of `move_util` as it is. */
  lemma GatherSkip(b: Board, x: nat, y: nat, p: nat, i: nat, ns: seq<Field>,
                   P: map<Field, Field>, S: map<Field, nat>, k: nat, b': Board)
    requires Gathered(b, x, y, p, i, ns, P, S, k, b') && i < Directions
    requires ns == SameNbrs(b.owner, Field(x, y), p, i + 1)
    ensures Gathered(b, x, y, p, i + 1, ns, P, S, k, b')
  {
    assert (b, P, S, k, b') in GatheredStates(x, y, p, i, ns);
    assert (b, P, S, k, b') in GatheredStates(x, y, p, i + 1, ns);
  }

  /**
   * A direction with the neighbour `f` of `p`: it is added to the
   * neighbours found, and the cell joins the area of `f` when `f` is the first.
   */
  method JoinFound(x: nat, y: nat, p: nat, i: nat, ns: seq<Field>, f: Field,
                   P: map<Field, Field>, S: map<Field, nat>, k: nat, ghost b: Board,
                   P1: map<Field, Field>, S1: map<Field, nat>, k1: nat, ghost b1: Board)
    returns (P': map<Field, Field>, S': map<Field, nat>, k': nat, ghost b': Board)
    requires Ready(b, x, y, p, P, S, k) && i < Directions
    requires Gathered(b, x, y, p, i, ns, P1, S1, k1, b1)
    requires f in b.owner && b.owner[f] == p && Adjacent(Field(x, y), f)
    requires ns + [f] == SameNbrs(b.owner, Field(x, y), p, i + 1)
    ensures Gathered(b, x, y, p, i + 1, ns + [f], P', S', k', b')
  {
    if ns == [] {
      assert b in ReadyBoards(x, y, p, P, S, k);
      P', S', k', b' := JoinFirst(Field(x, y), f, p, P, S, k, b);
      GatherFirst(b, x, y, p, i, f, P', S', k', b');
    } else {
      P', S', k', b' := P1, S1, k1, b1;
      GatherMore(b, x, y, p, i, ns, f, P', S', k', b');
    }
  }

  /** The first neighbour `f` found: the cell has joined its area. */
  lemma GatherFirst(b: Board, x: nat, y: nat, p: nat, i: nat, f: Field,
                    P: map<Field, Field>, S: map<Field, nat>, k: nat, b': Board)
    requires i < Directions && [f] == SameNbrs(b.owner, Field(x, y), p, i + 1)
    requires Joined(b, b', Field(x, y), f, p) && P == b'.forest.parent && S == b'.forest.size
    requires 1 <= p <= |b'.ps| && k == b'.ps[p - 1].numAreas
    ensures Gathered(b, x, y, p, i + 1, [f], P, S, k, b')
  {
  }

  /** A further neighbour `f` found: the state of the loop of `move_util` stays as it is. */
  lemma GatherMore(b: Board, x: nat, y: nat, p: nat, i: nat, ns: seq<Field>, f: Field,
                   P: map<Field, Field>, S: map<Field, nat>, k: nat, b': Board)
    requires Gathered(b, x, y, p, i, ns, P, S, k, b') && i < Directions && ns != []
    requires ns + [f] == SameNbrs(b.owner, Field(x, y), p, i + 1)
    ensures Gathered(b, x, y, p, i + 1, ns + [f], P, S, k, b')
  {
    assert (b, P, S, k, b') in GatheredStates(x, y, p, i, ns);
    assert (ns + [f])[0] == ns[0];
    assert (b, P, S, k, b') in GatheredStates(x, y, p, i + 1, ns + [f]);
  }

  /**
   * `remove_same_areas` as `move_util` calls it, once the taken cell `c`
   * of `p` has joined the area of its first neighbour, giving the board
   * `b'` from `b`: the areas of all the neighbours `ns` become one, and
   * the board is sound again with parents `P'`, sizes `S'` and `n` areas
   * of `p`.
   */
  method CloseMove(ns: seq<Field>, p: nat, k: nat, P: map<Field, Field>, S: map<Field, nat>,
                   ghost b: Board, ghost b': Board, ghost c: Field)
    returns (n: nat, P': map<Field, Field>, S': map<Field, nat>, ghost u': Forest)
    requires c in b.owner && b.owner[c] == p && ns != []
    requires ns == SameNbrs(b.owner, c, p, Directions) && Joined(b, b', c, ns[0], p)
    requires b'.forest.parent == P && b'.forest.size == S && k == b'.ps[p - 1].numAreas
    ensures 1 <= p <= |b.ps| && Sound(CloseBoard(b, u', p, n))
    ensures u'.parent == P' && u'.size == S' && n + |Labels(b'.forest.root, ns)| == k + 1
  {
    JoinedParts(b, b', c, ns[0], p);
    JoiningParts(b', c, p);
    ghost var a;
    n, P', S', u', a := RemoveSameAreas(ns, p, k, P, S, b'.owner, b'.forest, c);
    NeighbourLabelsCover(b'.owner, b'.forest.root, c, ns);
    CloseStep(b', c, p, u', n, Labels(b'.forest.root, ns), a);
    CloseJoined(b, b', c, ns[0], p, u', n);
  }

  /**
   * `move_util`: player `p` takes the empty cell (x, y) of the sound board
   * `b`, whose empty count, records, parents and sizes are `e`, `ps`, `P`
   * and `S`. The board stays sound; `p` has one cell more and one area
   * more, less one for each distinct area of `p` the cell touches.
   */
  method MoveUtil(arr: array2<nat>, x: nat, y: nat, p: nat, e: nat, ps: seq<Player>,
                  P: map<Field, Field>, S: map<Field, nat>, ghost b: Board)
    returns (e': nat, ps': seq<Player>, P': map<Field, Field>, S': map<Field, nat>, ghost b': Board)
    requires Sound(b) && Mirrors(arr, b) && x < b.width && y < b.height
    requires b.owner[Field(x, y)] == NoPlayer && 1 <= p <= |b.ps|
    requires e == b.empty && ps == b.ps && P == b.forest.parent && S == b.forest.size
    modifies arr
    ensures MovedBoard(b, b', Field(x, y), p) && Mirrors(arr, b')
    ensures e' == b'.empty && ps' == b'.ps && P' == b'.forest.parent && S' == b'.forest.size
  {
    var c := Field(x, y);
    var e1, ps1;
    ghost var b1;
    e1, ps1, b1 := TakeField(arr, x, y, p, e, ps, b);
    var ns, P1, S1, k;
    ghost var b2;
    ReadyAfterTake(b1, x, y, p, P, S, ps1[p - 1].numAreas);
    ns, P1, S1, k, b2 := JoinNeighbours(arr, x, y, p, P, S, ps1[p - 1].numAreas, b1);
    GatherEnd(b1, x, y, p, ns, P1, S1, k, b2);
    if ns == [] {
      IsolateMove(b, c, p);
      P', S' := P[c := c], S[c := 1];
      e', ps', b' := e1, ps1, IsolateBoard(b1, c);
    } else {
      e' := e1;
      ps', P', S', b' := MergeMove(ns, p, k, P1, S1, ps1, b, b1, b2, c);
    }
  }

  /**
   * The end of `move_util` once the cell `c` taken by `p` has joined the
   * area of its first neighbour: the areas of all its neighbours become
   * one, and the board is the one of the move.
   */
  method MergeMove(ns: seq<Field>, p: nat, k: nat, P1: map<Field, Field>, S1: map<Field, nat>, ps1: seq<Player>,
                   ghost b: Board, ghost b1: Board, ghost b2: Board, ghost c: Field)
    returns (ps': seq<Player>, P': map<Field, Field>, S': map<Field, nat>, ghost b': Board)
    requires Sound(b) && c in b.owner && b.owner[c] == NoPlayer && 1 <= p <= |b.ps|
    requires b.empty >= 1 && b1 == TakeBoard(b, c, p) && ps1 == b1.ps
    requires ns == SameNbrs(b1.owner, c, p, Directions) && ns != [] && Joined(b1, b2, c, ns[0], p)
    requires P1 == b2.forest.parent && S1 == b2.forest.size && k == b2.ps[p - 1].numAreas
    ensures MovedBoard(b, b', c, p) && b'.width == b1.width && b'.height == b1.height && b'.owner == b1.owner
    ensures ps' == b'.ps && P' == b'.forest.parent && S' == b'.forest.size && b'.empty == b1.empty
  {
    var n;
    ghost var u;
    n, P', S', u := CloseMove(ns, p, k, P1, S1, b1, b2, c);
    MergeClose(b, b1, b2, c, p, ns, u, n);
    ps', b' := ps1[p - 1 := ps1[p - 1].(numAreas := n)], CloseBoard(b1, u, p, n);
  }

  /**
   * The decision of `gamma_move` and the move itself on the parts of the
   * state of a sound board, which need not fit the limit on areas (the
   * roll-back of a golden move moves on such a board): player `p` takes
   * (x, y) exactly when the move is legal on `b` with at most `max`
   * areas a player; otherwise nothing changes.
   */
  method TryMove(arr: array2<nat>, max: nat, p: nat, x: nat, y: nat, e: nat, ps: seq<Player>,
                 P: map<Field, Field>, S: map<Field, nat>, ghost b: Board)
    returns (ok: bool, e': nat, ps': seq<Player>, P': map<Field, Field>, S': map<Field, nat>, ghost b': Board)
    requires Sound(b) && Mirrors(arr, b)
    requires e == b.empty && ps == b.ps && P == b.forest.parent && S == b.forest.size
    modifies arr
    ensures ok <==> Legal(b, max, p, x, y)
    ensures ok ==> MovedBoard(b, b', Field(x, y), p)
    ensures !ok ==> b' == b
    ensures Mirrors(arr, b')
    ensures e' == b'.empty && ps' == b'.ps && P' == b'.forest.parent && S' == b'.forest.size
  {
    ok, e', ps', P', S', b' := false, e, ps, P, S, b;
    if p < 1 || |ps| < p || WrongField(arr.Length0, arr.Length1, x, y) {
      return;
    }
    if arr[x, y] != NoPlayer {
      return;
    }
    if ps[p - 1].numAreas >= max {
      OwnerCells(b);
      var l := CountNeighbours(arr, x, y, p, b.owner);
      if l == 0 {
        return;
      }
    }
    ok := true;
    e', ps', P', S', b' := MoveUtil(arr, x, y, p, e, ps, P, S, b);
  }

  /** `TryMove` beside an idle flood-fill scratch state, which it leaves alone. */
  method TryMoveKeepingScratch(arr: array2<nat>, vis: array2<bool>, st: Stack, max: nat, p: nat, x: nat, y: nat,
                               e: nat, ps: seq<Player>, P: map<Field, Field>, S: map<Field, nat>, ghost b: Board)
    returns (ok: bool, e': nat, ps': seq<Player>, P': map<Field, Field>, S': map<Field, nat>, ghost b': Board)
    requires Sound(b) && Mirrors(arr, b)
    requires e == b.empty && ps == b.ps && P == b.forest.parent && S == b.forest.size
    requires Marks(vis, {}) && Scratchpad(arr, vis, st) && st.Contents == []
    modifies arr
    ensures ok <==> Legal(b, max, p, x, y)
    ensures ok ==> MovedBoard(b, b', Field(x, y), p)
    ensures !ok ==> b' == b
    ensures Mirrors(arr, b')
    ensures e' == b'.empty && ps' == b'.ps && P' == b'.forest.parent && S' == b'.forest.size
    ensures Marks(vis, {}) && Scratchpad(arr, vis, st) && st.Contents == [] && st.Repr == old(st.Repr)
  {
    ok, e', ps', P', S', b' := TryMove(arr, max, p, x, y, e, ps, P, S, b);
  }

  /**
   * `gamma_move` on the parts of the state of a game: the move of
   * `TryMove`, which keeps the board fitting the game.
   */
  method Move(arr: array2<nat>, max: nat, p: nat, x: nat, y: nat, e: nat, ps: seq<Player>,
              P: map<Field, Field>, S: map<Field, nat>, ghost b: Board)
    returns (ok: bool, e': nat, ps': seq<Player>, P': map<Field, Field>, S': map<Field, nat>, ghost b': Board)
    requires Fits(b, arr.Length0, arr.Length1, |ps|, max) && OwnersHold(arr, b.owner)
    requires e == b.empty && ps == b.ps && P == b.forest.parent && S == b.forest.size
    modifies arr
    ensures ok <==> Legal(b, max, p, x, y)
    ensures ok ==> MovedBoard(b, b', Field(x, y), p)
    ensures !ok ==> b' == b
    ensures Fits(b', arr.Length0, arr.Length1, |ps|, max) && OwnersHold(arr, b'.owner)
    ensures e' == b'.empty && ps' == b'.ps && P' == b'.forest.parent && S' == b'.forest.size
  {
    FitsParts(b, arr.Length0, arr.Length1, |ps|, max);
    ok, e', ps', P', S', b' := TryMove(arr, max, p, x, y, e, ps, P, S, b);
    if ok {
      MoveFits(b, b', max, p, x, y, arr.Length0, arr.Length1, |ps|);
    }
  }

  // ---------------------------------------------------------------------
  // Removals

  /**
   * `delete_field`: the cell c = (x, y) of its owner `q` is emptied. The
   * size of its area is cleared at the root `find_parent` finds (which
   * also compresses the path from c), there is one empty cell more, and
   * `q` has one cell and, for now, one area fewer.
   */
  method DeleteField(arr: array2<nat>, q: nat, x: nat, y: nat, e: nat, ps: seq<Player>,
                     P: map<Field, Field>, S: map<Field, nat>, ghost b: Board)
    returns (e': nat, ps': seq<Player>, P': map<Field, Field>, S': map<Field, nat>)
    requires Sound(b) && Mirrors(arr, b) && x < b.width && y < b.height
    requires b.owner[Field(x, y)] == q && q != NoPlayer
    requires e == b.empty && ps == b.ps && P == b.forest.parent && S == b.forest.size
    modifies arr
    ensures 1 <= q <= |b.ps| && b.ps[q - 1].busyFields >= 1 && b.ps[q - 1].numAreas >= 1
    ensures OwnersHold(arr, b.owner[Field(x, y) := NoPlayer])
    ensures P'.Keys == b.owner.Keys && IsForest(b.owner, P', b.forest.root, b.forest.rank, b.forest.bound)
    ensures S' == b.forest.size[b.forest.root[Field(x, y)] := 0] && S'.Keys == b.owner.Keys
    ensures e' == b.empty + 1 && |ps'| == |b.ps| && forall i :: 0 <= i < |b.ps| && i != q - 1 ==> ps'[i] == b.ps[i]
    ensures ps'[q - 1] == b.ps[q - 1].(busyFields := b.ps[q - 1].busyFields - 1,
                                       numAreas := b.ps[q - 1].numAreas - 1)
  {
    var c := Field(x, y);
    SoundForest(b);
    OwnerCounts(b, c, q);
    var parent;
    parent, P' := FindParent(P, c, b.owner, b.forest, false, Field(0, 0));
    assert ForestAt(b.owner, b.forest.parent, b.forest.root, b.forest.rank, c);
    S' := S[parent := 0];
    SetOwner(arr, c, NoPlayer, b.owner);
    e' := e + 1;
    ps' := ps[q - 1 := ps[q - 1].(busyFields := ps[q - 1].busyFields - 1, numAreas := ps[q - 1].numAreas - 1)];
  }

  /**
   * The state of the loop of `delete_util` before direction `i` from the
   * cell `c` just emptied, which `q` owned, with owners `O` after it:
   * `ns` are the neighbours of `q` seen so far, the fills from them have
   * marked `V`, handed the heads `H` to it in `P` and recorded their
   * sizes in `S`, from the parents `P0` and sizes `S0` `delete_field`
   * left; `q` has one area more per head than the `k0` it had then.
   */
  ghost predicate Refilled(O: map<Field, nat>, c: Field, q: nat, i: nat, ns: seq<Field>, V: set<Field>,
                           H: set<Field>, P0: map<Field, Field>, P: map<Field, Field>,
                           S0: map<Field, nat>, S: map<Field, nat>, k0: nat, k: nat)
  {
    (ns, V, H, P, S, k) in RefilledStates(O, c, q, i, P0, S0, k0)
  }

  ghost function RefilledStates(O: map<Field, nat>, c: Field, q: nat, i: nat,
                                P0: map<Field, Field>, S0: map<Field, nat>, k0: nat)
    : iset<(seq<Field>, set<Field>, set<Field>, map<Field, Field>, map<Field, nat>, nat)>
  {
    iset t: (seq<Field>, set<Field>, set<Field>, map<Field, Field>, map<Field, nat>, nat) |
      && i <= Directions && t.0 == SameNbrs(O, c, q, i)
      && Rebuilding(OwnedBy(O, q), t.0, t.1, t.2, P0, t.3, S0, t.4) && t.5 == k0 + |t.2|
  }

  lemma RefilledParts(O: map<Field, nat>, c: Field, q: nat, i: nat, ns: seq<Field>, V: set<Field>,
                      H: set<Field>, P0: map<Field, Field>, P: map<Field, Field>,
                      S0: map<Field, nat>, S: map<Field, nat>, k0: nat, k: nat)
    requires Refilled(O, c, q, i, ns, V, H, P0, P, S0, S, k0, k)
    ensures i <= Directions && ns == SameNbrs(O, c, q, i) && Rebuilding(OwnedBy(O, q), ns, V, H, P0, P, S0, S)
    ensures k == k0 + |H|
  {
  }

  lemma RefilledIntro(O: map<Field, nat>, c: Field, q: nat, i: nat, ns: seq<Field>, V: set<Field>,
                      H: set<Field>, P0: map<Field, Field>, P: map<Field, Field>,
                      S0: map<Field, nat>, S: map<Field, nat>, k0: nat, k: nat)
    requires i <= Directions && ns == SameNbrs(O, c, q, i) && Rebuilding(OwnedBy(O, q), ns, V, H, P0, P, S0, S)
    requires k == k0 + |H|
    ensures Refilled(O, c, q, i, ns, V, H, P0, P, S0, S, k0, k)
  {
  }

  /** A neighbour of `q` already marked changes nothing but the neighbours seen. */
  lemma RefillSeen(O: map<Field, nat>, c: Field, q: nat, i: nat, ns: seq<Field>, V: set<Field>,
                   H: set<Field>, P0: map<Field, Field>, P: map<Field, Field>,
                   S0: map<Field, nat>, S: map<Field, nat>, k0: nat, k: nat, f: Field)
    requires Refilled(O, c, q, i, ns, V, H, P0, P, S0, S, k0, k) && f in V
    requires i < Directions && ns + [f] == SameNbrs(O, c, q, i + 1)
    ensures Refilled(O, c, q, i + 1, ns + [f], V, H, P0, P, S0, S, k0, k)
  {
    RefilledParts(O, c, q, i, ns, V, H, P0, P, S0, S, k0, k);
    RebuildSeen(OwnedBy(O, q), ns, V, H, P0, P, S0, S, f);
  }

  /** A neighbour of `q` not yet marked adds the area the fill from it rebuilt. */
  lemma RefillFound(O: map<Field, nat>, c: Field, q: nat, i: nat, ns: seq<Field>, H: set<Field>,
                    k0: nat, k: nat, f: Field, V': set<Field>, H': set<Field>, P0: map<Field, Field>,
                    P': map<Field, Field>, S0: map<Field, nat>, S': map<Field, nat>, k': nat)
    requires k == k0 + |H| && i < Directions && ns + [f] == SameNbrs(O, c, q, i + 1)
    requires Rebuilding(OwnedBy(O, q), ns + [f], V', H', P0, P', S0, S') && k' == k + 1 && |H'| == |H| + 1
    ensures Refilled(O, c, q, i + 1, ns + [f], V', H', P0, P', S0, S', k0, k')
  {
  }

  /**
   * One round of the loop of `delete_util`: the neighbour in direction
   * `i` of the emptied cell (x, y), when it is `q`'s and not yet marked,
   * heads its area, whose cells a fill marks and hands it, and `q` has
   * one area more.
   */
  method RebuildAt(arr: array2<nat>, vis: array2<bool>, st: Stack, x: nat, y: nat, q: nat, i: nat,
                   P: map<Field, Field>, S: map<Field, nat>, k: nat, ghost O: map<Field, nat>,
                   ghost ns: seq<Field>, ghost V: set<Field>, ghost H: set<Field>,
                   ghost P0: map<Field, Field>, ghost S0: map<Field, nat>, ghost k0: nat)
    returns (P': map<Field, Field>, S': map<Field, nat>, k': nat,
             ghost ns': seq<Field>, ghost V': set<Field>, ghost H': set<Field>)
    requires O.Keys == Cells(arr.Length0, arr.Length1)
    requires OwnersHold(arr, O) && i < Directions && x < arr.Length0 && y < arr.Length1
    requires vis.Length0 == arr.Length0 && vis.Length1 == arr.Length1 && Marks(vis, V)
    requires Scratchpad(arr, vis, st) && st.Contents == []
    requires Refilled(O, Field(x, y), q, i, ns, V, H, P0, P, S0, S, k0, k) && P0.Keys == O.Keys
    modifies vis, st.Repr
    ensures Marks(vis, V') && Scratchpad(arr, vis, st) && fresh(st.Repr - old(st.Repr)) && st.Contents == []
    ensures Refilled(O, Field(x, y), q, i + 1, ns', V', H', P0, P', S0, S', k0, k')
  {
    ghost var S1 := OwnedBy(O, q);
    RefilledParts(O, Field(x, y), q, i, ns, V, H, P0, P, S0, S, k0, k);
    var xi := x + XDir[i];
    var yi := y + YDir[i];
    NbrExtend(arr, O, x, y, q, i, ns);
    P', S', k', ns', V', H' := P, S, k, ns, V, H;
    if DfsCondition(arr, vis, xi, yi, q) {
      assert vis[xi, yi] <==> Field(xi, yi) in V;
      P', S', k', V', H' := FillArea(arr, vis, st, xi, yi, q, P, S, k, O, ns, V, H, P0, S0);
      ns' := ns + [Field(xi, yi)];
      RefillFound(O, Field(x, y), q, i, ns, H, k0, k, Field(xi, yi), V', H', P0, P', S0, S', k');
    } else if !WrongField(arr.Length0, arr.Length1, xi, yi) && arr[xi, yi] == q {
      var f := Field(xi, yi);
      assert f in V by {
        assert vis[xi, yi] <==> f in V;
      }
      ns' := ns + [f];
      RefillSeen(O, Field(x, y), q, i, ns, V, H, P0, P, S0, S, k0, k, f);
    } else {
      RefilledIntro(O, Field(x, y), q, i + 1, ns, V, H, P0, P, S0, S, k0, k);
    }
  }

  /**
   * The body of the loop of `delete_util` for the neighbour f = (x, y) of
   * `q`, not yet marked: `set_parent_dfs` from f marks its area and hands
   * it f, the size of the area is recorded at f, and `q` has one area more.
   */
  method FillArea(arr: array2<nat>, vis: array2<bool>, st: Stack, x: nat, y: nat, q: nat,
                  P: map<Field, Field>, S: map<Field, nat>, k: nat, ghost O: map<Field, nat>,
                  ghost ns: seq<Field>, ghost V: set<Field>, ghost H: set<Field>,
                  ghost P0: map<Field, Field>, ghost S0: map<Field, nat>)
    returns (P': map<Field, Field>, S': map<Field, nat>, k': nat, ghost V': set<Field>, ghost H': set<Field>)
    requires O.Keys == Cells(arr.Length0, arr.Length1) && OwnersHold(arr, O)
    requires vis.Length0 == arr.Length0 && vis.Length1 == arr.Length1 && Marks(vis, V)
    requires Scratchpad(arr, vis, st) && st.Contents == []
    requires x < arr.Length0 && y < arr.Length1 && arr[x, y] == q && Field(x, y) !in V
    requires Rebuilding(OwnedBy(O, q), ns, V, H, P0, P, S0, S) && P0.Keys == O.Keys
    modifies vis, st.Repr
    ensures Marks(vis, V') && Scratchpad(arr, vis, st) && fresh(st.Repr - old(st.Repr)) && st.Contents == []
    ensures k' == k + 1 && |H'| == |H| + 1
    ensures Rebuilding(OwnedBy(O, q), ns + [Field(x, y)], V', H', P0, P', S0, S')
  {
    ghost var S1 := OwnedBy(O, q);
    var f := Field(x, y);
    assert f in S1 by {
      assert arr[x, y] == O[f];
    }
    FillReady(S1, ns, V, H, P0, P, S0, S, f);
    var count;
    count, P' := SetParentDfs(arr, vis, st, f, x, y, q, P, O, V);
    k' := k + 1;
    S' := S[f := count];
    RebuildFill(S1, ns, V, H, P0, P, S0, S, f, P', count);
    V', H' := V + Comp(S1, f), H + {f};
  }

  /**
   * The loop of `delete_util` once the cell (x, y) of `q` is emptied,
   * leaving the owners `O`, from the parents `P0`, sizes `S0` and `k0` areas of `q` that
   * `delete_field` left: a fill from each neighbour of `q` not yet marked.
   */
  method RefillLoop(arr: array2<nat>, vis: array2<bool>, st: Stack, x: nat, y: nat, q: nat,
                    P0: map<Field, Field>, S0: map<Field, nat>, k0: nat, ghost O: map<Field, nat>)
    returns (P': map<Field, Field>, S': map<Field, nat>, k: nat,
             ghost ns: seq<Field>, ghost V: set<Field>, ghost H: set<Field>)
    requires O.Keys == Cells(arr.Length0, arr.Length1) && x < arr.Length0 && y < arr.Length1
    requires OwnersHold(arr, O) && P0.Keys == O.Keys && S0.Keys == O.Keys
    requires vis.Length0 == arr.Length0 && vis.Length1 == arr.Length1 && Marks(vis, {})
    requires Scratchpad(arr, vis, st) && st.Contents == []
    modifies vis, st.Repr
    ensures Marks(vis, V) && Scratchpad(arr, vis, st) && fresh(st.Repr - old(st.Repr)) && st.Contents == []
    ensures Refilled(O, Field(x, y), q, Directions, ns, V, H, P0, P', S0, S', k0, k)
  {
    ns, V, H := [], {}, {};
    k := k0;
    P', S' := P0, S0;
    RebuildStart(OwnedBy(O, q), P0, S0);
    RefilledIntro(O, Field(x, y), q, 0, ns, V, H, P0, P', S0, S', k0, k);
    for i := 0 to Directions
      invariant Marks(vis, V) && Scratchpad(arr, vis, st) && st.Contents == []
      invariant st.arr == old(st.arr) || fresh(st.arr)
      invariant Refilled(O, Field(x, y), q, i, ns, V, H, P0, P', S0, S', k0, k)
    {
      P', S', k, ns, V, H := RebuildAt(arr, vis, st, x, y, q, i, P', S', k, O, ns, V, H, P0, S0, k0);
    }
  }

  /**
   * Once all directions are seen, the marked cells lie on the board, off
   * the emptied cell c = (x, y), and are joined to it through marked cells,
   * as `init_visited` from c needs; and `q` has gained one area per
   * distinct area of theirs around c.
   */
  lemma RefillEnd(b: Board, x: nat, y: nat, q: nat, ns: seq<Field>, V: set<Field>,
                  H: set<Field>, P0: map<Field, Field>, P: map<Field, Field>,
                  S0: map<Field, nat>, S: map<Field, nat>, k0: nat, k: nat)
    requires Sound(b) && Field(x, y) in b.owner && q != NoPlayer
    requires Refilled(b.owner[Field(x, y) := NoPlayer], Field(x, y), q, Directions, ns, V, H, P0, P, S0, S, k0, k)
    ensures V <= Cells(b.width, b.height) && Field(x, y) !in V
    ensures forall v :: v in V ==> ConnectedIn(V + {Field(x, y)}, Field(x, y), v)
  {
    var S1 := OwnedBy(b.owner[Field(x, y) := NoPlayer], q);
    RefilledParts(b.owner[Field(x, y) := NoPlayer], Field(x, y), q, Directions, ns, V, H, P0, P, S0, S, k0, k);
    SoundForest(b);
    RebuildingParts(S1, ns, V, H, P0, P, S0, S);
    ReachJoined(S1, ns, Field(x, y));
  }

  /** Once all directions are seen, `q` has gained one area per distinct area around the emptied cell c. */
  lemma RefillCount(O: map<Field, nat>, c: Field, q: nat, ns: seq<Field>, V: set<Field>,
                    H: set<Field>, P0: map<Field, Field>, P: map<Field, Field>,
                    S0: map<Field, nat>, S: map<Field, nat>, k0: nat, k: nat)
    requires Refilled(O, c, q, Directions, ns, V, H, P0, P, S0, S, k0, k)
    ensures ns == SameNbrs(O, c, q, Directions)
    ensures Rebuilding(OwnedBy(O, q), ns, V, H, P0, P, S0, S)
    ensures k == k0 + DistinctComps(OwnedBy(O, q), ns)
  {
    RefilledParts(O, c, q, Directions, ns, V, H, P0, P, S0, S, k0, k);
    RebuildingParts(OwnedBy(O, q), ns, V, H, P0, P, S0, S);
  }

  /**
   * `delete_util`: the cell c = (x, y) of its owner `q` on the sound board
   * `b` is emptied, and a fill from each neighbour of `q` not yet marked
   * rebuilds one area of what was the area of c; the marks are cleared
   * again at the end. The board left is the one a removal gives.
   */
  method DeleteUtil(arr: array2<nat>, vis: array2<bool>, st: Stack, x: nat, y: nat, q: nat, e: nat, ps: seq<Player>,
                    P: map<Field, Field>, S: map<Field, nat>, ghost b: Board)
    returns (e': nat, ps': seq<Player>, P': map<Field, Field>, S': map<Field, nat>, ghost b': Board)
    requires Sound(b) && Mirrors(arr, b) && x < b.width && y < b.height
    requires b.owner[Field(x, y)] == q && q != NoPlayer
    requires e == b.empty && ps == b.ps && P == b.forest.parent && S == b.forest.size
    requires vis.Length0 == arr.Length0 && vis.Length1 == arr.Length1 && Marks(vis, {})
    requires Scratchpad(arr, vis, st) && st.Contents == []
    modifies arr, vis, st.Repr
    ensures RemovedBoard(b, b', Field(x, y), q) && Mirrors(arr, b')
    ensures Marks(vis, {}) && Scratchpad(arr, vis, st) && st.Contents == [] && fresh(st.Repr - old(st.Repr))
    ensures e' == b'.empty && ps' == b'.ps && P' == b'.forest.parent && S' == b'.forest.size
  {
    var c := Field(x, y);
    var ps1, P0, S0;
    e', ps1, P0, S0 := DeleteField(arr, q, x, y, e, ps, P, S, b);
    OwnerCells(b);
    var k;
    ghost var ns, V, H;
    ghost var O := b.owner[c := NoPlayer];
    assert O.Keys == b.owner.Keys;
    P', S', k, ns, V, H := Refill(arr, vis, st, x, y, q, P0, S0, ps1[q - 1].numAreas, O, b);
    ps' := ps1[q - 1 := ps1[q - 1].(numAreas := k)];
    b' := Removal.Rebuilt(b, c, V, H, P', S', ps');
    assert e' == b'.empty && ps' == b'.ps && P' == b'.forest.parent && S' == b'.forest.size;
    DeleteDone(b, x, y, q, ns, V, H, P0, P', S0, S', ps1, k);
  }

  /** The loop of `delete_util`, then `init_visited` from the emptied cell (x, y). */
  method Refill(arr: array2<nat>, vis: array2<bool>, st: Stack, x: nat, y: nat, q: nat,
                P0: map<Field, Field>, S0: map<Field, nat>, k0: nat, ghost O: map<Field, nat>, ghost b: Board)
    returns (P': map<Field, Field>, S': map<Field, nat>, k: nat,
             ghost ns: seq<Field>, ghost V: set<Field>, ghost H: set<Field>)
    requires Sound(b) && Field(x, y) in b.owner && q != NoPlayer && O == b.owner[Field(x, y) := NoPlayer]
    requires O.Keys == Cells(arr.Length0, arr.Length1) && x < arr.Length0 && y < arr.Length1
    requires OwnersHold(arr, O) && P0.Keys == O.Keys && S0.Keys == O.Keys
    requires vis.Length0 == arr.Length0 && vis.Length1 == arr.Length1 && Marks(vis, {})
    requires Scratchpad(arr, vis, st) && st.Contents == []
    modifies vis, st.Repr
    ensures Marks(vis, {}) && Scratchpad(arr, vis, st) && fresh(st.Repr - old(st.Repr)) && st.Contents == []
    ensures Refilled(O, Field(x, y), q, Directions, ns, V, H, P0, P', S0, S', k0, k)
  {
    P', S', k, ns, V, H := RefillLoop(arr, vis, st, x, y, q, P0, S0, k0, O);
    RefillEnd(b, x, y, q, ns, V, H, P0, P', S0, S', k0, k);
    InitVisited(vis, st, x, y, V);
  }

  /**
   * Once the loop of `delete_util` has seen every direction, the cells it
   * marked are joined to the emptied cell (x, y), and the parents, sizes
   * and counters it leaves make the board of `RemovedBoard`.
   */
  lemma DeleteDone(b: Board, x: nat, y: nat, q: nat, ns: seq<Field>, V: set<Field>, H: set<Field>,
                   P0: map<Field, Field>, P: map<Field, Field>, S0: map<Field, nat>, S: map<Field, nat>,
                   ps1: seq<Player>, k: nat)
    requires Sound(b) && Field(x, y) in b.owner && b.owner[Field(x, y)] == q && 1 <= q <= |b.ps|
    requires P0.Keys == b.owner.Keys && IsForest(b.owner, P0, b.forest.root, b.forest.rank, b.forest.bound)
    requires S0 == b.forest.size[b.forest.root[Field(x, y)] := 0]
    requires |ps1| == |b.ps| && forall i :: 0 <= i < |b.ps| && i != q - 1 ==> ps1[i] == b.ps[i]
    requires b.ps[q - 1].busyFields >= 1 && b.ps[q - 1].numAreas >= 1
    requires ps1[q - 1] == b.ps[q - 1].(busyFields := b.ps[q - 1].busyFields - 1,
                                        numAreas := b.ps[q - 1].numAreas - 1)
    requires Refilled(b.owner[Field(x, y) := NoPlayer], Field(x, y), q, Directions, ns, V, H, P0, P, S0, S,
                      ps1[q - 1].numAreas, k)
    ensures RemovedBoard(b, Removal.Rebuilt(b, Field(x, y), V, H, P, S, ps1[q - 1 := ps1[q - 1].(numAreas := k)]),
                         Field(x, y), q)
  {
    RefillCount(b.owner[Field(x, y) := NoPlayer], Field(x, y), q, ns, V, H, P0, P, S0, S, ps1[q - 1].numAreas, k);
    var ps' := ps1[q - 1 := ps1[q - 1].(numAreas := k)];
    RebuildDone(b, Field(x, y), q, P0, ns, V, H, P, S, ps');
  }

  // ---------------------------------------------------------------------
  // Golden moves

  /**
   * `delete_and_move`: player `n` takes the cell (x, y) of another player
   * `q` exactly when `GoldenFits` says so, and the result is a swap that
   * keeps the golden flag of `n`. Otherwise the cell is first removed
   * and then given back to `q`, so the owners, the number of empty cells
   * and every record are as before (the forest need not be).
   */
  method DeleteAndMove(arr: array2<nat>, vis: array2<bool>, st: Stack, max: nat, x: nat, y: nat, n: nat,
                       e: nat, ps: seq<Player>, P: map<Field, Field>, S: map<Field, nat>, ghost b: Board)
    returns (ok: bool, e': nat, ps': seq<Player>, P': map<Field, Field>, S': map<Field, nat>, ghost b': Board)
    requires Fits(b, arr.Length0, arr.Length1, |ps|, max) && OwnersHold(arr, b.owner)
    requires e == b.empty && ps == b.ps && P == b.forest.parent && S == b.forest.size
    requires vis.Length0 == arr.Length0 && vis.Length1 == arr.Length1 && Marks(vis, {})
    requires Scratchpad(arr, vis, st) && st.Contents == []
    requires 1 <= n <= |ps| && x < arr.Length0 && y < arr.Length1
    requires b.owner[Field(x, y)] != NoPlayer && b.owner[Field(x, y)] != n && b.owner[Field(x, y)] <= |ps|
    modifies arr, vis, st.Repr
    ensures ok <==> GoldenFits(b, max, n, Field(x, y))
    ensures ok ==> Swapped(b, b', Field(x, y), n, b.ps[n - 1].hasPlayedGolden)
    ensures !ok ==> b'.owner == b.owner && b'.empty == b.empty && b'.ps == b.ps
    ensures Fits(b', arr.Length0, arr.Length1, |ps|, max) && OwnersHold(arr, b'.owner)
    ensures Marks(vis, {}) && Scratchpad(arr, vis, st) && st.Contents == [] && fresh(st.Repr - old(st.Repr))
    ensures e' == b'.empty && ps' == b'.ps && P' == b'.forest.parent && S' == b'.forest.size
  {
    var c := Field(x, y);
    FitsParts(b, arr.Length0, arr.Length1, |ps|, max);
    ok, e', ps', P', S', b' := false, e, ps, P, S, b;
    var room := HasRoom(arr, max, n, x, y, ps, b);
    if !room {
      return;
    }
    ok, e', ps', P', S', b' := RemoveThenMove(arr, vis, st, max, x, y, n, e, ps, P, S, b);
  }

  /**
   * `delete_and_move` once `n` passed its first test: `delete_util`
   * removes the cell (x, y) from its owner, then `n` takes it or the
   * owner takes it back.
   */
  method RemoveThenMove(arr: array2<nat>, vis: array2<bool>, st: Stack, max: nat, x: nat, y: nat, n: nat,
                        e: nat, ps: seq<Player>, P: map<Field, Field>, S: map<Field, nat>, ghost b: Board)
    returns (ok: bool, e': nat, ps': seq<Player>, P': map<Field, Field>, S': map<Field, nat>, ghost b': Board)
    requires Fits(b, arr.Length0, arr.Length1, |ps|, max) && Mirrors(arr, b)
    requires e == b.empty && ps == b.ps && P == b.forest.parent && S == b.forest.size
    requires vis.Length0 == arr.Length0 && vis.Length1 == arr.Length1 && Marks(vis, {})
    requires Scratchpad(arr, vis, st) && st.Contents == []
    requires 1 <= n <= |ps| && x < arr.Length0 && y < arr.Length1 && Field(x, y) in b.owner
    requires b.owner[Field(x, y)] != NoPlayer && b.owner[Field(x, y)] != n
    requires b.ps[n - 1].numAreas < max || HasNbr(b.owner, Field(x, y), n)
    modifies arr, vis, st.Repr
    ensures ok <==> GoldenFits(b, max, n, Field(x, y))
    ensures ok ==> Swapped(b, b', Field(x, y), n, b.ps[n - 1].hasPlayedGolden)
    ensures !ok ==> b'.owner == b.owner && b'.empty == b.empty && b'.ps == b.ps
    ensures Fits(b', arr.Length0, arr.Length1, |ps|, max) && OwnersHold(arr, b'.owner)
    ensures Marks(vis, {}) && Scratchpad(arr, vis, st) && st.Contents == [] && fresh(st.Repr - old(st.Repr))
    ensures e' == b'.empty && ps' == b'.ps && P' == b'.forest.parent && S' == b'.forest.size
  {
    FitsParts(b, arr.Length0, arr.Length1, |ps|, max);
    var q := arr[x, y];
    var e1, ps1, P1, S1;
    ghost var b1;
    e1, ps1, P1, S1, b1 := DeleteUtil(arr, vis, st, x, y, q, e, ps, P, S, b);
    ok, e', ps', P', S', b' := MoveOrGiveBack(arr, vis, st, max, n, q, x, y, e1, ps1, P1, S1, b, b1);
  }

  /**
   * The rest of `delete_and_move` once the cell (x, y) is removed from
   * `q`: when `q` is left above the limit it takes the cell back and the
   * golden move fails; otherwise `n` takes the cell.
   */
  method MoveOrGiveBack(arr: array2<nat>, vis: array2<bool>, st: Stack, max: nat, n: nat, q: nat, x: nat, y: nat,
                        e1: nat, ps1: seq<Player>, P1: map<Field, Field>, S1: map<Field, nat>, ghost b: Board, ghost b1: Board)
    returns (ok: bool, e': nat, ps': seq<Player>, P': map<Field, Field>, S': map<Field, nat>, ghost b': Board)
    requires Fits(b, arr.Length0, arr.Length1, |b.ps|, max) && RemovedBoard(b, b1, Field(x, y), q)
    requires Mirrors(arr, b1) && e1 == b1.empty && ps1 == b1.ps && P1 == b1.forest.parent && S1 == b1.forest.size
    requires 1 <= n <= |b.ps| && n != q && Field(x, y) in b.owner && b.owner[Field(x, y)] == q
    requires b.ps[n - 1].numAreas < max || HasNbr(b.owner, Field(x, y), n)
    requires Marks(vis, {}) && Scratchpad(arr, vis, st) && st.Contents == []
    modifies arr
    ensures Marks(vis, {}) && Scratchpad(arr, vis, st) && st.Contents == [] && st.Repr == old(st.Repr)
    ensures ok <==> GoldenFits(b, max, n, Field(x, y))
    ensures ok ==> Swapped(b, b', Field(x, y), n, b.ps[n - 1].hasPlayedGolden)
    ensures !ok ==> b'.owner == b.owner && b'.empty == b.empty && b'.ps == b.ps
    ensures Fits(b', arr.Length0, arr.Length1, |b.ps|, max) && OwnersHold(arr, b'.owner)
    ensures e' == b'.empty && ps' == b'.ps && P' == b'.forest.parent && S' == b'.forest.size
  {
    FitsDecided(b, b1, Field(x, y), q, n, max);
    if ps1[q - 1].numAreas > max {
      ok := false;
      e', ps', P', S', b' := GiveBack(arr, vis, st, max, q, x, y, e1, ps1, P1, S1, b, b1);
    } else {
      ok := true;
      e', ps', P', S', b' := TakeOver(arr, vis, st, max, n, q, x, y, e1, ps1, P1, S1, b, b1);
    }
  }

  /**
   * The first test of `delete_and_move` (and of `gamma_move`): player `n`
   * has fewer areas than allowed or owns a neighbour of (x, y).
   */
  method HasRoom(arr: array2<nat>, max: nat, n: nat, x: nat, y: nat, ps: seq<Player>, ghost b: Board)
    returns (room: bool)
    requires Sound(b) && Mirrors(arr, b) && ps == b.ps && 1 <= n <= |ps|
    ensures room <==> ps[n - 1].numAreas < max || HasNbr(b.owner, Field(x, y), n)
  {
    room := true;
    if ps[n - 1].numAreas >= max {
      OwnerCells(b);
      var l := CountNeighbours(arr, x, y, n, b.owner);
      room := l != 0;
    }
  }

  /**
   * The roll-back of `delete_and_move`: the cell (x, y) just removed from
   * `q` left `q` above the limit, so `q` takes it back, which restores the
   * owners, the number of empty cells and every record.
   */
  method GiveBack(arr: array2<nat>, vis: array2<bool>, st: Stack, max: nat, q: nat, x: nat, y: nat, e1: nat, ps1: seq<Player>,
                  P1: map<Field, Field>, S1: map<Field, nat>, ghost b: Board, ghost b1: Board)
    returns (e': nat, ps': seq<Player>, P': map<Field, Field>, S': map<Field, nat>, ghost b': Board)
    requires Fits(b, arr.Length0, arr.Length1, |b.ps|, max) && RemovedBoard(b, b1, Field(x, y), q)
    requires Mirrors(arr, b1) && e1 == b1.empty && ps1 == b1.ps && P1 == b1.forest.parent && S1 == b1.forest.size
    requires 1 <= q <= |b1.ps| && b1.ps[q - 1].numAreas > max
    requires Marks(vis, {}) && Scratchpad(arr, vis, st) && st.Contents == []
    modifies arr
    ensures Marks(vis, {}) && Scratchpad(arr, vis, st) && st.Contents == [] && st.Repr == old(st.Repr)
    ensures b'.owner == b.owner && b'.empty == b.empty && b'.ps == b.ps
    ensures Fits(b', arr.Length0, arr.Length1, |b.ps|, max) && OwnersHold(arr, b'.owner)
    ensures e' == b'.empty && ps' == b'.ps && P' == b'.forest.parent && S' == b'.forest.size
  {
    var c := Field(x, y);
    FitsParts(b, arr.Length0, arr.Length1, |b.ps|, max);
    RemovedFacts(b, b1, c, q);
    RollbackLegal(b, b1, c, q, max);
    var back;
    back, e', ps', P', S', b' := TryMoveKeepingScratch(arr, vis, st, max, q, x, y, e1, ps1, P1, S1, b1);
    MoveUndoesRemove(b, b1, b', c, q);
    MovedBoardParts(b1, b', c, q);
    RestoredFits(b, b', max, arr.Length0, arr.Length1, |b.ps|);
  }

  /**
   * The commit of `delete_and_move`: once the cell (x, y) is removed from
   * `q` within the limit, player `n` takes it, and the two steps make a
   * swap that fits the game.
   */
  method TakeOver(arr: array2<nat>, vis: array2<bool>, st: Stack, max: nat, n: nat, q: nat, x: nat, y: nat, e1: nat, ps1: seq<Player>,
                  P1: map<Field, Field>, S1: map<Field, nat>, ghost b: Board, ghost b1: Board)
    returns (e': nat, ps': seq<Player>, P': map<Field, Field>, S': map<Field, nat>, ghost b': Board)
    requires Fits(b, arr.Length0, arr.Length1, |b.ps|, max) && RemovedBoard(b, b1, Field(x, y), q)
    requires Mirrors(arr, b1) && e1 == b1.empty && ps1 == b1.ps && P1 == b1.forest.parent && S1 == b1.forest.size
    requires 1 <= n <= |b.ps| && n != q && Field(x, y) in b.owner && b.owner[Field(x, y)] == q
    requires 1 <= q <= |b.ps| && GoldenFits(b, max, n, Field(x, y))
    requires Marks(vis, {}) && Scratchpad(arr, vis, st) && st.Contents == []
    modifies arr
    ensures Marks(vis, {}) && Scratchpad(arr, vis, st) && st.Contents == [] && st.Repr == old(st.Repr)
    ensures Swapped(b, b', Field(x, y), n, b.ps[n - 1].hasPlayedGolden)
    ensures Fits(b', arr.Length0, arr.Length1, |b.ps|, max) && OwnersHold(arr, b'.owner)
    ensures e' == b'.empty && ps' == b'.ps && P' == b'.forest.parent && S' == b'.forest.size
  {
    var c := Field(x, y);
    FitsParts(b, arr.Length0, arr.Length1, |b.ps|, max);
    RemovedFacts(b, b1, c, q);
    MoveAfterRemove(b, b1, c, q, n, max);
    var moved;
    moved, e', ps', P', S', b' := TryMoveKeepingScratch(arr, vis, st, max, n, x, y, e1, ps1, P1, S1, b1);
    if !moved {
      assert false;
    }
    SwapChain(b, b1, b', c, q, n);
    SwapFits(b, b', c, n, b.ps[n - 1].hasPlayedGolden, max, arr.Length0, arr.Length1, |b.ps|);
  }

  /**
   * The values `gamma_new` starts from on a w by h board with `np`
   * players: every cell empty, its own parent-less area of size 0, and
   * every player without cells or areas.
   */
  method NewState(w: nat, h: nat, np: nat, max: nat)
    returns (e: nat, ps: seq<Player>, P: map<Field, Field>, S: map<Field, nat>, ghost b: Board)
    ensures b == NewBoard(w, h, np) && Fits(b, w, h, np, max)
    ensures e == b.empty && ps == b.ps && P == b.forest.parent && S == b.forest.size
  {
    P := map x: nat, y: nat | x < w && y < h :: Field(x, y) := Field(0, 0);
    S := map x: nat, y: nat | x < w && y < h :: Field(x, y) := 0;
    b := NewBoard(w, h, np);
    assert P == b.forest.parent && S == b.forest.size;
    NewBoardFits(w, h, np, max);
    e, ps := w * h, seq(np, _ => Player(false, 0, 0));
  }

  /**
   * The first loop of `gamma_golden_possible`: some player other than
   * `p` has a cell.
   */
  method AnyOtherBusy(ps: seq<Player>, p: nat) returns (r: bool)
    ensures r <==> OtherBusy(ps, p)
  {
    r := false;
    for i := 0 to |ps|
      invariant r <==> exists k :: 0 <= k < i && k != p - 1 && ps[k].busyFields > 0
    {
      if i != p - 1 && ps[i].busyFields > 0 {
        r := true;
      }
    }
  }

  /** The cells `p` may move on that the scan of `gamma_free_fields` passed before (i, j). */
  ghost function MovesBefore(b: Board, max: nat, p: nat, i: nat, j: nat): set<Field> {
    set f | f in MoveCells(b, max, p) && (f.x < i || (f.x == i && f.y < j))
  }

  /** One step of the scan adds (i, j) when `p` may move there. */
  lemma MovesStep(b: Board, max: nat, p: nat, i: nat, j: nat)
    ensures Field(i, j) !in MovesBefore(b, max, p, i, j)
    ensures MovesBefore(b, max, p, i, j + 1) ==
      MovesBefore(b, max, p, i, j) + (if Field(i, j) in MoveCells(b, max, p) then {Field(i, j)} else {})
  {
  }

  /** Past the last row of column `i`, the scan moves on to column `i + 1`. */
  lemma MovesColumn(b: Board, max: nat, p: nat, i: nat)
    requires b.owner.Keys == Cells(b.width, b.height)
    ensures MovesBefore(b, max, p, i, b.height) == MovesBefore(b, max, p, i + 1, 0)
  {
  }

  /** Past the last column, the scan has passed every cell. */
  lemma MovesAll(b: Board, max: nat, p: nat)
    requires b.owner.Keys == Cells(b.width, b.height)
    ensures MovesBefore(b, max, p, b.width, 0) == MoveCells(b, max, p)
  {
  }

  // ---------------------------------------------------------------------
  // Golden moves and probes

  /**
   * `gamma_golden_move` on the parts of the state of a game: player `p`
   * takes the cell (x, y) of another player when `p` is a player, the
   * cell is on the board and owned by someone else, `p` has not played
   * its golden move and `delete_and_move` succeeds; `p` has then played
   * it. Otherwise the owners, the counters and the records are as before.
   */
  method GoldenMove(arr: array2<nat>, vis: array2<bool>, st: Stack, max: nat, p: nat, x: nat, y: nat,
                    e: nat, ps: seq<Player>, P: map<Field, Field>, S: map<Field, nat>, ghost b: Board)
    returns (ok: bool, e': nat, ps': seq<Player>, P': map<Field, Field>, S': map<Field, nat>, ghost b': Board)
    requires Fits(b, arr.Length0, arr.Length1, |ps|, max) && OwnersHold(arr, b.owner)
    requires e == b.empty && ps == b.ps && P == b.forest.parent && S == b.forest.size
    requires vis.Length0 == arr.Length0 && vis.Length1 == arr.Length1 && Marks(vis, {})
    requires Scratchpad(arr, vis, st) && st.Contents == []
    modifies arr, vis, st.Repr
    ensures ok <==> GoldenLegal(b, max, p, x, y)
    ensures ok ==> Swapped(b, b', Field(x, y), p, true)
    ensures !ok ==> b'.owner == b.owner && b'.empty == b.empty && b'.ps == b.ps
    ensures Fits(b', arr.Length0, arr.Length1, |ps|, max) && OwnersHold(arr, b'.owner)
    ensures Marks(vis, {}) && Scratchpad(arr, vis, st) && st.Contents == [] && fresh(st.Repr - old(st.Repr))
    ensures e' == b'.empty && ps' == b'.ps && P' == b'.forest.parent && S' == b'.forest.size
  {
    ok, e', ps', P', S', b' := false, e, ps, P, S, b;
    if p < 1 || |ps| < p || WrongField(arr.Length0, arr.Length1, x, y) {
      return;
    }
    if ps[p - 1].hasPlayedGolden {
      return;
    }
    if arr[x, y] == p {
      return;
    }
    if arr[x, y] == NoPlayer {
      return;
    }
    FitsParts(b, arr.Length0, arr.Length1, |ps|, max);
    ShapedSound(b);
    ok, e', ps', P', S', b' := SwapAndMark(arr, vis, st, max, p, x, y, e, ps, P, S, b);
  }

  /**
   * The end of `gamma_golden_move` once its checks pass: `delete_and_move`
   * and, when it succeeds, the golden flag of `p` set.
   */
  method SwapAndMark(arr: array2<nat>, vis: array2<bool>, st: Stack, max: nat, p: nat, x: nat, y: nat,
                     e: nat, ps: seq<Player>, P: map<Field, Field>, S: map<Field, nat>, ghost b: Board)
    returns (ok: bool, e': nat, ps': seq<Player>, P': map<Field, Field>, S': map<Field, nat>, ghost b': Board)
    requires Fits(b, arr.Length0, arr.Length1, |ps|, max) && OwnersHold(arr, b.owner)
    requires e == b.empty && ps == b.ps && P == b.forest.parent && S == b.forest.size
    requires vis.Length0 == arr.Length0 && vis.Length1 == arr.Length1 && Marks(vis, {})
    requires Scratchpad(arr, vis, st) && st.Contents == []
    requires 1 <= p <= |ps| && x < arr.Length0 && y < arr.Length1 && !ps[p - 1].hasPlayedGolden
    requires b.owner[Field(x, y)] != NoPlayer && b.owner[Field(x, y)] != p && b.owner[Field(x, y)] <= |ps|
    modifies arr, vis, st.Repr
    ensures ok <==> GoldenFits(b, max, p, Field(x, y))
    ensures ok ==> Swapped(b, b', Field(x, y), p, true)
    ensures !ok ==> b'.owner == b.owner && b'.empty == b.empty && b'.ps == b.ps
    ensures Fits(b', arr.Length0, arr.Length1, |ps|, max) && OwnersHold(arr, b'.owner)
    ensures Marks(vis, {}) && Scratchpad(arr, vis, st) && st.Contents == [] && fresh(st.Repr - old(st.Repr))
    ensures e' == b'.empty && ps' == b'.ps && P' == b'.forest.parent && S' == b'.forest.size
  {
    ghost var b1;
    ok, e', ps', P', S', b1 := DeleteAndMove(arr, vis, st, max, x, y, p, e, ps, P, S, b);
    b' := b1;
    if ok {
      MarkGolden(b, b1, Field(x, y), p, max, arr.Length0, arr.Length1, |ps|);
      ps' := ps'[p - 1 := ps'[p - 1].(hasPlayedGolden := true)];
      b' := b1.(ps := ps');
    }
  }

  /**
   * `golden_no_checking_nor_changing`: the golden move of `p` on (x, y)
   * as if `p` had not played one, with the golden flag of `p` put back
   * afterwards.
   */
  method GoldenNoCheckingNorChanging(arr: array2<nat>, vis: array2<bool>, st: Stack, max: nat, p: nat, x: nat, y: nat,
                                     e: nat, ps: seq<Player>, P: map<Field, Field>, S: map<Field, nat>, ghost b: Board)
    returns (ok: bool, e': nat, ps': seq<Player>, P': map<Field, Field>, S': map<Field, nat>, ghost b': Board)
    requires Fits(b, arr.Length0, arr.Length1, |ps|, max) && OwnersHold(arr, b.owner)
    requires e == b.empty && ps == b.ps && P == b.forest.parent && S == b.forest.size
    requires vis.Length0 == arr.Length0 && vis.Length1 == arr.Length1 && Marks(vis, {})
    requires Scratchpad(arr, vis, st) && st.Contents == []
    modifies arr, vis, st.Repr
    ensures ok <==> GoldenTarget(b, max, p, x, y)
    ensures ok ==> 1 <= p <= |b.ps|
    ensures ok ==> Swapped(b, b', Field(x, y), p, b.ps[p - 1].hasPlayedGolden)
    ensures !ok ==> b'.owner == b.owner && b'.empty == b.empty && b'.ps == b.ps
    ensures Fits(b', arr.Length0, arr.Length1, |ps|, max) && OwnersHold(arr, b'.owner)
    ensures Marks(vis, {}) && Scratchpad(arr, vis, st) && st.Contents == [] && fresh(st.Repr - old(st.Repr))
    ensures e' == b'.empty && ps' == b'.ps && P' == b'.forest.parent && S' == b'.forest.size
  {
    ok, e', ps', P', S', b' := false, e, ps, P, S, b;
    if p < 1 || |ps| < p || WrongField(arr.Length0, arr.Length1, x, y) {
      return;
    }
    var saved := ps[p - 1].hasPlayedGolden;
    var ps1 := ps[p - 1 := ps[p - 1].(hasPlayedGolden := false)];
    ghost var b1 := b.(ps := ps1);
    FlagFits(b, p, false, arr.Length0, arr.Length1, |ps|, max);
    TargetsIgnoreFlag(b, p, false, max, x, y);
    ghost var b2;
    ok, e', ps', P', S', b2 := GoldenMove(arr, vis, st, max, p, x, y, e, ps1, P, S, b1);
    FitsParts(b2, arr.Length0, arr.Length1, |ps|, max);
    FlagFits(b2, p, saved, arr.Length0, arr.Length1, |ps|, max);
    ps' := ps'[p - 1 := ps'[p - 1].(hasPlayedGolden := saved)];
    b' := b2.(ps := ps');
    if ok {
      SwapFlag(b1, b2, Field(x, y), p, true, saved);
      SwapIgnoresFlag(b, b1, b', Field(x, y), p, false, saved);
    } else {
      FlagRestored(ps, p);
    }
  }

  /**
   * One step of the scan of `gamma_golden_possible`: tries the golden
   * move of `p` on (x, y) and, when it succeeds, gives the cell back to
   * its old owner the same way, which then always succeeds.
   */
  method TryTarget(arr: array2<nat>, vis: array2<bool>, st: Stack, max: nat, p: nat, x: nat, y: nat,
                   e: nat, ps: seq<Player>, P: map<Field, Field>, S: map<Field, nat>, ghost b: Board)
    returns (won: bool, e': nat, ps': seq<Player>, P': map<Field, Field>, S': map<Field, nat>, ghost b': Board)
    requires Fits(b, arr.Length0, arr.Length1, |ps|, max) && OwnersHold(arr, b.owner)
    requires e == b.empty && ps == b.ps && P == b.forest.parent && S == b.forest.size
    requires vis.Length0 == arr.Length0 && vis.Length1 == arr.Length1 && Marks(vis, {})
    requires Scratchpad(arr, vis, st) && st.Contents == []
    requires x < arr.Length0 && y < arr.Length1
    modifies arr, vis, st.Repr
    ensures won <==> GoldenTarget(b, max, p, x, y)
    ensures b'.owner == b.owner && b'.empty == b.empty && b'.ps == b.ps
    ensures Fits(b', arr.Length0, arr.Length1, |ps|, max) && OwnersHold(arr, b'.owner)
    ensures Marks(vis, {}) && Scratchpad(arr, vis, st) && st.Contents == [] && fresh(st.Repr - old(st.Repr))
    ensures e' == b'.empty && ps' == b'.ps && P' == b'.forest.parent && S' == b'.forest.size
  {
    var q := arr[x, y];
    assert Field(x, y) in b.owner && q == b.owner[Field(x, y)];
    ghost var b1;
    won, e', ps', P', S', b1 := GoldenNoCheckingNorChanging(arr, vis, st, max, p, x, y, e, ps, P, S, b);
    e', ps', P', S', b' := RestoreIfWon(arr, vis, st, max, won, p, q, x, y, e', ps', P', S', b, b1);
  }

  /** The tail of a scan step: a successful trial is undone, a failed one changed nothing. */
  method RestoreIfWon(arr: array2<nat>, vis: array2<bool>, st: Stack, max: nat, won: bool, p: nat, q: nat, x: nat, y: nat,
                      e1: nat, ps1: seq<Player>, P1: map<Field, Field>, S1: map<Field, nat>, ghost b: Board, ghost b1: Board)
    returns (e': nat, ps': seq<Player>, P': map<Field, Field>, S': map<Field, nat>, ghost b': Board)
    requires Fits(b, arr.Length0, arr.Length1, |b.ps|, max)
    requires won ==> 1 <= p <= |b.ps| && Field(x, y) in b.owner && q == b.owner[Field(x, y)]
    requires won ==> Swapped(b, b1, Field(x, y), p, b.ps[p - 1].hasPlayedGolden)
    requires !won ==> b1.owner == b.owner && b1.empty == b.empty && b1.ps == b.ps
    requires Fits(b1, arr.Length0, arr.Length1, |b.ps|, max) && OwnersHold(arr, b1.owner)
    requires e1 == b1.empty && ps1 == b1.ps && P1 == b1.forest.parent && S1 == b1.forest.size
    requires vis.Length0 == arr.Length0 && vis.Length1 == arr.Length1 && Marks(vis, {})
    requires Scratchpad(arr, vis, st) && st.Contents == []
    modifies arr, vis, st.Repr
    ensures b'.owner == b.owner && b'.empty == b.empty && b'.ps == b.ps
    ensures Fits(b', arr.Length0, arr.Length1, |b.ps|, max) && OwnersHold(arr, b'.owner)
    ensures Marks(vis, {}) && Scratchpad(arr, vis, st) && st.Contents == [] && fresh(st.Repr - old(st.Repr))
    ensures e' == b'.empty && ps' == b'.ps && P' == b'.forest.parent && S' == b'.forest.size
  {
    e', ps', P', S', b' := e1, ps1, P1, S1, b1;
    if won {
      FitsSize(b1, arr.Length0, arr.Length1, |b.ps|, max);
      e', ps', P', S', b' := Restore(arr, vis, st, max, p, q, x, y, e1, ps1, P1, S1, b, b1);
    }
  }

  /**
   * The undoing of a successful trial in `gamma_golden_possible`: the old
   * owner `q` of (x, y) takes it back the same way, which brings back the
   * owners, the counters and the records.
   */
  method Restore(arr: array2<nat>, vis: array2<bool>, st: Stack, max: nat, p: nat, q: nat, x: nat, y: nat,
                 e1: nat, ps1: seq<Player>, P1: map<Field, Field>, S1: map<Field, nat>, ghost b: Board, ghost b1: Board)
    returns (e': nat, ps': seq<Player>, P': map<Field, Field>, S': map<Field, nat>, ghost b': Board)
    requires Fits(b, arr.Length0, arr.Length1, |ps1|, max) && 1 <= p <= |b.ps|
    requires Field(x, y) in b.owner && q == b.owner[Field(x, y)]
    requires Swapped(b, b1, Field(x, y), p, b.ps[p - 1].hasPlayedGolden)
    requires Fits(b1, arr.Length0, arr.Length1, |ps1|, max) && OwnersHold(arr, b1.owner)
    requires e1 == b1.empty && ps1 == b1.ps && P1 == b1.forest.parent && S1 == b1.forest.size
    requires vis.Length0 == arr.Length0 && vis.Length1 == arr.Length1 && Marks(vis, {})
    requires Scratchpad(arr, vis, st) && st.Contents == []
    modifies arr, vis, st.Repr
    ensures b'.owner == b.owner && b'.empty == b.empty && b'.ps == b.ps
    ensures Fits(b', arr.Length0, arr.Length1, |ps1|, max) && OwnersHold(arr, b'.owner)
    ensures Marks(vis, {}) && Scratchpad(arr, vis, st) && st.Contents == [] && fresh(st.Repr - old(st.Repr))
    ensures e' == b'.empty && ps' == b'.ps && P' == b'.forest.parent && S' == b'.forest.size
  {
    FitsParts(b, arr.Length0, arr.Length1, |ps1|, max);
    SwapReturns(b, b1, Field(x, y), p, b.ps[p - 1].hasPlayedGolden, max);
    var back;
    back, e', ps', P', S', b' := GoldenNoCheckingNorChanging(arr, vis, st, max, q, x, y, e1, ps1, P1, S1, b1);
    SwapBack(b, b1, b', Field(x, y), p, q, b.ps[p - 1].hasPlayedGolden, b1.ps[q - 1].hasPlayedGolden);
  }

  /**
   * `gamma_golden_possible` on the parts of the state of a game: false
   * for a non-player, for a player who has played the golden move, and
   * when no other player has a cell; true when `p` has fewer areas than
   * allowed; otherwise whether some golden move would succeed. The
   * owners, the counters and the records are left as they were.
   */
  method GoldenPossibleScan(arr: array2<nat>, vis: array2<bool>, st: Stack, max: nat, p: nat,
                            e: nat, ps: seq<Player>, P: map<Field, Field>, S: map<Field, nat>, ghost b: Board)
    returns (r: bool, e': nat, ps': seq<Player>, P': map<Field, Field>, S': map<Field, nat>, ghost b': Board)
    requires Fits(b, arr.Length0, arr.Length1, |ps|, max) && OwnersHold(arr, b.owner)
    requires e == b.empty && ps == b.ps && P == b.forest.parent && S == b.forest.size
    requires vis.Length0 == arr.Length0 && vis.Length1 == arr.Length1 && Marks(vis, {})
    requires Scratchpad(arr, vis, st) && st.Contents == []
    modifies arr, vis, st.Repr
    ensures r <==> GoldenPossible(b, max, p)
    ensures b'.owner == b.owner && b'.empty == b.empty && b'.ps == b.ps
    ensures Fits(b', arr.Length0, arr.Length1, |ps|, max) && OwnersHold(arr, b'.owner)
    ensures Marks(vis, {}) && Scratchpad(arr, vis, st) && st.Contents == [] && fresh(st.Repr - old(st.Repr))
    ensures e' == b'.empty && ps' == b'.ps && P' == b'.forest.parent && S' == b'.forest.size
  {
    r, e', ps', P', S', b' := false, e, ps, P, S, b;
    if p < 1 || |ps| < p {
      return;
    }
    if ps[p - 1].hasPlayedGolden {
      return;
    }
    var other := AnyOtherBusy(ps, p);
    if !other {
      return;
    }
    if ps[p - 1].numAreas < max {
      r := true;
      return;
    }
    FitsParts(b, arr.Length0, arr.Length1, |ps|, max);
    TargetsOnBoard(b, max, p);
    r, e', ps', P', S', b' := ScanTargets(arr, vis, st, max, p, e, ps, P, S, b);
  }

  /**
   * The scan of `gamma_golden_possible`: whether the golden move of `p`
   * would succeed on some cell, each successful trial undone.
   */
  method ScanTargets(arr: array2<nat>, vis: array2<bool>, st: Stack, max: nat, p: nat,
                     e: nat, ps: seq<Player>, P: map<Field, Field>, S: map<Field, nat>, ghost b: Board)
    returns (r: bool, e': nat, ps': seq<Player>, P': map<Field, Field>, S': map<Field, nat>, ghost b': Board)
    requires Fits(b, arr.Length0, arr.Length1, |ps|, max) && OwnersHold(arr, b.owner)
    requires e == b.empty && ps == b.ps && P == b.forest.parent && S == b.forest.size
    requires vis.Length0 == arr.Length0 && vis.Length1 == arr.Length1 && Marks(vis, {})
    requires Scratchpad(arr, vis, st) && st.Contents == []
    modifies arr, vis, st.Repr
    ensures r <==> TargetBefore(b, max, p, arr.Length0)
    ensures b'.owner == b.owner && b'.empty == b.empty && b'.ps == b.ps
    ensures Fits(b', arr.Length0, arr.Length1, |ps|, max) && OwnersHold(arr, b'.owner)
    ensures Marks(vis, {}) && Scratchpad(arr, vis, st) && st.Contents == [] && fresh(st.Repr - old(st.Repr))
    ensures e' == b'.empty && ps' == b'.ps && P' == b'.forest.parent && S' == b'.forest.size
  {
    r, e', ps', P', S', b' := false, e, ps, P, S, b;
    FitsSize(b, arr.Length0, arr.Length1, |ps|, max);
    var i := 0;
    while i < arr.Length0 && !r
      invariant i <= arr.Length0
      invariant Fits(b', arr.Length0, arr.Length1, |ps|, max) && OwnersHold(arr, b'.owner)
      invariant b'.owner == b.owner && b'.empty == b.empty && b'.ps == b.ps
      invariant e' == b'.empty && ps' == b'.ps && P' == b'.forest.parent && S' == b'.forest.size
      invariant Marks(vis, {}) && Scratchpad(arr, vis, st) && st.Contents == [] && fresh(st.Repr - old(st.Repr))
      invariant if r then TargetBefore(b, max, p, i) else !TargetBefore(b, max, p, i)
    {
      r, e', ps', P', S', b' := ScanColumn(arr, vis, st, max, p, i, e', ps', P', S', b, b');
      i := i + 1;
    }
    if r {
      TargetBeforeGrows(b, max, p, i, arr.Length0);
    }
  }

  /** The inner loop of the scan of `gamma_golden_possible`, over the cells of column `i`. */
  method ScanColumn(arr: array2<nat>, vis: array2<bool>, st: Stack, max: nat, p: nat, i: nat,
                    e: nat, ps: seq<Player>, P: map<Field, Field>, S: map<Field, nat>, ghost b0: Board, ghost b: Board)
    returns (r: bool, e': nat, ps': seq<Player>, P': map<Field, Field>, S': map<Field, nat>, ghost b': Board)
    requires Fits(b, arr.Length0, arr.Length1, |ps|, max) && OwnersHold(arr, b.owner)
    requires b.owner == b0.owner && b.ps == b0.ps && b.width == b0.width && b.height == b0.height
    requires e == b.empty && ps == b.ps && P == b.forest.parent && S == b.forest.size
    requires vis.Length0 == arr.Length0 && vis.Length1 == arr.Length1 && Marks(vis, {})
    requires Scratchpad(arr, vis, st) && st.Contents == [] && i < arr.Length0
    modifies arr, vis, st.Repr
    ensures r <==> TargetBelow(b0, max, p, i, arr.Length1)
    ensures b'.owner == b.owner && b'.empty == b.empty && b'.ps == b.ps
    ensures Fits(b', arr.Length0, arr.Length1, |ps|, max) && OwnersHold(arr, b'.owner)
    ensures Marks(vis, {}) && Scratchpad(arr, vis, st) && st.Contents == [] && fresh(st.Repr - old(st.Repr))
    ensures e' == b'.empty && ps' == b'.ps && P' == b'.forest.parent && S' == b'.forest.size
  {
    r, e', ps', P', S', b' := false, e, ps, P, S, b;
    var j := 0;
    while j < arr.Length1 && !r
      invariant j <= arr.Length1
      invariant Fits(b', arr.Length0, arr.Length1, |ps|, max) && OwnersHold(arr, b'.owner)
      invariant b'.owner == b.owner && b'.empty == b.empty && b'.ps == b.ps
      invariant e' == b'.empty && ps' == b'.ps && P' == b'.forest.parent && S' == b'.forest.size
      invariant Marks(vis, {}) && Scratchpad(arr, vis, st) && st.Contents == [] && fresh(st.Repr - old(st.Repr))
      invariant if r then TargetBelow(b0, max, p, i, j) else !TargetBelow(b0, max, p, i, j)
    {
      r, e', ps', P', S', b' := ScanCell(arr, vis, st, max, p, i, j, e', ps', P', S', b0, b');
      j := j + 1;
    }
    if r {
      TargetBelowGrows(b0, max, p, i, j, arr.Length1);
    }
  }

  /** One turn of the inner loop: the trial on (i, j), which finds a target in the column exactly when this is one. */
  method ScanCell(arr: array2<nat>, vis: array2<bool>, st: Stack, max: nat, p: nat, i: nat, j: nat,
                  e: nat, ps: seq<Player>, P: map<Field, Field>, S: map<Field, nat>, ghost b0: Board, ghost b: Board)
    returns (r: bool, e': nat, ps': seq<Player>, P': map<Field, Field>, S': map<Field, nat>, ghost b': Board)
    requires Fits(b, arr.Length0, arr.Length1, |ps|, max) && OwnersHold(arr, b.owner)
    requires b.owner == b0.owner && b.ps == b0.ps && b.width == b0.width && b.height == b0.height
    requires e == b.empty && ps == b.ps && P == b.forest.parent && S == b.forest.size
    requires vis.Length0 == arr.Length0 && vis.Length1 == arr.Length1 && Marks(vis, {})
    requires Scratchpad(arr, vis, st) && st.Contents == [] && i < arr.Length0 && j < arr.Length1
    requires !TargetBelow(b0, max, p, i, j)
    modifies arr, vis, st.Repr
    ensures r <==> TargetBelow(b0, max, p, i, j + 1)
    ensures b'.owner == b.owner && b'.empty == b.empty && b'.ps == b.ps
    ensures Fits(b', arr.Length0, arr.Length1, |ps|, max) && OwnersHold(arr, b'.owner)
    ensures Marks(vis, {}) && Scratchpad(arr, vis, st) && st.Contents == [] && fresh(st.Repr - old(st.Repr))
    ensures e' == b'.empty && ps' == b'.ps && P' == b'.forest.parent && S' == b'.forest.size
  {
    FitsSize(b, arr.Length0, arr.Length1, |ps|, max);
    SameTargets(b0, b, max, p, i, j);
    r, e', ps', P', S', b' := TryTarget(arr, vis, st, max, p, i, j, e, ps, P, S, b);
  }

  /**
   * `gamma_move_possible` on the parts of the state of a game: whether
   * `gamma_move` would let `p` take (x, y); the trial move is undone by
   * `delete_util`, so the owners, the counters and the records are left
   * as they were.
   */
  method MovePossible(arr: array2<nat>, vis: array2<bool>, st: Stack, max: nat, p: nat, x: nat, y: nat,
                      e: nat, ps: seq<Player>, P: map<Field, Field>, S: map<Field, nat>, ghost b: Board)
    returns (r: bool, e': nat, ps': seq<Player>, P': map<Field, Field>, S': map<Field, nat>, ghost b': Board)
    requires Fits(b, arr.Length0, arr.Length1, |ps|, max) && OwnersHold(arr, b.owner)
    requires e == b.empty && ps == b.ps && P == b.forest.parent && S == b.forest.size
    requires vis.Length0 == arr.Length0 && vis.Length1 == arr.Length1 && Marks(vis, {})
    requires Scratchpad(arr, vis, st) && st.Contents == []
    modifies arr, vis, st.Repr
    ensures r <==> Legal(b, max, p, x, y)
    ensures b'.owner == b.owner && b'.empty == b.empty && b'.ps == b.ps
    ensures Fits(b', arr.Length0, arr.Length1, |ps|, max) && OwnersHold(arr, b'.owner)
    ensures Marks(vis, {}) && Scratchpad(arr, vis, st) && st.Contents == [] && fresh(st.Repr - old(st.Repr))
    ensures e' == b'.empty && ps' == b'.ps && P' == b'.forest.parent && S' == b'.forest.size
  {
    r, e', ps', P', S', b' := false, e, ps, P, S, b;
    if WrongField(arr.Length0, arr.Length1, x, y) || p < 1 || |ps| < p {
      return;
    }
    FitsParts(b, arr.Length0, arr.Length1, |ps|, max);
    var e1, ps1, P1, S1;
    ghost var b1;
    r, e1, ps1, P1, S1, b1 := TryMoveKeepingScratch(arr, vis, st, max, p, x, y, e, ps, P, S, b);
    if !r {
      return;
    }
    r, e', ps', P', S', b' := Undo(arr, vis, st, max, p, x, y, e1, ps1, P1, S1, b, b1);
  }

  /** The end of `gamma_move_possible`: `delete_util` undoes the move just made. */
  method Undo(arr: array2<nat>, vis: array2<bool>, st: Stack, max: nat, p: nat, x: nat, y: nat,
              e1: nat, ps1: seq<Player>, P1: map<Field, Field>, S1: map<Field, nat>, ghost b: Board, ghost b1: Board)
    returns (r: bool, e': nat, ps': seq<Player>, P': map<Field, Field>, S': map<Field, nat>, ghost b': Board)
    requires Fits(b, arr.Length0, arr.Length1, |b.ps|, max) && MovedBoard(b, b1, Field(x, y), p)
    requires Mirrors(arr, b1) && e1 == b1.empty && ps1 == b1.ps && P1 == b1.forest.parent && S1 == b1.forest.size
    requires vis.Length0 == arr.Length0 && vis.Length1 == arr.Length1 && Marks(vis, {})
    requires Scratchpad(arr, vis, st) && st.Contents == []
    modifies arr, vis, st.Repr
    ensures r
    ensures b'.owner == b.owner && b'.empty == b.empty && b'.ps == b.ps
    ensures Fits(b', arr.Length0, arr.Length1, |b.ps|, max) && OwnersHold(arr, b'.owner)
    ensures Marks(vis, {}) && Scratchpad(arr, vis, st) && st.Contents == [] && fresh(st.Repr - old(st.Repr))
    ensures e' == b'.empty && ps' == b'.ps && P' == b'.forest.parent && S' == b'.forest.size
  {
    MovedBoardParts(b, b1, Field(x, y), p);
    e', ps', P', S', b' := DeleteUtil(arr, vis, st, x, y, p, e1, ps1, P1, S1, b1);
    RemoveUndoesMove(b, b1, b', Field(x, y), p);
    RemovedBoardParts(b1, b', Field(x, y), p);
    RestoredFits(b, b', max, arr.Length0, arr.Length1, |b.ps|);
    r := true;
  }

  /**
   * `gamma_free_fields` on the parts of the state of a game: the number
   * of cells on which `gamma_move` would let `p` move. The source counts
   * the empty cells next to a cell of `p` when `p` has as many areas as
   * allowed, and otherwise returns the number of empty cells.
   */
  method FreeFields(arr: array2<nat>, max: nat, p: nat, e: nat, ps: seq<Player>, ghost b: Board) returns (n: nat)
    requires Fits(b, arr.Length0, arr.Length1, |ps|, max) && OwnersHold(arr, b.owner)
    requires e == b.empty && ps == b.ps
    ensures n == |MoveCells(b, max, p)|
  {
    FitsParts(b, arr.Length0, arr.Length1, |ps|, max);
    if p < 1 || |ps| < p {
      MoveCellsOfNonPlayer(b, max, p);
      return 0;
    }
    if ps[p - 1].numAreas > max {
      // No player is ever above the limit.
      assert false;
    }
    if ps[p - 1].numAreas == max {
      OwnerCells(b);
      n := CountMoveCells(arr, max, p, b);
      return;
    }
    MoveCellsWithRoom(b, max, p);
    return e;
  }

  /** The double loop of `gamma_free_fields`: the empty cells next to a cell of `p`. */
  method CountMoveCells(arr: array2<nat>, max: nat, p: nat, ghost b: Board) returns (count: nat)
    requires b.owner.Keys == Cells(b.width, b.height) && Mirrors(arr, b)
    requires 1 <= p <= |b.ps| && b.ps[p - 1].numAreas == max
    ensures count == |MoveCells(b, max, p)|
  {
    count := 0;
    for i := 0 to arr.Length0
      invariant count == |MovesBefore(b, max, p, i, 0)|
    {
      for j := 0 to arr.Length1
        invariant count == |MovesBefore(b, max, p, i, j)|
      {
        MovesStep(b, max, p, i, j);
        var l := CountNeighbours(arr, i, j, p, b.owner);
        if arr[i, j] == NoPlayer && l > 0 {
          count := count + 1;
        }
      }
      MovesColumn(b, max, p, i);
    }
    MovesAll(b, max, p);
  }

  // ---------------------------------------------------------------------
  // The game

  /**
   * `struct gamma`. `parents` and `areasSize` hold the contents of the
   * source's `parents` and `areas_size` arrays as maps over the cells, and
   * `players` the contents of its array of player records. The ghost
   * `owner` mirrors `player_arr`; in `forest`, `parent` and `size` are
   * `parents` and `areasSize`, `root` maps each owned cell to the
   * representative of its area and `rank` bounds the length of parent
   * chains.
   */
  class Game {
    const width: nat
    const height: nat
    const numPlayers: nat
    const maxAreas: nat
    var emptyFields: nat
    var players: seq<Player>
    const playerArr: array2<nat>
    var parents: map<Field, Field>
    var areasSize: map<Field, nat>
    const visited: array2<bool>
    const stack: Stack

    ghost var owner: map<Field, nat>
    ghost var forest: Forest

    /** Dimensions and array shapes. */
    ghost predicate Dims() {
      && width >= 1 && height >= 1 && numPlayers >= 1 && maxAreas >= 1
      && playerArr.Length0 == width && playerArr.Length1 == height
      && visited.Length0 == width && visited.Length1 == height
    }

    /** The state of the game as a value. */
    ghost function Abs(): Board
      reads this
    {
      Board(width, height, owner, forest, emptyFields, players)
    }

    /** Between operations the flood-fill scratch state is clean. */
    ghost predicate Scratch()
      reads visited, stack, stack.Repr
    {
      stack.Valid() && stack.Contents == [] && Marks(visited, {})
    }

    /** The stack's storage is separate from the board. */
    ghost predicate Apart()
      reads stack
    {
      playerArr !in stack.Repr && visited !in stack.Repr && this !in stack.Repr
    }

    /**
     * Between operations: the stored parents and sizes are those of the
     * forest, the state is a sound board within the limit on areas,
     * `player_arr` holds its owners, and the scratch state is clean.
     */
    ghost predicate Valid()
      reads this, playerArr, visited, stack, stack.Repr
    {
      && Dims() && |players| == numPlayers
      && forest.parent == parents && forest.size == areasSize
      && Fits(Abs(), width, height, numPlayers, maxAreas)
      && OwnersHold(playerArr, owner) && Scratch() && Apart()
    }

    /**
     * Stores the counters, records, parents and sizes `e`, `ps`, `P`, `S`
     * of the board `b`, which `player_arr` already holds and which fits
     * the game.
     */
    method Commit(e: nat, ps: seq<Player>, P: map<Field, Field>, S: map<Field, nat>, ghost b: Board)
      requires Dims() && Scratch() && Apart()
      requires Fits(b, width, height, numPlayers, maxAreas) && OwnersHold(playerArr, b.owner)
      requires e == b.empty && ps == b.ps && P == b.forest.parent && S == b.forest.size
      modifies this
      ensures Valid() && Abs() == b
    {
      emptyFields, players, parents, areasSize, owner, forest := e, ps, P, S, b.owner, b.forest;
      FitsParts(b, width, height, numPlayers, maxAreas);
    }

    // -------------------------------------------------------------------
    // Creation

    /** The state of `gamma_new` once its arguments are known to be positive. */
    constructor (w: nat, h: nat, p: nat, a: nat)
      requires w >= 1 && h >= 1 && p >= 1 && a >= 1
      ensures Valid() && fresh(playerArr) && fresh(visited) && fresh(stack.Repr)
      ensures width == w && height == h && numPlayers == p && maxAreas == a
      ensures Abs() == NewBoard(w, h, p)
    {
      var e, ps, P, S;
      ghost var b;
      e, ps, P, S, b := NewState(w, h, p, a);
      width, height, numPlayers, maxAreas := w, h, p, a;
      playerArr := new nat[w, h]((_, _) => NoPlayer);
      visited := new bool[w, h]((_, _) => false);
      stack := new Stack.Init(w * h);
      new;
      NewOwnersHold(playerArr, p);
      Commit(e, ps, P, S, b);
    }

    // -------------------------------------------------------------------
    // Queries

    /** `wrong_player`: `p` is not a player of this game. */
    predicate WrongPlayer(p: nat)
      ensures !WrongPlayer(p) <==> 1 <= p <= numPlayers
    {
      numPlayers < p || p < 1
    }

    // -------------------------------------------------------------------
    // Moves

    /**
     * `gamma_move`: player `p` takes the cell (x, y) when `p` is a player,
     * the cell is on the board and empty, and `p` either has fewer areas
     * than allowed or owns a neighbour of the cell; nothing changes
     * otherwise.
     */
    method GammaMove(p: nat, x: nat, y: nat) returns (ok: bool)
      requires Valid()
      modifies this, playerArr
      ensures Valid()
      ensures ok <==> Legal(old(Abs()), maxAreas, p, x, y)
      ensures ok ==> MovedBoard(old(Abs()), Abs(), Field(x, y), p)
      ensures !ok ==> Abs() == old(Abs())
    {
      var e, ps, P, S;
      ghost var b';
      ok, e, ps, P, S, b' := Move(playerArr, maxAreas, p, x, y, emptyFields, players, parents, areasSize, Abs());
      if ok {
        Commit(e, ps, P, S, b');
      }
    }

    /** The owners, the number of empty cells and the records are those of `b`; only the forest may differ. */
    ghost predicate Holds(b: Board)
      reads this
    {
      owner == b.owner && emptyFields == b.empty && players == b.ps
    }

    /**
     * `gamma_golden_move`: player `p` takes the cell (x, y) of another
     * player when `p` is a player, the cell is on the board and owned by
     * someone else, `p` has not played its golden move and
     * `delete_and_move` succeeds; `p` has then played it. Otherwise the
     * owners, the counters and the records are as before.
     */
    method GammaGoldenMove(p: nat, x: nat, y: nat) returns (ok: bool)
      requires Valid()
      modifies this, playerArr, visited, stack.Repr
      ensures Valid() && fresh(stack.Repr - old(stack.Repr))
      ensures ok <==> GoldenLegal(old(Abs()), maxAreas, p, x, y)
      ensures ok ==> Swapped(old(Abs()), Abs(), Field(x, y), p, true)
      ensures !ok ==> Holds(old(Abs()))
    {
      var e, ps, P, S;
      ghost var b';
      ok, e, ps, P, S, b' :=
        GoldenMove(playerArr, visited, stack, maxAreas, p, x, y, emptyFields, players, parents, areasSize, Abs());
      Commit(e, ps, P, S, b');
    }

    /**
     * `gamma_golden_possible`: false for a non-player, for a player who
     * has played the golden move, and when no other player has a cell;
     * true when `p` has fewer areas than allowed; otherwise whether some
     * golden move would succeed. That is, whether `gamma_golden_move`
     * would let `p` take some cell. The owners, the counters and the
     * records are left as they were.
     */
    method GammaGoldenPossible(p: nat) returns (r: bool)
      requires Valid()
      modifies this, playerArr, visited, stack.Repr
      ensures Valid() && fresh(stack.Repr - old(stack.Repr))
      ensures r <==> GoldenPossible(old(Abs()), maxAreas, p)
      ensures r <==> exists x: nat, y: nat :: GoldenLegal(old(Abs()), maxAreas, p, x, y)
      ensures Holds(old(Abs()))
    {
      GoldenPossibleExact(Abs(), width, height, numPlayers, maxAreas, p);
      var e, ps, P, S;
      ghost var b';
      r, e, ps, P, S, b' :=
        GoldenPossibleScan(playerArr, visited, stack, maxAreas, p, emptyFields, players, parents, areasSize, Abs());
      Commit(e, ps, P, S, b');
    }

    // -------------------------------------------------------------------
    // Probes

    /**
     * `gamma_move_possible`: whether `gamma_move` would let `p` take
     * (x, y), with the owners, the counters and the records left as they
     * were.
     */
    method GammaMovePossible(p: nat, x: nat, y: nat) returns (r: bool)
      requires Valid()
      modifies this, playerArr, visited, stack.Repr
      ensures Valid() && fresh(stack.Repr - old(stack.Repr))
      ensures r <==> Legal(old(Abs()), maxAreas, p, x, y)
      ensures Holds(old(Abs()))
    {
      var e, ps, P, S;
      ghost var b';
      r, e, ps, P, S, b' :=
        MovePossible(playerArr, visited, stack, maxAreas, p, x, y, emptyFields, players, parents, areasSize, Abs());
      Commit(e, ps, P, S, b');
    }

    /** `gamma_free_fields`: the number of cells on which `gamma_move` would let `p` move. */
    method GammaFreeFields(p: nat) returns (n: nat)
      requires Valid()
      ensures n == |MoveCells(Abs(), maxAreas, p)|
    {
      n := FreeFields(playerArr, maxAreas, p, emptyFields, players, Abs());
    }

    // -------------------------------------------------------------------
    // Getters

    /** `gamma_busy_fields`: the number of cells `p` owns, 0 for a non-player. */
    function GammaBusyFields(p: nat): (n: nat)
      requires Valid()
      reads this, playerArr, visited, stack, stack.Repr
      ensures n == if 1 <= p <= numPlayers then |OwnedBy(owner, p)| else 0
    {
      if WrongPlayer(p) then 0
      else
        FitsParts(Abs(), width, height, numPlayers, maxAreas);
        SoundCounts(Abs(), p);
        players[p - 1].busyFields
    }

    /** `gamma_player_areas`: the number of areas of `p`, 0 for a non-player. */
    function GammaPlayerAreas(p: nat): (n: nat)
      requires Valid()
      reads this, playerArr, visited, stack, stack.Repr
      ensures n == if 1 <= p <= numPlayers then |RootsOf(owner, forest.root, p)| else 0
      ensures n <= maxAreas
    {
      if WrongPlayer(p) then 0
      else
        FitsParts(Abs(), width, height, numPlayers, maxAreas);
        SoundCounts(Abs(), p);
        players[p - 1].numAreas
    }

    /** `gamma_max_areas`: the limit on areas, which no player exceeds. */
    function GammaMaxAreas(): (m: nat)
      requires Valid()
      reads this, playerArr, visited, stack, stack.Repr
      ensures forall i :: 0 <= i < |players| ==> players[i].numAreas <= m
    {
      FitsParts(Abs(), width, height, numPlayers, maxAreas);
      maxAreas
    }
  }

  datatype Option<T> = None | Some(value: T)

  /**
   * `gamma_new`: no game when a dimension, the number of players or the
   * limit on areas is 0; otherwise a new valid game of those parameters
   * whose board is empty.
   */
  method GammaNew(w: nat, h: nat, p: nat, a: nat) returns (g: Option<Game>)
    ensures g.None? <==> w < 1 || h < 1 || p < 1 || a < 1
    ensures g.Some? ==> fresh(g.value) && g.value.Valid() && g.value.Abs() == NewBoard(w, h, p)
    ensures g.Some? ==> g.value.width == w && g.value.height == h && g.value.numPlayers == p && g.value.maxAreas == a
  {
    if w < 1 || h < 1 || p < 1 || a < 1 {
      return None;
    }
    var game := new Game(w, h, p, a);
    return Some(game);
  }

  /** Every cell of a game is free or counted among the cells of exactly one player. */
  lemma GameCellsConserved(g: Game)
    requires g.Valid()
    ensures g.emptyFields + TotalBusy(g.players) == g.width * g.height
  {
    FitsParts(g.Abs(), g.width, g.height, g.numPlayers, g.maxAreas);
    CellsConserved(g.Abs());
  }
}
