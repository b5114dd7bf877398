/**
 * The two flood fills of the game engine as pure values: the marking
 * search of `set_parent_dfs`, which visits the component of a cell and
 * hands it a representative, and the clearing search of `init_visited`,
 * which unmarks every marked cell joined to a start cell. Each lemma is
 * one step of a fill; the last one of each says what the finished fill
 * has done.
 */
module Flood {
  import opened Fields
  import opened Grid
  import opened Areas

  /** The cells of `S` joined to `f` by a path through `S`: the component of `f`. */
  ghost function Comp(S: set<Field>, f: Field): set<Field> {
    set v | v in S && ConnectedIn(S, f, v)
  }

  /** No cell occurs twice in `cs`. */
  ghost predicate Distinct(cs: seq<Field>) {
    forall i, j :: 0 <= i < j < |cs| ==> cs[i] != cs[j]
  }

  /** A cell pushed onto a stack without repetition keeps it so exactly when it was not on it. */
  lemma DistinctSnoc(cs: seq<Field>, u: Field)
    ensures Distinct(cs + [u]) <==> Distinct(cs) && u !in Members(cs)
    ensures Members(cs + [u]) == Members(cs) + {u}
  {
    var t := cs + [u];
    assert forall k :: 0 <= k < |cs| ==> t[k] == cs[k];
    if Distinct(t) {
      forall k | 0 <= k < |cs|
        ensures cs[k] != u
      {
        assert t[k] != t[|cs|];
      }
    }
  }

  /** The cells marked since the fill began, `V0` being marked before, that have left the stack `cs`. */
  ghost function Done(V: set<Field>, V0: set<Field>, cs: seq<Field>): set<Field> {
    (V - V0) - Members(cs)
  }

  /** A cell of `S` next to a cell of the component of `f` lies in that component. */
  lemma CompStep(S: set<Field>, f: Field, u: Field, v: Field)
    requires u in Comp(S, f) && v in S && Adjacent(u, v)
    ensures v in Comp(S, f)
  {
    ConnectedStep(S, f, u, v);
  }

  // ---------------------------------------------------------------------
  // set_parent_dfs

  /**
   * The state of `set_parent_dfs` from `f` over the cells `S` of one
   * player, the cells `V0` being marked before it began. The marked cells
   * `V` add to `V0` only cells of the component of `f`, `f` among them;
   * the stack `cs` holds marked cells, each once; the `count` cells done
   * are handed `parent` in `P`, all other cells keep their entry of `P0`,
   * and every neighbour in `S` of a cell done is marked. While `pending`,
   * `u` is the cell popped last, whose neighbours in the first `i`
   * directions alone are known to be marked.
   */
  ghost predicate Filling(S: set<Field>, f: Field, V0: set<Field>, V: set<Field>, cs: seq<Field>, count: nat,
                          parent: Field, P0: map<Field, Field>, P: map<Field, Field>,
                          u: Field, i: nat, pending: bool)
  {
    (V, cs, count, P, u, i, pending) in FillStates(S, f, V0, parent, P0)
  }

  ghost function FillStates(S: set<Field>, f: Field, V0: set<Field>, parent: Field, P0: map<Field, Field>)
    : iset<(set<Field>, seq<Field>, nat, map<Field, Field>, Field, nat, bool)>
  {
    iset t: (set<Field>, seq<Field>, nat, map<Field, Field>, Field, nat, bool) |
      FillBody(S, f, V0, t.0, t.1, t.2, parent, P0, t.3, t.4, t.5, t.6)
  }

  ghost predicate FillBody(S: set<Field>, f: Field, V0: set<Field>, V: set<Field>, cs: seq<Field>, count: nat,
                           parent: Field, P0: map<Field, Field>, P: map<Field, Field>,
                           u: Field, i: nat, pending: bool)
  {
    && V0 <= V && V - V0 <= Comp(S, f) && f in V - V0 && i <= Directions
    && Members(cs) <= V - V0 && Distinct(cs)
    && |V| == |V0| + count + |cs|
    && Searched(S, Done(V, V0, cs), V, u, i, pending)
    && Handed(Done(V, V0, cs), parent, P0, P)
  }

  /**
   * Every neighbour in `S` of a cell of `D` is in `V`; while `pending`,
   * only those of `u` in the first `i` directions are known to be.
   */
  ghost predicate Searched(S: set<Field>, D: set<Field>, V: set<Field>, u: Field, i: nat, pending: bool) {
    && (forall w, v {:trigger Adjacent(w, v)} ::
          w in D && !(pending && w == u) && v in S && Adjacent(w, v) ==> v in V)
    && (pending ==> u in D)
    && (pending ==> forall j :: 0 <= j < i && j < Directions && StepDefined(u, j) && Step(u, j) in S ==> Step(u, j) in V)
  }

  /** The cells of `D` are handed `parent` in `P`, and all others keep their entry of `P0`. */
  ghost predicate Handed(D: set<Field>, parent: Field, P0: map<Field, Field>, P: map<Field, Field>) {
    P.Keys == P0.Keys && forall g :: g in P0 ==> P[g] == if g in D then parent else P0[g]
  }

  /** The fill begins by marking and pushing `f`. */
  lemma FillStart(S: set<Field>, f: Field, V0: set<Field>, parent: Field, P0: map<Field, Field>)
    requires f in S && f !in V0
    ensures Filling(S, f, V0, V0 + {f}, [f], 0, parent, P0, P0, f, 0, false)
  {
    ConnectedRefl(S, f);
    assert Done(V0 + {f}, V0, [f]) == {};
    assert FillBody(S, f, V0, V0 + {f}, [f], 0, parent, P0, P0, f, 0, false);
  }

  /** Popping the top `u` of the stack: `u` is done and handed `parent`, its neighbours not yet visited. */
  lemma FillPop(S: set<Field>, f: Field, V0: set<Field>, V: set<Field>, cs: seq<Field>, count: nat,
                parent: Field, P0: map<Field, Field>, P: map<Field, Field>, u: Field, w: Field, i: nat)
    requires Filling(S, f, V0, V, cs + [u], count, parent, P0, P, w, i, false) && S <= P0.Keys
    ensures Filling(S, f, V0, V, cs, count + 1, parent, P0, P[u := parent], u, 0, true) && u in S
    ensures count < |S|
  {
    assert FillBody(S, f, V0, V, cs + [u], count, parent, P0, P, w, i, false);
    DistinctSnoc(cs, u);
    assert u in Comp(S, f);
    Growth(V0, V, S);
    var D := Done(V, V0, cs + [u]);
    assert Done(V, V0, cs) == D + {u};
    SearchedPop(S, D, V, u, w, i);
    HandedPop(D, parent, P0, P, u);
    assert FillBody(S, f, V0, V, cs, count + 1, parent, P0, P[u := parent], u, 0, true);
  }

  /** A set grown from `V0` by cells of `S` alone has at most `|S|` more cells. */
  lemma Growth(V0: set<Field>, V: set<Field>, S: set<Field>)
    requires V0 <= V && V - V0 <= S
    ensures |V| <= |V0| + |S|
  {
    var W := V - V0;
    assert V == V0 + W && V0 !! W;
    assert S == W + (S - W) && W !! S - W;
  }

  lemma SearchedPop(S: set<Field>, D: set<Field>, V: set<Field>, u: Field, w: Field, i: nat)
    requires Searched(S, D, V, w, i, false)
    ensures Searched(S, D + {u}, V, u, 0, true)
  {
  }

  lemma HandedPop(D: set<Field>, parent: Field, P0: map<Field, Field>, P: map<Field, Field>, u: Field)
    requires Handed(D, parent, P0, P) && u in P
    ensures Handed(D + {u}, parent, P0, P[u := parent])
  {
  }

  /** Visiting the unmarked neighbour `v` of `u` in `S`: it is marked and pushed. */
  lemma FillPush(S: set<Field>, f: Field, V0: set<Field>, V: set<Field>, cs: seq<Field>, count: nat,
                 parent: Field, P0: map<Field, Field>, P: map<Field, Field>, u: Field, i: nat)
    requires Filling(S, f, V0, V, cs, count, parent, P0, P, u, i, true) && i < Directions
    requires StepDefined(u, i) && Step(u, i) in S && Step(u, i) !in V
    ensures Filling(S, f, V0, V + {Step(u, i)}, cs + [Step(u, i)], count, parent, P0, P, u, i + 1, true)
  {
    assert FillBody(S, f, V0, V, cs, count, parent, P0, P, u, i, true);
    var v := Step(u, i);
    CompStep(S, f, u, v);
    DistinctSnoc(cs, v);
    assert Done(V + {v}, V0, cs + [v]) == Done(V, V0, cs);
    assert FillBody(S, f, V0, V + {Step(u, i)}, cs + [Step(u, i)], count, parent, P0, P, u, i + 1, true);
  }

  /** Visiting direction `i` of `u` where there is no unmarked cell of `S`: nothing changes. */
  lemma FillSkip(S: set<Field>, f: Field, V0: set<Field>, V: set<Field>, cs: seq<Field>, count: nat,
                 parent: Field, P0: map<Field, Field>, P: map<Field, Field>, u: Field, i: nat)
    requires Filling(S, f, V0, V, cs, count, parent, P0, P, u, i, true) && i < Directions
    requires !(StepDefined(u, i) && Step(u, i) in S && Step(u, i) !in V)
    ensures Filling(S, f, V0, V, cs, count, parent, P0, P, u, i + 1, true)
  {
    assert FillBody(S, f, V0, V, cs, count, parent, P0, P, u, i, true);
    assert FillBody(S, f, V0, V, cs, count, parent, P0, P, u, i + 1, true);
  }

  /** Once all four directions of `u` are visited, every neighbour of `u` in `S` is marked. */
  lemma FillSettle(S: set<Field>, f: Field, V0: set<Field>, V: set<Field>, cs: seq<Field>, count: nat,
                   parent: Field, P0: map<Field, Field>, P: map<Field, Field>, u: Field)
    requires Filling(S, f, V0, V, cs, count, parent, P0, P, u, Directions, true)
    ensures Filling(S, f, V0, V, cs, count, parent, P0, P, u, Directions, false)
  {
    assert FillBody(S, f, V0, V, cs, count, parent, P0, P, u, Directions, true);
    forall v | v in S && Adjacent(u, v)
      ensures v in V
    {
      var j := DirTo(u, v);
    }
    assert FillBody(S, f, V0, V, cs, count, parent, P0, P, u, Directions, false);
  }

  /**
   * The finished fill, when no cell of the component of `f` was marked
   * before: the component is marked as well, its cells are the ones
   * counted, and exactly they are handed `parent`.
   */
  lemma FillEnd(S: set<Field>, f: Field, V0: set<Field>, V: set<Field>, count: nat,
                parent: Field, P0: map<Field, Field>, P: map<Field, Field>, u: Field, i: nat)
    requires Filling(S, f, V0, V, [], count, parent, P0, P, u, i, false)
    requires Comp(S, f) !! V0
    ensures V == V0 + Comp(S, f) && count == |Comp(S, f)|
    ensures P.Keys == P0.Keys && forall g :: g in P0 ==> P[g] == if g in Comp(S, f) then parent else P0[g]
  {
    assert FillBody(S, f, V0, V, [], count, parent, P0, P, u, i, false);
    var N := V - V0;
    assert Done(V, V0, []) == N;
    assert Closed(S, N) by {
      forall w, v | w in N && v in S && Adjacent(w, v)
        ensures v in N
      {
        CompStep(S, f, w, v);
      }
    }
    forall v | v in Comp(S, f)
      ensures v in N
    {
      ClosedReach(S, N, f, v);
    }
  }

  // ---------------------------------------------------------------------
  // init_visited

  /**
   * The state of `init_visited` from `c`, the cells `V0` being marked
   * when it began. The cells still marked are `V`; the cells cleared so
   * far, with `c`, include the stack `cs`; no cell next to a cleared cell
   * that has left the stack is marked. While `pending`, `u` is the cell
   * popped last, whose neighbours in the first `i` directions alone are
   * known to be unmarked.
   */
  ghost predicate Clearing(V0: set<Field>, c: Field, V: set<Field>, cs: seq<Field>, u: Field, i: nat, pending: bool) {
    (V, cs, u, i, pending) in ClearStates(V0, c)
  }

  ghost function ClearStates(V0: set<Field>, c: Field): iset<(set<Field>, seq<Field>, Field, nat, bool)> {
    iset t: (set<Field>, seq<Field>, Field, nat, bool) | ClearBody(V0, c, t.0, t.1, t.2, t.3, t.4)
  }

  ghost predicate ClearBody(V0: set<Field>, c: Field, V: set<Field>, cs: seq<Field>, u: Field, i: nat, pending: bool) {
    && V <= V0 && c !in V0 && i <= Directions
    && Members(cs) <= (V0 - V) + {c}
    && (forall w, v {:trigger Adjacent(w, v)} ::
          w in ((V0 - V) + {c}) - Members(cs) && !(pending && w == u) && Adjacent(w, v) ==> v !in V)
    && (pending ==> u in (V0 - V) + {c})
    && (pending ==> forall j :: 0 <= j < i && StepDefined(u, j) ==> Step(u, j) !in V)
  }

  /** The clearing begins by pushing `c`, which is not marked. */
  lemma ClearStart(V0: set<Field>, c: Field)
    requires c !in V0
    ensures Clearing(V0, c, V0, [c], c, 0, false)
  {
    assert ClearBody(V0, c, V0, [c], c, 0, false);
  }

  /** Popping the top `u` of the stack. */
  lemma ClearPop(V0: set<Field>, c: Field, V: set<Field>, cs: seq<Field>, u: Field, w: Field, i: nat)
    requires Clearing(V0, c, V, cs + [u], w, i, false)
    ensures Clearing(V0, c, V, cs, u, 0, true)
  {
    assert ClearBody(V0, c, V, cs + [u], w, i, false);
    MembersSnoc(cs, u);
    assert ClearBody(V0, c, V, cs, u, 0, true);
  }

  /** Visiting the marked neighbour of `u` in direction `i`: it is cleared and pushed. */
  lemma ClearPush(V0: set<Field>, c: Field, V: set<Field>, cs: seq<Field>, u: Field, i: nat)
    requires Clearing(V0, c, V, cs, u, i, true) && i < Directions
    requires StepDefined(u, i) && Step(u, i) in V
    ensures Clearing(V0, c, V - {Step(u, i)}, cs + [Step(u, i)], u, i + 1, true)
  {
    assert ClearBody(V0, c, V, cs, u, i, true);
    var v := Step(u, i);
    MembersSnoc(cs, v);
    assert ClearBody(V0, c, V - {Step(u, i)}, cs + [Step(u, i)], u, i + 1, true);
  }

  /** Visiting direction `i` of `u` where there is no marked cell: nothing changes. */
  lemma ClearSkip(V0: set<Field>, c: Field, V: set<Field>, cs: seq<Field>, u: Field, i: nat)
    requires Clearing(V0, c, V, cs, u, i, true) && i < Directions
    requires !(StepDefined(u, i) && Step(u, i) in V)
    ensures Clearing(V0, c, V, cs, u, i + 1, true)
  {
    assert ClearBody(V0, c, V, cs, u, i, true);
    assert ClearBody(V0, c, V, cs, u, i + 1, true);
  }

  /** Once all four directions of `u` are visited, no neighbour of `u` is marked. */
  lemma ClearSettle(V0: set<Field>, c: Field, V: set<Field>, cs: seq<Field>, u: Field)
    requires Clearing(V0, c, V, cs, u, Directions, true)
    ensures Clearing(V0, c, V, cs, u, Directions, false)
  {
    assert ClearBody(V0, c, V, cs, u, Directions, true);
    forall v | Adjacent(u, v)
      ensures v !in V
    {
      var j := DirTo(u, v);
    }
    assert ClearBody(V0, c, V, cs, u, Directions, false);
  }

  /**
   * The finished clearing, when every cell marked at the start was joined
   * to `c` through marked cells: nothing is marked any more.
   */
  lemma ClearEnd(V0: set<Field>, c: Field, V: set<Field>, u: Field, i: nat)
    requires Clearing(V0, c, V, [], u, i, false)
    requires forall v :: v in V0 ==> ConnectedIn(V0 + {c}, c, v)
    ensures V == {}
  {
    assert ClearBody(V0, c, V, [], u, i, false);
    var T := (V0 - V) + {c};
    assert Closed(V0 + {c}, T);
    forall v | v in V
      ensures false
    {
      ClosedReach(V0 + {c}, T, c, v);
    }
  }
}
