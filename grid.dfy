/**
 * Board geometry of the game engine as pure values: the cells of a board,
 * edge adjacency in the engine's four directions, paths through a set of
 * cells, and closed sets of cells.
 */
module Grid {
  import opened Fields

  /** The cells of a board with `w` columns and `h` rows. */
  ghost function Cells(w: nat, h: nat): (cs: set<Field>)
    ensures forall f {:trigger f in cs} :: f in cs <==> f.x < w && f.y < h
  {
    set x: nat, y: nat | x < w && y < h :: Field(x, y)
  }

  ghost function Column(x: nat, h: nat): (cs: set<Field>)
    ensures forall f {:trigger f in cs} :: f in cs <==> f.x == x && f.y < h
  {
    set y: nat | y < h :: Field(x, y)
  }

  lemma {:induction false} ColumnCard(x: nat, h: nat)
    ensures |Column(x, h)| == h
  {
    if h > 0 {
      ColumnCard(x, h - 1);
      assert Column(x, h) == Column(x, h - 1) + {Field(x, h - 1)};
    }
  }

  /** A board has `w * h` cells. */
  lemma {:induction false} CellsCard(w: nat, h: nat)
    ensures |Cells(w, h)| == w * h
  {
    if w > 0 {
      CellsCard(w - 1, h);
      ColumnCard(w - 1, h);
      CellsSplit(w, h);
      assert (w - 1) * h + h == w * h;
    }
  }

  /** The cells of a board are those of its last column and those of the columns before it. */
  lemma CellsSplit(w: nat, h: nat)
    requires w > 0
    ensures Cells(w, h) == Cells(w - 1, h) + Column(w - 1, h) && Cells(w - 1, h) !! Column(w - 1, h)
  {
  }

  /** Two cells share an edge. */
  predicate Adjacent(f: Field, g: Field) {
    (f.x == g.x && (f.y + 1 == g.y || g.y + 1 == f.y)) ||
    (f.y == g.y && (f.x + 1 == g.x || g.x + 1 == f.x))
  }

  /** Column and row offsets of the four neighbours, in the engine's order. */
  const XDir: seq<int> := [0, 1, 0, -1]
  const YDir: seq<int> := [1, 0, -1, 0]
  const Directions: nat := 4

  /** The position in direction `i` has no negative coordinate. */
  predicate StepDefined(f: Field, i: nat)
    requires i < Directions
  {
    0 <= f.x + XDir[i] && 0 <= f.y + YDir[i]
  }

  /** The neighbour of `f` in direction `i`. */
  function Step(f: Field, i: nat): (g: Field)
    requires i < Directions && StepDefined(f, i)
    ensures Adjacent(f, g) && Adjacent(g, f)
  {
    Field(f.x + XDir[i], f.y + YDir[i])
  }

  /** The direction leading from `f` to an adjacent cell `g`. */
  function DirTo(f: Field, g: Field): (i: nat)
    requires Adjacent(f, g)
    ensures i < Directions && StepDefined(f, i) && Step(f, i) == g
  {
    if g.y == f.y + 1 then 0
    else if g.x == f.x + 1 then 1
    else if g.y + 1 == f.y then 2
    else 3
  }

  lemma DirToUnique(f: Field, i: nat)
    requires i < Directions && StepDefined(f, i)
    ensures DirTo(f, Step(f, i)) == i
  {
  }

  /**
   * The neighbours of `f` owned by `p`, in the engine's direction order,
   * among the first `i` directions.
   */
  function SameNbrs(owner: map<Field, nat>, f: Field, p: nat, i: nat): (ns: seq<Field>)
    requires i <= Directions
    ensures |ns| <= i
    ensures forall g {:trigger g in ns} :: g in ns <==>
      (g in owner && owner[g] == p && Adjacent(f, g) && DirTo(f, g) < i)
    ensures forall k :: 0 <= k < |ns| ==> ns[k] in owner && owner[ns[k]] == p && Adjacent(f, ns[k])
  {
    if i == 0 then []
    else
      var prev := SameNbrs(owner, f, p, i - 1);
      if StepDefined(f, i - 1) && Step(f, i - 1) in owner && owner[Step(f, i - 1)] == p
      then prev + [Step(f, i - 1)]
      else prev
  }

  /** `SameNbrs` lists the neighbours in increasing direction, so without repetition. */
  lemma {:induction false} SameNbrsDistinct(owner: map<Field, nat>, f: Field, p: nat, i: nat)
    requires i <= Directions
    ensures forall j, k :: 0 <= j < k < |SameNbrs(owner, f, p, i)| ==>
      DirTo(f, SameNbrs(owner, f, p, i)[j]) < DirTo(f, SameNbrs(owner, f, p, i)[k])
    ensures forall j, k :: 0 <= j < k < |SameNbrs(owner, f, p, i)| ==>
      SameNbrs(owner, f, p, i)[j] != SameNbrs(owner, f, p, i)[k]
  {
    if i > 0 {
      SameNbrsDistinct(owner, f, p, i - 1);
      if StepDefined(f, i - 1) && Step(f, i - 1) in owner && owner[Step(f, i - 1)] == p {
        DirToUnique(f, i - 1);
        var prev := SameNbrs(owner, f, p, i - 1);
        forall j | 0 <= j < |prev|
          ensures DirTo(f, prev[j]) < i - 1
        {
          assert prev[j] in prev;
        }
      }
    }
  }

  // ---------------------------------------------------------------------
  // Paths and connectivity

  /** `s` is a non-empty walk along shared edges through cells of `S`. */
  predicate IsPath(S: set<Field>, s: seq<Field>) {
    |s| >= 1 &&
    (forall k :: 0 <= k < |s| ==> s[k] in S) &&
    (forall k :: 0 <= k < |s| - 1 ==> Adjacent(s[k], s[k + 1]))
  }

  /** `a` and `b` are joined by a path through `S`. */
  ghost predicate ConnectedIn(S: set<Field>, a: Field, b: Field) {
    exists s :: IsPath(S, s) && s[0] == a && s[|s| - 1] == b
  }

  lemma ConnectedEnds(S: set<Field>, a: Field, b: Field)
    requires ConnectedIn(S, a, b)
    ensures a in S && b in S
  {
    var s :| IsPath(S, s) && s[0] == a && s[|s| - 1] == b;
  }

  lemma ConnectedRefl(S: set<Field>, a: Field)
    requires a in S
    ensures ConnectedIn(S, a, a)
  {
    assert IsPath(S, [a]);
  }

  lemma ConnectedAdjacent(S: set<Field>, a: Field, b: Field)
    requires a in S && b in S && Adjacent(a, b)
    ensures ConnectedIn(S, a, b)
  {
    assert IsPath(S, [a, b]);
  }

  lemma ConnectedTrans(S: set<Field>, a: Field, b: Field, c: Field)
    requires ConnectedIn(S, a, b) && ConnectedIn(S, b, c)
    ensures ConnectedIn(S, a, c)
  {
    var s :| IsPath(S, s) && s[0] == a && s[|s| - 1] == b;
    var t :| IsPath(S, t) && t[0] == b && t[|t| - 1] == c;
    var u := s + t[1..];
    assert forall k :: |s| <= k < |u| ==> u[k] == t[k - |s| + 1];
    assert IsPath(S, u);
  }

  lemma ConnectedStep(S: set<Field>, a: Field, b: Field, c: Field)
    requires ConnectedIn(S, a, b) && c in S && Adjacent(b, c)
    ensures ConnectedIn(S, a, c)
  {
    ConnectedEnds(S, a, b);
    ConnectedAdjacent(S, b, c);
    ConnectedTrans(S, a, b, c);
  }

  function Reverse(s: seq<Field>): (r: seq<Field>)
    ensures |r| == |s|
    ensures forall k :: 0 <= k < |s| ==> r[k] == s[|s| - 1 - k]
  {
    if s == [] then [] else Reverse(s[1..]) + [s[0]]
  }

  lemma ConnectedSym(S: set<Field>, a: Field, b: Field)
    requires ConnectedIn(S, a, b)
    ensures ConnectedIn(S, b, a)
  {
    var s :| IsPath(S, s) && s[0] == a && s[|s| - 1] == b;
    var r := Reverse(s);
    forall k | 0 <= k < |r| - 1
      ensures Adjacent(r[k], r[k + 1])
    {
      assert Adjacent(s[|s| - 2 - k], s[|s| - 1 - k]);
    }
    assert IsPath(S, r);
  }

  lemma ConnectedMono(S: set<Field>, T: set<Field>, a: Field, b: Field)
    requires S <= T && ConnectedIn(S, a, b)
    ensures ConnectedIn(T, a, b)
  {
    var s :| IsPath(S, s) && s[0] == a && s[|s| - 1] == b;
    assert IsPath(T, s);
  }

  /** No cell of `S` adjacent to a cell of `V` lies outside `V`. */
  ghost predicate Closed(S: set<Field>, V: set<Field>) {
    forall u, v :: u in V && v in S && Adjacent(u, v) ==> v in V
  }

  lemma {:induction false} PathStaysIn(S: set<Field>, V: set<Field>, s: seq<Field>)
    requires IsPath(S, s) && s[0] in V && Closed(S, V)
    ensures forall k :: 0 <= k < |s| ==> s[k] in V
  {
    if |s| > 1 {
      assert Adjacent(s[0], s[1]);
      assert IsPath(S, s[1..]);
      PathStaysIn(S, V, s[1..]);
      assert forall k :: 1 <= k < |s| ==> s[k] == s[1..][k - 1];
    }
  }

  /** A set closed under adjacency in `S` contains everything reachable in `S` from its members. */
  lemma ClosedReach(S: set<Field>, V: set<Field>, a: Field, b: Field)
    requires a in V && Closed(S, V) && ConnectedIn(S, a, b)
    ensures b in V
  {
    var s :| IsPath(S, s) && s[0] == a && s[|s| - 1] == b;
    PathStaysIn(S, V, s);
  }

  /** Paths from inside a closed subset `T` of `S` stay inside `T`. */
  lemma ClosedWithin(S: set<Field>, T: set<Field>, a: Field, b: Field)
    requires T <= S && a in T && Closed(S, T) && ConnectedIn(S, a, b)
    ensures ConnectedIn(T, a, b)
  {
    var s :| IsPath(S, s) && s[0] == a && s[|s| - 1] == b;
    PathStaysIn(S, T, s);
    assert IsPath(T, s);
  }

  lemma {:induction false} PathCut(S: set<Field>, s: seq<Field>, d: Field, k: nat)
    requires IsPath(S, s) && s[0] != d && k < |s| && s[k] == d
    ensures exists n :: n in S && Adjacent(n, d) && ConnectedIn(S - {d}, s[0], n)
    decreases k
  {
    assert k >= 1;
    if s[1] == d {
      ConnectedRefl(S - {d}, s[0]);
      assert Adjacent(s[0], d);
    } else {
      assert IsPath(S, s[1..]) && s[1..][k - 1] == d;
      PathCut(S, s[1..], d, k - 1);
      var n :| n in S && Adjacent(n, d) && ConnectedIn(S - {d}, s[1], n);
      ConnectedAdjacent(S - {d}, s[0], s[1]);
      ConnectedTrans(S - {d}, s[0], s[1], n);
    }
  }

  /**
   * A path from `a` to a different cell `d` reaches, without passing
   * through `d`, some neighbour of `d`.
   */
  lemma CutBefore(S: set<Field>, a: Field, d: Field)
    requires ConnectedIn(S, a, d) && a != d
    ensures exists n :: n in S && Adjacent(n, d) && ConnectedIn(S - {d}, a, n)
  {
    var s :| IsPath(S, s) && s[0] == a && s[|s| - 1] == d;
    PathCut(S, s, d, |s| - 1);
  }
}
