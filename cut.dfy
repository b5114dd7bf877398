/**
 * Cells that can be taken out of a connected set of cells without cutting
 * it in two. Every connected set has one, which is why a player always
 * has a cell whose removal leaves the number of its areas as it was.
 */
module Cut {
  import opened Fields
  import opened Grid
  import opened Flood

  /** Any two cells of `S` are joined by a path through `S`. */
  ghost predicate Connected(S: set<Field>) {
    forall a, b :: a in S && b in S ==> ConnectedIn(S, a, b)
  }

  /** A set whose every cell reaches the hub `x` through it is connected. */
  lemma HubConnected(S: set<Field>, x: Field)
    requires forall y :: y in S ==> ConnectedIn(S, y, x)
    ensures Connected(S)
  {
    forall a, b | a in S && b in S
      ensures ConnectedIn(S, a, b)
    {
      ConnectedSym(S, b, x);
      ConnectedTrans(S, a, x, b);
    }
  }

  /** A component is closed under adjacency within its set. */
  lemma CompClosed(S: set<Field>, f: Field)
    ensures Closed(S, Comp(S, f))
  {
    forall u, v | u in Comp(S, f) && v in S && Adjacent(u, v)
      ensures v in Comp(S, f)
    {
      CompStep(S, f, u, v);
    }
  }

  /** A component is connected through its own cells. */
  lemma CompConnected(S: set<Field>, f: Field)
    requires f in S
    ensures f in Comp(S, f) && Connected(Comp(S, f))
  {
    var A := Comp(S, f);
    ConnectedRefl(S, f);
    CompClosed(S, f);
    forall y | y in A
      ensures ConnectedIn(A, y, f)
    {
      ClosedWithin(S, A, f, y);
      ConnectedSym(A, f, y);
    }
    HubConnected(A, f);
  }

  /**
   * A connected set of at least two cells has, besides any given cell
   * `v`, a cell whose removal leaves it connected.
   */
  lemma {:induction false} KeepsConnected(S: set<Field>, v: Field) returns (u: Field)
    requires Connected(S) && v in S && |S| >= 2
    ensures u in S && u != v && Connected(S - {u})
    decreases |S|
  {
    var x := Another(S, v);
    if Connected(S - {x}) {
      return x;
    }
    var d := SideOf(S, x, v);
    var D := Comp(S - {x}, d);
    CutSide(S, x, D, d);
    Smaller(D + {x}, S, v);
    var w := KeepsConnected(D + {x}, x);
    Rejoined(S, x, D, d, w);
    return w;
  }

  /** A subset missing a cell of the set is smaller. */
  lemma Smaller(A: set<Field>, B: set<Field>, v: Field)
    requires A <= B && v in B && v !in A
    ensures |A| < |B|
  {
    var C := B - A - {v};
    assert B == A + C + {v};
    assert A !! C;
  }

  /** A set of at least two cells has a cell other than `v`. */
  lemma Another(S: set<Field>, v: Field) returns (x: Field)
    requires |S| >= 2
    ensures x in S && x != v
  {
    if v in S {
      assert S == (S - {v}) + {v};
    } else {
      assert S - {v} == S;
    }
    assert |S - {v}| >= 1;
    x :| x in S - {v};
  }

  /**
   * When `x` cuts the connected set `S`, some component of `S - {x}`
   * misses `v`: the one of the cell `d`.
   */
  lemma SideOf(S: set<Field>, x: Field, v: Field) returns (d: Field)
    requires !Connected(S - {x})
    ensures d in S - {x} && v !in Comp(S - {x}, d)
  {
    var S' := S - {x};
    var a, b :| a in S' && b in S' && !ConnectedIn(S', a, b);
    d := a;
    if v in Comp(S', a) {
      d := b;
      if v in Comp(S', b) {
        ConnectedSym(S', b, v);
        ConnectedTrans(S', a, v, b);
      }
    }
  }

  /** The component `D` of `d` in `S - {x}`, with `x`, is a connected set of at least two cells. */
  lemma CutSide(S: set<Field>, x: Field, D: set<Field>, d: Field)
    requires Connected(S) && x in S && d in S - {x} && D == Comp(S - {x}, d)
    ensures D + {x} <= S && Connected(D + {x}) && |D + {x}| >= 2 && d in D
  {
    var T := D + {x};
    ConnectedRefl(S - {x}, d);
    CompClosed(S - {x}, d);
    forall t | t in T
      ensures ConnectedIn(T, t, x)
    {
      if t == x {
        ConnectedRefl(T, x);
      } else {
        ReachesCut(S, x, D, d, t);
      }
    }
    HubConnected(T, x);
    assert {d, x} <= T;
  }

  /**
   * Taking out a cell `w` that does not cut `D + {x}` leaves `S`
   * connected: the cells of `D` reach `x` inside `D + {x}`, the others
   * without entering `D`.
   */
  lemma Rejoined(S: set<Field>, x: Field, D: set<Field>, d: Field, w: Field)
    requires Connected(S) && x in S && D == Comp(S - {x}, d)
    requires w in D + {x} && w != x && Connected(D + {x} - {w})
    ensures Connected(S - {w})
  {
    var T := D + {x};
    forall y | y in S - {w}
      ensures ConnectedIn(S - {w}, y, x)
    {
      if y in T {
        ConnectedMono(T - {w}, S - {w}, y, x);
      } else {
        AvoidsComp(S, x, D, d, w, y);
      }
    }
    HubConnected(S - {w}, x);
  }

  /** A cell of the component `D` of `S - {x}` reaches `x` through `D` and `x` alone. */
  lemma ReachesCut(S: set<Field>, x: Field, D: set<Field>, d: Field, t: Field)
    requires Connected(S) && x in S && D == Comp(S - {x}, d) && Closed(S - {x}, D)
    requires t in D
    ensures ConnectedIn(D + {x}, t, x)
  {
    var T := D + {x};
    var S' := S - {x};
    CutBefore(S, t, x);
    var n :| n in S && Adjacent(n, x) && ConnectedIn(S', t, n);
    ClosedWithin(S', D, t, n);
    ConnectedMono(D, T, t, n);
    ConnectedStep(T, t, n, x);
  }

  /**
   * A cell `y` of `S` outside `D + {x}` reaches `x` without passing
   * through any cell `w` of `D`, the component of `d` in `S - {x}`.
   */
  lemma AvoidsComp(S: set<Field>, x: Field, D: set<Field>, d: Field, w: Field, y: Field)
    requires Connected(S) && x in S && D == Comp(S - {x}, d)
    requires w in D && y in S && y !in D && y != x
    ensures ConnectedIn(S - {w}, y, x)
  {
    var S' := S - {x};
    var E := Comp(S', y);
    ConnectedRefl(S', y);
    CompClosed(S', y);
    if w in E {
      ConnectedSym(S', y, w);
      ConnectedTrans(S', d, w, y);
    }
    CutBefore(S, y, x);
    var n :| n in S && Adjacent(n, x) && ConnectedIn(S', y, n);
    ClosedWithin(S', E, y, n);
    ConnectedMono(E, S - {w}, y, n);
    ConnectedStep(S - {w}, y, n, x);
  }

  /** Every non-empty connected set has a cell whose removal leaves it connected. */
  lemma NonCut(S: set<Field>, g: Field) returns (u: Field)
    requires Connected(S) && g in S
    ensures u in S && Connected(S - {u})
  {
    if |S| >= 2 {
      u := KeepsConnected(S, g);
    } else {
      assert S == (S - {g}) + {g};
      assert S - {g} == {};
      u := g;
    }
  }
}
