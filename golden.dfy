/**
 * The golden move as values: when a player may take a cell of another
 * player, what the board looks like after the swap, and how two swaps on
 * the same cell, or a swap and the limit on areas, relate.
 */
module Golden {
  import opened Fields
  import opened Grid
  import opened Areas
  import opened Moves
  import opened Removal
  import opened Flood
  import opened Cut

  /** `p` owns a cell adjacent to `c`. */
  ghost predicate HasNbr(owner: map<Field, nat>, c: Field, p: nat) {
    exists g :: g in owner && Adjacent(c, g) && owner[g] == p
  }

  /**
   * The number of distinct areas of `q` around `c` once `c` is emptied:
   * the areas a removal of `c` leaves where one was, and the areas a move
   * of `q` onto the emptied `c` joins.
   */
  ghost function Splits(owner: map<Field, nat>, c: Field, q: nat): nat {
    DistinctComps(OwnedBy(owner[c := 0], q), SameNbrs(owner[c := 0], c, q, Directions))
  }

  /**
   * The cell (x, y) is one `p` may aim a golden move at: `p` is a player,
   * the cell is on the board and owned by another player.
   */
  ghost predicate Target(b: Board, p: nat, x: nat, y: nat) {
    && 1 <= p <= |b.ps| && x < b.width && y < b.height && Field(x, y) in b.owner
    && b.owner[Field(x, y)] != 0 && b.owner[Field(x, y)] != p && b.owner[Field(x, y)] <= |b.ps|
  }

  /**
   * The decision of `delete_and_move` for player `p` on the target `c`:
   * `p` has fewer areas than allowed or owns a neighbour of `c`, and the
   * owner `q` of `c` is left with at most `max` areas once `c` is removed.
   */
  ghost predicate GoldenFits(b: Board, max: nat, p: nat, c: Field)
    requires 1 <= p <= |b.ps| && c in b.owner && 1 <= b.owner[c] <= |b.ps|
  {
    && (b.ps[p - 1].numAreas < max || HasNbr(b.owner, c, p))
    && b.ps[b.owner[c] - 1].numAreas + Splits(b.owner, c, b.owner[c]) <= max + 1
  }

  /**
   * `gamma_golden_move` lets `p` take (x, y) on `b`: the cell is a target
   * of `p`, `p` has not played its golden move, and `delete_and_move`
   * succeeds.
   */
  ghost predicate GoldenLegal(b: Board, max: nat, p: nat, x: nat, y: nat) {
    GoldenTarget(b, max, p, x, y) && !b.ps[p - 1].hasPlayedGolden
  }

  /**
   * A golden move of `p` onto (x, y) would succeed if `p` had not played
   * one yet: what `golden_no_checking_nor_changing` tries.
   */
  ghost predicate GoldenTarget(b: Board, max: nat, p: nat, x: nat, y: nat) {
    Target(b, p, x, y) && GoldenFits(b, max, p, Field(x, y))
  }

  /** A player other than `p` owns a cell, by the counters of `ps`. */
  ghost predicate OtherBusy(ps: seq<Player>, p: nat) {
    exists i :: 0 <= i < |ps| && i != p - 1 && ps[i].busyFields > 0
  }

  /**
   * The answer of `gamma_golden_possible`: `p` is a player who has not
   * played its golden move, another player owns a cell, and either `p`
   * has fewer areas than allowed (which the source takes as enough,
   * without looking for a target) or some cell is a target on which the
   * golden move would succeed.
   */
  ghost predicate GoldenPossible(b: Board, max: nat, p: nat) {
    && 1 <= p <= |b.ps| && !b.ps[p - 1].hasPlayedGolden && OtherBusy(b.ps, p)
    && (b.ps[p - 1].numAreas < max || exists x: nat, y: nat :: GoldenTarget(b, max, p, x, y))
  }

  /**
   * The record `pl'` of a player who took a cell touching `d` of their
   * distinct areas, with golden flag `golden`.
   */
  ghost predicate Gained(pl: Player, pl': Player, d: nat, golden: bool) {
    && pl'.hasPlayedGolden == golden && pl'.busyFields == pl.busyFields + 1
    && pl'.numAreas + d == pl.numAreas + 1
  }

  /**
   * `b'` is a board a swap may leave: the cell `c` of `q` on `b` now
   * belongs to `p`, the board is sound, the number of empty cells and the
   * records of the other players are unchanged, `q` has the record of a
   * removal and `p` that of a move, with golden flag `golden`.
   */
  ghost predicate Swapped(b: Board, b': Board, c: Field, p: nat, golden: bool) {
    b' in SwapBoards(b, c, p, golden)
  }

  ghost function SwapBoards(b: Board, c: Field, p: nat, golden: bool): iset<Board> {
    iset b': Board | SwapBody(b, b', c, p, golden)
  }

  ghost predicate SwapBody(b: Board, b': Board, c: Field, p: nat, golden: bool) {
    && Sound(b') && b'.width == b.width && b'.height == b.height
    && c in b.owner && 1 <= p <= |b.ps| && 1 <= b.owner[c] <= |b.ps| && b.owner[c] != p
    && b'.owner == b.owner[c := p] && b'.empty == b.empty
    && SwapRecords(b.ps, b'.ps, b.owner[c], p, Splits(b.owner, c, b.owner[c]), Splits(b.owner, c, p), golden)
  }

  /**
   * The records after a swap from `q` to `p`: `q` has those of a removal
   * touching `dq` areas, `p` those of a move touching `dp` areas with
   * golden flag `golden`, and the others are unchanged.
   */
  ghost predicate SwapRecords(ps: seq<Player>, ps': seq<Player>, q: nat, p: nat, dq: nat, dp: nat, golden: bool) {
    && 1 <= p <= |ps| && 1 <= q <= |ps| && p != q && |ps'| == |ps|
    && (forall i :: 0 <= i < |ps| && i != p - 1 && i != q - 1 ==> ps'[i] == ps[i])
    && Removed(ps[q - 1], ps'[q - 1], dq) && Gained(ps[p - 1], ps'[p - 1], dp, golden)
  }

  lemma SwapParts(b: Board, b': Board, c: Field, p: nat, golden: bool)
    requires Swapped(b, b', c, p, golden)
    ensures SwapBody(b, b', c, p, golden)
  {
  }

  /** The records a swap leaves, without the rest of the board. */
  lemma SwapRecordsOf(b: Board, b': Board, c: Field, p: nat, golden: bool)
    requires Swapped(b, b', c, p, golden)
    ensures c in b.owner && 1 <= p <= |b.ps| && 1 <= b.owner[c] <= |b.ps|
    ensures SwapRecords(b.ps, b'.ps, b.owner[c], p, Splits(b.owner, c, b.owner[c]), Splits(b.owner, c, p), golden)
  {
    SwapParts(b, b', c, p, golden);
  }

  lemma SwapIntro(b: Board, b': Board, c: Field, p: nat, golden: bool)
    requires SwapBody(b, b', c, p, golden)
    ensures Swapped(b, b', c, p, golden)
  {
  }

  /**
   * A removal of the cell `c` of `q` followed by a move of another player
   * `p` onto it is a swap that keeps the golden flag of `p`.
   */
  lemma SwapChain(b: Board, b1: Board, b2: Board, c: Field, q: nat, p: nat)
    requires RemovedBoard(b, b1, c, q) && MovedBoard(b1, b2, c, p) && p != q
    ensures Swapped(b, b2, c, p, b.ps[p - 1].hasPlayedGolden)
  {
    RemovedBoardParts(b, b1, c, q);
    MovedBoardParts(b1, b2, c, p);
    OwnerTwice(b.owner, c, 0, p);
    RecordsChain(b.ps, b1.ps, b2.ps, q, p, Splits(b.owner, c, q), Splits(b.owner, c, p));
    SwapIntro(b, b2, c, p, b.ps[p - 1].hasPlayedGolden);
  }

  /** Giving `c` two owners in a row leaves it the second. */
  lemma OwnerTwice(O: map<Field, nat>, c: Field, a: nat, p: nat)
    ensures O[c := a][c := p] == O[c := p]
  {
  }

  /** The records of a removal from `q` and then of a move of `p` are those of a swap. */
  lemma RecordsChain(ps: seq<Player>, ps1: seq<Player>, ps2: seq<Player>, q: nat, p: nat, dq: nat, dp: nat)
    requires 1 <= p <= |ps| && 1 <= q <= |ps| && p != q && |ps1| == |ps| && |ps2| == |ps|
    requires forall i :: 0 <= i < |ps| && i != q - 1 ==> ps1[i] == ps[i]
    requires forall i :: 0 <= i < |ps| && i != p - 1 ==> ps2[i] == ps1[i]
    requires Removed(ps[q - 1], ps1[q - 1], dq) && Moved(ps1[p - 1], ps2[p - 1], dp)
    ensures SwapRecords(ps, ps2, q, p, dq, dp, ps[p - 1].hasPlayedGolden)
  {
  }

  /** Setting the golden flag of `p` on a swap's board makes it a swap with that flag. */
  lemma SwapFlag(b: Board, b': Board, c: Field, p: nat, golden: bool, flag: bool)
    requires Swapped(b, b', c, p, golden)
    ensures Swapped(b, b'.(ps := b'.ps[p - 1 := b'.ps[p - 1].(hasPlayedGolden := flag)]), c, p, flag)
  {
    SwapParts(b, b', c, p, golden);
    FlagSound(b', p, flag);
    var b'' := b'.(ps := b'.ps[p - 1 := b'.ps[p - 1].(hasPlayedGolden := flag)]);
    assert SwapRecords(b.ps, b''.ps, b.owner[c], p, Splits(b.owner, c, b.owner[c]), Splits(b.owner, c, p), flag);
    SwapIntro(b, b'', c, p, flag);
  }

  /** A golden swap by `p` that fits the game still fits it, and records the golden move, once `p`'s flag is set. */
  lemma MarkGolden(b: Board, b': Board, c: Field, p: nat, max: nat, w: nat, h: nat, np: nat)
    requires Swapped(b, b', c, p, false) && Fits(b', w, h, np, max) && 1 <= p <= np
    ensures |b'.ps| == np
    ensures Swapped(b, b'.(ps := b'.ps[p - 1 := b'.ps[p - 1].(hasPlayedGolden := true)]), c, p, true)
    ensures Fits(b'.(ps := b'.ps[p - 1 := b'.ps[p - 1].(hasPlayedGolden := true)]), w, h, np, max)
  {
    FitsParts(b', w, h, np, max);
    SwapFlag(b, b', c, p, false, true);
    FlagFits(b', p, true, w, h, np, max);
  }

  /** The golden flags take no part in the soundness of a board. */
  lemma FlagSound(b: Board, p: nat, flag: bool)
    requires Sound(b) && 1 <= p <= |b.ps|
    ensures Sound(b.(ps := b.ps[p - 1 := b.ps[p - 1].(hasPlayedGolden := flag)]))
  {
    var ps := b.ps[p - 1 := b.ps[p - 1].(hasPlayedGolden := flag)];
    assert b in SoundBoards(b.width, b.height);
    assert b.ps in Tallies(b.owner, b.forest.root, b.empty);
    assert forall i :: 0 <= i < |ps| ==> ps[i].busyFields == b.ps[i].busyFields && ps[i].numAreas == b.ps[i].numAreas;
    assert ps in Tallies(b.owner, b.forest.root, b.empty);
    assert b.(ps := ps) in SoundBoards(b.width, b.height);
  }

  /** Clearing the golden flag of `p` and then setting it back gives the records back. */
  lemma FlagRestored(ps: seq<Player>, p: nat)
    requires 1 <= p <= |ps|
    ensures var ps1 := ps[p - 1 := ps[p - 1].(hasPlayedGolden := false)];
      ps1[p - 1 := ps1[p - 1].(hasPlayedGolden := ps[p - 1].hasPlayedGolden)] == ps
  {
  }

  /** The golden flags take no part in whether a board fits the game. */
  lemma FlagFits(b: Board, p: nat, flag: bool, w: nat, h: nat, np: nat, max: nat)
    requires Fits(b, w, h, np, max) && 1 <= p <= |b.ps|
    ensures Fits(b.(ps := b.ps[p - 1 := b.ps[p - 1].(hasPlayedGolden := flag)]), w, h, np, max)
  {
    FitsParts(b, w, h, np, max);
    FlagSound(b, p, flag);
    var b' := b.(ps := b.ps[p - 1 := b.ps[p - 1].(hasPlayedGolden := flag)]);
    assert b' in FitBoards(w, h, np, max);
  }

  /**
   * A swap `delete_and_move` lets through keeps every player within the
   * limit: `p` either had room for a new area or joins one of its own,
   * and `q` was checked.
   */
  lemma SwapCapped(b: Board, ps': seq<Player>, c: Field, p: nat, golden: bool, max: nat)
    requires c in b.owner && 1 <= p <= |b.ps| && 1 <= b.owner[c] <= |b.ps|
    requires SwapRecords(b.ps, ps', b.owner[c], p, Splits(b.owner, c, b.owner[c]), Splits(b.owner, c, p), golden)
    requires AreasCapped(b.ps, max) && GoldenFits(b, max, p, c)
    ensures AreasCapped(ps', max)
  {
    if b.ps[p - 1].numAreas >= max {
      SplitsPositive(b.owner, c, p);
    }
    RecordsCapped(b.ps, ps', b.owner[c], p, Splits(b.owner, c, b.owner[c]), Splits(b.owner, c, p), golden, max);
  }

  /** Records of a swap within the limit stay within it when `p` and `q` do. */
  lemma RecordsCapped(ps: seq<Player>, ps': seq<Player>, q: nat, p: nat, dq: nat, dp: nat, golden: bool, max: nat)
    requires SwapRecords(ps, ps', q, p, dq, dp, golden) && AreasCapped(ps, max)
    requires ps[p - 1].numAreas < max || dp >= 1
    requires ps[q - 1].numAreas + dq <= max + 1
    ensures AreasCapped(ps', max)
  {
  }

  /** A neighbour of `c` owned by `q` lies in an area of `q` around `c`. */
  lemma SplitsPositive(owner: map<Field, nat>, c: Field, q: nat)
    requires HasNbr(owner, c, q)
    ensures Splits(owner, c, q) >= 1
  {
    var O := owner[c := 0];
    NbrsEmpty(owner, c, q);
    CompsPositive(OwnedBy(O, q), SameNbrs(O, c, q, Directions));
  }

  /** `p` owns a neighbour of `c` exactly when it has one once `c` is emptied. */
  lemma NbrsEmpty(owner: map<Field, nat>, c: Field, p: nat)
    ensures SameNbrs(owner[c := 0], c, p, Directions) != [] <==> HasNbr(owner, c, p)
  {
    var ns := SameNbrs(owner[c := 0], c, p, Directions);
    if ns != [] {
      assert ns[0] in ns;
    }
    if HasNbr(owner, c, p) {
      var g :| g in owner && Adjacent(c, g) && owner[g] == p;
      assert g in ns;
    }
  }

  /**
   * Swapping the cell back to its old owner `q` right after a swap is
   * what `delete_and_move` would let through: `q` either had an area
   * around `c`, or lost one with it and so has room for a new one; and
   * `p` is left with the areas it had before the first swap.
   */
  lemma SwapReturns(b: Board, b': Board, c: Field, p: nat, golden: bool, max: nat)
    requires Swapped(b, b', c, p, golden) && AreasCapped(b.ps, max)
    ensures Target(b', b.owner[c], c.x, c.y) && GoldenFits(b', max, b.owner[c], c)
  {
    SwapParts(b, b', c, p, golden);
    var q := b.owner[c];
    ShapedSound(b');
    SplitsAfter(b.owner, c, p, q);
    SplitsAfter(b.owner, c, p, p);
    if !HasNbr(b.owner, c, q) {
      NoSplits(b.owner, c, q);
    }
    RecordsReturn(b.ps, b'.ps, q, p, Splits(b.owner, c, q), Splits(b.owner, c, p), golden, max);
  }

  /** Changing the owner of `c` changes neither the areas around it nor who owns a neighbour. */
  lemma SplitsAfter(owner: map<Field, nat>, c: Field, a: nat, q: nat)
    ensures Splits(owner[c := a], c, q) == Splits(owner, c, q)
    ensures HasNbr(owner[c := a], c, q) == HasNbr(owner, c, q)
  {
    OwnerTwice(owner, c, a, 0);
    NbrsEmpty(owner, c, q);
    NbrsEmpty(owner[c := a], c, q);
  }

  /** Without a neighbour of `q`, there is no area of `q` around `c`. */
  lemma NoSplits(owner: map<Field, nat>, c: Field, q: nat)
    requires !HasNbr(owner, c, q)
    ensures Splits(owner, c, q) == 0
  {
    NbrsEmpty(owner, c, q);
    NoCompsOfEmpty(OwnedBy(owner[c := 0], q));
  }

  /**
   * After a swap from `q` to `p`, `p` losing the cell again is left with
   * the areas it had, and `q` had room or an area around the cell.
   */
  lemma RecordsReturn(ps: seq<Player>, ps': seq<Player>, q: nat, p: nat, dq: nat, dp: nat, golden: bool, max: nat)
    requires SwapRecords(ps, ps', q, p, dq, dp, golden) && AreasCapped(ps, max)
    ensures ps'[p - 1].numAreas + dp <= max + 1
    ensures dq == 0 ==> ps'[q - 1].numAreas < max
  {
  }

  /** A sound board has owners within its players. */
  lemma ShapedSound(b: Board)
    requires Sound(b)
    ensures b.owner.Keys == Cells(b.width, b.height) && forall f :: f in b.owner ==> b.owner[f] <= |b.ps|
  {
    assert b in SoundBoards(b.width, b.height);
  }

  /**
   * Two swaps on the same cell, the second giving it back to its old
   * owner, restore the owners, the number of empty cells and every
   * record, golden flags included, when the second keeps the flag the
   * first found.
   */
  lemma SwapBack(b: Board, b1: Board, b2: Board, c: Field, p: nat, q: nat, g1: bool, g2: bool)
    requires Swapped(b, b1, c, p, g1) && Swapped(b1, b2, c, q, g2)
    requires c in b.owner && q == b.owner[c] && 1 <= p <= |b.ps| && g1 == b.ps[p - 1].hasPlayedGolden
    requires 1 <= q <= |b1.ps| && g2 == b1.ps[q - 1].hasPlayedGolden
    ensures b2.owner == b.owner && b2.empty == b.empty && b2.ps == b.ps
  {
    SwapFacts(b, b1, c, p, g1);
    SwapFacts(b1, b2, c, q, g2);
    SplitsAfter(b.owner, c, p, q);
    SplitsAfter(b.owner, c, p, p);
    OwnerBack(b.owner, c, q, p);
    RecordsBackSwap(b.ps, b1.ps, b2.ps, q, p, Splits(b.owner, c, q), Splits(b.owner, c, p));
  }

  /** What a swap does to the owners, the empty count and the records. */
  lemma SwapFacts(b: Board, b': Board, c: Field, p: nat, golden: bool)
    requires Swapped(b, b', c, p, golden)
    ensures c in b.owner && b'.owner == b.owner[c := p] && b'.empty == b.empty
    ensures SwapRecords(b.ps, b'.ps, b.owner[c], p, Splits(b.owner, c, b.owner[c]), Splits(b.owner, c, p), golden)
  {
    SwapParts(b, b', c, p, golden);
  }

  /** The records of a swap from `q` to `p` and of one straight back are the first ones. */
  lemma RecordsBackSwap(ps: seq<Player>, ps1: seq<Player>, ps2: seq<Player>, q: nat, p: nat, dq: nat, dp: nat)
    requires 1 <= p <= |ps| && SwapRecords(ps, ps1, q, p, dq, dp, ps[p - 1].hasPlayedGolden)
    requires SwapRecords(ps1, ps2, p, q, dp, dq, ps1[q - 1].hasPlayedGolden)
    ensures ps2 == ps
  {
    assert forall i :: 0 <= i < |ps| ==> ps2[i] == ps[i];
  }

  // ---------------------------------------------------------------------
  // The steps of `delete_and_move`

  /** What a removal of the cell `c` of `q` does, with the areas it leaves counted by `Splits`. */
  lemma RemovedFacts(b: Board, b1: Board, c: Field, q: nat)
    requires RemovedBoard(b, b1, c, q)
    ensures Sound(b1) && b1.width == b.width && b1.height == b.height
    ensures c in b.owner && b.owner[c] == q && b1.owner == b.owner[c := 0] && b1.empty == b.empty + 1
    ensures 1 <= q <= |b.ps| && |b1.ps| == |b.ps| && forall i :: 0 <= i < |b.ps| && i != q - 1 ==> b1.ps[i] == b.ps[i]
    ensures b1.ps[q - 1].numAreas + 1 == b.ps[q - 1].numAreas + Splits(b.owner, c, q)
  {
    RemovedBoardParts(b, b1, c, q);
  }

  /**
   * When the removal of `c` leaves its old owner `q` above the limit, the
   * cell split an area of `q`, so `q` owns a neighbour of it and may take
   * it back.
   */
  lemma RollbackLegal(b: Board, b1: Board, c: Field, q: nat, max: nat)
    requires RemovedBoard(b, b1, c, q) && AreasCapped(b.ps, max)
    requires 1 <= q <= |b1.ps| && b1.ps[q - 1].numAreas > max
    ensures Legal(b1, max, q, c.x, c.y)
  {
    RemovedFacts(b, b1, c, q);
    ShapedSound(b1);
    SplitsAfter(b.owner, c, 0, q);
    if !HasNbr(b.owner, c, q) {
      NoSplits(b.owner, c, q);
    }
  }

  /**
   * After the removal of the cell `c` of `q`, another player `n` that has
   * room for an area or owns a neighbour of `c` may take it.
   */
  lemma MoveAfterRemove(b: Board, b1: Board, c: Field, q: nat, n: nat, max: nat)
    requires RemovedBoard(b, b1, c, q) && 1 <= n <= |b.ps| && n != q
    requires b.ps[n - 1].numAreas < max || HasNbr(b.owner, c, n)
    ensures Legal(b1, max, n, c.x, c.y)
  {
    RemovedFacts(b, b1, c, q);
    ShapedSound(b1);
    SplitsAfter(b.owner, c, 0, n);
  }

  /**
   * Once `n` passed the first test of `delete_and_move`, the golden move
   * fits exactly when the removal of the cell `c` of `q` leaves `q` within
   * the limit.
   */
  lemma FitsDecided(b: Board, b1: Board, c: Field, q: nat, n: nat, max: nat)
    requires RemovedBoard(b, b1, c, q) && 1 <= n <= |b.ps| && n != q
    requires b.ps[n - 1].numAreas < max || HasNbr(b.owner, c, n)
    ensures 1 <= q <= |b1.ps| && (GoldenFits(b, max, n, c) <==> b1.ps[q - 1].numAreas <= max)
  {
    RemovedCount(b, b1, c, q);
    FitsByCount(b, b1.ps[q - 1].numAreas, c, q, n, max);
  }

  /** `FitsDecided` once the areas `k` the removal leaves `q` are known. */
  lemma FitsByCount(b: Board, k: nat, c: Field, q: nat, n: nat, max: nat)
    requires c in b.owner && b.owner[c] == q && 1 <= q <= |b.ps| && 1 <= n <= |b.ps| && n != q
    requires k + 1 == b.ps[q - 1].numAreas + Splits(b.owner, c, q)
    requires b.ps[n - 1].numAreas < max || HasNbr(b.owner, c, n)
    ensures GoldenFits(b, max, n, c) <==> k <= max
  {
  }

  /** How many areas the owner `q` of `c` has after its removal. */
  lemma RemovedCount(b: Board, b1: Board, c: Field, q: nat)
    requires RemovedBoard(b, b1, c, q)
    ensures c in b.owner && b.owner[c] == q && 1 <= q <= |b.ps| && |b1.ps| == |b.ps|
    ensures b1.ps[q - 1].numAreas + 1 == b.ps[q - 1].numAreas + Splits(b.owner, c, q)
  {
    RemovedBoardParts(b, b1, c, q);
  }

  /** A swap that `delete_and_move` lets through keeps a board fitting the game. */
  lemma SwapFits(b: Board, b': Board, c: Field, p: nat, golden: bool, max: nat, w: nat, h: nat, np: nat)
    requires Fits(b, w, h, np, max) && Swapped(b, b', c, p, golden) && GoldenFits(b, max, p, c)
    ensures Fits(b', w, h, np, max)
  {
    FitsParts(b, w, h, np, max);
    SwapRecordsOf(b, b', c, p, golden);
    SwapCapped(b, b'.ps, c, p, golden, max);
    SwapParts(b, b', c, p, golden);
    assert b' in FitBoards(w, h, np, max);
  }

  /** A sound board with the size and the records of a board fitting the game fits it too. */
  lemma RestoredFits(b: Board, b': Board, max: nat, w: nat, h: nat, np: nat)
    requires Fits(b, w, h, np, max) && Sound(b')
    requires b'.width == b.width && b'.height == b.height && b'.ps == b.ps
    ensures Fits(b', w, h, np, max)
  {
    FitsParts(b, w, h, np, max);
    assert b' in FitBoards(w, h, np, max);
  }

  /**
   * `gamma_golden_possible` misses no golden move: whenever one is legal
   * on a sound board, the query says so.
   */
  lemma GoldenPossibleComplete(b: Board, max: nat, p: nat, x: nat, y: nat)
    requires Sound(b) && GoldenLegal(b, max, p, x, y)
    ensures GoldenPossible(b, max, p)
  {
    var q := b.owner[Field(x, y)];
    OwnerCounts(b, Field(x, y), q);
    assert b.ps[q - 1].busyFields > 0;
  }

  /**
   * Where `p` has as many areas as allowed, the query is exact: it says
   * yes only when some golden move is legal.
   */
  lemma GoldenPossibleSound(b: Board, max: nat, p: nat)
    requires GoldenPossible(b, max, p) && b.ps[p - 1].numAreas >= max
    ensures exists x: nat, y: nat :: GoldenLegal(b, max, p, x, y)
  {
    var x: nat, y: nat :| GoldenTarget(b, max, p, x, y);
    assert GoldenLegal(b, max, p, x, y);
  }

  /**
   * `gamma_golden_possible` is exact on a board that fits the game: it
   * says yes just when some golden move of `p` is legal, the shortcut
   * taken when `p` has fewer areas than allowed included.
   */
  lemma GoldenPossibleExact(b: Board, w: nat, h: nat, np: nat, max: nat, p: nat)
    requires Fits(b, w, h, np, max)
    ensures GoldenPossible(b, max, p) <==> exists x: nat, y: nat :: GoldenLegal(b, max, p, x, y)
  {
    FitsParts(b, w, h, np, max);
    if exists x: nat, y: nat :: GoldenLegal(b, max, p, x, y) {
      var x: nat, y: nat :| GoldenLegal(b, max, p, x, y);
      GoldenPossibleComplete(b, max, p, x, y);
    }
    if GoldenPossible(b, max, p) {
      if b.ps[p - 1].numAreas >= max {
        GoldenPossibleSound(b, max, p);
      } else {
        var c := ShortcutTarget(b, max, p);
        assert GoldenLegal(b, max, p, c.x, c.y);
      }
    }
  }

  /**
   * When `p` has fewer areas than allowed and another player `q` owns a
   * cell, a cell of `q` that does not cut its area is a golden target:
   * taking it leaves `q` at most as many areas as before.
   */
  lemma ShortcutTarget(b: Board, max: nat, p: nat) returns (c: Field)
    requires Sound(b) && AreasCapped(b.ps, max)
    requires 1 <= p <= |b.ps| && OtherBusy(b.ps, p) && b.ps[p - 1].numAreas < max
    ensures c == Field(c.x, c.y) && GoldenTarget(b, max, p, c.x, c.y)
  {
    var g := OtherCell(b, p);
    c := QuietCell(b.owner, b.owner[g], g);
    ShapedOf(b);
    QuietTarget(b, max, p, c);
  }

  /** When the counters say another player owns a cell, there is such a cell. */
  lemma OtherCell(b: Board, p: nat) returns (g: Field)
    requires Sound(b) && OtherBusy(b.ps, p)
    ensures g in b.owner && b.owner[g] != 0 && b.owner[g] != p
  {
    var i :| 0 <= i < |b.ps| && i != p - 1 && b.ps[i].busyFields > 0;
    SoundCounts(b, i + 1);
    g :| g in OwnedBy(b.owner, i + 1);
  }

  /** A cell of another player whose removal splits nothing is a target of a player below the limit. */
  lemma QuietTarget(b: Board, max: nat, p: nat, c: Field)
    requires Shaped(b) && AreasCapped(b.ps, max) && 1 <= p <= |b.ps| && b.ps[p - 1].numAreas < max
    requires c in b.owner && b.owner[c] != 0 && b.owner[c] != p && Splits(b.owner, c, b.owner[c]) <= 1
    ensures c == Field(c.x, c.y) && GoldenTarget(b, max, p, c.x, c.y)
  {
    assert Target(b, p, c.x, c.y);
  }

  /**
   * Any player `q` who owns a cell `g` owns one whose removal leaves at
   * most one area of `q` where its area was.
   */
  lemma QuietCell(owner: map<Field, nat>, q: nat, g: Field) returns (c: Field)
    requires g in owner && owner[g] == q && q != 0
    ensures c in owner && owner[c] == q && Splits(owner, c, q) <= 1
  {
    var S := OwnedBy(owner, q);
    CompConnected(S, g);
    CompClosed(S, g);
    c := NonCut(Comp(S, g), g);
    NonCutSplits(owner, c, q, Comp(S, g));
  }

  /**
   * Emptying a cell `c` of `q` that does not cut the set `A` of `q`'s
   * cells around it, closed under adjacency, leaves the neighbours of `c`
   * owned by `q` in one area.
   */
  lemma NonCutSplits(owner: map<Field, nat>, c: Field, q: nat, A: set<Field>)
    requires c in owner && owner[c] == q && q != 0
    requires c in A && A <= OwnedBy(owner, q) && Closed(OwnedBy(owner, q), A) && Connected(A - {c})
    ensures Splits(owner, c, q) <= 1
  {
    var T := OwnedBy(owner[c := 0], q);
    var ns := SameNbrs(owner[c := 0], c, q, Directions);
    assert A - {c} <= T;
    forall k | 0 <= k < |ns|
      ensures ns[k] in A - {c}
    {
      assert ns[k] in OwnedBy(owner, q);
    }
    forall k | 0 < k < |ns|
      ensures ConnectedIn(T, ns[0], ns[k])
    {
      ConnectedMono(A - {c}, T, ns[0], ns[k]);
    }
    OneComp(T, ns);
  }

  /** Cells all joined to the first of them touch one component at most. */
  lemma {:induction false} OneComp(S: set<Field>, xs: seq<Field>)
    requires forall k :: 0 < k < |xs| ==> ConnectedIn(S, xs[0], xs[k])
    ensures DistinctComps(S, xs) <= 1
  {
    if |xs| >= 2 {
      var ys := xs[..|xs| - 1];
      assert forall k :: 0 <= k < |ys| ==> ys[k] == xs[k];
      OneComp(S, ys);
      assert xs == ys + [xs[|xs| - 1]];
      CountNewSnoc((a, b) => ConnectedIn(S, a, b), ys, xs[|xs| - 1]);
      assert ConnectedIn(S, ys[0], xs[|xs| - 1]);
    } else if |xs| == 1 {
      assert xs == [] + [xs[0]];
      CountNewSnoc((a, b) => ConnectedIn(S, a, b), [], xs[0]);
      NoCompsOfEmpty(S);
    }
  }

  /** Boards with the same size, owners and records have the same golden targets. */
  lemma SameTargets(b: Board, b': Board, max: nat, p: nat, x: nat, y: nat)
    requires b'.width == b.width && b'.height == b.height && b'.owner == b.owner && b'.ps == b.ps
    ensures GoldenTarget(b', max, p, x, y) == GoldenTarget(b, max, p, x, y)
  {
  }

  /**
   * A swap on the board `b1`, which differs from `b` only in the golden
   * flag of the mover `p`, is a swap on `b` too: the flag of the mover
   * before the swap plays no part in it.
   */
  lemma SwapIgnoresFlag(b: Board, b1: Board, b': Board, c: Field, p: nat, flag: bool, golden: bool)
    requires 1 <= p <= |b.ps| && b1 == b.(ps := b.ps[p - 1 := b.ps[p - 1].(hasPlayedGolden := flag)])
    requires Swapped(b1, b', c, p, golden)
    ensures Swapped(b, b', c, p, golden)
  {
    SwapParts(b1, b', c, p, golden);
    var q := b.owner[c];
    RecordsIgnoreFlag(b.ps, b1.ps, b'.ps, q, p, Splits(b.owner, c, q), Splits(b.owner, c, p), flag, golden);
    SwapIntro(b, b', c, p, golden);
  }

  /** The records of a swap do not depend on the mover's golden flag before it. */
  lemma RecordsIgnoreFlag(ps: seq<Player>, ps1: seq<Player>, ps': seq<Player>, q: nat, p: nat, dq: nat, dp: nat,
                          flag: bool, golden: bool)
    requires 1 <= p <= |ps| && ps1 == ps[p - 1 := ps[p - 1].(hasPlayedGolden := flag)]
    requires SwapRecords(ps1, ps', q, p, dq, dp, golden)
    ensures SwapRecords(ps, ps', q, p, dq, dp, golden)
  {
  }

  /** Golden targets do not depend on the golden flags. */
  lemma TargetsIgnoreFlag(b: Board, p: nat, flag: bool, max: nat, x: nat, y: nat)
    requires 1 <= p <= |b.ps|
    ensures GoldenTarget(b.(ps := b.ps[p - 1 := b.ps[p - 1].(hasPlayedGolden := flag)]), max, p, x, y)
        == GoldenTarget(b, max, p, x, y)
  {
  }

  /** Some cell (i, y) with y < j is a golden target of `p`: the scan of column `i` up to row `j`. */
  ghost predicate TargetBelow(b: Board, max: nat, p: nat, i: nat, j: nat)
    decreases j
  {
    j > 0 && (TargetBelow(b, max, p, i, j - 1) || GoldenTarget(b, max, p, i, j - 1))
  }

  /** Some cell of a column left of `i` is a golden target of `p`: the scan up to column `i`. */
  ghost predicate TargetBefore(b: Board, max: nat, p: nat, i: nat)
    decreases i
  {
    i > 0 && (TargetBefore(b, max, p, i - 1) || TargetBelow(b, max, p, i - 1, b.height))
  }

  lemma {:induction false} TargetBelowMeans(b: Board, max: nat, p: nat, i: nat, j: nat)
    ensures TargetBelow(b, max, p, i, j) <==> exists y: nat :: y < j && GoldenTarget(b, max, p, i, y)
    decreases j
  {
    if j > 0 {
      TargetBelowMeans(b, max, p, i, j - 1);
    }
  }

  lemma {:induction false} TargetBeforeMeans(b: Board, max: nat, p: nat, i: nat)
    ensures TargetBefore(b, max, p, i) <==>
      exists x: nat, y: nat :: x < i && y < b.height && GoldenTarget(b, max, p, x, y)
    decreases i
  {
    if i > 0 {
      TargetBeforeMeans(b, max, p, i - 1);
      TargetBelowMeans(b, max, p, i - 1, b.height);
    }
  }

  /** The whole scan finds a target exactly when `p` has a golden target anywhere. */
  lemma TargetsOnBoard(b: Board, max: nat, p: nat)
    ensures TargetBefore(b, max, p, b.width) <==> exists x: nat, y: nat :: GoldenTarget(b, max, p, x, y)
  {
    TargetBeforeMeans(b, max, p, b.width);
  }

  /** A target found in the first `j` rows of a column is one of its first `k >= j` rows. */
  lemma {:induction false} TargetBelowGrows(b: Board, max: nat, p: nat, i: nat, j: nat, k: nat)
    requires j <= k && TargetBelow(b, max, p, i, j)
    ensures TargetBelow(b, max, p, i, k)
    decreases k
  {
    if j < k {
      TargetBelowGrows(b, max, p, i, j, k - 1);
    }
  }

  /** A target found left of column `i` is left of any column `k >= i`. */
  lemma {:induction false} TargetBeforeGrows(b: Board, max: nat, p: nat, i: nat, k: nat)
    requires i <= k && TargetBefore(b, max, p, i)
    ensures TargetBefore(b, max, p, k)
    decreases k
  {
    if i < k {
      TargetBeforeGrows(b, max, p, i, k - 1);
    }
  }
}
