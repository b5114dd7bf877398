/**
 * The text of a board as `gamma_board` (gamma/src/gamma.c) lays it out,
 * as pure values: every cell is '.' for a free cell (owner 0) or the
 * decimal number of its owner, padded with spaces to a common width; the
 * rows come top row first, each ended by an end of line.
 */
module Layout {
  import opened Fields
  import opened IntToString

  const NoPlayerChar: char := '.'
  const Space: char := ' '
  const EndOfLine: char := '\n'
  const EndOfText: char := '\0'

  /** `t` followed by spaces up to width `w`, or `t` itself when it is as wide. */
  function Pad(t: seq<char>, w: nat): (r: seq<char>)
    ensures |r| == if |t| < w then w else |t|
    ensures r[..|t|] == t && forall k :: |t| <= k < |r| ==> r[k] == Space
  {
    if |t| < w then t + seq(w - |t|, _ => Space) else t
  }

  /** The text of a cell owned by `v`: '.' for an empty cell, otherwise the decimal number `v`. */
  function CellText(v: nat): (t: seq<char>)
    ensures |t| == NumDigits(v)
    ensures v == 0 ==> t == [NoPlayerChar]
    ensures v != 0 ==> AllDigits(t) && ValueOf(t) == v
  {
    if v == 0 then
      [NoPlayerChar]
    else
      DecimalShape(v);
      DecimalRoundTrip(v);
      Decimal(v)
  }

  // ---------------------------------------------------------------------
  // The text of the board

  /** The owner `O` records for cell `f`, and no player for a cell it does not hold. */
  function Shown(O: map<Field, nat>, f: Field): nat {
    if f in O then O[f] else 0
  }

  /** The characters cell `f` takes in a text with cells of width `mw`. */
  ghost function Slot(O: map<Field, nat>, f: Field, mw: nat): seq<char> {
    Pad(CellText(Shown(O, f)), mw)
  }

  /** The first `n` cells of row `y`. */
  ghost function RowText(O: map<Field, nat>, y: nat, n: nat, mw: nat): seq<char> {
    if n == 0 then [] else RowText(O, y, n - 1, mw) + Slot(O, Field(n - 1, y), mw)
  }

  /** The line that shows row `y` of a board of `w` columns. */
  ghost function Line(O: map<Field, nat>, w: nat, y: nat, mw: nat): seq<char> {
    RowText(O, y, w, mw) + [EndOfLine]
  }

  /** The first `i` lines of the text of a board of `w` columns and `h` rows: rows h - 1 down to h - i. */
  ghost function Lines(O: map<Field, nat>, w: nat, h: nat, i: nat, mw: nat): seq<char>
    requires i <= h
  {
    if i == 0 then [] else Lines(O, w, h, i - 1, mw) + Line(O, w, h - i, mw)
  }

  /** The text of `gamma_board` with cells of width `mw`, without its terminating character. */
  ghost function BoardText(O: map<Field, nat>, w: nat, h: nat, mw: nat): seq<char> {
    Lines(O, w, h, h, mw)
  }

  /** Every owner on the board has at most `mw` digits, so every cell takes exactly `mw` characters. */
  ghost predicate NarrowIds(O: map<Field, nat>, mw: nat) {
    mw >= 1 && forall f :: f in O ==> NumDigits(O[f]) <= mw
  }

  lemma SlotLength(O: map<Field, nat>, f: Field, mw: nat)
    requires NarrowIds(O, mw)
    ensures |Slot(O, f, mw)| == mw
  {
  }

  /** `k` strides of `L` characters laid end to end: `k * L` (`StrideIsProduct`), by repeated addition. */
  function Stride(k: nat, L: nat): nat {
    if k == 0 then 0 else Stride(k - 1, L) + L
  }

  lemma {:induction false} StrideIsProduct(k: nat, L: nat)
    ensures Stride(k, L) == k * L
  {
    if k > 0 {
      StrideIsProduct(k - 1, L);
      assert (k - 1) * L + L == k * L;
    }
  }

  lemma {:induction false} StrideMonotone(k: nat, n: nat, L: nat)
    requires k <= n
    ensures Stride(k, L) <= Stride(n, L)
    decreases n
  {
    if k < n {
      StrideMonotone(k, n - 1, L);
    }
  }

  /** A row of `n` cells takes `n` strides of `mw` characters. */
  lemma {:induction false} RowLength(O: map<Field, nat>, y: nat, n: nat, mw: nat)
    requires NarrowIds(O, mw)
    ensures |RowText(O, y, n, mw)| == Stride(n, mw)
    decreases n
  {
    if n > 0 {
      RowLength(O, y, n - 1, mw);
      SlotLength(O, Field(n - 1, y), mw);
    }
  }

  lemma {:induction false} RowPrefix(O: map<Field, nat>, y: nat, m: nat, n: nat, mw: nat)
    requires m <= n
    ensures RowText(O, y, m, mw) <= RowText(O, y, n, mw)
    decreases n
  {
    if m < n {
      RowPrefix(O, y, m, n - 1, mw);
      PrefixAppend(RowText(O, y, m, mw), RowText(O, y, n - 1, mw), Slot(O, Field(n - 1, y), mw));
    }
  }

  /** Cell `j` of a row of `n` cells takes the `mw` characters from `at`, `j` strides of `mw` in. */
  lemma RowLayout(O: map<Field, nat>, y: nat, n: nat, mw: nat, j: nat, at: nat)
    requires NarrowIds(O, mw) && j < n && at == Stride(j, mw)
    ensures at + mw <= |RowText(O, y, n, mw)|
    ensures RowText(O, y, n, mw)[at .. at + mw] == Pad(CellText(Shown(O, Field(j, y))), mw)
  {
    RowLength(O, y, j, mw);
    SlotLength(O, Field(j, y), mw);
    RowPrefix(O, y, j + 1, n, mw);
    Found(RowText(O, y, n, mw), RowText(O, y, j, mw), Slot(O, Field(j, y), mw), at, mw);
  }

  /** The first `i` lines take `i` strides of a line: `w` cells of `mw` characters and the end of line. */
  lemma {:induction false} LinesLength(O: map<Field, nat>, w: nat, h: nat, i: nat, mw: nat)
    requires i <= h && NarrowIds(O, mw)
    ensures |Lines(O, w, h, i, mw)| == Stride(i, Stride(w, mw) + 1)
    decreases i
  {
    if i > 0 {
      LinesLength(O, w, h, i - 1, mw);
      RowLength(O, h - i, w, mw);
    }
  }

  lemma {:induction false} LinesPrefix(O: map<Field, nat>, w: nat, h: nat, i: nat, k: nat, mw: nat)
    requires k <= i <= h
    ensures Lines(O, w, h, k, mw) <= Lines(O, w, h, i, mw)
    decreases i
  {
    if k < i {
      LinesPrefix(O, w, h, i - 1, k, mw);
      PrefixAppend(Lines(O, w, h, k, mw), Lines(O, w, h, i - 1, mw), Line(O, w, h - i, mw));
    }
  }

  /**
   * Line `k` of the text, `L` characters from `start`, `k` strides of `L`
   * in, shows row `h - 1 - k`; the text has `h` such lines.
   */
  lemma LineAt(O: map<Field, nat>, w: nat, h: nat, mw: nat, k: nat, L: nat, start: nat)
    requires NarrowIds(O, mw) && k < h && L == Stride(w, mw) + 1 && start == Stride(k, L)
    ensures |BoardText(O, w, h, mw)| == Stride(h, L)
    ensures start + L <= |BoardText(O, w, h, mw)|
    ensures BoardText(O, w, h, mw)[start .. start + L] == Line(O, w, h - 1 - k, mw)
  {
    LinesLength(O, w, h, h, mw);
    LinesLength(O, w, h, k, mw);
    RowLength(O, h - 1 - k, w, mw);
    LineFollows(O, w, h, k, mw);
    Found(BoardText(O, w, h, mw), Lines(O, w, h, k, mw), Line(O, w, h - 1 - k, mw), start, L);
  }

  /** The text starts with its first `k` lines followed by the line that shows row `h - 1 - k`. */
  lemma LineFollows(O: map<Field, nat>, w: nat, h: nat, k: nat, mw: nat)
    requires k < h
    ensures Lines(O, w, h, k, mw) + Line(O, w, h - 1 - k, mw) <= BoardText(O, w, h, mw)
  {
    LinesPrefix(O, w, h, h, k + 1, mw);
  }

  /**
   * The layout of `gamma_board`: the text has `h` lines of `L = w * mw +
   * 1` characters; line `k` starts at `start = k * L` and shows row
   * `h - 1 - k`, with cell (j, h - 1 - k) in the `mw` characters from
   * `start + j * mw`, and ends with an end of line (lengths as strides,
   * see `StrideIsProduct`).
   */
  lemma BoardLayout(O: map<Field, nat>, w: nat, h: nat, mw: nat, k: nat, j: nat, n: nat, start: nat, at: nat)
    requires NarrowIds(O, mw) && k < h && j < w
    requires n == Stride(w, mw) && start == Stride(k, n + 1) && at == Stride(j, mw)
    ensures |BoardText(O, w, h, mw)| == Stride(h, n + 1)
    ensures start + n < |BoardText(O, w, h, mw)| && at + mw <= n
    ensures BoardText(O, w, h, mw)[start + at .. start + (at + mw)] == Pad(CellText(Shown(O, Field(j, h - 1 - k))), mw)
    ensures BoardText(O, w, h, mw)[start + n] == EndOfLine
  {
    var text, row := BoardText(O, w, h, mw), RowText(O, h - 1 - k, w, mw);
    assert |text| == Stride(h, n + 1) && start + (n + 1) <= |text| && text[start .. start + (n + 1)] == row + [EndOfLine] by {
      LineAt(O, w, h, mw, k, n + 1, start);
    }
    assert |row| == n && at + mw <= n && row[at .. at + mw] == Slot(O, Field(j, h - 1 - k), mw) by {
      RowLength(O, h - 1 - k, w, mw);
      RowLayout(O, h - 1 - k, w, mw, j, at);
    }
    PieceOfLine(text, row, start, n, at, mw, Slot(O, Field(j, h - 1 - k), mw));
  }

  // Facts about sequences of characters that the layout lemmas combine.

  lemma PrefixAppend(a: seq<char>, b: seq<char>, c: seq<char>)
    requires a <= b
    ensures a <= b + c
  {
    assert (b + c)[..|b|] == b;
  }

  lemma PrefixTrans(a: seq<char>, b: seq<char>, c: seq<char>)
    requires a == b && b <= c
    ensures a <= c
  {
  }

  /** In a sequence that starts with `a + c`, `c` comes right after `a`. */
  lemma Found(r: seq<char>, a: seq<char>, c: seq<char>, i: nat, n: nat)
    requires a + c <= r && |a| == i && |c| == n
    ensures i + n <= |r| && r[i .. i + n] == c
  {
    assert r[..i + n] == a + c;
  }

  /** Within a line `row` of `n` characters and an end of line, starting at `line`, the `m` characters from `a` on. */
  lemma PieceOfLine(text: seq<char>, row: seq<char>, line: nat, n: nat, a: nat, m: nat, piece: seq<char>)
    requires |row| == n && line + (n + 1) <= |text| && text[line .. line + (n + 1)] == row + [EndOfLine]
    requires a + m <= n && row[a .. a + m] == piece
    ensures text[line + a .. line + (a + m)] == piece
    ensures text[line + n] == EndOfLine
  {
    SliceOfSlice(text, line, line + (n + 1), a, a + m);
    assert (row + [EndOfLine])[a .. a + m] == piece;
    assert text[line + n] == (row + [EndOfLine])[n];
  }

  lemma SliceOfSlice(t: seq<char>, a: nat, b: nat, c: nat, d: nat)
    requires a <= b <= |t| && c <= d <= b - a
    ensures t[a..b][c..d] == t[a + c .. a + d]
  {
    forall i | 0 <= i < d - c
      ensures t[a..b][c..d][i] == t[a + c .. a + d][i]
    {
    }
  }

  /** The size `gamma_board` allocates is the length of the text of the board and one more. */
  lemma BufferLength(O: map<Field, nat>, w: nat, h: nat, mw: nat)
    requires NarrowIds(O, mw)
    ensures |BoardText(O, w, h, mw)| + 1 == w * h * mw + h + 1
  {
    LinesLength(O, w, h, h, mw);
    StrideIsProduct(w, mw);
    StrideIsProduct(h, w * mw + 1);
    Distribute(w, h, mw);
  }

  lemma Distribute(w: nat, h: nat, mw: nat)
    ensures h * (w * mw + 1) == w * h * mw + h
  {
    assert h * (w * mw + 1) == h * (w * mw) + h;
  }
}
