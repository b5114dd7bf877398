/**
 * The text form of the board (gamma/src/gamma.c): `gamma_board`, which
 * writes one line per row, top row first, each cell as '.' or its owner's
 * decimal number padded with spaces to a common width, and
 * `gamma_write_field`, which writes one cell padded to the width the
 * interactive mode uses.
 */
module Render {
  import opened Fields
  import opened Grid
  import opened Areas
  import opened Moves
  import opened IntToString
  import opened Gamma
  import opened Layout

  // ---------------------------------------------------------------------
  // Field widths

  /**
   * The most digits among the numbers of the first `n` players who own a
   * cell, and 1 when there are none.
   */
  function WidestId(ps: seq<Player>, n: nat): (d: nat)
    requires n <= |ps|
    ensures d >= 1
    ensures forall i :: 0 <= i < n && ps[i].busyFields > 0 ==> NumDigits(i + 1) <= d
    ensures d == 1 || exists i :: 0 <= i < n && ps[i].busyFields > 0 && NumDigits(i + 1) == d
  {
    if n == 0 then 1
    else
      var d := WidestId(ps, n - 1);
      if ps[n - 1].busyFields > 0 && NumDigits(n) > d then NumDigits(n) else d
  }

  /**
   * The width of a cell in `gamma_board`: 1 when the numbers of the
   * players who own cells all have one digit, otherwise one more than
   * the most digits among them.
   */
  function MaxNumberWidth(ps: seq<Player>): nat {
    var d := WidestId(ps, |ps|);
    if d > 1 then d + 1 else d
  }

  /**
   * The width of `gamma_board` fits every cell's owner and leaves a space
   * after every number of more than one digit; it is 1 exactly when all
   * the numbers of players who own cells have one digit.
   */
  lemma MaxNumberWidthFits(ps: seq<Player>)
    ensures MaxNumberWidth(ps) >= 1
    ensures forall i :: 0 <= i < |ps| && ps[i].busyFields > 0 ==>
      NumDigits(i + 1) <= MaxNumberWidth(ps) && (NumDigits(i + 1) > 1 ==> NumDigits(i + 1) < MaxNumberWidth(ps))
    ensures MaxNumberWidth(ps) == 1 <==> forall i :: 0 <= i < |ps| && ps[i].busyFields > 0 ==> NumDigits(i + 1) == 1
    ensures MaxNumberWidth(ps) > 1 ==>
      exists i :: 0 <= i < |ps| && ps[i].busyFields > 0 && NumDigits(i + 1) + 1 == MaxNumberWidth(ps)
  {
    var d := WidestId(ps, |ps|);
    if d == 1 {
      forall i | 0 <= i < |ps| && ps[i].busyFields > 0
        ensures NumDigits(i + 1) == 1
      {
        NumDigitsBounds(i + 1);
      }
    }
  }

  /** `find_max_number_width`: the widest number among the players who own a cell, plus one when above 1. */
  method FindMaxNumberWidth(ps: seq<Player>) returns (mw: nat)
    ensures mw == MaxNumberWidth(ps)
  {
    mw := 1;
    for i := 0 to |ps|
      invariant mw == WidestId(ps, i)
    {
      if ps[i].busyFields > 0 {
        var d := DigitCount(i + 1);
        if d > mw {
          mw := d;
        }
      }
    }
    if mw > 1 {
      mw := mw + 1;
    }
  }

  /** The width of a cell in the interactive mode: the digits of the number of players, plus one when above 1. */
  function InteractiveWidth(np: nat): nat {
    var d := NumDigits(np);
    if d > 1 then d + 1 else d
  }

  /**
   * The interactive width fits the number of every player and leaves a
   * space after every number of more than one digit.
   */
  lemma InteractiveWidthFits(np: nat, p: nat)
    requires p <= np
    ensures InteractiveWidth(np) >= 1
    ensures NumDigits(p) <= InteractiveWidth(np)
    ensures NumDigits(p) > 1 ==> NumDigits(p) < InteractiveWidth(np)
  {
    NumDigitsMonotone(p, np);
    NumDigitsMonotone(0, np);
  }

  /** `gamma_field_width_interactive`. */
  method GammaFieldWidthInteractive(g: Game) returns (w: nat)
    ensures w == InteractiveWidth(g.numPlayers)
  {
    w := DigitCount(g.numPlayers);
    if w > 1 {
      w := w + 1;
    }
  }

  /** Writes the text of a cell owned by `v` at `l`, padded to `w`; returns the position after it. */
  method WriteCell(s: array<char>, l: nat, v: nat, w: nat) returns (r: nat)
    requires NumDigits(v) <= w && l + w <= s.Length
    modifies s
    ensures r == l + w
    ensures s[..r] == old(s[..l]) + Pad(CellText(v), w)
    ensures s[r..] == old(s[r..])
  {
    ghost var t := CellText(v);
    ghost var s0 := s[..];
    r := l;
    if v == NoPlayer {
      s[r] := NoPlayerChar;
      r := r + 1;
    } else {
      r := WriteInt(s, r, v);
      DecimalShape(v);
    }
    assert forall k :: l <= k < r ==> s[k] == t[k - l];
    while r - l < w
      invariant l + |t| <= r <= l + w
      invariant forall k :: l <= k < l + |t| ==> s[k] == t[k - l]
      invariant forall k :: l + |t| <= k < r ==> s[k] == Space
      invariant forall k :: 0 <= k < s.Length && !(l <= k < r) ==> s[k] == old(s[k])
    {
      s[r] := Space;
      r := r + 1;
    }
    PadEquals(s0[..l], t, w, s[..r]);
    assert s[r..] == s0[r..];
  }

  /** A sequence that starts with `p`, goes on with `t` and then spaces, up to `|p| + w` characters, is `p + Pad(t, w)`. */
  lemma PadEquals(p: seq<char>, t: seq<char>, w: nat, u: seq<char>)
    requires |t| <= w && |u| == |p| + w
    requires forall k :: 0 <= k < |p| ==> u[k] == p[k]
    requires forall k :: |p| <= k < |p| + |t| ==> u[k] == t[k - |p|]
    requires forall k :: |p| + |t| <= k < |u| ==> u[k] == Space
    ensures u == p + Pad(t, w)
  {
  }

  /** `gamma_board_helper`: writes the text of the board `O` that `arr` holds, then the terminating character. */
  method BoardHelper(arr: array2<nat>, mw: nat, buffer: array<char>, ghost O: map<Field, nat>)
    requires OwnersHold(arr, O) && NarrowIds(O, mw)
    requires buffer.Length == arr.Length0 * arr.Length1 * mw + arr.Length1 + 1
    modifies buffer
    ensures buffer[..] == BoardText(O, arr.Length0, arr.Length1, mw) + [EndOfText]
  {
    BufferLength(O, arr.Length0, arr.Length1, mw);
    var it := WriteLines(arr, mw, buffer, O);
    buffer[it] := EndOfText;
    assert buffer[..] == buffer[..it] + [EndOfText];
  }

  /** The outer loop of `gamma_board_helper`: writes the lines of the board from the top row down. */
  method WriteLines(arr: array2<nat>, mw: nat, buffer: array<char>, ghost O: map<Field, nat>) returns (it: nat)
    requires OwnersHold(arr, O) && NarrowIds(O, mw)
    requires buffer.Length == |BoardText(O, arr.Length0, arr.Length1, mw)| + 1
    modifies buffer
    ensures it + 1 == buffer.Length && buffer[..it] == BoardText(O, arr.Length0, arr.Length1, mw)
  {
    var w, h := arr.Length0, arr.Length1;
    ghost var text := BoardText(O, w, h, mw);
    ghost var done: seq<char> := [];
    it := 0;
    for i := 0 to h
      invariant done == Lines(O, w, h, i, mw) && done <= text
      invariant it == |done| && buffer[..it] == done
    {
      ghost var line := Line(O, w, h - 1 - i, mw);
      assert done + line <= text by {
        LinesPrefix(O, w, h, h, i + 1, mw);
      }
      it := WriteRow(arr, mw, buffer, O, i, it, h - 1 - i, line);
      done := done + line;
    }
  }

  /** The outer step of `gamma_board_helper`: writes at `it` the line that shows row `y = h - 1 - i`. */
  method WriteRow(arr: array2<nat>, mw: nat, buffer: array<char>, ghost O: map<Field, nat>, i: nat, it: nat,
                  ghost y: nat, ghost line: seq<char>)
    returns (it': nat)
    requires NarrowIds(O, mw) && i < arr.Length1 && y == arr.Length1 - 1 - i
    requires forall j :: 0 <= j < arr.Length0 ==> arr[j, y] == Shown(O, Field(j, y))
    requires line == Line(O, arr.Length0, y, mw) && it + |line| < buffer.Length
    modifies buffer
    ensures it' == it + |line| && buffer[..it'] == old(buffer[..it]) + line
  {
    ghost var row := RowText(O, y, arr.Length0, mw);
    it' := WriteCells(arr, mw, buffer, O, i, it, y, row);
    buffer[it'] := EndOfLine;
    it' := it' + 1;
    assert buffer[..it'] == buffer[..it' - 1] + [EndOfLine];
  }

  /** The inner loop of `gamma_board_helper`: writes at `it` the cells of row `y = h - 1 - i`. */
  method WriteCells(arr: array2<nat>, mw: nat, buffer: array<char>, ghost O: map<Field, nat>, i: nat, it: nat,
                    ghost y: nat, ghost row: seq<char>)
    returns (it': nat)
    requires NarrowIds(O, mw) && i < arr.Length1 && y == arr.Length1 - 1 - i
    requires forall j :: 0 <= j < arr.Length0 ==> arr[j, y] == Shown(O, Field(j, y))
    requires row == RowText(O, y, arr.Length0, mw) && it + |row| < buffer.Length
    modifies buffer
    ensures it' == it + |row| && buffer[..it'] == old(buffer[..it]) + row
  {
    ghost var before := buffer[..it];
    ghost var done: seq<char> := [];
    it' := it;
    for j := 0 to arr.Length0
      invariant done == RowText(O, y, j, mw) && done <= row
      invariant it' == it + |done| && buffer[..it'] == before + done
    {
      ghost var cell := Slot(O, Field(j, y), mw);
      RowStep(O, y, j, arr.Length0, mw, done, cell, row);
      it' := WriteCell(buffer, it', arr[j, arr.Length1 - i - 1], mw);
      Assoc(before, done, cell);
      done := done + cell;
    }
  }

  /** One more cell of a row: the first `j + 1` cells are the first `j` and cell `j`, within the whole row. */
  lemma RowStep(O: map<Field, nat>, y: nat, j: nat, w: nat, mw: nat, done: seq<char>, cell: seq<char>, row: seq<char>)
    requires NarrowIds(O, mw) && j < w
    requires done == RowText(O, y, j, mw) && cell == Slot(O, Field(j, y), mw) && row == RowText(O, y, w, mw)
    ensures done + cell == RowText(O, y, j + 1, mw) && done + cell <= row && |cell| == mw
  {
    RowPrefix(O, y, j + 1, w, mw);
    SlotLength(O, Field(j, y), mw);
  }

  lemma Assoc(a: seq<char>, b: seq<char>, c: seq<char>)
    ensures (a + b) + c == a + (b + c)
  {
  }

  // ---------------------------------------------------------------------
  // The operations

  /** On a sound board every owner is a player with a cell, so its number fits the width of `gamma_board`. */
  lemma OwnersFit(b: Board)
    requires Sound(b)
    ensures NarrowIds(b.owner, MaxNumberWidth(b.ps))
  {
    MaxNumberWidthFits(b.ps);
    assert b in SoundBoards(b.width, b.height);
    forall f | f in b.owner
      ensures NumDigits(b.owner[f]) <= MaxNumberWidth(b.ps)
    {
      var v := b.owner[f];
      if v != NoPlayer {
        SoundCounts(b, v);
        assert f in OwnedBy(b.owner, v);
      }
    }
  }

  /**
   * `gamma_board`: the text of the board, with cells as wide as
   * `find_max_number_width` says, in a new buffer of `width * height *
   * mw + height + 1` characters, which it fills exactly: the lines of the
   * board and the terminating character.
   */
  method GammaBoard(g: Game) returns (buffer: array<char>)
    requires g.Valid()
    ensures fresh(buffer)
    ensures buffer[..] == BoardText(g.owner, g.width, g.height, MaxNumberWidth(g.players)) + [EndOfText]
  {
    var mw := FindMaxNumberWidth(g.players);
    BoardInputs(g);
    var arr, w, h := g.playerArr, g.width, g.height;
    ghost var O := g.owner;
    Product(w, h, mw);
    buffer := new char[w * h * mw + h + 1];
    BoardHelper(arr, mw, buffer, O);
  }

  /**
   * `gamma_board_interactive`: the text of the board as `gamma_board`
   * lays it out, with every cell as wide as the interactive mode shows
   * it.
   */
  method GammaBoardInteractive(g: Game) returns (buffer: array<char>)
    requires g.Valid()
    ensures fresh(buffer)
    ensures buffer[..] == BoardText(g.owner, g.width, g.height, InteractiveWidth(g.numPlayers)) + [EndOfText]
  {
    var mw := GammaFieldWidthInteractive(g);
    InteractiveInputs(g);
    var arr, w, h := g.playerArr, g.width, g.height;
    ghost var O := g.owner;
    Product(w, h, mw);
    buffer := new char[w * h * mw + h + 1];
    BoardHelper(arr, mw, buffer, O);
  }

  /** What `gamma_board_interactive` needs of a valid game: every owner fits the interactive width. */
  lemma InteractiveInputs(g: Game)
    requires g.Valid()
    ensures OwnersHold(g.playerArr, g.owner) && NarrowIds(g.owner, InteractiveWidth(g.numPlayers))
    ensures g.playerArr.Length0 == g.width && g.playerArr.Length1 == g.height
  {
    var b := g.Abs();
    FitsParts(b, g.width, g.height, g.numPlayers, g.maxAreas);
    ShapedOf(b);
    forall f | f in g.owner
      ensures NumDigits(g.owner[f]) <= InteractiveWidth(g.numPlayers)
    {
      InteractiveWidthFits(g.numPlayers, g.owner[f]);
    }
    InteractiveWidthFits(g.numPlayers, 0);
  }

  lemma Product(w: nat, h: nat, mw: nat)
    ensures w * h >= 0 && w * h * mw >= 0
  {
  }

  /** What `gamma_board` needs of a valid game: the array holds the owners, whose numbers fit its width. */
  lemma BoardInputs(g: Game)
    requires g.Valid()
    ensures OwnersHold(g.playerArr, g.owner) && NarrowIds(g.owner, MaxNumberWidth(g.players))
    ensures g.playerArr.Length0 == g.width && g.playerArr.Length1 == g.height
  {
    FitsParts(g.Abs(), g.width, g.height, g.numPlayers, g.maxAreas);
    OwnersFit(g.Abs());
  }

  /**
   * `gamma_write_field`: false for a cell off the board, which leaves `s`
   * as it was; otherwise `s` starts with the text of the cell (x, y)
   * padded to the interactive width, and the rest of `s` is untouched.
   */
  method GammaWriteField(g: Game, s: array<char>, x: nat, y: nat) returns (ok: bool)
    requires g.Valid() && s.Length >= InteractiveWidth(g.numPlayers)
    modifies s
    ensures ok <==> !WrongField(g.width, g.height, x, y)
    ensures ok ==> Field(x, y) in g.owner
    ensures ok ==> s[..InteractiveWidth(g.numPlayers)] == Pad(CellText(g.owner[Field(x, y)]), InteractiveWidth(g.numPlayers))
    ensures s[InteractiveWidth(g.numPlayers)..] == old(s[InteractiveWidth(g.numPlayers)..])
    ensures !ok ==> s[..] == old(s[..])
  {
    if WrongField(g.width, g.height, x, y) {
      return false;
    }
    ghost var b := g.Abs();
    FitsParts(b, g.width, g.height, g.numPlayers, g.maxAreas);
    assert b in SoundBoards(b.width, b.height);
    var player := g.playerArr[x, y];
    var width := GammaFieldWidthInteractive(g);
    InteractiveWidthFits(g.numPlayers, player);
    var it := WriteCell(s, 0, player, width);
    return true;
  }
}
