/** Line validation of the batch-mode command reader (gamma/src/parser.c): the checks
    that decide whether an input line is ignored, rejected or dispatched to the engine. */
module Parser {
  import opened IntToString

  const UINT32_MAX: nat := 0xFFFF_FFFF

  /** `get_parameters_count_from_char` answers this for every unknown opcode. */
  const CHAR_INCORRECT: int := -1

  /** `isspace` in the C locale: space, tab, newline, vertical tab, form feed, carriage
      return; the same six characters `read_numbers` passes to `strtok` as delimiters. */
  predicate IsSpace(c: char) {
    c == ' ' || c == '\t' || c == '\n' || c == 11 as char || c == 12 as char || c == '\r'
  }

  /** A line as `getline` delivers it: it holds at least one character and a newline,
      if any, only as its last character. */
  predicate IsInputLine(line: seq<char>) {
    |line| >= 1 && forall i :: 0 <= i < |line| - 1 ==> line[i] != '\n'
  }

  /** Index of the first newline, or the length when there is none. */
  function FirstNewline(s: seq<char>): (k: nat)
    ensures k <= |s|
    ensures forall i :: 0 <= i < k ==> s[i] != '\n'
    ensures k < |s| ==> s[k] == '\n'
  {
    if s == [] || s[0] == '\n' then 0 else 1 + FirstNewline(s[1..])
  }

  /** What `check_for_broken_chars` accepts: a newline, and only digits and white space
      before the first one. */
  predicate NoBrokenChars(line: seq<char>) {
    && FirstNewline(line) < |line|
    && forall i :: 0 <= i < FirstNewline(line) ==> IsDigit(line[i]) || IsSpace(line[i])
  }

  /** `check_for_broken_chars`: scans up to the first newline. On a line without one the
      scan reaches the string's terminating NUL, which is neither a digit nor white space,
      so the line is rejected. */
  method CheckForBrokenChars(line: seq<char>) returns (ok: bool)
    ensures ok <==> NoBrokenChars(line)
  {
    var it := 0;
    while it < |line| && line[it] != '\n'
      invariant 0 <= it <= FirstNewline(line)
      invariant forall i :: 0 <= i < it ==> IsDigit(line[i]) || IsSpace(line[i])
    {
      if !IsDigit(line[it]) && !IsSpace(line[it]) {
        return false;
      }
      it := it + 1;
    }
    return it < |line|;
  }

  /** Length of the run of non-space characters that starts `s`. */
  function TokenEnd(s: seq<char>): (k: nat)
    ensures k <= |s|
    ensures forall i :: 0 <= i < k ==> !IsSpace(s[i])
    ensures k < |s| ==> IsSpace(s[k])
  {
    if s == [] || IsSpace(s[0]) then 0 else 1 + TokenEnd(s[1..])
  }

  /** The maximal runs of non-space characters of `s`, in order: what successive
      `strtok` calls with the white-space delimiters return. */
  function Tokens(s: seq<char>): (ts: seq<seq<char>>)
    ensures forall t :: t in ts ==> t != []
    decreases |s|
  {
    if s == [] then []
    else if IsSpace(s[0]) then Tokens(s[1..])
    else [s[..TokenEnd(s)]] + Tokens(s[TokenEnd(s)..])
  }

  /** The tokens of a text made of digits and spaces are digit strings. */
  lemma {:induction false} TokensAreDigits(s: seq<char>)
    requires forall i :: 0 <= i < |s| ==> IsDigit(s[i]) || IsSpace(s[i])
    ensures forall t :: t in Tokens(s) ==> AllDigits(t)
    decreases |s|
  {
    if s != [] {
      if IsSpace(s[0]) {
        TokensAreDigits(s[1..]);
      } else {
        TokensAreDigits(s[TokenEnd(s)..]);
      }
    }
  }

  /** Everything `read_numbers` demands of the text after the opcode: a leading white
      space, no broken characters, exactly `count` tokens, each at most UINT32_MAX. */
  predicate Accepts(line: seq<char>, count: int) {
    && |line| >= 1
    && IsSpace(line[0])
    && NoBrokenChars(line)
    && |Tokens(line)| == count
    && forall i :: 0 <= i < |Tokens(line)| ==> AllDigits(Tokens(line)[i]) && ValueOf(Tokens(line)[i]) <= UINT32_MAX
  }

  /** `read_numbers`: parses the parameters of a command. `line` is the text after the
      opcode, up to and including the line's final newline. */
  method ReadNumbers(line: seq<char>, count: int) returns (ok: bool, numbers: seq<nat>)
    requires IsInputLine(line) && line[|line| - 1] == '\n'
    ensures ok <==> Accepts(line, count)
    ensures ok ==> |numbers| == count
    ensures ok ==> forall i :: 0 <= i < count ==> AllDigits(Tokens(line)[i]) && numbers[i] == ValueOf(Tokens(line)[i])
  {
    numbers := [];
    if !IsSpace(line[0]) {
      return false, numbers;
    }
    ok := CheckForBrokenChars(line);
    if !ok {
      return false, numbers;
    }
    assert FirstNewline(line) == |line| - 1;
    TokensAreDigits(line);
    var tokens := Tokens(line);
    var it := 0;
    while it < |tokens|
      invariant 0 <= it <= |tokens|
      invariant it == 0 || it <= count
      invariant |numbers| == it
      invariant forall i :: 0 <= i < it ==> ValueOf(tokens[i]) <= UINT32_MAX && numbers[i] == ValueOf(tokens[i])
    {
      if it > count - 1 {
        return false, numbers;
      }
      var value := ValueOf(tokens[it]);
      if value > UINT32_MAX {
        return false, numbers;
      }
      numbers := numbers + [value];
      it := it + 1;
    }
    ok := it == count;
  }

  /** `get_parameters_count_from_char`: how many numbers follow each batch opcode. */
  function GetParametersCount(c: char): (n: int)
    ensures n == CHAR_INCORRECT <==> c !in {'m', 'g', 'b', 'f', 'q', 'p'}
    ensures n == 3 <==> c == 'm' || c == 'g'
    ensures n == 1 <==> c == 'b' || c == 'f' || c == 'q'
    ensures n == 0 <==> c == 'p'
  {
    match c
    case 'm' => 3
    case 'g' => 3
    case 'b' => 1
    case 'f' => 1
    case 'q' => 1
    case 'p' => 0
    case _ => CHAR_INCORRECT
  }

  /** What the batch loop does with one input line. */
  datatype LineVerdict =
    | Ignored                                 // a comment or an empty line: no output
    | Error                                   // "ERROR <line>"
    | Dispatch(op: char, params: seq<nat>)    // the command is run on the engine

  /** The per-line decision inside `tryb_wsadowy`. */
  method ClassifyLine(line: seq<char>) returns (v: LineVerdict)
    requires IsInputLine(line)
    ensures v == Ignored <==> line[0] == '#' || line[0] == '\n'
    ensures v.Dispatch? <==>
      && line[0] != '#' && line[0] != '\n'
      && line[|line| - 1] == '\n'
      && GetParametersCount(line[0]) != CHAR_INCORRECT
      && Accepts(line[1..], GetParametersCount(line[0]))
    ensures v.Dispatch? ==> v.op == line[0] && |v.params| == GetParametersCount(line[0])
    ensures v.Dispatch? ==> forall i :: 0 <= i < |v.params| ==>
      AllDigits(Tokens(line[1..])[i]) && v.params[i] == ValueOf(Tokens(line[1..])[i])
  {
    var c := line[0];
    if c == '#' || c == '\n' {
      return Ignored;
    }
    if line[|line| - 1] != '\n' {
      return Error;
    }
    var count := GetParametersCount(c);
    if count == CHAR_INCORRECT {
      return Error;
    }
    var ok, numbers := ReadNumbers(line[1..], count);
    if ok {
      return Dispatch(c, numbers);
    }
    return Error;
  }

  /** The parameter text of a command: each number preceded by a space, then a newline. */
  function FormatParams(ns: seq<nat>): (s: seq<char>)
  {
    if ns == [] then "\n" else " " + Decimal(ns[0]) + FormatParams(ns[1..])
  }

  lemma {:induction false} FormatParamsShape(ns: seq<nat>)
    ensures |FormatParams(ns)| >= 1 && IsSpace(FormatParams(ns)[0])
    ensures FormatParams(ns)[|FormatParams(ns)| - 1] == '\n'
    ensures forall i :: 0 <= i < |FormatParams(ns)| - 1 ==>
      FormatParams(ns)[i] != '\n' && (IsDigit(FormatParams(ns)[i]) || IsSpace(FormatParams(ns)[i]))
  {
    if ns != [] {
      FormatParamsShape(ns[1..]);
      DecimalShape(ns[0]);
      var d := Decimal(ns[0]);
      var rest := FormatParams(ns[1..]);
      assert FormatParams(ns) == [' '] + d + rest;
      forall i | 0 <= i < |FormatParams(ns)| - 1
        ensures FormatParams(ns)[i] != '\n' && (IsDigit(FormatParams(ns)[i]) || IsSpace(FormatParams(ns)[i]))
      {
        if 1 <= i < 1 + |d| {
          assert FormatParams(ns)[i] == d[i - 1];
        } else if i > |d| {
          assert FormatParams(ns)[i] == rest[i - 1 - |d|];
        }
      }
    }
  }

  /** A token followed by white space (or nothing) is split off as one token. */
  lemma {:induction false} TokensOfDigitsThen(d: seq<char>, rest: seq<char>)
    requires d != [] && AllDigits(d)
    requires rest == [] || IsSpace(rest[0])
    ensures Tokens(d + rest) == [d] + Tokens(rest)
  {
    var s := d + rest;
    assert TokenEnd(s) == |d| by { TokenEndOfDigits(d, rest); }
    assert s[..|d|] == d && s[|d|..] == rest;
  }

  lemma {:induction false} TokenEndOfDigits(d: seq<char>, rest: seq<char>)
    requires AllDigits(d)
    requires rest == [] || IsSpace(rest[0])
    ensures TokenEnd(d + rest) == |d|
    decreases |d|
  {
    if d != [] {
      TokenEndOfDigits(d[1..], rest);
      assert (d + rest)[1..] == d[1..] + rest;
    } else {
      assert d + rest == rest;
    }
  }

  /** Round trip: the parameter text formatted from numbers that fit in 32 bits is
      accepted by `read_numbers`, and its tokens are the decimal forms of those numbers. */
  lemma {:induction false} FormattedParamsAccepted(ns: seq<nat>)
    requires forall i :: 0 <= i < |ns| ==> ns[i] <= UINT32_MAX
    ensures Accepts(FormatParams(ns), |ns|)
    ensures forall i :: 0 <= i < |ns| ==> AllDigits(Tokens(FormatParams(ns))[i]) && ValueOf(Tokens(FormatParams(ns))[i]) == ns[i]
  {
    FormatParamsShape(ns);
    var s := FormatParams(ns);
    assert FirstNewline(s) == |s| - 1 by {
      FirstNewlineAt(s);
    }
    TokensOfFormat(ns);
    forall i | 0 <= i < |ns| ensures AllDigits(Decimal(ns[i])) && ValueOf(Decimal(ns[i])) == ns[i] {
      DecimalRoundTrip(ns[i]);
    }
  }

  lemma FirstNewlineAt(s: seq<char>)
    requires |s| >= 1 && s[|s| - 1] == '\n'
    requires forall i :: 0 <= i < |s| - 1 ==> s[i] != '\n'
    ensures FirstNewline(s) == |s| - 1
  {
    var k := FirstNewline(s);
    assert k < |s| ==> s[k] == '\n';
  }

  lemma {:induction false} TokensOfFormat(ns: seq<nat>)
    ensures |Tokens(FormatParams(ns))| == |ns|
    ensures forall i :: 0 <= i < |ns| ==> Tokens(FormatParams(ns))[i] == Decimal(ns[i])
  {
    if ns == [] {
      assert Tokens("\n") == Tokens([]);
    } else {
      var d := Decimal(ns[0]);
      var rest := FormatParams(ns[1..]);
      TokensOfFormat(ns[1..]);
      FormatParamsShape(ns[1..]);
      DecimalShape(ns[0]);
      assert FormatParams(ns) == [' '] + (d + rest);
      assert Tokens(FormatParams(ns)) == Tokens(d + rest);
      TokensOfDigitsThen(d, rest);
      forall i | 0 <= i < |ns|
        ensures Tokens(FormatParams(ns))[i] == Decimal(ns[i])
      {
        if i > 0 {
          assert ns[1..][i - 1] == ns[i];
        }
      }
    }
  }
}
