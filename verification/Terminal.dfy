// The terminal as the regular-screen renderer sees it: an unbounded buffer of
// rows, of which the last `height` rows starting at `top` are the viewport, and
// a cursor. Control functions are those of ECMA-48, 5th edition: CUU (8.3.22),
// CUD (8.3.19), CHA (8.3.9), EL (8.3.41), ED (8.3.39) and CUP (8.3.21).

module TerminalModel {

  /** What one row of the buffer holds. A row is only known to hold a line when
      that line was printed from column zero onto a blank row; printing over
      anything else leaves text the renderer cannot account for. */
  datatype Row = Text(line: string) | Overprinted

  const BLANK := Text("")

  datatype Op =
    | Print(line: string)
    | CarriageReturn
    | LineFeed
    | CursorUp(n: nat)
    | CursorDown(n: nat)
    | CursorColumn(n: nat)
    | CursorHome
    | EraseLine
    | EraseDisplay
    | EraseScrollback
    | SynchronizedOutput(on: bool)
    | ShowCursor(on: bool)

  datatype Screen = Screen(rows: nat -> Row, top: nat, row: nat, col: nat, height: nat, visible: bool) {

    /** The buffer ends with the viewport, and the cursor is inside it. */
    ghost predicate Valid() {
      && top <= row < top + height
      && forall i: nat :: top + height <= i ==> rows(i) == BLANK
    }

    /** The buffer holds exactly these lines, from its first row, and nothing else. */
    ghost predicate Shows(lines: seq<string>) {
      forall i: nat :: rows(i) == Text(LineAt(lines, i))
    }
  }

  /** The line at an index; rows past the end of the content count as empty. */
  function LineAt(lines: seq<string>, index: int): string {
    if 0 <= index < |lines| then lines[index] else ""
  }

  function SetRow(rows: nat -> Row, at: nat, row: Row): nat -> Row {
    (i: nat) => if i == at then row else rows(i)
  }

  // A parameter of zero selects the default value, one (ECMA-48, 5.4.2).
  function Count(n: nat): nat { if n == 0 then 1 else n }

  function Step(s: Screen, op: Op): Screen {
    match op
    case Print(line) =>
      var after := if line == "" then s.rows(s.row)
                   else if s.col == 0 && s.rows(s.row) == BLANK then Text(line)
                   else Overprinted;
      s.(rows := SetRow(s.rows, s.row, after), col := s.col + |line|)
    case CarriageReturn => s.(col := 0)
    case LineFeed =>
      s.(row := s.row + 1, top := if s.row + 1 == s.top + s.height then s.top + 1 else s.top)
    case CursorUp(n) => s.(row := if s.row < s.top + Count(n) then s.top else s.row - Count(n))
    case CursorDown(n) =>
      s.(row := if s.row + Count(n) >= s.top + s.height && s.height > 0 then s.top + s.height - 1
                else s.row + Count(n))
    case CursorColumn(n) => s.(col := Count(n) - 1)
    case CursorHome => s.(row := s.top, col := 0)
    case EraseLine => s.(rows := SetRow(s.rows, s.row, BLANK))
    case EraseDisplay => s.(rows := (i: nat) => if i < s.top then s.rows(i) else BLANK)
    case EraseScrollback =>
      s.(rows := (i: nat) => s.rows(i + s.top),
         top := 0,
         row := if s.row < s.top then 0 else s.row - s.top)
    case SynchronizedOutput(_) => s
    case ShowCursor(on) => s.(visible := on)
  }

  function Run(s: Screen, ops: seq<Op>): Screen {
    if ops == [] then s else Step(Run(s, ops[..|ops| - 1]), ops[|ops| - 1])
  }

  lemma RunSnoc(s: Screen, ops: seq<Op>, op: Op)
    ensures Run(s, ops + [op]) == Step(Run(s, ops), op)
  {
    assert (ops + [op])[..|ops|] == ops;
  }

  class Terminal {
    var screen: Screen

    constructor (height: nat)
      ensures screen == Screen((i: nat) => BLANK, 0, 0, 0, height, false)
    {
      screen := Screen((i: nat) => BLANK, 0, 0, 0, height, false);
    }

    /** Interprets what the renderer wrote, one control function at a time. */
    method Write(ops: seq<Op>)
      modifies this
      ensures screen == Run(old(screen), ops)
    {
      for i := 0 to |ops|
        invariant screen == Run(old(screen), ops[..i])
      {
        RunSnoc(old(screen), ops[..i], ops[i]);
        assert ops[..i + 1] == ops[..i] + [ops[i]];
        screen := Step(screen, ops[i]);
      }
      assert ops[..|ops|] == ops;
    }
  }
}
