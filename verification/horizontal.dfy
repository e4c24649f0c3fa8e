/** The horizontal-rule widget of src/io/widgets/horizontal.rs: a builder remembering a row,
    an optional column range and a character, which paints that stretch of the row when it
    goes out of scope. The screen is a grid of cells; formatting beyond "plain or not" is
    kept abstract. */
module HorizontalWidget {
  import opened Options

  /** A cell's formatting: `Cell::plain` uses the default, anything else is some other style. */
  datatype Format = Plain | Styled(style: nat)

  datatype Cell = Cell(ch: char, format: Format)

  /** A screen is a list of rows of cells, `width` cells each. */
  datatype Screen = Screen(width: nat, rows: seq<seq<Cell>>)

  predicate WellShaped(s: Screen) {
    forall r :: 0 <= r < |s.rows| ==> |s.rows[r]| == s.width
  }

  /** The widget; `start` and `end` are left unset until a setter is called. */
  datatype Horizontal = Horizontal(row: nat, start: Option<nat>, end: Option<nat>, ch: char)

  /** `Horizontal::new`: the whole row, drawn with '-'. */
  function New(row: nat): (h: Horizontal)
    ensures h.row == row && h.start.None? && h.end.None? && h.ch == '-'
  {
    Horizontal(row, None, None, '-')
  }

  /** The `start` setter. */
  function SetStart(h: Horizontal, x: nat): (h': Horizontal)
    ensures h'.start == Some(x)
    ensures h'.row == h.row && h'.end == h.end && h'.ch == h.ch
  {
    h.(start := Some(x))
  }

  /** The `end` setter. */
  function SetEnd(h: Horizontal, x: nat): (h': Horizontal)
    ensures h'.end == Some(x)
    ensures h'.row == h.row && h'.start == h.start && h'.ch == h.ch
  {
    h.(end := Some(x))
  }

  /** The `char` setter. */
  function SetChar(h: Horizontal, c: char): (h': Horizontal)
    ensures h'.ch == c
    ensures h'.row == h.row && h'.start == h.start && h'.end == h.end
  {
    h.(ch := c)
  }

  /** The first column painted: `start`, or the left edge. */
  function StartX(h: Horizontal): (x: nat)
    ensures h.start.None? ==> x == 0
    ensures h.start.Some? ==> x == h.start.value
  {
    h.start.UnwrapOr(0)
  }

  /** One past the last column painted: `end`, or the screen's width. */
  function EndX(h: Horizontal, s: Screen): (x: nat)
    ensures h.end.None? ==> x == s.width
    ensures h.end.Some? ==> x == h.end.value
  {
    h.end.UnwrapOr(s.width)
  }

  /** Whether cell (`r`, `x`) lies on the painted stretch. */
  predicate Painted(h: Horizontal, s: Screen, r: nat, x: nat) {
    r == h.row && StartX(h) <= x < EndX(h, s)
  }

  /** The screen after the drop, cell by cell. */
  ghost predicate DrawnOn(h: Horizontal, s: Screen, s': Screen) {
    && s'.width == s.width
    && |s'.rows| == |s.rows|
    && (forall r :: 0 <= r < |s.rows| ==> |s'.rows[r]| == |s.rows[r]|)
    && (forall r: nat, x: nat :: r < |s.rows| && x < |s.rows[r]| ==>
          s'.rows[r][x] == if Painted(h, s, r, x) then Cell(h.ch, Plain) else s.rows[r][x])
  }

  /** `Drop::drop`: write `Cell::plain(ch)` into every column of the row from `StartX` up to,
      not including, `EndX`. Indexing outside the screen panics in the source, so a non-empty
      range must lie on the screen. */
  method Drop(h: Horizontal, s: Screen) returns (s': Screen)
    requires StartX(h) < EndX(h, s) ==> h.row < |s.rows| && EndX(h, s) <= |s.rows[h.row]|
    ensures DrawnOn(h, s, s')
    ensures WellShaped(s) ==> WellShaped(s')
    ensures StartX(h) >= EndX(h, s) ==> s' == s
  {
    var startX, endX := StartX(h), EndX(h, s);
    s' := s;
    if startX >= endX {
      return;
    }
    var line := s.rows[h.row];
    var x := startX;
    while x < endX
      invariant startX <= x <= endX
      invariant |line| == |s.rows[h.row]|
      invariant forall c :: 0 <= c < |line| ==>
                  line[c] == if startX <= c < x then Cell(h.ch, Plain) else s.rows[h.row][c]
    {
      line := line[x := Cell(h.ch, Plain)];
      x := x + 1;
    }
    s' := s.(rows := s.rows[h.row := line]);
  }
}
