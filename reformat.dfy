/** A model of reformat.c: it re-lays the first 5760 bytes of
    teletext-font.pbm as 96 text lines, one per glyph, each holding the glyph's 9 x 5 pixels
    as inverted bits followed by a newline. The reference `Reformatted` says
    which input byte every output position comes from; `Reformat` is the
    program's four nested loops, proved to produce it. */
module Reformat {

  /** `96 * 10 * 6`: the bytes read into `buf`. */
  const BUFFER_SIZE: nat := 5760
  /** Glyph grid: 6 rows of 16 glyphs. */
  const GRID_ROWS: nat := 6
  const GRID_COLS: nat := 16
  /** Pixels emitted per glyph: 9 values of `j` times 5 values of `i`. */
  const GLYPH_HEIGHT: nat := 9
  const GLYPH_WIDTH: nat := 5
  const BITS_PER_LINE: nat := 45
  /** One output line: the bits and a newline. */
  const LINE_LENGTH: nat := 46
  const LINE_COUNT: nat := 96
  const OUTPUT_SIZE: nat := LINE_COUNT * LINE_LENGTH

  /** `row * 960 + col * 6 + j * 96 + i`: where pixel (j, i) of glyph (row, col)
      sits in the buffer. It is always inside the buffer. */
  function Index(row: nat, col: nat, j: nat, i: nat): (idx: nat)
    requires row < GRID_ROWS && col < GRID_COLS && j < GLYPH_HEIGHT && i < GLYPH_WIDTH
    ensures idx <= 5662 < BUFFER_SIZE
  {
    row * 960 + col * 6 + j * 96 + i
  }

  /** `buf[idx] == '0' ? '1' : '0'`: the inverted pixel. */
  function Invert(b: char): (c: char)
    ensures c == '0' || c == '1'
    ensures c == '1' <==> b == '0'
  {
    if b == '0' then '1' else '0'
  }

  /** Output position `k` lies on line `k / 46` (glyph row `line / 16`, column
      `line % 16`); its last position is the newline, and position `p` before
      it comes from `j = 8 - p / 5` and `i = 4 - p % 5`. */
  function OutputChar(buf: seq<char>, k: nat): (c: char)
    requires |buf| == BUFFER_SIZE && k < OUTPUT_SIZE
  {
    var line, p := k / LINE_LENGTH, k % LINE_LENGTH;
    if p == BITS_PER_LINE then '\n'
    else Invert(buf[Index(line / GRID_COLS, line % GRID_COLS, 8 - p / GLYPH_WIDTH, 4 - p % GLYPH_WIDTH)])
  }

  /** Everything the program prints, as a reference independent of the loops. */
  function Reformatted(buf: seq<char>): (out: seq<char>)
    requires |buf| == BUFFER_SIZE
    ensures |out| == OUTPUT_SIZE
    // only '0', '1' and newlines are printed
    ensures forall k :: 0 <= k < |out| ==> out[k] == '0' || out[k] == '1' || out[k] == '\n'
    // newlines are exactly at the end of each 46-character line
    ensures forall k :: 0 <= k < |out| ==> (out[k] == '\n' <==> k % LINE_LENGTH == BITS_PER_LINE)
  {
    seq(OUTPUT_SIZE, k requires 0 <= k < OUTPUT_SIZE => OutputChar(buf, k))
  }

  /** Position `(row * 16 + col) * 46 + p` of the output decomposes back into
      glyph row, glyph column and position in the line. */
  lemma PositionDecode(row: nat, col: nat, p: nat)
    requires row < GRID_ROWS && col < GRID_COLS && p < LINE_LENGTH
    ensures var k := (row * GRID_COLS + col) * LINE_LENGTH + p;
      k < OUTPUT_SIZE && k / LINE_LENGTH == row * GRID_COLS + col && k % LINE_LENGTH == p &&
      (row * GRID_COLS + col) / GRID_COLS == row && (row * GRID_COLS + col) % GRID_COLS == col
  {
  }

  /** The k-th bit of glyph (row, col)'s line is the inverted pixel (8 - k / 5, 4 - k % 5),
      so both pixel loops run in descending order. */
  lemma LineLayout(buf: seq<char>, row: nat, col: nat, k: nat)
    requires |buf| == BUFFER_SIZE
    requires row < GRID_ROWS && col < GRID_COLS && k < BITS_PER_LINE
    ensures (row * GRID_COLS + col) * LINE_LENGTH + k < OUTPUT_SIZE
    ensures Reformatted(buf)[(row * GRID_COLS + col) * LINE_LENGTH + k] ==
            Invert(buf[Index(row, col, 8 - k / GLYPH_WIDTH, 4 - k % GLYPH_WIDTH)])
  {
    PositionDecode(row, col, k);
  }

  /** The output position written when the loops are at (row, col, j, i). */
  function Position(row: nat, col: nat, j: nat, i: nat): (k: nat)
    requires j < GLYPH_HEIGHT && i < GLYPH_WIDTH
  {
    (row * GRID_COLS + col) * LINE_LENGTH + (8 - j) * GLYPH_WIDTH + (4 - i)
  }

  /** At loop position (row, col, j, i) the reference holds the pixel the loop prints. */
  lemma PixelAt(buf: seq<char>, row: nat, col: nat, j: nat, i: nat)
    requires |buf| == BUFFER_SIZE
    requires row < GRID_ROWS && col < GRID_COLS && j < GLYPH_HEIGHT && i < GLYPH_WIDTH
    ensures Position(row, col, j, i) < OUTPUT_SIZE
    ensures OutputChar(buf, Position(row, col, j, i)) == Invert(buf[Index(row, col, j, i)])
  {
    var p := (8 - j) * GLYPH_WIDTH + (4 - i);
    assert p / GLYPH_WIDTH == 8 - j && p % GLYPH_WIDTH == 4 - i;
    PositionDecode(row, col, p);
  }

  /** The nested loops of `main`, printing one character at a time. */
  method Reformat(buf: seq<char>) returns (out: seq<char>)
    requires |buf| == BUFFER_SIZE
    ensures out == Reformatted(buf)
  {
    out := [];
    var row := 0;
    while row < GRID_ROWS
      invariant 0 <= row <= GRID_ROWS
      invariant |out| == row * GRID_COLS * LINE_LENGTH
      invariant forall k :: 0 <= k < |out| ==> out[k] == OutputChar(buf, k)
    {
      var col := 0;
      while col < GRID_COLS
        invariant 0 <= col <= GRID_COLS
        invariant |out| == (row * GRID_COLS + col) * LINE_LENGTH
        invariant forall k :: 0 <= k < |out| ==> out[k] == OutputChar(buf, k)
      {
        var j := 8;
        while j >= 0
          invariant -1 <= j <= 8
          invariant |out| == (row * GRID_COLS + col) * LINE_LENGTH + (8 - j) * GLYPH_WIDTH
          invariant forall k :: 0 <= k < |out| ==> out[k] == OutputChar(buf, k)
        {
          var i := 4;
          while i >= 0
            invariant -1 <= i <= 4
            invariant |out| == (row * GRID_COLS + col) * LINE_LENGTH + (8 - j) * GLYPH_WIDTH + (4 - i)
            invariant forall k :: 0 <= k < |out| ==> out[k] == OutputChar(buf, k)
          {
            var idx := row * 960 + col * 6 + j * 96 + i;
            PixelAt(buf, row, col, j, i);
            out := out + [if buf[idx] == '0' then '1' else '0'];
            i := i - 1;
          }
          j := j - 1;
        }
        PositionDecode(row, col, BITS_PER_LINE);
        out := out + ['\n'];
        col := col + 1;
      }
      row := row + 1;
    }
  }
}
