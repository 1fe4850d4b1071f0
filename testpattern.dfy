/** A model of soft/testpattern.c: the bytes it writes to `pattern.bin`. Byte `i`
    is a decimal digit that grows by one (mod 10) along each 40-byte row and from
    each row to the next. */
module TestPattern {

  /** Number of bytes written, one per loop iteration. */
  const PATTERN_SIZE: nat := 65536
  /** Width of a row of the pattern. */
  const ROW_WIDTH: nat := 40

  /** The value of a decimal digit character. */
  function DigitValue(c: char): (d: int)
  {
    c as int - '0' as int
  }

  /** `'0' + ((i / 40 + i % 40) % 10)`: the byte the loop writes at iteration `i`. */
  function PatternByte(i: nat): (c: char)
    ensures '0' <= c <= '9'
    ensures DigitValue(c) == (i / ROW_WIDTH + i % ROW_WIDTH) % 10
  {
    ('0' as int + (i / ROW_WIDTH + i % ROW_WIDTH) % 10) as char
  }

  /** The loop of `main`: one byte per iteration, appended to the output file. */
  method Generate() returns (out: seq<char>)
    ensures |out| == PATTERN_SIZE
    ensures forall i :: 0 <= i < |out| ==> out[i] == PatternByte(i)
  {
    out := [];
    var i := 0;
    while i < PATTERN_SIZE
      invariant 0 <= i <= PATTERN_SIZE
      invariant |out| == i
      invariant forall k :: 0 <= k < i ==> out[k] == PatternByte(k)
    {
      var row := i / ROW_WIDTH;
      var col := i % ROW_WIDTH;
      var chr := ('0' as int + (row + col) % 10) as char;
      out := out + [chr];
      i := i + 1;
    }
  }

  /** Within a row, each byte is the previous digit plus one, mod 10. */
  lemma {:induction false} NextInRow(i: nat)
    requires i + 1 < PATTERN_SIZE && (i + 1) % ROW_WIDTH != 0
    ensures DigitValue(PatternByte(i + 1)) == (DigitValue(PatternByte(i)) + 1) % 10
  {
    assert i % ROW_WIDTH + 1 < ROW_WIDTH;
    assert (i + 1) / ROW_WIDTH == i / ROW_WIDTH;
    assert (i + 1) % ROW_WIDTH == i % ROW_WIDTH + 1;
  }

  /** The byte one row further down is the digit plus one, mod 10. */
  lemma {:induction false} NextRow(i: nat)
    requires i + ROW_WIDTH < PATTERN_SIZE
    ensures DigitValue(PatternByte(i + ROW_WIDTH)) == (DigitValue(PatternByte(i)) + 1) % 10
  {
    assert (i + ROW_WIDTH) / ROW_WIDTH == i / ROW_WIDTH + 1;
    assert (i + ROW_WIDTH) % ROW_WIDTH == i % ROW_WIDTH;
  }

  /** The pattern repeats along each diagonal: moving one byte right and one
      row up gives the same digit. */
  lemma DiagonalConstant(i: nat)
    requires i + ROW_WIDTH < PATTERN_SIZE && (i + 1) % ROW_WIDTH != 0
    ensures PatternByte(i + ROW_WIDTH) == PatternByte(i + 1)
  {
  }
}
