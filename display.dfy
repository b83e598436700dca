/**
 * `display`: turns the grid of lighting values into text.  Each value becomes
 * one character of a twelve-step brightness ramp followed by a space; each row
 * ends with two newlines; the whole screen is preceded by the ANSI "clear
 * screen" sequence.  The terminal is not modelled: the method returns the
 * text it would write.
 */
module Display {
  import opened GoNumeric
  import opened Sequences

  /** The brightness ramp, darkest first. */
  const Palette: string := ".,-~:;=!*#$@"

  /** `ESC [ 2 J`, written before the first row. */
  const ClearScreen: string := "\U{1b}[2J"

  /**
   * Position in the ramp for a lighting value: negative values take the
   * first step, values above 11 the last, the rest their integer part.
   */
  function Level(val: real): (i: int)
    ensures 0 <= i < |Palette|
    ensures val < 0.0 ==> i == 0
    ensures val > 11.0 ==> i == |Palette| - 1
    ensures 0.0 <= val <= 11.0 ==> i as real <= val < i as real + 1.0
  {
    if val < 0.0 then 0
    else if val > 11.0 then |Palette| - 1
    else TruncToInt(val)
  }

  /** The character printed for a lighting value: the ramp step `Level` picks. */
  function Glyph(val: real): (g: char)
    ensures g in Palette
    ensures val < 0.0 ==> g == '.'
    ensures val > 11.0 ==> g == '@'
    ensures 0.0 <= val <= 11.0 ==>
      exists i :: 0 <= i < |Palette| && g == Palette[i] && i as real <= val < i as real + 1.0
  {
    Palette[Level(val)]
  }

  /** Every step of the ramp is a different character. */
  lemma PaletteDistinct()
    ensures forall i, j :: 0 <= i < j < |Palette| ==> Palette[i] != Palette[j]
  {
  }

  /** A brighter value never gets a darker character. */
  lemma LevelMonotone(a: real, b: real)
    requires a <= b
    ensures Level(a) <= Level(b)
  {
  }

  /** A cell no sample reached (value 0) shows the darkest character. */
  lemma BlankCell()
    ensures Glyph(0.0) == '.'
  {
  }


  /** The glyph of every cell of the grid, row by row. */
  function Glyphs(pix: array2<real>): (g: seq<seq<char>>)
    reads pix
    ensures |g| == pix.Length0
    ensures forall r :: 0 <= r < |g| ==> |g[r]| == pix.Length1
    ensures forall r, c :: 0 <= r < pix.Length0 && 0 <= c < pix.Length1 ==> g[r][c] == Glyph(pix[r, c])
  {
    seq(pix.Length0, r requires 0 <= r < pix.Length0 reads pix =>
      seq(pix.Length1, c requires 0 <= c < pix.Length1 reads pix => Glyph(pix[r, c])))
  }

  /** The text printed for one row: each character followed by a space. */
  function Line(cells: seq<char>): string {
    if cells == [] then ""
    else Line(cells[..|cells| - 1]) + [cells[|cells| - 1], ' ']
  }

  /** The text printed for the rows: the clear-screen sequence, then each row and two newlines. */
  function Text(rows: seq<seq<char>>): string {
    if rows == [] then ClearScreen
    else Text(rows[..|rows| - 1]) + (Line(rows[|rows| - 1]) + "\n\n")
  }

  /** The loops of `display`, collecting what they print. */
  method Display(pix: array2<real>) returns (out: string)
    ensures out == Text(Glyphs(pix))
  {
    ghost var g := Glyphs(pix);
    out := ClearScreen;
    for r := 0 to pix.Length0
      invariant out == Text(g[..r])
    {
      for c := 0 to pix.Length1
        invariant out == Text(g[..r]) + Line(g[r][..c])
      {
        LineSnoc(g[r], c);
        out := out + [Glyph(pix[r, c]), ' '];
      }
      TextSnoc(g, r);
      out := out + "\n\n";
    }
    assert g[..pix.Length0] == g;
  }

  lemma LineSnoc(cells: seq<char>, c: int)
    requires 0 <= c < |cells|
    ensures Line(cells[..c + 1]) == Line(cells[..c]) + [cells[c], ' ']
  {
    assert cells[..c + 1][..c] == cells[..c];
  }

  lemma TextSnoc(rows: seq<seq<char>>, r: int)
    requires 0 <= r < |rows|
    ensures Text(rows[..r + 1]) == Text(rows[..r]) + Line(rows[r][..|rows[r]|]) + "\n\n"
  {
    assert rows[..r + 1][..r] == rows[..r];
    assert rows[r][..|rows[r]|] == rows[r];
  }

  /** Position `i` of `s` exists and holds `ch`. */
  predicate At(s: string, i: int, ch: char) {
    0 <= i < |s| && s[i] == ch
  }

  /** Each row's text is two characters per cell. */
  lemma {:induction false} LineLayout(cells: seq<char>)
    ensures |Line(cells)| == 2 * |cells|
    ensures forall k :: 0 <= k < |cells| ==> At(Line(cells), 2 * k, cells[k]) && At(Line(cells), 2 * k + 1, ' ')
  {
    if cells != [] {
      LineLayout(cells[..|cells| - 1]);
    }
  }

  /** Every row is `width` cells long. */
  predicate Rectangular(rows: seq<seq<char>>, width: nat) {
    forall r :: 0 <= r < |rows| ==> |rows[r]| == width
  }

  /** Every row adds a line of `2 * width + 2` characters after the clear-screen sequence. */
  lemma {:induction false} TextLength(rows: seq<seq<char>>, width: nat)
    requires Rectangular(rows, width)
    ensures |Text(rows)| == |ClearScreen| + |rows| * (2 * width + 2)
  {
    if rows != [] {
      var n := |rows|;
      TextLength(rows[..n - 1], width);
      LineLayout(rows[n - 1]);
      MulPred(n, 2 * width + 2);
    }
  }

  /**
   * Where a cell lands in the text: row `r` starts where the text of the rows
   * before it ends, and cell `(r, c)` is its character at offset `2c` of the
   * row, followed by a space.
   */
  lemma {:induction false} CellText(rows: seq<seq<char>>, r: int, c: int)
    requires 0 <= r < |rows| && 0 <= c < |rows[r]|
    ensures At(Text(rows), |Text(rows[..r])| + 2 * c, rows[r][c])
    ensures At(Text(rows), |Text(rows[..r])| + 2 * c + 1, ' ')
  {
    var n := |rows| - 1;
    var prev := Text(rows[..n]);
    var tail := Line(rows[n]) + "\n\n";
    if r < n {
      assert rows[..n][..r] == rows[..r];
      CellText(rows[..n], r, c);
      AppendLeft(prev, tail, |Text(rows[..r])| + 2 * c, rows[r][c]);
      AppendLeft(prev, tail, |Text(rows[..r])| + 2 * c + 1, ' ');
    } else {
      LineLayout(rows[r]);
      AppendLeft(Line(rows[r]), "\n\n", 2 * c, rows[r][c]);
      AppendLeft(Line(rows[r]), "\n\n", 2 * c + 1, ' ');
      AppendRight(prev, tail, 2 * c, rows[r][c]);
      AppendRight(prev, tail, 2 * c + 1, ' ');
    }
  }

  /** Each row's text ends with two newlines. */
  lemma {:induction false} LineEnd(rows: seq<seq<char>>, r: int)
    requires 0 <= r < |rows|
    ensures At(Text(rows), |Text(rows[..r])| + 2 * |rows[r]|, '\n')
    ensures At(Text(rows), |Text(rows[..r])| + 2 * |rows[r]| + 1, '\n')
  {
    var n := |rows| - 1;
    var prev := Text(rows[..n]);
    var tail := Line(rows[n]) + "\n\n";
    if r < n {
      assert rows[..n][..r] == rows[..r];
      LineEnd(rows[..n], r);
      AppendLeft(prev, tail, |Text(rows[..r])| + 2 * |rows[r]|, '\n');
      AppendLeft(prev, tail, |Text(rows[..r])| + 2 * |rows[r]| + 1, '\n');
    } else {
      LineLayout(rows[r]);
      AppendRight(Line(rows[r]), "\n\n", 0, '\n');
      AppendRight(Line(rows[r]), "\n\n", 1, '\n');
      AppendRight(prev, tail, 2 * |rows[r]|, '\n');
      AppendRight(prev, tail, 2 * |rows[r]| + 1, '\n');
    }
  }

  /** The text starts with the clear-screen sequence. */
  lemma {:induction false} TextStart(rows: seq<seq<char>>)
    ensures |ClearScreen| <= |Text(rows)| && Text(rows)[..|ClearScreen|] == ClearScreen
  {
    if rows != [] {
      var prev := Text(rows[..|rows| - 1]);
      TextStart(rows[..|rows| - 1]);
      assert Text(rows)[..|ClearScreen|] == prev[..|ClearScreen|];
    }
  }

  /**
   * What the screen shows for cell `(r, c)`: its glyph, at column `2c` of
   * line `r` (each line being `2 * width + 2` characters long) after the
   * clear-screen sequence, followed by a space.
   */
  lemma CellOnScreen(pix: array2<real>, r: int, c: int)
    requires 0 <= r < pix.Length0 && 0 <= c < pix.Length1
    ensures At(Text(Glyphs(pix)), |ClearScreen| + r * (2 * pix.Length1 + 2) + 2 * c, Glyph(pix[r, c]))
    ensures At(Text(Glyphs(pix)), |ClearScreen| + r * (2 * pix.Length1 + 2) + 2 * c + 1, ' ')
  {
    var g := Glyphs(pix);
    CellText(g, r, c);
    assert |g[..r]| == r && Rectangular(g[..r], pix.Length1);
    TextLength(g[..r], pix.Length1);
    assert g[r][c] == Glyph(pix[r, c]);
  }

  lemma AppendLeft(a: string, b: string, i: int, ch: char)
    requires At(a, i, ch)
    ensures At(a + b, i, ch)
  {
  }

  lemma AppendRight(a: string, b: string, i: int, ch: char)
    requires At(b, i, ch)
    ensures At(a + b, |a| + i, ch)
  {
  }
}
