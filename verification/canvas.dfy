/** The canvas of `src/canvas.rs`: a `height` by `width` grid of pixels, read
    and written by `(row, column)`, and its serialisation to PPM-style text.

    The conversion of a colour to text is not part of this model; every
    serialisation member takes it as the parameter `show`. The serialiser and
    its equality with the reference text hold for any conversion. The line
    layout holds for conversions whose strings contain no newline, and the
    exact field layout of a row also needs them to contain no space. */
module Canvases {
  import opened Text
  import Grid

  datatype Color = Color(r: real, g: real, b: real)

  datatype Pixel = Pixel(color: Color)

  datatype Canvas = Canvas(width: nat, height: nat, pixels: seq<seq<Pixel>>)

  const Black := Color(0.0, 0.0, 0.0)

  /** The invariant every canvas keeps: `height` rows of `width` pixels. */
  predicate Valid(c: Canvas) {
    Grid.IsRect(c.pixels, c.height, c.width)
  }

  /** `canvas::new(height, width)`: the requested dimensions, every pixel black. */
  function New(height: nat, width: nat): (c: Canvas)
    ensures Valid(c)
    ensures c.height == height && c.width == width
    ensures forall i, j :: 0 <= i < height && 0 <= j < width ==> Get(c, i, j) == Pixel(Black)
  {
    Canvas(width, height, Grid.Fill(height, width, Pixel(Black)))
  }

  /** Where `pixels[row][col]` does not panic. */
  predicate InBounds(c: Canvas, row: nat, col: nat) {
    row < |c.pixels| && col < |c.pixels[row]|
  }

  /** `canvas[(row, col)]`: on a valid canvas only below the height and width. */
  function Get(c: Canvas, row: nat, col: nat): Pixel
    requires InBounds(c, row, col)
    ensures Valid(c) ==> row < c.height && col < c.width
  {
    c.pixels[row][col]
  }

  /** `canvas[(row, col)] = p` through `IndexMut`: the dimensions and the
      invariant are kept. */
  function Set(c: Canvas, row: nat, col: nat, p: Pixel): (d: Canvas)
    requires InBounds(c, row, col)
    ensures d.width == c.width && d.height == c.height
    ensures Grid.SameShape(c.pixels, d.pixels)
    ensures Valid(c) ==> Valid(d)
  {
    c.(pixels := Grid.Update(c.pixels, row, col, p))
  }

  /** On a valid canvas an access is in bounds exactly when the row is below
      the height and the column below the width. */
  lemma InBoundsIffBelowDimensions(c: Canvas, row: nat, col: nat)
    requires Valid(c)
    ensures InBounds(c, row, col) <==> (row < c.height && col < c.width)
  {
  }

  /** Reading back a written pixel returns the written pixel. */
  lemma GetAfterSet(c: Canvas, row: nat, col: nat, p: Pixel)
    requires InBounds(c, row, col)
    ensures InBounds(Set(c, row, col, p), row, col)
    ensures Get(Set(c, row, col, p), row, col) == p
  {
  }

  /** Writing a pixel leaves every other pixel as it was. */
  lemma GetAfterSetOther(c: Canvas, row: nat, col: nat, p: Pixel, a: nat, b: nat)
    requires InBounds(c, row, col) && InBounds(c, a, b)
    requires a != row || b != col
    ensures InBounds(Set(c, row, col, p), a, b)
    ensures Get(Set(c, row, col, p), a, b) == Get(c, a, b)
  {
  }

  /** The `writing_pixels` test: four writes into a 10 by 10 canvas, each read back. */
  lemma WritingPixelsExample()
    ensures
      var red := Color(1.0, 0.0, 0.0);
      var c1 := Color(0.25, 0.5, 0.75);
      var c := Set(Set(Set(Set(New(10, 10), 0, 5, Pixel(red)), 0, 0, Pixel(red)), 3, 4, Pixel(c1)), 9, 9, Pixel(c1));
      && Valid(c)
      && Get(c, 0, 5).color == red && Get(c, 3, 4).color == c1
      && Get(c, 9, 9).color == c1 && Get(c, 0, 0).color == red
  {
  }

  // ---------------------------------------------------------------------------
  // Serialisation

  /** The three header lines: format tag, `width height`, maximum channel value. */
  function HeaderLines(c: Canvas): seq<string> {
    ["P6", NatToString(c.width) + " " + NatToString(c.height), "255"]
  }

  /** The header exactly as `to_ppm` writes it, each line ending in a newline. */
  function Header(c: Canvas): string {
    "P6\n" + NatToString(c.width) + " " + NatToString(c.height) + "\n" + "255\n"
  }

  /** The colour strings of row `i`, in column order. */
  function RowColors(c: Canvas, show: Color -> string, i: nat): (cells: seq<string>)
    requires Valid(c) && i < c.height
    ensures |cells| == c.width
  {
    seq(c.width, j requires 0 <= j < c.width => show(c.pixels[i][j].color))
  }

  /** Row `i` as one line: its colour strings separated by single spaces. */
  function RowLine(c: Canvas, show: Color -> string, i: nat): string
    requires Valid(c) && i < c.height
  {
    Join(RowColors(c, show, i), ' ')
  }

  /** All row lines, top to bottom. */
  function RowLines(c: Canvas, show: Color -> string): (lines: seq<string>)
    requires Valid(c)
    ensures |lines| == c.height
  {
    seq(c.height, i requires 0 <= i < c.height => RowLine(c, show, i))
  }

  /** The serialised canvas: the header, the row lines joined by newlines and
      one final newline. */
  function PpmText(c: Canvas, show: Color -> string): (s: string)
    requires Valid(c)
    ensures |s| > |Header(c)| && s[..|Header(c)|] == Header(c)
    ensures s[|s| - 1] == '\n'
  {
    Header(c) + Join(RowLines(c, show), '\n') + "\n"
  }

  /** `Canvas::to_ppm`, step by step as the code does it: header, then for each
      row the colour strings of its pixels, each followed by a space unless it
      is at index `width - 1`, and finally the rows joined by newlines plus a
      trailing newline. */
  method ToPpm(c: Canvas, show: Color -> string) returns (ppm: string)
    requires Valid(c)
    ensures ppm == PpmText(c, show)
  {
    ppm := "P6\n";
    ppm := ppm + NatToString(c.width) + " " + NatToString(c.height) + "\n";
    ppm := ppm + "255\n";
    var grid: seq<string> := [];
    var i := 0;
    while i < c.height
      invariant 0 <= i <= c.height
      invariant grid == RowLines(c, show)[..i]
    {
      var row := c.pixels[i];
      ghost var cells := RowColors(c, show, i);
      var line := "";
      var j := 0;
      while j < |row|
        invariant 0 <= j <= |row| == c.width
        invariant j == 0 ==> line == ""
        invariant 0 < j ==> line == Join(cells[..j], ' ') + (if j < c.width then " " else "")
      {
        var text := show(row[j].color);
        assert text == cells[j];
        assert cells[..j + 1] == cells[..j] + [text];
        if j > 0 {
          JoinSnoc(cells[..j], text, ' ');
        }
        if j < c.width - 1 {
          line := line + text + " ";
        } else {
          line := line + text;
        }
        j := j + 1;
      }
      assert cells[..j] == cells;
      assert line == RowLine(c, show, i);
      grid := grid + [line];
      assert RowLines(c, show)[..i + 1] == RowLines(c, show)[..i] + [RowLines(c, show)[i]];
      i := i + 1;
    }
    assert grid == RowLines(c, show);
    ppm := ppm + Join(grid, '\n') + "\n";
  }

  /** The lines that follow the header: the row lines, or one empty line when
      the canvas has no rows (joining no rows gives the empty string, which is
      then terminated like a line). */
  function BodyLines(c: Canvas, show: Color -> string): (lines: seq<string>)
    requires Valid(c)
    ensures |lines| == if c.height == 0 then 1 else c.height
  {
    if c.height == 0 then [""] else RowLines(c, show)
  }

  /** The serialised canvas is the header lines followed by the body lines,
      each terminated by one newline. */
  lemma PpmTextIsJoinedLines(c: Canvas, show: Color -> string)
    requires Valid(c)
    ensures PpmText(c, show) == Join(HeaderLines(c) + BodyLines(c, show) + [""], '\n')
  {
    var h := HeaderLines(c);
    var body := BodyLines(c, show);
    assert Join(h, '\n') + "\n" == Header(c) by {
      assert h[1..][1..] == ["255"];
      assert Join(h[1..], '\n') == h[1] + "\n" + "255";
      assert Join(h, '\n') == "P6" + "\n" + (h[1] + "\n" + "255");
    }
    assert Join(RowLines(c, show), '\n') == Join(body, '\n');
    JoinSnoc(body, "", '\n');
    JoinAppend(h, body + [""], '\n');
    assert h + body + [""] == h + (body + [""]);
  }

  /** The line layout of the output: split at newlines it is exactly the three
      header lines, then one line per row in row order (a single empty line
      when there are no rows), then the empty remainder after the final
      newline. Holds whenever the colour strings contain no newline. */
  lemma PpmLines(c: Canvas, show: Color -> string)
    requires Valid(c)
    requires forall col: Color :: '\n' !in show(col)
    ensures Split(PpmText(c, show), '\n') == HeaderLines(c) + BodyLines(c, show) + [""]
  {
    var lines := HeaderLines(c) + BodyLines(c, show) + [""];
    PpmTextIsJoinedLines(c, show);
    forall k | 0 <= k < |lines|
      ensures '\n' !in lines[k]
    {
      if 3 <= k < 3 + c.height {
        var i := k - 3;
        assert lines[k] == RowLine(c, show, i);
        forall m | 0 <= m < c.width
          ensures '\n' !in RowColors(c, show, i)[m]
        {
          assert RowColors(c, show, i)[m] == show(c.pixels[i][m].color);
        }
        JoinAvoids(RowColors(c, show, i), ' ', '\n');
      } else if k == 1 {
        var w := NatToString(c.width);
        var h := NatToString(c.height);
        assert lines[1] == w + " " + h;
        forall m | 0 <= m < |lines[1]|
          ensures lines[1][m] != '\n'
        {
          if m < |w| {
            assert lines[1][m] == w[m];
          } else if m > |w| {
            assert lines[1][m] == h[m - |w| - 1];
          }
        }
      }
    }
    SplitJoin(lines, '\n');
  }

  /** The fields of row `i` split at spaces are the space-separated pieces of
      its colour strings, in column order: exactly one space between
      consecutive pixels and none after the last. */
  lemma RowFields(c: Canvas, show: Color -> string, i: nat)
    requires Valid(c) && i < c.height && c.width >= 1
    ensures Split(RowLine(c, show, i), ' ') == SplitAll(RowColors(c, show, i), ' ')
  {
    SplitJoinFlat(RowColors(c, show, i), ' ');
  }

  /** With space-free colour strings the fields of a row are exactly its
      pixels' colour strings. */
  lemma RowFieldsAreColors(c: Canvas, show: Color -> string, i: nat)
    requires Valid(c) && i < c.height && c.width >= 1
    requires forall col: Color :: ' ' !in show(col)
    ensures Split(RowLine(c, show, i), ' ') == RowColors(c, show, i)
  {
    var cells := RowColors(c, show, i);
    forall m | 0 <= m < |cells|
      ensures ' ' !in cells[m]
    {
      assert cells[m] == show(c.pixels[i][m].color);
    }
    SplitJoin(cells, ' ');
  }

  /** The dimensions line reads back as `width` and `height`. */
  lemma HeaderDimensions(c: Canvas)
    ensures |Split(HeaderLines(c)[1], ' ')| == 2
    ensures IsDigits(Split(HeaderLines(c)[1], ' ')[0]) && IsDigits(Split(HeaderLines(c)[1], ' ')[1])
    ensures ParseNat(Split(HeaderLines(c)[1], ' ')[0]) == c.width
    ensures ParseNat(Split(HeaderLines(c)[1], ' ')[1]) == c.height
  {
    var w := NatToString(c.width);
    var h := NatToString(c.height);
    assert ' ' !in w && ' ' !in h by {
      assert forall k :: 0 <= k < |w| ==> w[k] != ' ';
      assert forall k :: 0 <= k < |h| ==> h[k] != ' ';
    }
    assert Join([w, h], ' ') == w + " " + h;
    SplitJoin([w, h], ' ');
    ParseNatToString(c.width);
    ParseNatToString(c.height);
  }

  /** A canvas with no rows serialises to the header and one lone newline. */
  lemma EmptyCanvasText(c: Canvas, show: Color -> string)
    requires Valid(c) && c.height == 0
    ensures PpmText(c, show) == Header(c) + "\n"
  {
  }

  /** The output depends only on the dimensions and the pixel colours. */
  lemma PpmTextDependsOnColors(c: Canvas, d: Canvas, show: Color -> string)
    requires Valid(c) && Valid(d)
    requires c.width == d.width && c.height == d.height
    requires forall i, j :: 0 <= i < c.height && 0 <= j < c.width ==> c.pixels[i][j].color == d.pixels[i][j].color
    ensures PpmText(c, show) == PpmText(d, show)
  {
    forall i | 0 <= i < c.height
      ensures RowLine(c, show, i) == RowLine(d, show, i)
    {
      assert RowColors(c, show, i) == RowColors(d, show, i);
    }
    assert RowLines(c, show) == RowLines(d, show);
  }
}
