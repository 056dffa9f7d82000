/**
 The character grid of the lava lamp and its text serialisation.

 A grid is a list of rows, each row a list of cells; a freshly made grid is
 all blank, the metaball pass marks some cells as filled, and the renderer
 turns the rows into one string separated by line breaks.
 */
module Grid {

  /** Row-major character matrix: `g[i][j]` is the cell in row `i`, column `j`. */
  type Grid = seq<seq<char>>

  /** The blank cell a new grid is filled with. */
  const BASE_CHAR: char := ' '
  /** The cell written where the metaball field reaches the threshold. */
  const FILL_CHAR: char := '■'
  /** The separator placed between rows by the renderer. */
  const NEWLINE: char := '\n'

  /** `g` has exactly `height` rows of exactly `width` cells each. */
  predicate IsRect(g: Grid, width: nat, height: nat)
  {
    |g| == height && forall i :: 0 <= i < |g| ==> |g[i]| == width
  }

  /** No row of `rows` contains the row separator. */
  predicate NoNewlines(rows: seq<string>)
  {
    forall i :: 0 <= i < |rows| ==> NEWLINE !in rows[i]
  }

  /** A `height` x `width` grid of blank cells. */
  function GenGrid(width: nat, height: nat): (g: Grid)
    ensures IsRect(g, width, height)
    ensures forall i, j :: 0 <= i < height && 0 <= j < width ==> g[i][j] == BASE_CHAR
  {
    seq(height, _ => seq(width, _ => BASE_CHAR))
  }

  /** The rows concatenated with one NEWLINE between consecutive rows (none after the last). */
  function Join(rows: seq<string>): string
  {
    if |rows| == 0 then ""
    else if |rows| == 1 then rows[0]
    else rows[0] + [NEWLINE] + Join(rows[1..])
  }

  /**
   The pieces of `s` between NEWLINE characters, as a string split on a
   separator yields them: one more piece than there are separators, and the
   empty string splits into one empty piece.
   */
  function Split(s: string): (parts: seq<string>)
    ensures |parts| == multiset(s)[NEWLINE] + 1
    ensures NoNewlines(parts)
  {
    if |s| == 0 then [""]
    else
      assert s == [s[0]] + s[1..];
      var rest := Split(s[1..]);
      if s[0] == NEWLINE then [""] + rest
      else [[s[0]] + rest[0]] + rest[1..]
  }

  /** Splitting text that begins with a separator-free piece `r` yields `r` glued to the first piece of the rest. */
  lemma {:induction false} SplitPrefix(r: string, t: string)
    requires NEWLINE !in r
    ensures Split(r + t) == [r + Split(t)[0]] + Split(t)[1..]
  {
    if |r| > 0 {
      calc {
        Split(r + t);
        { assert (r + t)[1..] == r[1..] + t; }
        [[r[0]] + Split(r[1..] + t)[0]] + Split(r[1..] + t)[1..];
        { SplitPrefix(r[1..], t); }
        [[r[0]] + (r[1..] + Split(t)[0])] + Split(t)[1..];
        { assert [r[0]] + (r[1..] + Split(t)[0]) == r + Split(t)[0]; }
        [r + Split(t)[0]] + Split(t)[1..];
      }
    } else {
      assert r + t == t;
      assert r + Split(t)[0] == Split(t)[0];
      assert Split(t) == [Split(t)[0]] + Split(t)[1..];
    }
  }

  /** Splitting the joined rows gives back the rows, provided there is at least one row and no row holds a separator. */
  lemma {:induction false} SplitJoin(rows: seq<string>)
    requires |rows| >= 1
    requires NoNewlines(rows)
    ensures Split(Join(rows)) == rows
  {
    if |rows| == 1 {
      SplitPrefix(rows[0], "");
      assert rows[0] + "" == rows[0];
    } else {
      var tail := Join(rows[1..]);
      assert Join(rows) == rows[0] + ([NEWLINE] + tail);
      SplitPrefix(rows[0], [NEWLINE] + tail);
      assert ([NEWLINE] + tail)[1..] == tail;
      SplitJoin(rows[1..]);
      assert Split([NEWLINE] + tail) == [""] + rows[1..];
      assert rows[0] + "" == rows[0];
      assert rows == [rows[0]] + rows[1..];
    }
  }

  /** Prepending a piece to the first row prepends it to the joined text. */
  lemma {:induction false} JoinPrepend(a: string, rows: seq<string>)
    requires |rows| >= 1
    ensures Join([a + rows[0]] + rows[1..]) == a + Join(rows)
  {
    var rows' := [a + rows[0]] + rows[1..];
    assert rows'[1..] == rows[1..];
    if |rows| == 1 {
    } else {
      assert Join(rows') == (a + rows[0]) + [NEWLINE] + Join(rows[1..]);
    }
  }

  /** Joining the pieces of any text gives back the text. */
  lemma {:induction false} JoinSplit(s: string)
    ensures Join(Split(s)) == s
  {
    if |s| > 0 {
      var rest := Split(s[1..]);
      JoinSplit(s[1..]);
      if s[0] == NEWLINE {
        assert ([""] + rest)[1..] == rest;
        assert Join([""] + rest) == "" + [NEWLINE] + Join(rest);
        assert s == [s[0]] + s[1..];
      } else {
        JoinPrepend([s[0]], rest);
        assert s == [s[0]] + s[1..];
      }
    }
  }

  /** A grid of `height >= 1` rows of `width` cells serialises to `height * width + height - 1` characters. */
  lemma {:induction false} JoinLength(rows: seq<string>, width: nat)
    requires |rows| >= 1
    requires forall i :: 0 <= i < |rows| ==> |rows[i]| == width
    ensures |Join(rows)| == |rows| * width + |rows| - 1
  {
    if |rows| > 1 {
      JoinLength(rows[1..], width);
      assert |rows| * width == width + (|rows| - 1) * width;
    }
  }

  /** A serialised grid whose cells are never separators contains exactly one separator fewer than it has rows. */
  lemma JoinNewlineCount(rows: seq<string>)
    requires |rows| >= 1
    requires NoNewlines(rows)
    ensures multiset(Join(rows))[NEWLINE] == |rows| - 1
  {
    SplitJoin(rows);
  }
}
