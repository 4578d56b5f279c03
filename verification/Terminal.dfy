/** The console the progress view draws on: rows of text and a cursor, driven by printable
    text, CR, LF and the ECMA-48 control functions CUU (`CSI n A`, section 8.3.22 of
    ECMA-48), CUD (`CSI n B`, section 8.3.19) and EL (`CSI K`, section 8.3.41). The screen
    is unbounded below and never scrolls. */
module Terminal {
  import opened Common

  /** A row's text; a row never written is empty. */
  function RowIn(rows: map<nat, string>, r: nat): string
  {
    if r in rows then rows[r] else ""
  }

  lemma RowInUpdate(rows: map<nat, string>, k: nat, v: string)
    ensures forall r: nat :: RowIn(rows[k := v], r) == if r == k then v else RowIn(rows, r)
  {
    forall r: nat
      ensures RowIn(rows[k := v], r) == if r == k then v else RowIn(rows, r)
    {
      if r != k {
        assert (r in rows[k := v]) == (r in rows);
      }
    }
  }

  /** Rows `top + 1` up to `top + n` (exclusive) after `WriteLine` of each of `lines` from row
      `top`: each holds its line printed from column 0 over what it had. */
  ghost predicate PrintedRows(lines: seq<string>, n: nat, top: nat, before: map<nat, string>, after: map<nat, string>)
    requires n <= |lines|
  {
    forall i :: 1 <= i < n ==> RowIn(after, top + i) == Overwrite(RowIn(before, top + i), 0, lines[i])
  }

  /** The rows after `WriteLine` of each of `all` from row `top`, column `col`: the first line
      is printed over its row from `col`, every later one over its row from column 0, and every
      row outside the printed ones is kept. */
  ghost predicate Printed(all: seq<string>, top: nat, col: nat, before: map<nat, string>, after: map<nat, string>)
  {
    && (all != [] ==> RowIn(after, top) == Overwrite(RowIn(before, top), col, all[0]))
    && PrintedRows(all, |all|, top, before, after)
    && forall r: nat :: (r < top || r >= top + |all|) ==> RowIn(after, r) == RowIn(before, r)
  }

  /** `s` extended with spaces to at least `n` characters. */
  function PadTo(s: string, n: nat): (r: string)
    ensures |r| == if |s| < n then n else |s|
    ensures r[..|s|] == s
    ensures forall i :: |s| <= i < |r| ==> r[i] == ' '
  {
    if |s| >= n then s else s + seq(n - |s|, _ => ' ')
  }

  /** Printing `t` over row text `s` from column `c`: the columns it covers take its
      characters, the others keep theirs. Printing nothing changes nothing. */
  function Overwrite(s: string, c: nat, t: string): (r: string)
    ensures t != [] ==> |r| >= c + |t| && |r| >= |s| && r[c..c + |t|] == t
    ensures t != [] ==> forall i :: 0 <= i < c && i < |s| ==> r[i] == s[i]
    ensures t != [] ==> forall i :: c + |t| <= i < |s| ==> r[i] == s[i]
  {
    if t == [] then s
    else
      var p := PadTo(s, c);
      var rest := if c + |t| < |p| then p[c + |t|..] else [];
      assert p[..c] + t + rest == p[..c] + (t + rest);
      p[..c] + t + rest
  }

  lemma OverwriteBlank(t: string)
    ensures Overwrite([], 0, t) == t
  {
  }

  /** Erase in line from the active position to the end of the line. */
  function EraseFrom(s: string, c: nat): (r: string)
    ensures |r| <= c && |r| <= |s| && r == s[..|r|]
  {
    if |s| <= c then s else s[..c]
  }

  /** The buffer width the view truncates to: the reported width, or 120 when the console
      reports none. */
  function SafeBufferWidth(reported: int): (w: nat)
    ensures w > 0
    ensures reported > 0 ==> w == reported
  {
    if reported > 0 then reported else 120
  }

  class Screen {
    var rows: map<nat, string>
    var row: nat
    var col: nat
    /** `Console.BufferWidth` as reported (may be non-positive). */
    const reportedWidth: int
    /** `Console.IsOutputRedirected`. */
    const redirected: bool
    /** Whether the console can report and move the cursor; when it cannot, the cursor calls
        of the view fail. */
    const cursorControl: bool

    constructor(reportedWidth: int, redirected: bool, cursorControl: bool)
      ensures rows == map[] && row == 0 && col == 0
      ensures this.reportedWidth == reportedWidth && this.redirected == redirected
      ensures this.cursorControl == cursorControl
    {
      rows := map[];
      row := 0;
      col := 0;
      this.reportedWidth := reportedWidth;
      this.redirected := redirected;
      this.cursorControl := cursorControl;
    }

    function Row(r: nat): string
      reads this
    {
      RowIn(rows, r)
    }

    /** Printable text at the cursor; the cursor ends after it. */
    method Write(t: string)
      modifies this
      ensures rows == old(rows)[old(row) := Overwrite(old(Row(row)), old(col), t)]
      ensures row == old(row) && col == old(col) + |t|
    {
      rows := rows[row := Overwrite(Row(row), col, t)];
      col := col + |t|;
    }

    /** CR. */
    method CarriageReturn()
      modifies this
      ensures rows == old(rows) && row == old(row) && col == 0
    {
      col := 0;
    }

    /** LF: the next row, same column. */
    method LineFeed()
      modifies this
      ensures rows == old(rows) && row == old(row) + 1 && col == old(col)
    {
      row := row + 1;
    }

    /** CUU: `n` rows up (a parameter of 0 means 1), stopping at the top row. */
    method CursorUp(n: nat)
      modifies this
      ensures rows == old(rows) && col == old(col)
      ensures var k := if n == 0 then 1 else n; row == if old(row) >= k then old(row) - k else 0
    {
      var k := if n == 0 then 1 else n;
      row := if row >= k then row - k else 0;
    }

    /** CUD: `n` rows down (a parameter of 0 means 1). */
    method CursorDown(n: nat)
      modifies this
      ensures rows == old(rows) && col == old(col)
      ensures row == old(row) + if n == 0 then 1 else n
    {
      row := row + if n == 0 then 1 else n;
    }

    /** EL with parameter 0: erases from the cursor to the end of the row. */
    method EraseLine()
      modifies this
      ensures rows == old(rows)[old(row) := EraseFrom(old(Row(row)), old(col))]
      ensures row == old(row) && col == old(col)
    {
      rows := rows[row := EraseFrom(Row(row), col)];
    }

    /** `Console.WriteLine(t)`: the text, then a new line at column 0. */
    method WriteLine(t: string)
      modifies this
      ensures rows == old(rows)[old(row) := Overwrite(old(Row(row)), old(col), t)]
      ensures row == old(row) + 1 && col == 0
    {
      Write(t);
      row := row + 1;
      col := 0;
    }

    /** `WriteLine` for each line in turn. */
    method WriteLines(lines: seq<string>)
      modifies this
      ensures row == old(row) + |lines| && (lines != [] ==> col == 0) && (lines == [] ==> col == old(col))
      ensures Printed(lines, old(row), old(col), old(rows), rows)
    {
      var i := 0;
      while i < |lines|
        invariant 0 <= i <= |lines|
        invariant row == old(row) + i && (i > 0 ==> col == 0) && (i == 0 ==> col == old(col))
        invariant i > 0 ==> RowIn(rows, old(row)) == Overwrite(RowIn(old(rows), old(row)), old(col), lines[0])
        invariant PrintedRows(lines, i, old(row), old(rows), rows)
        invariant forall r: nat :: (r < old(row) || r >= old(row) + i) ==> RowIn(rows, r) == RowIn(old(rows), r)
      {
        ghost var before := rows;
        WriteLine(lines[i]);
        forall r: nat | r < old(row) || r >= old(row) + i + 1
          ensures RowIn(rows, r) == RowIn(old(rows), r)
        {
          assert RowIn(rows, r) == RowIn(before, r);
        }
        forall j | 1 <= j < i + 1
          ensures RowIn(rows, old(row) + j) == Overwrite(RowIn(old(rows), old(row) + j), 0, lines[j])
        {
          if j < i {
            assert RowIn(rows, old(row) + j) == RowIn(before, old(row) + j);
          }
        }
        i := i + 1;
      }
    }

    /** Moves the cursor to row `target` the way the view does: CUU by the distance when the
        cursor is below it, CUD when above, nothing when on it. */
    method MoveToRow(target: nat)
      modifies this
      ensures rows == old(rows) && row == target && col == old(col)
    {
      if row > target {
        CursorUp(row - target);
      } else if row < target {
        CursorDown(target - row);
      }
    }

    /** CR and EL: the row under the cursor is emptied and the cursor goes to column 0. */
    method ClearRow()
      modifies this
      ensures rows == old(rows)[old(row) := ""]
      ensures row == old(row) && col == 0
    {
      CarriageReturn();
      EraseLine();
    }

    /** CR, EL, then the text: the row under the cursor holds exactly `t`. */
    method PutLine(t: string)
      modifies this
      ensures rows == old(rows)[old(row) := t]
      ensures row == old(row) && col == |t|
    {
      ClearRow();
      Write(t);
      OverwriteBlank(t);
    }

    /** Writes `lines` on consecutive rows from the cursor's row, each on a cleared row and
        cut to `width`, with LF between lines but not after the last. */
    method WriteBlock(lines: seq<string>, width: nat)
      modifies this
      ensures row == if lines == [] then old(row) else old(row) + |lines| - 1
      ensures lines == [] ==> col == old(col)
      ensures forall j :: 0 <= j < |lines| ==> RowIn(rows, old(row) + j) == Truncate(lines[j], width)
      ensures forall r: nat :: (r < old(row) || r >= old(row) + |lines|) ==> RowIn(rows, r) == RowIn(old(rows), r)
    {
      var i := 0;
      while i < |lines|
        invariant 0 <= i <= |lines|
        invariant row == if i == 0 || i < |lines| then old(row) + i else old(row) + i - 1
        invariant i == 0 ==> col == old(col)
        invariant forall j :: 0 <= j < i ==> RowIn(rows, old(row) + j) == Truncate(lines[j], width)
        invariant forall r: nat :: (r < old(row) || r >= old(row) + i) ==> RowIn(rows, r) == RowIn(old(rows), r)
      {
        ghost var before := rows;
        PutLine(Truncate(lines[i], width));
        forall r: nat | r != old(row) + i
          ensures RowIn(rows, r) == RowIn(before, r)
        {
        }
        forall j | 0 <= j < i + 1
          ensures RowIn(rows, old(row) + j) == Truncate(lines[j], width)
        {
          if j < i {
            assert RowIn(rows, old(row) + j) == RowIn(before, old(row) + j);
          }
        }
        if i < |lines| - 1 {
          LineFeed();
        }
        i := i + 1;
      }
    }

    /** `count` times LF, CR, EL: empties the `count` rows below the cursor's row. */
    method ClearBelow(count: nat)
      modifies this
      ensures row == old(row) + count
      ensures count > 0 ==> col == 0
      ensures forall r: nat :: old(row) < r <= old(row) + count ==> RowIn(rows, r) == ""
      ensures forall r: nat :: (r <= old(row) || r > old(row) + count) ==> RowIn(rows, r) == RowIn(old(rows), r)
    {
      var i := 0;
      while i < count
        invariant 0 <= i <= count
        invariant row == old(row) + i
        invariant i > 0 ==> col == 0
        invariant forall r: nat :: old(row) < r <= old(row) + i ==> RowIn(rows, r) == ""
        invariant forall r: nat :: (r <= old(row) || r > old(row) + i) ==> RowIn(rows, r) == RowIn(old(rows), r)
      {
        ghost var before := rows;
        LineFeed();
        ClearRow();
        forall r: nat | old(row) < r <= old(row) + i + 1
          ensures RowIn(rows, r) == ""
        {
          if r <= old(row) + i {
            assert RowIn(before, r) == "";
          }
        }
        i := i + 1;
      }
    }
  }
}
