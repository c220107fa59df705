/** The compact listing of `print_entries`: names placed left to right,
    each in a cell of its display width plus two, with a line break before
    an entry whenever it would not fit on the current line, never before
    the first one, and a final line break when anything was printed. */
module Grid {
  import opened FileEntry
  import opened SeqFacts

  /** One printed name: its compact text, the class that picks its style,
      and the width the layout accounts for it (`display_width + 2`). */
  datatype Cell = Cell(text: string, kind: NameClass, width: nat)

  /** What the loop prints: a padded name, or a line break. */
  datatype Piece = Put(cell: Cell) | Newline

  function CellOf(f: FileInfo): (c: Cell)
    ensures c.text == CompactName(f) && c.kind == Classify(f.name, f.isDir)
    ensures c.width == Utf8Len(c.text) + 2
  {
    DisplayWidthIsCompactLength(f);
    Cell(CompactName(f), Classify(f.name, f.isDir), DisplayWidth(f) + 2)
  }

  function CellsOf(entries: seq<FileInfo>): (cs: seq<Cell>)
    ensures |cs| == |entries|
    ensures forall i :: 0 <= i < |entries| ==> cs[i] == CellOf(entries[i])
  {
    seq(|entries|, i requires 0 <= i < |entries| => CellOf(entries[i]))
  }

  /** The width accounted for a line: the sum of its cells' widths. */
  function Width(row: seq<Cell>): nat {
    if row == [] then 0 else Width(row[..|row| - 1]) + row[|row| - 1].width
  }

  /** One step of the loop on the rows printed so far: the first entry
      opens a row, an entry that would push the current row past
      `termWidth` opens a new one, any other entry joins the current row. */
  function Place(rows: seq<seq<Cell>>, c: Cell, termWidth: nat): (rows': seq<seq<Cell>>)
    ensures rows' != []
  {
    if rows == [] then [[c]]
    else if Width(rows[|rows| - 1]) + c.width > termWidth then rows + [[c]]
    else rows[..|rows| - 1] + [rows[|rows| - 1] + [c]]
  }

  /** The lines the loop produces, as rows of cells. */
  function Layout(cells: seq<Cell>, termWidth: nat): (rows: seq<seq<Cell>>)
    ensures rows == [] <==> cells == []
  {
    if cells == [] then [] else Place(Layout(cells[..|cells| - 1], termWidth), cells[|cells| - 1], termWidth)
  }

  /** The rows one after the other. */
  function Flatten(rows: seq<seq<Cell>>): seq<Cell> {
    if rows == [] then [] else Flatten(rows[..|rows| - 1]) + rows[|rows| - 1]
  }

  function Puts(row: seq<Cell>): (ps: seq<Piece>)
    ensures |ps| == |row|
    ensures forall i :: 0 <= i < |row| ==> ps[i] == Put(row[i])
  {
    if row == [] then [] else Puts(row[..|row| - 1]) + [Put(row[|row| - 1])]
  }

  /** The printed stream of a layout: each row's cells, then a line break. */
  function Render(rows: seq<seq<Cell>>): seq<Piece> {
    if rows == [] then [] else Render(rows[..|rows| - 1]) + Puts(rows[|rows| - 1]) + [Newline]
  }

  /** The cells of a printed stream, in printed order. */
  function Cells(out: seq<Piece>): seq<Cell> {
    if out == [] then []
    else Cells(out[..|out| - 1]) + match out[|out| - 1] case Put(c) => [c] case Newline => []
  }

  /** Line breaks in a stream. */
  function Breaks(out: seq<Piece>): nat {
    if out == [] then 0 else Breaks(out[..|out| - 1]) + if out[|out| - 1] == Newline then 1 else 0
  }

  // ---------------------------------------------------------------------
  // Facts about the layout

  lemma {:induction false} FlattenAppend(rows: seq<seq<Cell>>, r: seq<Cell>)
    ensures Flatten(rows + [r]) == Flatten(rows) + r
  {
    assert (rows + [r])[..|rows|] == rows;
  }

  /** No entry is lost, duplicated or moved. */
  lemma {:induction false} LayoutFlatten(cells: seq<Cell>, termWidth: nat)
    ensures Flatten(Layout(cells, termWidth)) == cells
    decreases |cells|
  {
    if cells != [] {
      var init := cells[..|cells| - 1];
      var c := cells[|cells| - 1];
      var rows := Layout(init, termWidth);
      var rows' := Layout(cells, termWidth);
      assert rows' == Place(rows, c, termWidth);
      LayoutFlatten(init, termWidth);
      SplitLast(cells);
      if rows == [] {
        FlattenAppend([], [c]);
        assert rows' == [] + [[c]];
      } else if Width(rows[|rows| - 1]) + c.width > termWidth {
        FlattenAppend(rows, [c]);
      } else {
        var front, last := rows[..|rows| - 1], rows[|rows| - 1];
        SplitLast(rows);
        FlattenAppend(front, last);
        FlattenAppend(front, last + [c]);
        assert Flatten(rows') == Flatten(front) + last + [c];
      }
    }
  }

  /** No row is empty. */
  lemma {:induction false} LayoutRowsNonEmpty(cells: seq<Cell>, termWidth: nat)
    ensures forall k :: 0 <= k < |Layout(cells, termWidth)| ==> Layout(cells, termWidth)[k] != []
    decreases |cells|
  {
    if cells != [] {
      var init := cells[..|cells| - 1];
      var c := cells[|cells| - 1];
      var rows := Layout(init, termWidth);
      var rows' := Layout(cells, termWidth);
      assert rows' == Place(rows, c, termWidth);
      LayoutRowsNonEmpty(init, termWidth);
      forall k | 0 <= k < |rows'|
        ensures rows'[k] != []
      {
        if k < |rows| - 1 || (k == |rows| - 1 && Width(rows[|rows| - 1]) + c.width > termWidth) {
          assert rows'[k] == rows[k];
        }
      }
    }
  }

  /** No entry is lost, duplicated or moved, and no row is empty. */
  lemma LayoutPartition(cells: seq<Cell>, termWidth: nat)
    ensures Flatten(Layout(cells, termWidth)) == cells
    ensures forall k :: 0 <= k < |Layout(cells, termWidth)| ==> Layout(cells, termWidth)[k] != []
  {
    LayoutFlatten(cells, termWidth);
    LayoutRowsNonEmpty(cells, termWidth);
  }

  /** Row `next` starts with a cell that does not fit beside `row`. */
  predicate Overflows(row: seq<Cell>, next: seq<Cell>, termWidth: nat) {
    next != [] && Width(row) + next[0].width > termWidth
  }

  /** Every cell after the first of `row` fits beside the cells before it. */
  predicate Fits(row: seq<Cell>, termWidth: nat) {
    forall j :: 0 < j < |row| ==> Width(row[..j]) + row[j].width <= termWidth
  }

  /** A break only where it was needed: the first cell of every row after
      the first would have pushed the row before it past `termWidth`. */
  lemma {:induction false} LayoutBreaks(cells: seq<Cell>, termWidth: nat)
    ensures forall k :: 0 <= k < |Layout(cells, termWidth)| - 1 ==>
      Overflows(Layout(cells, termWidth)[k], Layout(cells, termWidth)[k + 1], termWidth)
    decreases |cells|
  {
    if cells != [] {
      var init := cells[..|cells| - 1];
      var c := cells[|cells| - 1];
      var rows := Layout(init, termWidth);
      LayoutBreaks(init, termWidth);
      LayoutPartition(init, termWidth);
      var rows' := Layout(cells, termWidth);
      assert rows' == Place(rows, c, termWidth);
      var n := |rows|;
      if rows == [] {
        assert |rows'| == 1;
      } else if Width(rows[n - 1]) + c.width > termWidth {
        assert rows' == rows + [[c]];
        forall k | 0 <= k < |rows'| - 1
          ensures Overflows(rows'[k], rows'[k + 1], termWidth)
        {
          assert rows'[k] == rows[k];
          if k + 1 < n {
            assert rows'[k + 1] == rows[k + 1];
          }
        }
      } else {
        assert rows' == rows[..n - 1] + [rows[n - 1] + [c]];
        forall k | 0 <= k < |rows'| - 1
          ensures Overflows(rows'[k], rows'[k + 1], termWidth)
        {
          assert rows'[k] == rows[k];
          if k + 1 < n - 1 {
            assert rows'[k + 1] == rows[k + 1];
          } else {
            assert rows'[k + 1] == rows[n - 1] + [c];
            assert rows[n - 1] != [];
          }
        }
      }
    }
  }

  /** A break wherever it was needed: every cell after the first of its row
      fitted beside the cells before it. */
  lemma {:induction false} LayoutFits(cells: seq<Cell>, termWidth: nat)
    ensures forall k :: 0 <= k < |Layout(cells, termWidth)| ==> Fits(Layout(cells, termWidth)[k], termWidth)
    decreases |cells|
  {
    if cells != [] {
      var init := cells[..|cells| - 1];
      var c := cells[|cells| - 1];
      var rows := Layout(init, termWidth);
      LayoutFits(init, termWidth);
      var rows' := Layout(cells, termWidth);
      assert rows' == Place(rows, c, termWidth);
      var n := |rows|;
      if rows == [] {
        assert rows' == [[c]];
        assert Fits([c], termWidth);
      } else if Width(rows[n - 1]) + c.width > termWidth {
        assert rows' == rows + [[c]];
        forall k | 0 <= k < |rows'|
          ensures Fits(rows'[k], termWidth)
        {
          if k < n {
            assert rows'[k] == rows[k];
          } else {
            assert rows'[k] == [c];
          }
        }
      } else {
        var last := rows[n - 1];
        var row := last + [c];
        assert Fits(last, termWidth);
        forall j | 0 < j < |row|
          ensures Width(row[..j]) + row[j].width <= termWidth
        {
          if j < |last| {
            assert row[..j] == last[..j] && row[j] == last[j];
          } else {
            assert row[..j] == last;
          }
        }
        assert rows' == rows[..n - 1] + [row];
        forall k | 0 <= k < |rows'|
          ensures Fits(rows'[k], termWidth)
        {
          if k < n - 1 {
            assert rows'[k] == rows[k];
          } else {
            assert rows'[k] == row;
          }
        }
      }
    }
  }

  /** A row wider than the terminal holds a single entry: the loop never
      leaves an entry off a line, however wide it is. */
  lemma LayoutOverflowIsSingle(cells: seq<Cell>, termWidth: nat, k: nat)
    requires k < |Layout(cells, termWidth)|
    requires Width(Layout(cells, termWidth)[k]) > termWidth
    ensures |Layout(cells, termWidth)[k]| == 1
  {
    var row := Layout(cells, termWidth)[k];
    LayoutPartition(cells, termWidth);
    LayoutFits(cells, termWidth);
  }

  // ---------------------------------------------------------------------
  // Facts about the printed stream

  lemma {:induction false} CellsConcat(a: seq<Piece>, b: seq<Piece>)
    ensures Cells(a + b) == Cells(a) + Cells(b)
    ensures Breaks(a + b) == Breaks(a) + Breaks(b)
    decreases |b|
  {
    if b == [] {
      assert a + b == a;
    } else {
      var b' := b[..|b| - 1];
      assert (a + b)[..|a + b| - 1] == a + b';
      assert (a + b)[|a + b| - 1] == b[|b| - 1];
      CellsConcat(a, b');
    }
  }

  lemma {:induction false} CellsOfPuts(row: seq<Cell>)
    ensures Cells(Puts(row)) == row && Breaks(Puts(row)) == 0
    decreases |row|
  {
    if row != [] {
      var init := row[..|row| - 1];
      assert Puts(row)[..|row| - 1] == Puts(init);
      CellsOfPuts(init);
    }
  }

  /** Printing a layout shows its cells in row order and one line break
      per row. */
  lemma {:induction false} RenderContents(rows: seq<seq<Cell>>)
    ensures Cells(Render(rows)) == Flatten(rows)
    ensures Breaks(Render(rows)) == |rows|
    decreases |rows|
  {
    if rows != [] {
      var front, last := rows[..|rows| - 1], rows[|rows| - 1];
      RenderContents(front);
      CellsOfPuts(last);
      CellsConcat(Render(front), Puts(last));
      CellsConcat(Render(front) + Puts(last), [Newline]);
      assert Cells([Newline]) == [] && Breaks([Newline]) == 1 by {
        assert [Newline][..0] == [];
      }
    }
  }

  /** With no empty row, the stream starts with a name (no break precedes
      the first entry), ends with a break, and never has two breaks in a
      row (no blank line). */
  lemma {:induction false} RenderShape(rows: seq<seq<Cell>>)
    requires forall k :: 0 <= k < |rows| ==> rows[k] != []
    ensures var out := Render(rows);
      (out == [] <==> rows == [])
      && (out != [] ==> out[0].Put? && out[|out| - 1] == Newline)
      && forall p :: 0 <= p < |out| - 1 && out[p] == Newline ==> out[p + 1].Put?
    decreases |rows|
  {
    if rows != [] {
      var front, last := rows[..|rows| - 1], rows[|rows| - 1];
      RenderShape(front);
      var out := Render(rows);
      var head := Render(front);
      assert out == head + Puts(last) + [Newline];
      forall p | 0 <= p < |out| - 1 && out[p] == Newline
        ensures out[p + 1].Put?
      {
        if p < |head| {
          assert out[p] == head[p];
          if p < |head| - 1 {
            assert out[p + 1] == head[p + 1];
          } else {
            assert out[p + 1] == Puts(last)[0];
          }
        }
      }
    }
  }

  lemma RenderAppendRow(rows: seq<seq<Cell>>, r: seq<Cell>)
    ensures Render(rows + [r]) == Render(rows) + Puts(r) + [Newline]
  {
    assert (rows + [r])[..|rows|] == rows;
  }

  lemma PutsAppend(row: seq<Cell>, c: Cell)
    ensures Puts(row + [c]) == Puts(row) + [Put(c)]
  {
    assert (row + [c])[..|row|] == row;
  }

  lemma RenderExtendLast(front: seq<seq<Cell>>, last: seq<Cell>, c: Cell, out: seq<Piece>)
    requires out + [Newline] == Render(front + [last])
    ensures Render(front + [last + [c]]) == out + [Put(c), Newline]
  {
    RenderAppendRow(front, last);
    DropLast(out, Render(front) + Puts(last), Newline);
    RenderAppendRow(front, last + [c]);
    PutsAppend(last, c);
    assert Render(front) + (Puts(last) + [Put(c)]) + [Newline] == out + [Put(c), Newline];
  }

  // ---------------------------------------------------------------------
  // The loop

  /** One pass of the loop body does to the printed stream and to
      `current_width` what Place does to the rows. */
  lemma PlaceMatchesLoop(rows: seq<seq<Cell>>, c: Cell, termWidth: nat, out: seq<Piece>, currentWidth: nat, started: bool)
    requires !started ==> rows == [] && out == [] && currentWidth == 0
    requires started ==> rows != [] && out + [Newline] == Render(rows) && currentWidth == Width(rows[|rows| - 1])
    ensures var broke := currentWidth + c.width > termWidth && started;
      var out' := (if broke then out + [Newline] else out) + [Put(c)];
      var width' := (if broke then 0 else currentWidth) + c.width;
      var rows' := Place(rows, c, termWidth);
      out' + [Newline] == Render(rows') && width' == Width(rows'[|rows'| - 1])
  {
    assert Width([c]) == c.width by {
      assert [c][..0] == [];
    }
    if !started {
      RenderAppendRow([], [c]);
      assert Puts([c]) == [Put(c)] by {
        assert [c][..0] == [];
      }
      assert [] + [[c]] == [[c]];
    } else if currentWidth + c.width > termWidth {
      RenderAppendRow(rows, [c]);
      assert Puts([c]) == [Put(c)] by {
        assert [c][..0] == [];
      }
    } else {
      var front, last := rows[..|rows| - 1], rows[|rows| - 1];
      assert rows == front + [last];
      RenderExtendLast(front, last, c, out);
      assert (last + [c])[..|last|] == last;
    }
  }

  /** What the loop has printed so far, and its `current_width`. */
  datatype Progress = Progress(out: seq<Piece>, width: nat)

  /** The loop's state after the cells `cells`, pass by pass. */
  function Scan(cells: seq<Cell>, termWidth: nat): Progress {
    if cells == [] then Progress([], 0)
    else
      var p := Scan(cells[..|cells| - 1], termWidth);
      var c := cells[|cells| - 1];
      if p.width + c.width > termWidth && |cells| > 1 then Progress(p.out + [Newline] + [Put(c)], c.width)
      else Progress(p.out + [Put(c)], p.width + c.width)
  }

  lemma ScanStep(cells: seq<Cell>, i: nat, termWidth: nat)
    requires i < |cells|
    ensures var p := Scan(cells[..i], termWidth);
      Scan(cells[..i + 1], termWidth)
      == if p.width + cells[i].width > termWidth && i > 0 then Progress(p.out + [Newline] + [Put(cells[i])], cells[i].width)
         else Progress(p.out + [Put(cells[i])], p.width + cells[i].width)
  {
    assert cells[..i + 1][..i] == cells[..i];
  }

  /** The loop prints the layout: after every pass, the stream so far is
      the rendering of the rows so far short of its final break, and
      `current_width` is the width of the last row. */
  lemma {:induction false} ScanRenders(cells: seq<Cell>, termWidth: nat)
    ensures cells == [] ==> Scan(cells, termWidth) == Progress([], 0)
    ensures cells != [] ==> Scan(cells, termWidth).out + [Newline] == Render(Layout(cells, termWidth))
    ensures cells != [] ==> Scan(cells, termWidth).width == Width(Layout(cells, termWidth)[|Layout(cells, termWidth)| - 1])
    decreases |cells|
  {
    if cells != [] {
      var init := cells[..|cells| - 1];
      ScanRenders(init, termWidth);
      var p := Scan(init, termWidth);
      PlaceMatchesLoop(Layout(init, termWidth), cells[|cells| - 1], termWidth, p.out, p.width, init != []);
    }
  }

  /** The else-branch of `print_entries`, with `termWidth` the terminal
      width the caller determined. */
  method PrintCompact(entries: seq<FileInfo>, termWidth: nat) returns (out: seq<Piece>)
    ensures out == Render(Layout(CellsOf(entries), termWidth))
  {
    ghost var cells := CellsOf(entries);
    var currentWidth: nat := 0;
    out := [];
    for i := 0 to |entries|
      invariant Progress(out, currentWidth) == Scan(cells[..i], termWidth)
    {
      var entry := entries[i];
      var name := CompactName(entry);
      var kind := Classify(entry.name, entry.isDir);
      var displayWidth := DisplayWidth(entry);
      ghost var c := cells[i];
      assert c == Cell(name, kind, displayWidth + 2);
      ScanStep(cells, i, termWidth);

      if currentWidth + displayWidth + 2 > termWidth && i > 0 {
        out := out + [Newline];
        currentWidth := 0;
      }
      out := out + [Put(Cell(name, kind, displayWidth + 2))];
      currentWidth := currentWidth + displayWidth + 2;
    }
    assert cells[..|entries|] == cells;
    ScanRenders(cells, termWidth);
    if |entries| > 0 {
      out := out + [Newline];
    }
  }

  /** What a caller of PrintCompact sees: every entry's cell exactly once
      and in order, a break before the first entry never, one break per
      line, a final break exactly when there are entries, no blank line,
      and an over-wide line only when it holds a single entry. */
  lemma CompactOutput(entries: seq<FileInfo>, termWidth: nat)
    ensures var rows := Layout(CellsOf(entries), termWidth);
      var out := Render(rows);
      Cells(out) == CellsOf(entries)
      && Breaks(out) == |rows|
      && (out == [] <==> entries == [])
      && (out != [] ==> out[0].Put? && out[|out| - 1] == Newline)
      && (forall p :: 0 <= p < |out| - 1 && out[p] == Newline ==> out[p + 1].Put?)
      && (forall k :: 0 <= k < |rows| && Width(rows[k]) > termWidth ==> |rows[k]| == 1)
  {
    var rows := Layout(CellsOf(entries), termWidth);
    LayoutPartition(CellsOf(entries), termWidth);
    RenderContents(rows);
    RenderShape(rows);
    forall k | 0 <= k < |rows| && Width(rows[k]) > termWidth
      ensures |rows[k]| == 1
    {
      LayoutOverflowIsSingle(CellsOf(entries), termWidth, k);
    }
  }
}
