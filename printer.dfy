/** `print_entries`: the long listing, one row per entry, or the compact
    grid, chosen by the `long` flag; and the terminal width the grid uses. */
module Printer {
  import opened Wrappers
  import opened SizeFormat
  import opened TimeFormat
  import opened FileEntry
  import opened Grid

  /** The width used when the terminal size cannot be queried. */
  const DEFAULT_TERM_WIDTH: nat := 80

  /** The field the size is right-aligned in (`{:>8}`). */
  const SIZE_FIELD: nat := 8

  /** One long-listing line; its text before styling is LineText. */
  datatype LongRow = LongRow(typeChar: char, size: string, time: string, name: string, kind: NameClass)

  datatype Screen = Detail(rows: seq<LongRow>) | Compact(pieces: seq<Piece>)

  /** `terminal::size().map(|(w, _)| w as usize).unwrap_or(80)`, with the
      query's outcome as input. */
  function TermWidth(size: Option<nat>): (w: nat)
    ensures size.None? ==> w == DEFAULT_TERM_WIDTH
    ensures size.Some? ==> w == size.value
  {
    size.GetOr(DEFAULT_TERM_WIDTH)
  }

  /** `{:>width}`: spaces in front up to `width` characters; a longer text
      is left as it is. */
  function PadLeft(s: string, width: nat): (r: string)
    ensures |r| == if |s| < width then width else |s|
    ensures r[|r| - |s|..] == s
    ensures forall i :: 0 <= i < |r| - |s| ==> r[i] == ' '
    decreases width
  {
    if |s| >= width then s else [' '] + PadLeft(s, width - 1)
  }

  /** The text of a row before styling: `{type} {size:>8} {time} {name}`.
      The program prints the name styled, so a styled name is followed by
      its closing escape. */
  function LineText(row: LongRow): string {
    [row.typeChar, ' '] + PadLeft(row.size, SIZE_FIELD) + [' '] + row.time + [' '] + row.name
  }

  /** The row the loop prints for one entry. */
  function LongRowOf(f: FileInfo, human: bool, oneDecimal: (nat, nat) -> string, calendar: nat -> string): LongRow {
    LongRow(TypeChar(f.isDir), SizeText(f.size, human, oneDecimal), FormatTime(f.modified, calendar),
            f.name, Classify(f.name, f.isDir))
  }

  /** Where the fields of a line lie, whatever their text. */
  lemma LineSlices(typeChar: char, size: string, time: string, name: string)
    ensures var t := [typeChar, ' '] + size + [' '] + time + [' '] + name;
      && |t| == 4 + |size| + |time| + |name|
      && t[0] == typeChar && t[1] == ' '
      && t[2..2 + |size|] == size
      && t[|t| - |name|..] == name
  {
    var t := [typeChar, ' '] + size + [' '] + time + [' '] + name;
    var line := [typeChar, ' '] + size + [' '] + time + [' '];
    assert t == line + name;
    assert t[|line|..] == name;
    assert t[2..2 + |size|] == size;
  }

  /** The line before styling starts with the type character and its
      blank, holds the size right-aligned to column 10 when it fits the
      field, and ends with the name as stored, without the compact mode's
      `/`. */
  lemma LineTextLayout(f: FileInfo, human: bool, oneDecimal: (nat, nat) -> string, calendar: nat -> string)
    ensures var row := LongRowOf(f, human, oneDecimal, calendar);
      var t := LineText(row);
      && |t| >= 4 + SIZE_FIELD + |f.name|
      && (t[0] == 'd' <==> f.isDir)
      && t[1] == ' '
      && t[|t| - |f.name|..] == f.name
      && (|row.size| <= SIZE_FIELD ==> t[2..2 + SIZE_FIELD] == PadLeft(row.size, SIZE_FIELD))
  {
    var row := LongRowOf(f, human, oneDecimal, calendar);
    LineSlices(row.typeChar, PadLeft(row.size, SIZE_FIELD), row.time, row.name);
  }

  /** The `if args.long` branch of `print_entries`. */
  method PrintLong(entries: seq<FileInfo>, human: bool, oneDecimal: (nat, nat) -> string, calendar: nat -> string)
    returns (rows: seq<LongRow>)
    ensures |rows| == |entries|
    ensures forall i :: 0 <= i < |entries| ==> rows[i] == LongRowOf(entries[i], human, oneDecimal, calendar)
  {
    rows := [];
    for i := 0 to |entries|
      invariant |rows| == i
      invariant forall k :: 0 <= k < i ==> rows[k] == LongRowOf(entries[k], human, oneDecimal, calendar)
    {
      var entry := entries[i];
      var sizeStr := FormatSize(entry.size, human, oneDecimal);
      var timeStr := FormatTime(entry.modified, calendar);
      var typeChar := TypeChar(entry.isDir);
      var kind := Classify(entry.name, entry.isDir);
      rows := rows + [LongRow(typeChar, sizeStr, timeStr, entry.name, kind)];
    }
  }

  /** `print_entries`: the long listing when `long` is set, the compact grid
      at the terminal's width otherwise. */
  method PrintEntries(entries: seq<FileInfo>, long: bool, human: bool, termSize: Option<nat>,
                      oneDecimal: (nat, nat) -> string, calendar: nat -> string)
    returns (screen: Screen)
    ensures long <==> screen.Detail?
    ensures long ==> |screen.rows| == |entries|
    ensures long ==> forall i :: 0 <= i < |entries| ==> screen.rows[i] == LongRowOf(entries[i], human, oneDecimal, calendar)
    ensures !long ==> screen.pieces == Render(Layout(CellsOf(entries), TermWidth(termSize)))
  {
    var termWidth := TermWidth(termSize);
    if long {
      var rows := PrintLong(entries, human, oneDecimal, calendar);
      screen := Detail(rows);
    } else {
      var pieces := PrintCompact(entries, termWidth);
      screen := Compact(pieces);
    }
  }
}
