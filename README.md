# zls, modelled in Dafny

zls is a small `ls` replacement written in Rust (`src/main.rs`). It reads a
directory, turns every child into a `FileInfo` (name, path, directory flag,
hidden flag, size, modification time), drops hidden entries unless `--all`
is given, sorts by lower-cased name or by modification time (newest first),
and prints the entries either as a long listing (`--long`) or as a compact
grid that wraps at the terminal width. Sizes are raw byte counts or, with
`--human`, scaled to B/K/M/G/T.

This project models that pipeline after the filesystem has been read:

- `wrappers.dfy`: `Option` and `Result`.
- `decimal.dfy`: `u64::to_string` as canonical decimal digits, with its
  parser as the round-trip partner.
- `size_format.dfy`: `format_size`. The divide-by-1024 loop is a method
  proved against the unit index it must reach.
- `time_format.dfy`: `format_time`. The calendar rendering is a parameter.
- `file_entry.dfy`: `FileInfo::from_path`, the hidden flag, the type
  character, the name class that picks the colour, and `display_width`.
- `sort_keys.dfy`: the two comparators, shown to be total preorders.
- `listing.dfy`: `list_directory`. It covers the fail-fast collection, the
  `retain` loop and a stable sort. The sort is proved sorted, a
  permutation and stable, and every stable sort gives the same result.
- `grid.dfy`: the compact-mode loop over `current_width`. It is proved
  equal to a row layout, and the layout's properties are proved.
- `printer.dfy`: the terminal width fallback, the long-listing rows and the
  dispatch between the two modes.
- `padding.dfy`: what a compact cell looks like once styled and padded (see
  Findings).
- `seq_facts.dfy`: generic sequence facts the proofs share.

Where the program takes input from the outside, the model takes it as a
parameter:

- the metadata lookup and `file_name()` of each path;
- the result of `read_dir` and of probing each child (`Listing.Probe`);
- the terminal size query;
- the `{:.1}` float rendering (`oneDecimal(n, k)` stands for the text of
  `n / 1024^k`);
- chrono's calendar formatting (`calendar(seconds)`).

Times are integers counting nanoseconds since the Unix epoch; negative
values are instants before it. Names are strings of Unicode scalar values,
and Rust's `str` order is the code-point order `SortKeys.CompareStr`, the
same as UTF-8 byte order. `display_width` is the UTF-8 byte length
(`FileEntry.Utf8Len`), as `String::len` is.

The human-size loop divides a float in the source. The model divides
integers. The unit decision is the same for every `u64`:

- Dividing by 1024 is exact in binary floating point.
- The thresholds `1024^k` for `k <= 4` lie below 2^53, where `n as f64` is
  exact.
- Larger values reach the last unit either way.

The compact loop counts `display_width + 2` columns per cell
(src/main.rs:172) but pads the already styled string to that many
characters (src/main.rs:171), so the escape characters use up the two
blanks. The model follows the code; see Findings.

## Model

| member | source | states |
|---|---|---|
| FileEntry.IsHidden | src/main.rs:53 | a name is hidden exactly when its first character is `.` |
| FileEntry.FromPath | src/main.rs:45-66 | a metadata error comes back unchanged; otherwise the entry carries the path, the final component (empty when there is none), the directory flag, length and time of the metadata, and the hidden flag its name determines |
| FileEntry.TypeChar | src/main.rs:137 | the type column is `d` exactly for directories and `-` otherwise |
| FileEntry.Classify | src/main.rs:139-147 | each of the four name classes holds exactly under its condition in the priority order directory, `.rs` suffix, leading dot, plain |
| FileEntry.StyleOf | src/main.rs:139-147 | directories are bold blue, `.rs` files yellow and dotfiles dark grey; only plain names carry no colour and only directories are bold |
| FileEntry.ClassAndHidden | src/main.rs:139-147 | a dotfile-class name is hidden, but a hidden directory or hidden `.rs` file keeps its higher-priority class |
| FileEntry.Utf8Len | src/main.rs:164 | the byte length is between one and four bytes per character, and equals the character count exactly for ASCII text |
| FileEntry.Utf8LenConcat | src/main.rs:164 | the byte length of a concatenation is the sum of the byte lengths |
| FileEntry.DisplayWidthIsCompactLength | src/main.rs:154-164 | `display_width` is the byte length of the compact name, slash included, and is at least its character count |
| Decimal.NatToDecimal | src/main.rs:71 | the text of a number is canonical (digits only, no leading zero) and is one digit exactly below ten |
| Decimal.ParseRendered | src/main.rs:71 | reading back the text of `n` gives `n` |
| Decimal.RenderParsed | src/main.rs:71 | every canonical digit string is the text of the number it denotes |
| SizeFormat.UnitIndex | src/main.rs:74-81 | the unit index is at most 4, `1024^k <= n` unless it is 0, and `n < 1024^(k+1)` unless it is 4 |
| SizeFormat.UnitIndexUnique | src/main.rs:78-81 | any index with those three properties is the unit index, so it is the largest `k <= 4` with `1024^k <= n` |
| SizeFormat.FormatSize | src/main.rs:69-88 | the loop ends on the unit index, and the method returns the raw digits, the exact bytes with `B`, or the one-decimal value with the unit letter |
| SizeFormat.RawIsDecimal | src/main.rs:70-72 | raw mode prints canonical digits with no unit or padding, and reading them back gives the size |
| SizeFormat.HumanEndsWithUnit | src/main.rs:83-87 | human mode always ends with the letter of the unit the loop stopped at |
| SizeFormat.HumanBytes | src/main.rs:83-84 | below 1024, human mode is the exact decimal count followed by `B` |
| SizeFormat.UnitExamples | src/main.rs:74-81 | 1023 is B, 1024 and 1048575 are K, 1048576 and 1048577 are M, 2^30 is G, and 2^40 and the largest `u64` are T |
| SizeFormat.TextExamples | src/main.rs:69-88 | 0, 512 and 1023 print as `0B`, `512B` and `1023B`, and 1023 raw is `1023` |
| TimeFormat.EpochSeconds | src/main.rs:93-94 | the whole seconds since the epoch, floored, with instants before the epoch mapped to 0 |
| TimeFormat.FormatTime | src/main.rs:90-100 | no time prints `???`; a time prints the calendar text of its whole seconds since the epoch |
| TimeFormat.SameSecondSameText | src/main.rs:93-96 | two instants in the same second print alike, and every instant before the epoch prints as the epoch |
| SortKeys.AsciiLower | src/main.rs:124 | upper-case ASCII letters map to lower case and every other character is unchanged |
| SortKeys.Lower | src/main.rs:124 | lower-casing keeps the length and maps each character |
| SortKeys.CompareInt | src/main.rs:119-121 | `cmp` on times is Less, Equal or Greater exactly as the values compare |
| SortKeys.CompareStrReverse | src/main.rs:124 | comparing in the other order reverses the result |
| SortKeys.CompareStrEqual | src/main.rs:124 | two strings compare Equal exactly when they are equal |
| SortKeys.CompareStrTransitive | src/main.rs:124 | the string order is transitive |
| SortKeys.InOrderTotal | src/main.rs:117-125 | under either comparator any two entries can stand in some order, and they are tied exactly when both orders are allowed |
| SortKeys.TiedReflexive | src/main.rs:117-125 | every entry ties with itself |
| SortKeys.InOrderTransitive | src/main.rs:117-125 | both comparators are transitive, so `sort_by` gets a total preorder |
| SortKeys.InOrderMeaning | src/main.rs:117-125 | by time, `a` may precede `b` exactly when `b`'s time (or the epoch) is not later; entries tie exactly on equal times, or on equal lower-cased names |
| SortKeys.NameOrderExample | src/main.rs:124 | `A.txt` sorts before `b.txt`, `.hidden` before `A.txt`, and `b.txt`/`B.txt` differ but tie after lower-casing |
| Listing.Collect | src/main.rs:103-111 | the collection succeeds exactly when every probe does, and then holds every entry in order; otherwise it returns one of the probe errors |
| Listing.VisibleContents | src/main.rs:113-115 | the filter keeps every non-hidden entry as often as it occurs and no hidden one |
| Listing.VisibleConcat | src/main.rs:114 | the filter works entry by entry, so it keeps the relative order |
| Listing.RetainVisible | src/main.rs:113-115 | the `retain` loop leaves exactly the visible entries in their order |
| Listing.InsertKeeps | src/main.rs:117-125 | inserting the next entry after the last one that may precede it keeps the prefix sorted, a permutation and stable |
| Listing.SortEntries | src/main.rs:117-125 | the result is sorted under the comparator, a permutation of the input, and every group of tied entries keeps its input order |
| Listing.StableSortUnique | src/main.rs:117-125 | two sorted sequences with the same tied groups are equal, so any stable sort gives SortEntries' result |
| Listing.ListDirectory | src/main.rs:102-128 | a failed `read_dir` or any failed probe fails the listing with one of those errors; otherwise the result is a sorted, stable permutation of the kept entries, with no hidden entry unless `all`, newest first by time, and ascending by lower-cased name otherwise |
| Grid.CellOf | src/main.rs:154-164 | an entry's cell holds its compact name and class, and its width is the name's byte length plus two |
| Grid.CellsOf | src/main.rs:153-164 | one cell per entry, in order |
| Grid.Layout | src/main.rs:166-173 | the layout has rows exactly when there are entries |
| Grid.LayoutPartition | src/main.rs:166-173 | the rows, concatenated, are the cells in order, and no row is empty |
| Grid.LayoutBreaks | src/main.rs:166-169 | every row after the first starts with a cell that would have pushed the row before it past the terminal width |
| Grid.LayoutFits | src/main.rs:166-173 | within a row, every cell after the first fitted beside the cells before it |
| Grid.LayoutOverflowIsSingle | src/main.rs:166-173 | a row wider than the terminal holds exactly one entry |
| Grid.RenderContents | src/main.rs:166-176 | the printed stream shows the cells in row order with one break per row |
| Grid.RenderShape | src/main.rs:166-176 | the stream starts with a name, ends with a break and never has two breaks in a row |
| Grid.PlaceMatchesLoop | src/main.rs:166-172 | one pass of the loop body does to the stream and to `current_width` what placing the cell does to the rows |
| Grid.ScanRenders | src/main.rs:152-173 | after every pass the stream is the rendered layout so far, short of its final break, and `current_width` is the width of the last row |
| Grid.PrintCompact | src/main.rs:151-177 | the compact loop prints exactly the rendered layout of the entries' cells at the given width |
| Grid.CompactOutput | src/main.rs:151-177 | the output shows every entry once and in order, no break before the first, a final break exactly when there are entries, no blank line, and over-wide lines of one entry only |
| Printer.TermWidth | src/main.rs:131 | the width is the terminal's when it can be queried and 80 otherwise |
| Printer.PadLeft | src/main.rs:149 | `{:>8}` fills with spaces in front up to the field width and leaves longer text whole |
| Printer.LineTextLayout | src/main.rs:134-149 | the long line before styling starts with `d` exactly for directories and a blank, holds the size right-aligned in columns 3-10 when it fits, and ends with the name without the compact slash |
| Printer.PrintLong | src/main.rs:133-150 | one row per entry, in order, with its type character, size text, time text, name and class |
| Printer.PrintEntries | src/main.rs:130-178 | `long` picks the detail rows of every entry; otherwise the compact stream at the terminal width (80 when unknown) |
| Padding.Styled | src/main.rs:155-163 | a styled name is as long as its opening escapes, its text and its closing escape together |
| Padding.EscapeLength | src/main.rs:155-163 | the plain style adds no escape; every other style adds at least seven invisible characters |
| Padding.PadRight | src/main.rs:171 | `{:<width$}` fills with spaces after the text up to `width` characters and leaves longer text whole |
| Padding.PaddingLostWhenStyled | src/main.rs:154-172 | as written, a styled ASCII name is printed with no blank after it |
| Padding.PaddingLostExample | src/main.rs:155-171 | the directory `src` prints as its styled `src/` with nothing after it |
| Padding.Shown | src/main.rs:171 | the corrected cell starts with the styled name |
| Padding.ShownKeepsGap | src/main.rs:171-172 | corrected, a cell's characters besides its escapes number exactly `display_width + 2`, it ends with two blanks, and a plain cell prints as before |

## Left out

- Filesystem access is not modelled. `fs::read_dir`, `fs::metadata`, `Path::file_name` and the `exists`/`is_dir` checks in `main` become inputs.
- `main` is not modelled: its error messages and exit status are I/O.
- Argument parsing with clap (`Args`) is not modelled. The flags are plain booleans passed to the functions.
- `par_bridge` concurrency is not modelled.
- Listing.Collect: returns the first error in sequence order, but its contract says only "one of the errors". Under `par_bridge`, which error comes first is not determined.
- SizeFormat.FormatSize: is stated by `SizeText`, which leaves the `{:.1}` float text uninterpreted. So the rounding artefact where 1048575 prints `1024.0K` is not captured. Only the unit choice (K) and the exact byte case are.
- TimeFormat.FormatTime: chrono's `%b %d %H:%M` calendar text is a parameter. Only the `None`, pre-epoch and whole-second behaviour is modelled.
- `to_lowercase` is modelled on ASCII only. Non-ASCII case mapping is Unicode table data.
- `to_string_lossy` is not modelled: names are already strings.
- Terminal output is modelled as values. A long row is a `LongRow` with its `LineText`; the compact stream is a sequence of cells and breaks, and Padding gives a cell's characters. No bytes are written.
- The escape sequences in Padding stand for crossterm's 256-colour SGR sequences. crossterm is not part of this model. The finding needs only that every escape sequence has at least three characters.
- `current_width` is an unbounded integer; `usize` overflow is not modelled.
- `retain` and `sort_by` change the `Vec` in place. The model runs them as loops over a `seq` and returns the new sequence, so it does not capture aliasing.
- The library sort's algorithm is not modelled. An insertion sort plus Listing.StableSortUnique pins down the one result every stable sort has.
- `benches/zls_benchmarks.rs` copies `format_size`, `format_time` and the comparators verbatim, so it is not modelled separately.
- `tests/integration_tests.rs` runs the binary as a subprocess and is not modelled.

## Findings

| source | as written | input that shows it | evidently intended | confidence | as-written member | corrected member |
|---|---|---|---|---|---|---|
| src/main.rs:155-171 | compact mode pads the already styled `String` to `display_width + 2` characters, and the escape characters count toward that width | a directory `src` (or any `.rs` file or dotfile with an ASCII name): it prints as the styled `src/` with no blank, so the next name follows directly | every name followed by the blanks that bring it to `display_width + 2`, the width `current_width` accounts for | high; not executed | Padding.PaddingLostWhenStyled | Padding.ShownKeepsGap |
