/** What a compact-mode cell looks like on the terminal. The program
    styles a name first (crossterm wraps it in ANSI escape sequences) and
    pads the styled `String` to `display_width + 2` characters afterwards,
    so the invisible escape characters count toward the width, and a
    styled name gets fewer trailing blanks than the layout accounts for:
    none at all for an ASCII name. */
module Padding {
  import opened Wrappers
  import opened FileEntry
  import opened Grid

  const ESC: char := '\U{1B}'

  /** One SGR escape sequence, `ESC [ code m`. */
  function Sgr(code: string): (s: string)
    ensures |s| == |code| + 3 && s[0] == ESC
  {
    [ESC, '['] + code + ['m']
  }

  /** crossterm's 256-colour codes for the three colours in use. */
  function ColorCode(c: Color): string {
    match c
    case Blue => "38;5;12"
    case Yellow => "38;5;11"
    case DarkGrey => "38;5;8"
  }

  /** The escapes written before a styled name: its colour, then bold. */
  function Open(s: Style): string {
    (match s.color case Some(c) => Sgr(ColorCode(c)) case None => "")
    + (if s.bold then Sgr("1") else "")
  }

  /** The reset written after a styled name: a full reset when an
      attribute was set, otherwise only the foreground colour is reset. */
  function Close(s: Style): string {
    if s.bold then Sgr("0")
    else if s.color.Some? then Sgr("39")
    else ""
  }

  /** `.with(color).bold().to_string()`: the name between its escapes. */
  function Styled(text: string, s: Style): (r: string)
    ensures |r| == |Open(s)| + |text| + |Close(s)|
  {
    Open(s) + text + Close(s)
  }

  /** Every style but the plain one adds an opening escape and a reset,
      seven characters at least; the plain style adds nothing. */
  lemma EscapeLength(s: Style)
    ensures s == Style(None, false) ==> Open(s) == "" && Close(s) == ""
    ensures s != Style(None, false) ==> |Open(s)| + |Close(s)| >= 7
  {
    if s != Style(None, false) {
      if s.color.Some? {
        assert |Open(s)| >= |Sgr(ColorCode(s.color.value))| >= 4;
      } else {
        assert s.bold;
      }
    }
  }

  function Spaces(n: nat): (r: string)
    ensures |r| == n && forall i :: 0 <= i < n ==> r[i] == ' '
  {
    if n == 0 then "" else Spaces(n - 1) + " "
  }

  /** `format!("{:<width$}", s)`: left-aligned in `width` characters,
      counting every `char` of `s`, escapes included. */
  function PadRight(s: string, width: nat): (r: string)
    ensures |r| == if |s| < width then width else |s|
    ensures r[..|s|] == s
    ensures forall i :: |s| <= i < |r| ==> r[i] == ' '
  {
    if |s| < width then s + Spaces(width - |s|) else s
  }

  /** The cell as the program prints it: styled first, padded after. */
  function ShownAsWritten(c: Cell): string {
    PadRight(Styled(c.text, StyleOf(c.kind)), c.width)
  }

  /** The cell as evidently intended: the styled name followed by the
      blanks that bring its characters up to the width the layout
      accounts for. */
  function Shown(c: Cell): (r: string)
    ensures |r| >= |Styled(c.text, StyleOf(c.kind))|
    ensures r[..|Styled(c.text, StyleOf(c.kind))|] == Styled(c.text, StyleOf(c.kind))
  {
    var styled := Styled(c.text, StyleOf(c.kind));
    styled + Spaces(if |c.text| < c.width then c.width - |c.text| else 0)
  }

  // ---------------------------------------------------------------------
  // The discrepancy

  /** As written, a styled ASCII name is printed with no blank after it,
      though the layout counts two: a directory, a `.rs` file or a dotfile
      runs straight into the next name. */
  lemma PaddingLostWhenStyled(f: FileInfo)
    requires Classify(f.name, f.isDir) != Plain
    requires forall i :: 0 <= i < |f.name| ==> f.name[i] as int < 0x80
    ensures ShownAsWritten(CellOf(f)) == Styled(CompactName(f), StyleOf(Classify(f.name, f.isDir)))
  {
    var c := CellOf(f);
    var s := StyleOf(c.kind);
    EscapeLength(s);
    assert Utf8Len(f.name) == |f.name|;
    DisplayWidthIsCompactLength(f);
    assert c.width == |CompactName(f)| + 2 by {
      if f.isDir {
        Utf8LenConcat(f.name, "/");
        assert Utf8Len("/") == 1 by {
          assert "/"[..0] == [];
        }
      }
    }
  }

  /** The directory `src` is such a name. */
  lemma PaddingLostExample()
    ensures var f := FileInfo("src", "./src", true, false, 0, None);
      ShownAsWritten(CellOf(f)) == Styled("src/", Style(Some(Blue), true))
  {
    var f := FileInfo("src", "./src", true, false, 0, None);
    assert "src"[..2] == "sr" && "sr"[..1] == "s" && "s"[..0] == [];
    PaddingLostWhenStyled(f);
  }

  // ---------------------------------------------------------------------
  // The corrected padding

  /** Corrected, the visible characters of every entry's cell are exactly
      the `display_width + 2` the layout accounts for, the cell ends with at
      least two blanks, and an unstyled cell comes out exactly as the
      program prints it. */
  lemma ShownKeepsGap(f: FileInfo)
    ensures var c := CellOf(f);
      var s := StyleOf(c.kind);
      |Shown(c)| == |Open(s)| + c.width + |Close(s)|
    ensures var r := Shown(CellOf(f));
      |r| >= 2 && r[|r| - 1] == ' ' && r[|r| - 2] == ' '
    ensures Classify(f.name, f.isDir) == Plain ==> Shown(CellOf(f)) == ShownAsWritten(CellOf(f))
  {
    EscapeLength(StyleOf(Classify(f.name, f.isDir)));
  }
}
