/** `FileInfo` and what the program derives from an entry's name:
    hiddenness, the long-mode type character, the name class that picks a
    style, and the compact-mode name with its display width. */
module FileEntry {
  import opened Wrappers
  import opened SizeFormat
  import opened TimeFormat

  datatype IoError = IoError(message: string)

  /** The part of `fs::metadata` the program reads. `modified` is `None`
      when the platform cannot report it (`metadata.modified().ok()`). */
  datatype Metadata = Metadata(isDir: bool, len: U64, modified: Option<Instant>)

  datatype FileInfo = FileInfo(
    name: string,
    path: string,
    isDir: bool,
    isHidden: bool,
    size: U64,
    modified: Option<Instant>)

  predicate StartsWith(s: string, prefix: string) {
    |prefix| <= |s| && s[..|prefix|] == prefix
  }

  predicate EndsWith(s: string, suffix: string) {
    |suffix| <= |s| && s[|s| - |suffix|..] == suffix
  }

  /** `name.starts_with('.')`. */
  function IsHidden(name: string): (b: bool)
    ensures b <==> |name| > 0 && name[0] == '.'
  {
    StartsWith(name, ".")
  }

  /** A `FileInfo` is consistent when its hidden flag is the one its name
      determines. */
  predicate Consistent(f: FileInfo) {
    f.isHidden == IsHidden(f.name)
  }

  /** `FileInfo::from_path`. The metadata lookup and `file_name()` are
      inputs: `fileName` is `None` when the path has no final component. */
  function FromPath(path: string, fileName: Option<string>, meta: Result<Metadata, IoError>): (r: Result<FileInfo, IoError>)
    ensures r.Err? <==> meta.Err?
    ensures r.Err? ==> r.error == meta.error
    ensures r.Ok? ==> Consistent(r.value)
    ensures r.Ok? ==> r.value.path == path
    ensures r.Ok? && fileName.Some? ==> r.value.name == fileName.value
    ensures r.Ok? && fileName.None? ==> r.value.name == ""
    ensures r.Ok? ==> r.value.isDir == meta.value.isDir
    ensures r.Ok? ==> r.value.size == meta.value.len && r.value.modified == meta.value.modified
  {
    match meta
    case Err(e) => Err(e)
    case Ok(m) =>
      var name := fileName.GetOr("");
      Ok(FileInfo(name, path, m.isDir, IsHidden(name), m.len, m.modified))
  }

  /** The long-mode type column. */
  function TypeChar(isDir: bool): (c: char)
    ensures c == 'd' <==> isDir
    ensures c == 'd' || c == '-'
  {
    if isDir then 'd' else '-'
  }

  /** Which style a name is printed in, decided in this priority order. */
  datatype NameClass = Directory | RustSource | Dotfile | Plain

  function Classify(name: string, isDir: bool): (c: NameClass)
    ensures c == Directory <==> isDir
    ensures c == RustSource <==> !isDir && EndsWith(name, ".rs")
    ensures c == Dotfile <==> !isDir && !EndsWith(name, ".rs") && IsHidden(name)
    ensures c == Plain <==> !isDir && !EndsWith(name, ".rs") && !IsHidden(name)
  {
    if isDir then Directory
    else if EndsWith(name, ".rs") then RustSource
    else if StartsWith(name, ".") then Dotfile
    else Plain
  }

  datatype Color = Blue | Yellow | DarkGrey

  datatype Style = Style(color: Option<Color>, bold: bool)

  /** The crossterm styling each class gets: bold blue directories, yellow
      `.rs` files, dark grey dotfiles, and plain names left unstyled. */
  function StyleOf(c: NameClass): (s: Style)
    ensures s.bold <==> c == Directory
    ensures s.color.None? <==> c == Plain
    ensures c == Directory ==> s.color == Some(Blue)
    ensures c == RustSource ==> s.color == Some(Yellow)
    ensures c == Dotfile ==> s.color == Some(DarkGrey)
  {
    match c
    case Directory => Style(Some(Blue), true)
    case RustSource => Style(Some(Yellow), false)
    case Dotfile => Style(Some(DarkGrey), false)
    case Plain => Style(None, false)
  }

  /** The styling class does not decide hiddenness: a dotfile is always
      hidden, but a hidden directory or a hidden `.rs` file keeps the
      class of its higher-priority rule. */
  lemma ClassAndHidden(name: string, isDir: bool)
    ensures Classify(name, isDir) == Dotfile ==> IsHidden(name)
    ensures Classify(".git", true) == Directory && IsHidden(".git")
    ensures Classify(".build.rs", false) == RustSource && IsHidden(".build.rs")
  {
    assert ".build.rs"[6..] == ".rs";
  }

  /** Bytes of the UTF-8 encoding of one character. */
  function Utf8Width(c: char): (n: nat)
    ensures 1 <= n <= 4
    ensures n == 1 <==> c as int < 0x80
  {
    if c as int < 0x80 then 1
    else if c as int < 0x800 then 2
    else if c as int < 0x10000 then 3
    else 4
  }

  /** Rust's `String::len()`: the length of the UTF-8 encoding. */
  function Utf8Len(s: string): (n: nat)
    ensures |s| <= n <= 4 * |s|
    ensures n == |s| <==> forall i :: 0 <= i < |s| ==> s[i] as int < 0x80
  {
    if s == [] then 0 else Utf8Len(s[..|s| - 1]) + Utf8Width(s[|s| - 1])
  }

  lemma {:induction false} Utf8LenConcat(a: string, b: string)
    ensures Utf8Len(a + b) == Utf8Len(a) + Utf8Len(b)
    decreases |b|
  {
    if b == [] {
      assert a + b == a;
    } else {
      var b' := b[..|b| - 1];
      assert (a + b)[..|a + b| - 1] == a + b';
      assert (a + b)[|a + b| - 1] == b[|b| - 1];
      Utf8LenConcat(a, b');
    }
  }

  /** The compact-mode name: a directory gets a trailing `/`. */
  function CompactName(f: FileInfo): string {
    if f.isDir then f.name + "/" else f.name
  }

  /** `display_width`: the byte length of the name, plus one for a
      directory's slash. */
  function DisplayWidth(f: FileInfo): nat {
    Utf8Len(f.name) + if f.isDir then 1 else 0
  }

  /** The width the grid accounts for is the byte length of the compact
      name, slash included. */
  lemma DisplayWidthIsCompactLength(f: FileInfo)
    ensures DisplayWidth(f) == Utf8Len(CompactName(f))
    ensures DisplayWidth(f) >= |CompactName(f)|
  {
    if f.isDir {
      Utf8LenConcat(f.name, "/");
      assert Utf8Len("/") == 1 by {
        assert "/"[..0] == [];
      }
    }
  }
}
