/** The two comparators `list_directory` sorts with: lowercase name
    ascending, or modification time descending with a missing time read as
    the Unix epoch. */
module SortKeys {
  import opened Wrappers
  import opened TimeFormat
  import opened FileEntry

  datatype Ordering = Less | Equal | Greater {
    function Reverse(): Ordering {
      match this
      case Less => Greater
      case Equal => Equal
      case Greater => Less
    }
  }

  /** Lowercasing of one character. Only ASCII letters are mapped; Unicode
      case mapping is not part of this model. */
  function AsciiLower(c: char): (d: char)
    ensures 'A' <= c <= 'Z' ==> d as int == c as int + 32
    ensures !('A' <= c <= 'Z') ==> d == c
  {
    if 'A' <= c <= 'Z' then (c as int + 32) as char else c
  }

  function Lower(s: string): (r: string)
    ensures |r| == |s|
    ensures forall i :: 0 <= i < |s| ==> r[i] == AsciiLower(s[i])
  {
    seq(|s|, i requires 0 <= i < |s| => AsciiLower(s[i]))
  }

  /** `Ord::cmp` on integers (here, on instants). */
  function CompareInt(x: int, y: int): (o: Ordering)
    ensures o == Less <==> x < y
    ensures o == Equal <==> x == y
    ensures o == Greater <==> x > y
  {
    if x < y then Less else if x == y then Equal else Greater
  }

  /** `Ord::cmp` on `str`: lexicographic over the code points, a proper
      prefix first. On UTF-8 this is the byte order Rust compares by. */
  function CompareStr(a: string, b: string): Ordering
    decreases |a|
  {
    if a == [] then (if b == [] then Equal else Less)
    else if b == [] then Greater
    else if a[0] < b[0] then Less
    else if b[0] < a[0] then Greater
    else CompareStr(a[1..], b[1..])
  }

  lemma {:induction false} CompareStrReverse(a: string, b: string)
    ensures CompareStr(b, a) == CompareStr(a, b).Reverse()
    decreases |a|
  {
    if a != [] && b != [] && a[0] == b[0] {
      CompareStrReverse(a[1..], b[1..]);
    }
  }

  lemma {:induction false} CompareStrEqual(a: string, b: string)
    ensures CompareStr(a, b) == Equal <==> a == b
    decreases |a|
  {
    if a != [] && b != [] && a[0] == b[0] {
      CompareStrEqual(a[1..], b[1..]);
      assert a == [a[0]] + a[1..] && b == [b[0]] + b[1..];
    }
  }

  lemma {:induction false} CompareStrTransitive(a: string, b: string, c: string)
    requires CompareStr(a, b) != Greater && CompareStr(b, c) != Greater
    ensures CompareStr(a, c) != Greater
    decreases |a|
  {
    if a != [] && b != [] && c != [] && a[0] == b[0] == c[0] {
      CompareStrTransitive(a[1..], b[1..], c[1..]);
    }
  }

  /** `modified.unwrap_or(SystemTime::UNIX_EPOCH)`. */
  function ModifiedKey(f: FileInfo): Instant {
    f.modified.GetOr(0)
  }

  /** The comparator passed to `sort_by`: `b`'s time against `a`'s when
      sorting by time, the lowercase names otherwise. */
  function Compare(a: FileInfo, b: FileInfo, byTime: bool): Ordering {
    if byTime then CompareInt(ModifiedKey(b), ModifiedKey(a))
    else CompareStr(Lower(a.name), Lower(b.name))
  }

  /** `a` may stand before `b`: the comparator does not say Greater. */
  predicate InOrder(a: FileInfo, b: FileInfo, byTime: bool) {
    Compare(a, b, byTime) != Greater
  }

  /** The comparator calls `a` and `b` equal. */
  predicate Tied(a: FileInfo, b: FileInfo, byTime: bool) {
    Compare(a, b, byTime) == Equal
  }

  /** The comparator is a total preorder, as `sort_by` requires. */
  lemma InOrderTotal(a: FileInfo, b: FileInfo, byTime: bool)
    ensures InOrder(a, b, byTime) || InOrder(b, a, byTime)
    ensures Tied(a, b, byTime) <==> InOrder(a, b, byTime) && InOrder(b, a, byTime)
  {
    CompareStrReverse(Lower(a.name), Lower(b.name));
  }

  lemma TiedReflexive(a: FileInfo, byTime: bool)
    ensures Tied(a, a, byTime)
  {
    CompareStrEqual(Lower(a.name), Lower(a.name));
  }

  lemma InOrderTransitive(a: FileInfo, b: FileInfo, c: FileInfo, byTime: bool)
    requires InOrder(a, b, byTime) && InOrder(b, c, byTime)
    ensures InOrder(a, c, byTime)
  {
    if !byTime {
      CompareStrTransitive(Lower(a.name), Lower(b.name), Lower(c.name));
    }
  }

  /** What the two comparators order by: descending time with a missing time
      at the epoch, or ascending lowercase name; ties are exactly equal
      keys. */
  lemma InOrderMeaning(a: FileInfo, b: FileInfo)
    ensures InOrder(a, b, true) <==> ModifiedKey(b) <= ModifiedKey(a)
    ensures Tied(a, b, true) <==> ModifiedKey(a) == ModifiedKey(b)
    ensures Tied(a, b, false) <==> Lower(a.name) == Lower(b.name)
  {
    CompareStrEqual(Lower(a.name), Lower(b.name));
  }

  /** Case is ignored when sorting by name: "A.txt" comes before "b.txt",
      ".hidden" comes before both because '.' is below every letter, and
      "b.txt" and "B.txt" tie although they differ as strings. */
  lemma NameOrderExample()
    ensures CompareStr(Lower("A.txt"), Lower("b.txt")) == Less
    ensures CompareStr(Lower(".hidden"), Lower("A.txt")) == Less
    ensures CompareStr("b.txt", "B.txt") == Greater && CompareStr(Lower("b.txt"), Lower("B.txt")) == Equal
  {
    assert Lower("A.txt") == "a.txt";
    assert Lower("b.txt") == "b.txt";
    assert Lower("B.txt") == "b.txt";
    assert Lower(".hidden") == ".hidden";
    assert CompareStr("b.txt", "b.txt") == Equal by {
      CompareStrEqual("b.txt", "b.txt");
    }
  }
}
