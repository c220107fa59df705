/** `list_directory` after the directory has been read: fail-fast
    collection of the probe results, `retain` of the visible entries, and a
    stable `sort_by` on one of the two comparators. */
module Listing {
  import opened Wrappers
  import opened FileEntry
  import opened SortKeys
  import opened SeqFacts

  /** One entry of `read_dir` after `FileInfo::from_path`, in whatever
      order the parallel iterator delivers it. */
  type Probe = Result<FileInfo, IoError>

  /** `.collect::<Result<Vec<_>, _>>()`: every entry when every probe
      succeeded, otherwise one of the errors. */
  function Collect(probes: seq<Probe>): (r: Result<seq<FileInfo>, IoError>)
    ensures r.Ok? <==> forall i :: 0 <= i < |probes| ==> probes[i].Ok?
    ensures r.Ok? ==> |r.value| == |probes|
    ensures r.Ok? ==> forall i :: 0 <= i < |probes| ==> probes[i] == Ok(r.value[i])
    ensures r.Err? ==> Err(r.error) in probes
  {
    if probes == [] then Ok([])
    else
      match probes[0]
      case Err(e) => Err(e)
      case Ok(f) =>
        match Collect(probes[1..])
        case Err(e) => Err(e)
        case Ok(rest) => Ok([f] + rest)
  }

  // ---------------------------------------------------------------------
  // Visibility filter

  /** The entries `retain(|file| !file.is_hidden)` keeps, in their order. */
  function Visible(s: seq<FileInfo>): seq<FileInfo> {
    if s == [] then []
    else Visible(s[..|s| - 1]) + if s[|s| - 1].isHidden then [] else [s[|s| - 1]]
  }

  /** The filter keeps exactly the entries not flagged hidden, each as many
      times as it occurs. */
  lemma {:induction false} VisibleContents(s: seq<FileInfo>)
    ensures forall x :: multiset(Visible(s))[x] == if x.isHidden then 0 else multiset(s)[x]
    decreases |s|
  {
    if s != [] {
      var init := s[..|s| - 1];
      VisibleContents(init);
      assert s == init + [s[|s| - 1]];
    }
  }

  /** The filter works entry by entry, so it keeps the relative order. */
  lemma {:induction false} VisibleConcat(a: seq<FileInfo>, b: seq<FileInfo>)
    ensures Visible(a + b) == Visible(a) + Visible(b)
    decreases |b|
  {
    if b == [] {
      assert a + b == a;
    } else {
      var b' := b[..|b| - 1];
      assert (a + b)[..|a + b| - 1] == a + b';
      assert (a + b)[|a + b| - 1] == b[|b| - 1];
      VisibleConcat(a, b');
    }
  }

  /** `entries.retain(|file| !file.is_hidden)`. */
  method RetainVisible(entries: seq<FileInfo>) returns (kept: seq<FileInfo>)
    ensures kept == Visible(entries)
  {
    kept := [];
    for i := 0 to |entries|
      invariant kept == Visible(entries[..i])
    {
      assert entries[..i + 1][..i] == entries[..i];
      if !entries[i].isHidden {
        kept := kept + [entries[i]];
      }
    }
    assert entries[..|entries|] == entries;
  }

  // ---------------------------------------------------------------------
  // Stable sort

  /** Every pair stands in comparator order. */
  predicate Sorted(s: seq<FileInfo>, byTime: bool) {
    forall i, j :: 0 <= i < j < |s| ==> InOrder(s[i], s[j], byTime)
  }

  /** The entries of `s` the comparator ties with `e`, in their order. */
  function TiedRun(s: seq<FileInfo>, e: FileInfo, byTime: bool): seq<FileInfo> {
    if s == [] then []
    else TiedRun(s[..|s| - 1], e, byTime) + if Tied(s[|s| - 1], e, byTime) then [s[|s| - 1]] else []
  }

  /** Stability: every group of tied entries appears in `r` in the order it
      has in `s`. */
  ghost predicate Stable(r: seq<FileInfo>, s: seq<FileInfo>, byTime: bool) {
    forall e :: TiedRun(r, e, byTime) == TiedRun(s, e, byTime)
  }

  lemma {:induction false} TiedRunConcat(a: seq<FileInfo>, b: seq<FileInfo>, e: FileInfo, byTime: bool)
    ensures TiedRun(a + b, e, byTime) == TiedRun(a, e, byTime) + TiedRun(b, e, byTime)
    decreases |b|
  {
    if b == [] {
      assert a + b == a;
    } else {
      var b' := b[..|b| - 1];
      assert (a + b)[..|a + b| - 1] == a + b';
      assert (a + b)[|a + b| - 1] == b[|b| - 1];
      TiedRunConcat(a, b', e, byTime);
    }
  }

  lemma {:induction false} TiedRunEmpty(s: seq<FileInfo>, e: FileInfo, byTime: bool)
    requires forall k :: 0 <= k < |s| ==> !Tied(s[k], e, byTime)
    ensures TiedRun(s, e, byTime) == []
    decreases |s|
  {
    if s != [] {
      TiedRunEmpty(s[..|s| - 1], e, byTime);
    }
  }

  lemma {:induction false} TiedRunMembers(s: seq<FileInfo>, e: FileInfo, byTime: bool)
    ensures forall x :: x in TiedRun(s, e, byTime) ==> x in s && Tied(x, e, byTime)
    decreases |s|
  {
    if s != [] {
      TiedRunMembers(s[..|s| - 1], e, byTime);
    }
  }

  lemma TiedRunCons(x: FileInfo, t: seq<FileInfo>, e: FileInfo, byTime: bool)
    ensures TiedRun([x] + t, e, byTime) == (if Tied(x, e, byTime) then [x] else []) + TiedRun(t, e, byTime)
  {
    TiedRunConcat([x], t, e, byTime);
    assert [x][..0] == [];
  }

  /** Putting `x` after everything that may precede it and before
      everything it must precede keeps the sequence sorted. */
  lemma InsertSorted(s: seq<FileInfo>, x: FileInfo, j: nat, byTime: bool)
    requires Sorted(s, byTime) && j <= |s|
    requires j > 0 ==> InOrder(s[j - 1], x, byTime)
    requires forall k :: j <= k < |s| ==> !InOrder(s[k], x, byTime)
    ensures Sorted(s[..j] + [x] + s[j..], byTime)
  {
    var r := s[..j] + [x] + s[j..];
    forall p, q | 0 <= p < q < |r|
      ensures InOrder(r[p], r[q], byTime)
    {
      if q < j {
        assert r[p] == s[p] && r[q] == s[q];
      } else if q == j {
        assert r[p] == s[p];
        if p < j - 1 {
          InOrderTransitive(s[p], s[j - 1], x, byTime);
        }
      } else if p == j {
        assert r[q] == s[q - 1];
        InOrderTotal(s[q - 1], x, byTime);
      } else if p < j {
        assert r[p] == s[p] && r[q] == s[q - 1];
      } else {
        assert r[p] == s[p - 1] && r[q] == s[q - 1];
      }
    }
  }

  /** Nothing after the insertion point ties with anything `x` ties with. */
  lemma NoTieAfter(s: seq<FileInfo>, x: FileInfo, j: nat, e: FileInfo, byTime: bool)
    requires j <= |s|
    requires forall k :: j <= k < |s| ==> !InOrder(s[k], x, byTime)
    requires Tied(x, e, byTime)
    ensures TiedRun(s[j..], e, byTime) == []
  {
    var rest := s[j..];
    forall k | 0 <= k < |rest|
      ensures !Tied(rest[k], e, byTime)
    {
      var y := rest[k];
      assert !InOrder(y, x, byTime);
      if Tied(y, e, byTime) {
        InOrderTotal(y, e, byTime);
        InOrderTotal(x, e, byTime);
        InOrderTransitive(y, e, x, byTime);
      }
    }
    TiedRunEmpty(rest, e, byTime);
  }

  /** For stability, inserting `x` at that place is as good as appending it:
      nothing after the insertion point ties with `x`. */
  lemma InsertRuns(s: seq<FileInfo>, x: FileInfo, j: nat, e: FileInfo, byTime: bool)
    requires j <= |s|
    requires forall k :: j <= k < |s| ==> !InOrder(s[k], x, byTime)
    ensures TiedRun(s[..j] + [x] + s[j..], e, byTime) == TiedRun(s + [x], e, byTime)
  {
    var front, back := s[..j], s[j..];
    SplitAt(s, j);
    TiedRunConcat(front + [x], back, e, byTime);
    TiedRunConcat(front, [x], e, byTime);
    TiedRunConcat(front, back, e, byTime);
    TiedRunConcat(s, [x], e, byTime);
    if Tied(x, e, byTime) {
      NoTieAfter(s, x, j, e, byTime);
    } else {
      assert [x][..0] == [];
    }
    SwapEmpty(TiedRun(front, e, byTime), TiedRun([x], e, byTime), TiedRun(back, e, byTime));
  }

  /** One pass of the insertion: the sorted prefix with `x` put after the
      last entry that may precede it is the sorted, stable arrangement of
      the entries so far followed by `x`. */
  lemma InsertKeeps(sorted: seq<FileInfo>, done: seq<FileInfo>, x: FileInfo, j: nat, byTime: bool)
    requires Sorted(sorted, byTime)
    requires multiset(sorted) == multiset(done)
    requires Stable(sorted, done, byTime)
    requires j <= |sorted|
    requires j > 0 ==> InOrder(sorted[j - 1], x, byTime)
    requires forall k :: j <= k < |sorted| ==> !InOrder(sorted[k], x, byTime)
    ensures Sorted(sorted[..j] + [x] + sorted[j..], byTime)
    ensures multiset(sorted[..j] + [x] + sorted[j..]) == multiset(done + [x])
    ensures Stable(sorted[..j] + [x] + sorted[j..], done + [x], byTime)
  {
    InsertSorted(sorted, x, j, byTime);
    InsertMultiset(sorted, x, j);
    forall e
      ensures TiedRun(sorted[..j] + [x] + sorted[j..], e, byTime) == TiedRun(done + [x], e, byTime)
    {
      InsertRuns(sorted, x, j, e, byTime);
      TiedRunConcat(sorted, [x], e, byTime);
      TiedRunConcat(done, [x], e, byTime);
    }
  }

  /** `sort_by` with the chosen comparator. The library's sort is stable,
      which fixes its result (see StableSortUnique); the model reaches that
      result by insertion. */
  method SortEntries(entries: seq<FileInfo>, byTime: bool) returns (sorted: seq<FileInfo>)
    ensures Sorted(sorted, byTime)
    ensures multiset(sorted) == multiset(entries)
    ensures Stable(sorted, entries, byTime)
  {
    sorted := [];
    for i := 0 to |entries|
      invariant Sorted(sorted, byTime)
      invariant multiset(sorted) == multiset(entries[..i])
      invariant Stable(sorted, entries[..i], byTime)
    {
      var x := entries[i];
      var j := |sorted|;
      while j > 0 && !InOrder(sorted[j - 1], x, byTime)
        invariant 0 <= j <= |sorted|
        invariant forall k :: j <= k < |sorted| ==> !InOrder(sorted[k], x, byTime)
      {
        j := j - 1;
      }
      InsertKeeps(sorted, entries[..i], x, j, byTime);
      TakeOneMore(entries, i);
      sorted := sorted[..j] + [x] + sorted[j..];
    }
    assert entries[..|entries|] == entries;
  }

  /** The first entry of a non-empty sequence heads its own tied group. */
  lemma RunOfHead(s: seq<FileInfo>, byTime: bool)
    requires s != []
    ensures TiedRun(s, s[0], byTime) != [] && TiedRun(s, s[0], byTime)[0] == s[0]
  {
    TiedReflexive(s[0], byTime);
    TiedRunCons(s[0], s[1..], s[0], byTime);
    assert s == [s[0]] + s[1..];
  }

  /** In a sorted sequence the first entry may precede anything tied with
      one of its entries. */
  lemma FirstPrecedes(s: seq<FileInfo>, x: FileInfo, byTime: bool)
    requires Sorted(s, byTime) && TiedRun(s, x, byTime) != []
    ensures InOrder(s[0], x, byTime)
  {
    var z := TiedRun(s, x, byTime)[0];
    TiedRunMembers(s, x, byTime);
    InOrderTotal(z, x, byTime);
    var k :| 0 <= k < |s| && s[k] == z;
    if k > 0 {
      InOrderTransitive(s[0], z, x, byTime);
    }
  }

  lemma HeadsEqual(a: seq<FileInfo>, b: seq<FileInfo>, byTime: bool)
    requires Sorted(a, byTime) && Sorted(b, byTime) && a != [] && b != []
    requires forall e :: TiedRun(a, e, byTime) == TiedRun(b, e, byTime)
    ensures a[0] == b[0]
  {
    var x, y := a[0], b[0];
    RunOfHead(a, byTime);
    RunOfHead(b, byTime);
    FirstPrecedes(b, x, byTime);
    FirstPrecedes(a, y, byTime);
    InOrderTotal(y, x, byTime);
    TiedRunCons(y, b[1..], x, byTime);
    assert b == [y] + b[1..];
  }

  /** Equal heads take the same place in every tied group, so the tails
      have the same tied groups too. */
  lemma TailRuns(a: seq<FileInfo>, b: seq<FileInfo>, e: FileInfo, byTime: bool)
    requires a != [] && b != [] && a[0] == b[0]
    requires TiedRun(a, e, byTime) == TiedRun(b, e, byTime)
    ensures TiedRun(a[1..], e, byTime) == TiedRun(b[1..], e, byTime)
  {
    TiedRunCons(a[0], a[1..], e, byTime);
    TiedRunCons(b[0], b[1..], e, byTime);
    assert a == [a[0]] + a[1..] && b == [b[0]] + b[1..];
    var head := if Tied(a[0], e, byTime) then [a[0]] else [];
    assert TiedRun(a[1..], e, byTime) == TiedRun(a, e, byTime)[|head|..];
    assert TiedRun(b[1..], e, byTime) == TiedRun(b, e, byTime)[|head|..];
  }

  /** A stable sort has only one possible result: two sorted sequences with
      the same tied groups are equal. So any stable sort the library uses
      agrees with SortEntries. */
  lemma {:induction false} StableSortUnique(a: seq<FileInfo>, b: seq<FileInfo>, byTime: bool)
    requires Sorted(a, byTime) && Sorted(b, byTime)
    requires forall e :: TiedRun(a, e, byTime) == TiedRun(b, e, byTime)
    ensures a == b
    decreases |a|
  {
    if a == [] && b != [] {
      RunOfHead(b, byTime);
    } else if a != [] && b == [] {
      RunOfHead(a, byTime);
    } else if a != [] {
      HeadsEqual(a, b, byTime);
      forall e
        ensures TiedRun(a[1..], e, byTime) == TiedRun(b[1..], e, byTime)
      {
        TailRuns(a, b, e, byTime);
      }
      StableSortUnique(a[1..], b[1..], byTime);
      assert a == [a[0]] + a[1..] && b == [b[0]] + b[1..];
    }
  }

  // ---------------------------------------------------------------------
  // The whole listing

  /** The entries that survive the visibility filter. */
  function Kept(found: seq<FileInfo>, all: bool): seq<FileInfo> {
    if all then found else Visible(found)
  }

  /** `list_directory` from `read_dir` on. `readDir` is the outcome of
      opening the directory and, on success, the probe result of each
      child. */
  method ListDirectory(readDir: Result<seq<Probe>, IoError>, all: bool, byTime: bool)
    returns (r: Result<seq<FileInfo>, IoError>)
    ensures readDir.Err? ==> r == Err(readDir.error)
    ensures readDir.Ok? ==> (r.Err? <==> exists i :: 0 <= i < |readDir.value| && readDir.value[i].Err?)
    ensures readDir.Ok? && r.Err? ==> Err(r.error) in readDir.value
    ensures r.Ok? ==> readDir.Ok? && Collect(readDir.value).Ok?
    ensures r.Ok? ==> var kept := Kept(Collect(readDir.value).value, all);
      multiset(r.value) == multiset(kept) && Sorted(r.value, byTime) && Stable(r.value, kept, byTime)
    ensures r.Ok? && !all ==> forall x :: multiset(r.value)[x] ==
                                          if x.isHidden then 0 else multiset(Collect(readDir.value).value)[x]
    ensures r.Ok? && byTime ==> forall i, j :: 0 <= i < j < |r.value| ==> ModifiedKey(r.value[j]) <= ModifiedKey(r.value[i])
    ensures r.Ok? && !byTime ==> forall i, j :: 0 <= i < j < |r.value| ==>
      CompareStr(Lower(r.value[i].name), Lower(r.value[j].name)) != Greater
  {
    if readDir.Err? {
      return Err(readDir.error);
    }
    var collected := Collect(readDir.value);
    if collected.Err? {
      return Err(collected.error);
    }
    var entries := collected.value;
    if !all {
      entries := RetainVisible(entries);
      VisibleContents(collected.value);
    }
    entries := SortEntries(entries, byTime);
    forall i, j | 0 <= i < j < |entries|
      ensures byTime ==> ModifiedKey(entries[j]) <= ModifiedKey(entries[i])
    {
      InOrderMeaning(entries[i], entries[j]);
    }
    r := Ok(entries);
  }
}
