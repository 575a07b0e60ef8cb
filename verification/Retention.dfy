/** When the cleanup deletes the oldest files whatever the directory's order: rotated files with equal timestamps
    are told apart by nothing but the listing. */
module Retention {
  import opened Basics
  import opened Decimal
  import opened Rotation
  import opened Sorting

  /** The rotated files of a directory, oldest first, each with the timestamp the cleanup reads from its name. */
  ghost predicate RotatedFiles(files: seq<Keyed<FileName>>, stem: string, names: set<FileName>) {
    && Ascending(files) && Distinct(files)
    && forall ts, n :: (ts, n) in files <==> n in names && ReadTimestamp(stem, n) == Some(ts)
  }

  ghost predicate SameMembers<T(!new)>(a: seq<T>, b: seq<T>) { forall x :: x in a <==> x in b }

  ghost predicate OldestGo(listing: seq<FileName>, stem: string, maxFiles: nat, files: seq<Keyed<FileName>>) {
    SameMembers(Victims(listing, stem, maxFiles), files[..Surplus(|files|, maxFiles)])
  }

  /** However the directory is listed, the cleanup deletes the files rotated first. */
  ghost predicate AlwaysOldest(names: set<FileName>, stem: string, maxFiles: nat, files: seq<Keyed<FileName>>) {
    forall listing :: Lists(listing, names) ==> OldestGo(listing, stem, maxFiles, files)
  }

  /** The last file to go and the first to stay have different timestamps, if there are two such files. */
  predicate Separated<X>(files: seq<Keyed<X>>, gone: nat)
    requires gone <= |files|
  {
    gone == 0 || gone == |files| || files[gone - 1].0 < files[gone].0
  }

  /** The cleanup can be trusted to delete the oldest files exactly when no second is split. */
  lemma RetentionExact(names: set<FileName>, stem: string, maxFiles: nat, files: seq<Keyed<FileName>>)
    requires RotatedFiles(files, stem, names)
    ensures AlwaysOldest(names, stem, maxFiles, files) <==> Separated(files, Surplus(|files|, maxFiles))
  {
    if Separated(files, Surplus(|files|, maxFiles)) {
      forall listing | Lists(listing, names)
        ensures OldestGo(listing, stem, maxFiles, files)
      {
        SeparatedGo(listing, names, stem, maxFiles, files);
      }
    } else {
      var listing := SplitSecond(names, stem, maxFiles, files);
    }
  }

  /** A listing that has a file deleted before one rotated no later. */
  lemma SplitSecond(names: set<FileName>, stem: string, maxFiles: nat, files: seq<Keyed<FileName>>)
    returns (listing: seq<FileName>)
    requires RotatedFiles(files, stem, names) && !Separated(files, Surplus(|files|, maxFiles))
    ensures Lists(listing, names) && !OldestGo(listing, stem, maxFiles, files)
  {
    var gone := Surplus(|files|, maxFiles);
    TiedThere(files, gone);
    SwappedFiles(files, stem, names, gone);
    listing := ListingOf(Swapped(files, gone), names, stem);
    OutOfOrder(listing, stem, maxFiles, files);
  }

  lemma TiedThere(files: seq<Keyed<FileName>>, gone: nat)
    requires Ascending(files) && gone <= |files| && !Separated(files, gone)
    ensures 0 < gone < |files| && files[gone - 1].0 == files[gone].0
  {
  }

  lemma OutOfOrder(listing: seq<FileName>, stem: string, maxFiles: nat, files: seq<Keyed<FileName>>)
    requires Distinct(files) && 0 < Surplus(|files|, maxFiles) < |files|
    requires SortByKey(Collect(listing, stem)) == Swapped(files, Surplus(|files|, maxFiles))
    ensures !OldestGo(listing, stem, maxFiles, files)
  {
    var gone := Surplus(|files|, maxFiles);
    var victims := Victims(listing, stem, maxFiles);
    assert victims == Swapped(files, gone)[..gone];
    assert victims[gone - 1] == files[gone];
    NotBefore(files, gone);
  }

  lemma NotBefore(files: seq<Keyed<FileName>>, i: nat)
    requires Distinct(files) && i < |files|
    ensures files[i] !in files[..i]
  {
  }

  // ----- A listing that splits a second -----

  /** Where the swap of two neighbours has put each entry. */
  function Swap(gone: nat, i: nat): nat
    requires gone > 0
  {
    if i == gone then gone - 1 else if i == gone - 1 then gone else i
  }

  function Swapped<T>(s: seq<T>, gone: nat): (r: seq<T>)
    requires 0 < gone < |s|
    ensures |r| == |s| && forall i :: 0 <= i < |s| ==> r[i] == s[Swap(gone, i)]
  {
    s[gone - 1 := s[gone]][gone := s[gone - 1]]
  }

  lemma SwapTied(files: seq<Keyed<FileName>>, gone: nat)
    requires Ascending(files) && Distinct(files) && 0 < gone < |files| && files[gone - 1].0 == files[gone].0
    ensures Ascending(Swapped(files, gone)) && Distinct(Swapped(files, gone))
    ensures SameMembers(Swapped(files, gone), files)
  {
    var swapped := Swapped(files, gone);
    forall i, j | 0 <= i < j < |files|
      ensures swapped[i].0 <= swapped[j].0 && swapped[i] != swapped[j]
    {
      var a, b := Swap(gone, i), Swap(gone, j);
      assert a != b && files[a] != files[b];
      assert a < b || (a == gone && b == gone - 1);
    }
    SwapElements(files, gone);
  }

  lemma SwappedFiles(files: seq<Keyed<FileName>>, stem: string, names: set<FileName>, gone: nat)
    requires RotatedFiles(files, stem, names) && 0 < gone < |files| && files[gone - 1].0 == files[gone].0
    ensures RotatedFiles(Swapped(files, gone), stem, names)
  {
    SwapTied(files, gone);
  }

  lemma SwapElements<T(!new)>(s: seq<T>, gone: nat)
    requires 0 < gone < |s|
    ensures SameMembers(Swapped(s, gone), s)
  {
    var swapped := Swapped(s, gone);
    forall i | 0 <= i < |s|
      ensures s[i] in swapped
    {
      assert Swap(gone, Swap(gone, i)) == i && s[i] == swapped[Swap(gone, i)];
    }
  }

  function NamesOf(files: seq<Keyed<FileName>>): (r: seq<FileName>)
    ensures |r| == |files| && forall i :: 0 <= i < |files| ==> r[i] == files[i].1
  {
    if files == [] then [] else [files[0].1] + NamesOf(files[1..])
  }

  /** Some listing yields the rotated files in a given order of ascending timestamps, and the sort keeps it. */
  lemma ListingOf(files: seq<Keyed<FileName>>, names: set<FileName>, stem: string) returns (listing: seq<FileName>)
    requires RotatedFiles(files, stem, names)
    ensures Lists(listing, names) && SortByKey(Collect(listing, stem)) == files
  {
    var others := SomeListing(set n | n in names && ReadTimestamp(stem, n).None?);
    listing := NamesOf(files) + others;
    FilesNamed(files, names, stem);
    DistinctConcat(NamesOf(files), others);
    CollectInOrder(files, others, stem);
    AscendingStays(files);
  }

  lemma SomeListing(names: set<FileName>) returns (listing: seq<FileName>)
    ensures Lists(listing, names)
  {
    if names == {} {
      listing := [];
    } else {
      var n :| n in names;
      var rest := SomeListing(names - {n});
      assert n !in rest;
      listing := [n] + rest;
    }
  }

  lemma FilesNamed(files: seq<Keyed<FileName>>, names: set<FileName>, stem: string)
    requires RotatedFiles(files, stem, names)
    ensures AllRead(files, stem) && Distinct(NamesOf(files))
    ensures forall n :: n in NamesOf(files) <==> n in names && ReadTimestamp(stem, n).Some?
  {
    forall i | 0 <= i < |files|
      ensures files[i].1 in names && ReadTimestamp(stem, files[i].1) == Some(files[i].0)
    {
      assert (files[i].0, files[i].1) in files;
    }
    forall i, j | 0 <= i < j < |files|
      ensures files[i].1 != files[j].1
    {
      assert files[i] != files[j];
    }
    forall n | n in names && ReadTimestamp(stem, n).Some?
      ensures n in NamesOf(files)
    {
      var i :| 0 <= i < |files| && files[i] == (ReadTimestamp(stem, n).value, n);
      assert NamesOf(files)[i] == n;
    }
  }

  lemma DistinctConcat<T>(a: seq<T>, b: seq<T>)
    requires Distinct(a) && Distinct(b) && forall x | x in a :: x !in b
    ensures Distinct(a + b)
  {
    assert forall i | 0 <= i < |b| :: b[i] in b;
  }

  ghost predicate AllRead(files: seq<Keyed<FileName>>, stem: string) {
    forall i | 0 <= i < |files| :: ReadTimestamp(stem, files[i].1) == Some(files[i].0)
  }

  lemma {:induction false} CollectInOrder(files: seq<Keyed<FileName>>, others: seq<FileName>, stem: string)
    requires AllRead(files, stem) && forall n | n in others :: ReadTimestamp(stem, n).None?
    ensures Collect(NamesOf(files) + others, stem) == files
  {
    if files == [] {
      EmptySides(others);
      NothingCollected(others, stem);
    } else {
      AllReadTail(files, stem);
      CollectInOrder(files[1..], others, stem);
      Assoc([files[0].1], NamesOf(files[1..]), others);
      CollectFirst(files[0], NamesOf(files[1..]) + others, stem);
      Rejoin(files);
    }
  }

  lemma AllReadTail(files: seq<Keyed<FileName>>, stem: string)
    requires files != [] && AllRead(files, stem)
    ensures AllRead(files[1..], stem) && ReadTimestamp(stem, files[0].1) == Some(files[0].0)
  {
  }

  lemma CollectFirst(f: Keyed<FileName>, rest: seq<FileName>, stem: string)
    requires ReadTimestamp(stem, f.1) == Some(f.0)
    ensures Collect([f.1] + rest, stem) == [f] + Collect(rest, stem)
  {
    SplitAt([f.1], rest);
  }

  lemma {:induction false} NothingCollected(others: seq<FileName>, stem: string)
    requires forall n | n in others :: ReadTimestamp(stem, n).None?
    ensures Collect(others, stem) == []
  {
    if others != [] {
      NothingCollected(others[1..], stem);
      EmptySides(Collect(others[1..], stem));
    }
  }

  // ----- Without a split second every listing has the oldest deleted -----

  lemma SeparatedGo(listing: seq<FileName>, names: set<FileName>, stem: string, maxFiles: nat,
                    files: seq<Keyed<FileName>>)
    requires RotatedFiles(files, stem, names) && Lists(listing, names)
    requires Separated(files, Surplus(|files|, maxFiles))
    ensures OldestGo(listing, stem, maxFiles, files)
  {
    SortedFiles(listing, names, stem, files);
    FrontGoes(listing, stem, maxFiles, files);
  }

  lemma FrontGoes(listing: seq<FileName>, stem: string, maxFiles: nat, files: seq<Keyed<FileName>>)
    requires Ascending(files) && Distinct(files) && Distinct(listing)
    requires SameMembers(SortByKey(Collect(listing, stem)), files)
    requires Separated(files, Surplus(|files|, maxFiles))
    ensures OldestGo(listing, stem, maxFiles, files)
  {
    var sorted := SortByKey(Collect(listing, stem));
    SortedDistinct(listing, stem);
    SameLength(sorted, files);
    SameFront(sorted, files, Surplus(|files|, maxFiles));
  }

  lemma SortedDistinct(listing: seq<FileName>, stem: string)
    requires Distinct(listing)
    ensures var sorted := SortByKey(Collect(listing, stem)); Ascending(sorted) && Distinct(sorted)
  {
    CollectDistinct(listing, stem);
    SortDistinct(Collect(listing, stem));
    SortByKeyStable(Collect(listing, stem));
  }

  lemma SortedFiles(listing: seq<FileName>, names: set<FileName>, stem: string, files: seq<Keyed<FileName>>)
    requires RotatedFiles(files, stem, names) && Lists(listing, names)
    ensures SameMembers(SortByKey(Collect(listing, stem)), files)
  {
    forall f
      ensures f in SortByKey(Collect(listing, stem)) <==> f in files
    {
      SortElements(Collect(listing, stem), f);
      CollectElements(listing, stem, f);
      assert f == (f.0, f.1);
    }
  }

  lemma {:induction false} CollectDistinct(listing: seq<FileName>, stem: string)
    requires Distinct(listing)
    ensures Distinct(Collect(listing, stem))
  {
    if listing != [] {
      assert forall i | 0 <= i < |listing[1..]| :: listing[1..][i] == listing[i + 1];
      CollectDistinct(listing[1..], stem);
      var ts := ReadTimestamp(stem, listing[0]);
      if ts.Some? {
        CollectElements(listing[1..], stem, (ts.value, listing[0]));
      }
    }
  }

  // ----- Lists without repetition -----

  function Elements<T>(s: seq<T>): set<T> { set x | x in s }

  lemma {:induction false} DistinctCount<T>(s: seq<T>)
    requires Distinct(s)
    ensures |Elements(s)| == |s|
  {
    if s != [] {
      assert forall i | 0 <= i < |s[1..]| :: s[1..][i] == s[i + 1];
      DistinctCount(s[1..]);
      Rejoin(s);
      assert Elements(s) == {s[0]} + Elements(s[1..]);
    }
  }

  lemma SameLength<T(!new)>(a: seq<T>, b: seq<T>)
    requires Distinct(a) && Distinct(b) && SameMembers(a, b)
    ensures |a| == |b|
  {
    DistinctCount(a);
    DistinctCount(b);
    assert Elements(a) == Elements(b);
  }

  lemma Subset<T>(a: set<T>, b: set<T>)
    requires a <= b
    ensures |a| <= |b|
    ensures |a| == |b| ==> a == b
  {
    assert b == a + (b - a);
  }

  lemma SameElements<T(!new)>(a: seq<T>, b: seq<T>)
    requires Distinct(a) && Distinct(b) && |a| == |b|
    requires forall i :: 0 <= i < |a| ==> a[i] in b
    ensures SameMembers(a, b)
  {
    DistinctCount(a);
    DistinctCount(b);
    Subset(Elements(a), Elements(b));
    assert forall x :: x in a <==> x in Elements(a);
    assert forall x :: x in b <==> x in Elements(b);
  }

  /** Two ascending lists of the same elements begin with the same `n` elements when the keys grow after them. */
  lemma SameFront<X(!new)>(a: seq<Keyed<X>>, b: seq<Keyed<X>>, n: nat)
    requires Ascending(a) && Ascending(b) && Distinct(a) && Distinct(b) && n <= |a| == |b|
    requires SameMembers(a, b)
    requires Separated(b, n)
    ensures SameMembers(a[..n], b[..n])
  {
    if n == |b| {
      assert a[..n] == a && b[..n] == b;
    } else if n > 0 {
      forall i | 0 <= i < n
        ensures a[..n][i] in b[..n]
      {
        InFront(a, b, n, i);
      }
      SameElements(a[..n], b[..n]);
    }
  }

  lemma InFront<X(!new)>(a: seq<Keyed<X>>, b: seq<Keyed<X>>, n: nat, i: nat)
    requires Ascending(a) && Ascending(b) && Distinct(a) && Distinct(b) && i < n < |a| == |b|
    requires SameMembers(a, b)
    requires b[n - 1].0 < b[n].0
    ensures a[i] in b[..n]
  {
    assert a[i] in a;
    var k :| 0 <= k < |b| && b[k] == a[i];
    if k >= n {
      forall x | x in b[..n]
        ensures x in a[..i]
      {
        var m :| 0 <= m < n && b[m] == x;
        assert x in b;
        var j :| 0 <= j < |a| && a[j] == x;
        assert x.0 < a[i].0;
      }
      DistinctCount(b[..n]);
      DistinctCount(a[..i]);
      Subset(Elements(b[..n]), Elements(a[..i]));
      assert false;
    }
  }

  // ----- A concrete input -----

  /** Two rotations in one second: the names differ only in the counter, which the cleanup does not read, so
      a listing that yields the newer file first has it deleted before the older one. */
  lemma SameSecondLosesNewer(stem: string, ts: nat)
    requires ts <= U64_MAX
    ensures var older, newer := RotatedName(stem, ts, 0), RotatedName(stem, ts, 1);
            && older != newer && Lists([newer, older], {older, newer})
            && Victims([newer, older], stem, 2) == [(ts, newer)]
  {
    var older, newer := RotatedName(stem, ts, 0), RotatedName(stem, ts, 1);
    TimestampRecovered(stem, ts, 0);
    TimestampRecovered(stem, ts, 1);
    assert |newer| == |older| + 1 + |Text(1)|;
    var listing := [newer, older];
    assert listing[1..] == [older] && [older][1..] == [];
    assert Collect([older], stem) == [(ts, older)];
    assert Collect(listing, stem) == [(ts, newer), (ts, older)];
    assert Collect(listing, stem)[1..] == [(ts, older)];
    assert SortByKey([(ts, older)]) == [(ts, older)] by { assert [(ts, older)][1..] == []; }
    assert SortByKey(Collect(listing, stem)) == [(ts, newer), (ts, older)];
  }
}
