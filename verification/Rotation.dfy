/** File rotation: the names of rotated files, the cleanup that reads timestamps back from them, and the
    sender loop with its size and time triggers. */
module Rotation {
  import opened Basics
  import opened Decimal
  import opened Sorting

  type FileName = string

  /** The files of one directory and what was handed to their writers. */
  type Directory = map<FileName, Bytes>

  const LOG: string := ".log"

  // ----- Configuration -----

  datatype RotationConfig = RotationConfig(sizeMb: Option<nat>, intervalSecs: Option<nat>, maxFiles: Option<nat>) {
    predicate Enabled() { sizeMb.Some? || intervalSecs.Some? }

    function MaxFiles(): nat { if maxFiles.Some? then maxFiles.value else 10 }

    /** The size trigger in bytes; the multiplication saturates. */
    function Threshold(): Option<nat> {
      if sizeMb.None? then None
      else Some(if sizeMb.value * 1_048_576 > U64_MAX then U64_MAX else sizeMb.value * 1_048_576)
    }

    /** The checks a profile must pass. */
    predicate Validates() {
      Enabled() ==> sizeMb != Some(0) && intervalSecs != Some(0) && maxFiles != Some(0)
    }
  }

  // ----- Names -----

  function LastDot(s: string): Option<nat> {
    if s == "" then None else if s[|s| - 1] == '.' then Some(|s| - 1) else LastDot(s[..|s| - 1])
  }

  lemma {:induction false} LastDotBound(s: string)
    ensures LastDot(s).Some? ==> LastDot(s).value < |s|
  {
    if s != "" {
      LastDotBound(s[..|s| - 1]);
    }
  }

  /** `file_stem`: the name up to its last dot, unless that dot begins it. */
  function FileStem(name: FileName): string {
    var dot := LastDot(name);
    LastDotBound(name);
    if dot.None? || dot.value == 0 then name else name[..dot.value]
  }

  /** The name of a rotated file: stem, timestamp, and a counter when the plain name is taken. */
  function RotatedName(stem: string, ts: nat, counter: nat): FileName {
    stem + "." + Text(ts) + (if counter == 0 then "" else "." + Text(counter)) + LOG
  }

  /** The text before the first dot. */
  function BeforeDot(s: string): string { if s == "" || s[0] == '.' then "" else [s[0]] + BeforeDot(s[1..]) }

  /** The timestamp in the stem of a file's name, if that reads like the stem of a rotated file. */
  function ReadStem(stem: string, entryStem: string): Option<nat> {
    if !(stem <= entryStem) then None
    else
      var suffix := entryStem[|stem|..];
      if suffix == "" || suffix[0] != '.' then None else ParseU64(BeforeDot(suffix[1..]))
  }

  /** The timestamp that the cleanup reads from the name of a file, if it takes it for a rotated one. */
  function ReadTimestamp(stem: string, entry: FileName): Option<nat> { ReadStem(stem, FileStem(entry)) }

  lemma {:induction false} LastDotBeforeExtension(front: string, extension: string)
    requires '.' !in extension
    ensures LastDot(front + "." + extension) == Some(|front|)
    decreases |extension|
  {
    var s := front + "." + extension;
    if extension == "" {
      assert s[|s| - 1] == '.';
    } else {
      var shorter := extension[..|extension| - 1];
      assert s[|s| - 1] == extension[|extension| - 1];
      assert s[..|s| - 1] == front + "." + shorter;
      LastDotBeforeExtension(front, shorter);
    }
  }

  lemma LastDotLog(front: string)
    ensures LastDot(front + LOG) == Some(|front|)
  {
    LastDotBeforeExtension(front, "log");
    Assoc(front, ".", "log");
    assert "." + "log" == LOG;
  }

  lemma {:induction false} BeforeDotDigits(digits: string, rest: string)
    requires '.' !in digits && (rest == "" || rest[0] == '.')
    ensures BeforeDot(digits + rest) == digits
  {
    if digits == "" {
      EmptySides(rest);
    } else {
      HeadTail(digits, rest);
      BeforeDotDigits(digits[1..], rest);
      Rejoin(digits);
    }
  }

  lemma NumeralHasNoDot(n: nat)
    ensures '.' !in Text(n) && Text(n) != ""
  {
    assert forall i | 0 <= i < |Text(n)| :: IsDigit(Text(n)[i]);
  }

  /** The cleanup recovers the timestamp of every name the rotation gives. */
  lemma TimestampRecovered(stem: string, ts: nat, counter: nat)
    requires ts <= U64_MAX
    ensures ReadTimestamp(stem, RotatedName(stem, ts, counter)) == Some(ts)
  {
    var tail := if counter == 0 then "" else "." + Text(counter);
    var front := stem + "." + Text(ts) + tail;
    var name := RotatedName(stem, ts, counter);
    LastDotLog(front);
    SplitAt(front, LOG);
    NumeralHasNoDot(ts);
    BeforeDotDigits(Text(ts), tail);
    ParseU64Text(ts);
    Assoc(stem + ".", Text(ts), tail);
    Assoc(stem, ".", Text(ts) + tail);
    SplitAt(stem, "." + (Text(ts) + tail));
    SplitAt(".", Text(ts) + tail);
  }

  lemma {:induction false} LastDotLast(s: string)
    ensures var dot := LastDot(s);
            if dot.None? then '.' !in s else dot.value < |s| && s[dot.value] == '.' && '.' !in s[dot.value + 1..]
  {
    if s != "" && s[|s| - 1] != '.' {
      var front := s[..|s| - 1];
      LastDotLast(front);
      assert s == front + [s[|s| - 1]];
      if LastDot(s).Some? {
        CutRight(front[..LastDot(s).value + 1], front[LastDot(s).value + 1..] + [s[|s| - 1]], LastDot(s).value + 1);
        assert s[LastDot(s).value + 1..] == front[LastDot(s).value + 1..] + [s[|s| - 1]];
      }
    }
  }

  /** A name is its stem, a dot and an extension without a dot; or it is its own stem, without a dot but for one that
      begins it. */
  lemma FileStemMeans(name: FileName)
    ensures var stem := FileStem(name);
            || (stem == name && (name == "" || '.' !in name[1..]))
            || (stem != "" && stem + "." <= name && '.' !in name[|stem| + 1..])
  {
    LastDotLast(name);
    if FileStem(name) == name && name != "" && LastDot(name).None? {
      Rejoin(name);
    }
  }

  lemma {:induction false} BeforeDotSplit(s: string)
    ensures var d := BeforeDot(s); '.' !in d && d <= s && (s[|d|..] == "" || s[|d|..][0] == '.')
  {
    if s != "" && s[0] != '.' {
      BeforeDotSplit(s[1..]);
      Rejoin(s);
      var d := BeforeDot(s[1..]);
      assert s[|d| + 1..] == s[1..][|d|..];
    }
  }

  /** A stem that is cut into the log's stem, a dot, a numeral for `ts`, and nothing more or a dot and more. */
  predicate StampParts(stem: string, fileStem: string, ts: nat, d: string, rest: string) {
    && fileStem == stem + "." + d + rest && '.' !in d && (rest == "" || rest[0] == '.')
    && ParseU64(d) == Some(ts)
  }

  ghost predicate Stamped(stem: string, fileStem: string, ts: nat) {
    exists d: string, rest: string :: StampParts(stem, fileStem, ts, d, rest)
  }

  lemma StampedRead(stem: string, d: string, rest: string)
    requires '.' !in d && (rest == "" || rest[0] == '.')
    ensures ReadStem(stem, stem + "." + d + rest) == ParseU64(d)
  {
    var suffix := "." + (d + rest);
    Assoc(stem + ".", d, rest);
    Assoc(stem, ".", d + rest);
    SplitAt(stem, suffix);
    SplitAt(".", d + rest);
    BeforeDotDigits(d, rest);
  }

  lemma ReadStamped(stem: string, fileStem: string, ts: nat)
    requires ReadStem(stem, fileStem) == Some(ts)
    ensures Stamped(stem, fileStem, ts)
  {
    var tail := fileStem[|stem|..][1..];
    var d := BeforeDot(tail);
    BeforeDotSplit(tail);
    StemParts(stem, fileStem, d);
    assert StampParts(stem, fileStem, ts, d, tail[|d|..]);
  }

  lemma StemParts(stem: string, fileStem: string, d: string)
    requires stem <= fileStem && |stem| < |fileStem| && fileStem[|stem|] == '.' && d <= fileStem[|stem|..][1..]
    ensures fileStem == stem + "." + d + fileStem[|stem|..][1..][|d|..]
  {
  }

  /** A file is taken for a rotated one of this log, with timestamp `ts`, exactly when its name says so. */
  lemma TimestampExact(stem: string, entry: FileName, ts: nat)
    ensures ReadTimestamp(stem, entry) == Some(ts) <==> Stamped(stem, FileStem(entry), ts)
  {
    var fileStem := FileStem(entry);
    if ReadTimestamp(stem, entry) == Some(ts) {
      ReadStamped(stem, fileStem, ts);
    }
    if Stamped(stem, fileStem, ts) {
      var d: string, rest: string :| StampParts(stem, fileStem, ts, d, rest);
      StampedRead(stem, d, rest);
    }
  }

  /** Only a name that begins with the log's stem and a dot is taken for a rotated file. */
  lemma OwnNamesOnly(stem: string, entry: FileName)
    ensures ReadTimestamp(stem, entry).Some? ==> stem + "." <= entry
  {
    LastDotBound(entry);
  }

  /** The current file is never taken for a rotated one. */
  lemma CurrentNotRotated(name: FileName)
    ensures ReadTimestamp(FileStem(name), name).None?
  {
  }

  lemma NamesDistinct(name: FileName, a: nat, b: nat)
    requires a <= U64_MAX && b <= U64_MAX
    ensures RotatedName(FileStem(name), a, 0) != name
    ensures a != b ==> RotatedName(FileStem(name), a, 0) != RotatedName(FileStem(name), b, 0)
  {
    CurrentNotRotated(name);
    TimestampRecovered(FileStem(name), a, 0);
    TimestampRecovered(FileStem(name), b, 0);
  }

  function NanosName(stem: string, ts: nat, nanos: nat): FileName {
    stem + "." + Text(ts) + "." + Text(nanos) + LOG
  }

  /** The name a rotated file gets: the one with the first counter up to 100 that is free, the plain name
      having counter zero; failing all, the one with the nanoseconds. */
  ghost predicate Permitted(dir: Directory, stem: string, ts: nat, nanos: nat, final: FileName) {
    || (exists c: nat :: c <= 100 && final == RotatedName(stem, ts, c) && final !in dir
                      && forall d: nat | d < c :: RotatedName(stem, ts, d) in dir)
    || (final == NanosName(stem, ts, nanos) && forall d: nat | d <= 100 :: RotatedName(stem, ts, d) in dir)
  }

  /** The first free name among the plain one and those with counters 1 to 100; failing all, the one with
      the nanoseconds of the clock. */
  method PickName(dir: Directory, stem: string, ts: nat, nanos: nat) returns (name: FileName)
    ensures Permitted(dir, stem, ts, nanos, name)
    ensures stem + "." + Text(ts) + ".log" !in dir ==> name == stem + "." + Text(ts) + ".log"
    ensures name in dir ==> name == stem + "." + Text(ts) + "." + Text(nanos) + ".log"
    ensures name in dir ==> forall c | 0 <= c <= 100 :: RotatedName(stem, ts, c) in dir
  {
    EmptySides(stem + "." + Text(ts));
    name := RotatedName(stem, ts, 0);
    var counter: nat := 0;
    while name in dir
      invariant counter <= 100 && name == RotatedName(stem, ts, counter)
      invariant forall c: nat | c < counter :: RotatedName(stem, ts, c) in dir
      decreases 101 - counter
    {
      counter := counter + 1;
      name := RotatedName(stem, ts, counter);
      if counter > 100 {
        return NanosName(stem, ts, nanos);
      }
    }
  }

  // ----- Cleanup -----

  method ReadDir(names: set<FileName>) returns (listing: seq<FileName>)
    ensures Lists(listing, names)
  {
    listing := [];
    var rest := names;
    while rest != {}
      invariant rest <= names && Distinct(listing)
      invariant forall n :: n in listing <==> n in names && n !in rest
      decreases |rest|
    {
      var n :| n in rest;
      rest := rest - {n};
      listing := listing + [n];
    }
  }

  /** The files taken for rotated ones, each with its timestamp. */
  function Collect(listing: seq<FileName>, stem: string): seq<Keyed<FileName>> {
    if listing == [] then []
    else
      var ts := ReadTimestamp(stem, listing[0]);
      (if ts.Some? then [(ts.value, listing[0])] else []) + Collect(listing[1..], stem)
  }

  function Surplus(count: nat, maxFiles: nat): nat {
    var keep := if maxFiles == 0 then 0 else maxFiles - 1;
    if count < keep then 0 else count - keep
  }

  /** The oldest files beyond the limit, the listing's order deciding between equal timestamps. */
  function Victims(listing: seq<FileName>, stem: string, maxFiles: nat): seq<Keyed<FileName>> {
    var sorted := SortByKey(Collect(listing, stem));
    SortByKeyLength(Collect(listing, stem));
    sorted[..Surplus(|sorted|, maxFiles)]
  }

  lemma {:induction false} SortByKeyLength<X>(s: seq<Keyed<X>>)
    ensures |SortByKey(s)| == |s|
  {
    if s != [] {
      SortByKeyLength(s[1..]);
      InsertLength(s[0], SortByKey(s[1..]));
    }
  }

  lemma {:induction false} InsertLength<X>(x: Keyed<X>, s: seq<Keyed<X>>)
    ensures |Insert(x, s)| == |s| + 1
  {
    if s != [] && x.0 > s[0].0 {
      InsertLength(x, s[1..]);
    }
  }

  function Remove(dir: Directory, victims: seq<Keyed<FileName>>): Directory {
    if victims == [] then dir else Remove(dir, victims[..|victims| - 1]) - {victims[|victims| - 1].1}
  }

  /** The files taken for rotated ones, found by a pass over the listing. */
  method FindRotated(entries: seq<FileName>, stem: string) returns (rotated: seq<Keyed<FileName>>)
    ensures rotated == Collect(entries, stem)
  {
    rotated := [];
    EmptySides(Collect(entries, stem));
    assert entries[0..] == entries;
    for i := 0 to |entries|
      invariant rotated + Collect(entries[i..], stem) == Collect(entries, stem)
    {
      assert entries[i..][1..] == entries[i + 1..];
      var ts := ReadTimestamp(stem, entries[i]);
      if ts.Some? {
        Assoc(rotated, [(ts.value, entries[i])], Collect(entries[i + 1..], stem));
        rotated := rotated + [(ts.value, entries[i])];
      } else {
        EmptySides(Collect(entries[i + 1..], stem));
      }
    }
    EmptySides(rotated);
  }

  /** For some order of the listing, exactly the oldest files beyond the limit are gone. */
  ghost predicate Cleaned(dir: Directory, stem: string, maxFiles: nat, cleaned: Directory, deleted: nat) {
    exists listing: seq<FileName> ::
      && Lists(listing, dir.Keys)
      && cleaned == Remove(dir, Victims(listing, stem, maxFiles))
      && deleted == |Victims(listing, stem, maxFiles)|
  }

  /** Every file that is left is unchanged, and every file whose name does not begin with the stem and a dot is left. */
  ghost predicate OnlyOwnDeleted(dir: Directory, stem: string, cleaned: Directory) {
    && (forall n | n in cleaned :: n in dir && cleaned[n] == dir[n])
    && (forall n | n in dir && !(stem + "." <= n) :: n in cleaned)
  }

  lemma {:induction false} CollectElements(listing: seq<FileName>, stem: string, f: Keyed<FileName>)
    ensures f in Collect(listing, stem) <==> f.1 in listing && ReadTimestamp(stem, f.1) == Some(f.0)
  {
    if listing != [] {
      CollectElements(listing[1..], stem, f);
      Rejoin(listing);
    }
  }

  lemma {:induction false} RemoveOthers(dir: Directory, victims: seq<Keyed<FileName>>, stem: string)
    requires forall i | 0 <= i < |victims| :: stem + "." <= victims[i].1
    ensures OnlyOwnDeleted(dir, stem, Remove(dir, victims))
  {
    if victims != [] {
      RemoveOthers(dir, victims[..|victims| - 1], stem);
    }
  }

  lemma VictimsOwn(listing: seq<FileName>, stem: string, maxFiles: nat)
    ensures forall i | 0 <= i < |Victims(listing, stem, maxFiles)| ::
              stem + "." <= Victims(listing, stem, maxFiles)[i].1
  {
    var collected, victims := Collect(listing, stem), Victims(listing, stem, maxFiles);
    forall i | 0 <= i < |victims|
      ensures stem + "." <= victims[i].1
    {
      assert victims[i] in SortByKey(collected);
      SortElements(collected, victims[i]);
      CollectElements(listing, stem, victims[i]);
      OwnNamesOnly(stem, victims[i].1);
    }
  }

  lemma CleanedOwn(dir: Directory, stem: string, maxFiles: nat, cleaned: Directory, deleted: nat)
    requires Cleaned(dir, stem, maxFiles, cleaned, deleted)
    ensures OnlyOwnDeleted(dir, stem, cleaned)
  {
    var listing: seq<FileName> :| Lists(listing, dir.Keys)
      && cleaned == Remove(dir, Victims(listing, stem, maxFiles)) && deleted == |Victims(listing, stem, maxFiles)|;
    VictimsOwn(listing, stem, maxFiles);
    RemoveOthers(dir, Victims(listing, stem, maxFiles), stem);
  }

  /** Listing the directory of a path without a directory part fails, and with it the cleanup. */
  method CleanupOldRotatedFiles(dir: Directory, parent: string, name: FileName, maxFiles: nat)
    returns (cleaned: Directory, deleted: Option<nat>)
    ensures parent == "" ==> cleaned == dir && deleted == None
    ensures parent != "" ==> deleted.Some? && Cleaned(dir, FileStem(name), maxFiles, cleaned, deleted.value)
    ensures OnlyOwnDeleted(dir, FileStem(name), cleaned)
  {
    if parent == "" {
      return dir, None;
    }
    var entries := ReadDir(dir.Keys);
    var rotated := FindRotated(entries, FileStem(name));
    SortByKeyLength(rotated);
    var sorted := SortByKey(rotated);
    var keep := if maxFiles == 0 then 0 else maxFiles - 1;
    var toDelete := if |sorted| < keep then 0 else |sorted| - keep;
    var count;
    cleaned, count := DeleteFirst(dir, sorted, toDelete);
    deleted := Some(count);
    CleanedOwn(dir, FileStem(name), maxFiles, cleaned, count);
  }

  method DeleteFirst(dir: Directory, sorted: seq<Keyed<FileName>>, n: nat) returns (cleaned: Directory, deleted: nat)
    requires n <= |sorted|
    ensures cleaned == Remove(dir, sorted[..n]) && deleted == n
  {
    cleaned, deleted := dir, 0;
    for i := 0 to n
      invariant cleaned == Remove(dir, sorted[..i]) && deleted == i
    {
      assert sorted[..i + 1][..i] == sorted[..i];
      cleaned := cleaned - {sorted[i].1};
      deleted := deleted + 1;
    }
  }

  function Renamed(dir: Directory, name: FileName, final: FileName): Directory
    requires name in dir
  {
    (dir - {name})[final := dir[name]]
  }

  /** The directory after the cleanup and the count of the rotation: one more than the deletions, or nothing when
      the cleanup failed. */
  ghost predicate CleanupRan(renamed: Directory, parent: string, stem: string, maxFiles: nat, after: Directory,
                             count: Option<nat>) {
    if parent == "" then after == renamed && count == None
    else count.Some? && count.value >= 1 && Cleaned(renamed, stem, maxFiles, after, count.value - 1)
  }

  /** The outcome of a rotation: the current file has a permitted name, and the cleanup ran or failed. */
  ghost predicate RotatedTo(dir: Directory, parent: string, name: FileName, maxFiles: nat, ts: nat, nanos: nat,
                            after: Directory, count: Option<nat>)
    requires name in dir
  {
    exists final: FileName ::
      && Permitted(dir, FileStem(name), ts, nanos, final)
      && CleanupRan(Renamed(dir, name, final), parent, FileStem(name), maxFiles, after, count)
  }

  method RotateFile(dir: Directory, parent: string, name: FileName, maxFiles: nat, ts: nat, nanos: nat)
    returns (after: Directory, count: Option<nat>)
    requires name in dir
    ensures RotatedTo(dir, parent, name, maxFiles, ts, nanos, after, count)
    ensures forall n | n in dir && n != name && !(FileStem(name) + "." <= n) :: n in after && after[n] == dir[n]
  {
    var final := PickName(dir, FileStem(name), ts, nanos);
    var deleted;
    after, deleted := CleanupOldRotatedFiles(Renamed(dir, name, final), parent, name, maxFiles);
    count := if deleted.None? then None else Some(1 + deleted.value);
    assert Permitted(dir, FileStem(name), ts, nanos, final)
        && CleanupRan(Renamed(dir, name, final), parent, FileStem(name), maxFiles, after, count);
  }

  // ----- The files of one sender in a fresh directory -----

  /** Records as the writer lays them out, each with its line feed. */
  function Lines(records: seq<Bytes>): Bytes {
    if records == [] then [] else records[0] + [LF] + Lines(records[1..])
  }

  lemma {:induction false} LinesSnoc(records: seq<Bytes>, r: Bytes)
    ensures Lines(records + [r]) == Lines(records) + (r + [LF])
  {
    if records == [] {
      EmptySides([r]);
      EmptySides(r + [LF]);
      assert [r][1..] == [];
    } else {
      LinesSnoc(records[1..], r);
      HeadTail(records, [r]);
      Assoc(records[0] + [LF], Lines(records[1..]), r + [LF]);
    }
  }

  /** A rotated file: its timestamp and its records. */
  type Segment = Keyed<seq<Bytes>>

  /** Strictly increasing timestamps of 64 bits. */
  predicate Increasing(segments: seq<Segment>) {
    && (forall i, j | 0 <= i < j < |segments| :: segments[i].0 < segments[j].0)
    && forall i | 0 <= i < |segments| :: segments[i].0 <= U64_MAX
  }

  predicate Before(segments: seq<Segment>, ts: nat) { forall i | 0 <= i < |segments| :: segments[i].0 < ts }

  function Records(segments: seq<Segment>): seq<Bytes> {
    if segments == [] then [] else segments[0].1 + Records(segments[1..])
  }

  lemma {:induction false} RecordsConcat(a: seq<Segment>, b: seq<Segment>)
    ensures Records(a + b) == Records(a) + Records(b)
  {
    if a == [] {
      EmptySides(b);
      EmptySides(Records(b));
    } else {
      RecordsConcat(a[1..], b);
      HeadTail(a, b);
      Assoc(a[0].1, Records(a[1..]), Records(b));
    }
  }

  function Files(stem: string, segments: seq<Segment>): Directory {
    if segments == [] then map[]
    else Files(stem, segments[1..])[RotatedName(stem, segments[0].0, 0) := Lines(segments[0].1)]
  }

  function NameList(stem: string, segments: seq<Segment>): seq<Keyed<FileName>> {
    if segments == [] then []
    else [(segments[0].0, RotatedName(stem, segments[0].0, 0))] + NameList(stem, segments[1..])
  }

  predicate HasStamp(segments: seq<Segment>, ts: nat) { exists i :: 0 <= i < |segments| && segments[i].0 == ts }

  lemma HasStampTail(segments: seq<Segment>, ts: nat)
    requires segments != []
    ensures HasStamp(segments, ts) <==> ts == segments[0].0 || HasStamp(segments[1..], ts)
  {
    if HasStamp(segments, ts) && ts != segments[0].0 {
      var i :| 0 <= i < |segments| && segments[i].0 == ts;
      assert segments[1..][i - 1].0 == ts;
    }
    if HasStamp(segments[1..], ts) {
      var i :| 0 <= i < |segments[1..]| && segments[1..][i].0 == ts;
      assert segments[i + 1].0 == ts;
    }
  }

  lemma {:induction false} FileNames(stem: string, segments: seq<Segment>, ts: nat)
    requires Increasing(segments) && ts <= U64_MAX
    ensures RotatedName(stem, ts, 0) in Files(stem, segments) <==> HasStamp(segments, ts)
  {
    if segments != [] {
      FileNames(stem, segments[1..], ts);
      HasStampTail(segments, ts);
      TimestampRecovered(stem, ts, 0);
      TimestampRecovered(stem, segments[0].0, 0);
    }
  }

  lemma {:induction false} EveryFileRotated(stem: string, segments: seq<Segment>, n: FileName)
    requires Increasing(segments) && n in Files(stem, segments)
    ensures var ts := ReadTimestamp(stem, n);
            ts.Some? && ts.value <= U64_MAX && n == RotatedName(stem, ts.value, 0) && HasStamp(segments, ts.value)
  {
    TimestampRecovered(stem, segments[0].0, 0);
    if n == RotatedName(stem, segments[0].0, 0) {
      assert HasStamp(segments, segments[0].0);
    } else {
      EveryFileRotated(stem, segments[1..], n);
      HasStampTail(segments, ReadTimestamp(stem, n).value);
    }
  }

  // ----- Cleanup deletes the oldest -----

  predicate AllRotated(listing: seq<FileName>, stem: string) {
    forall i | 0 <= i < |listing| ::
      ReadTimestamp(stem, listing[i]).Some?
      && listing[i] == RotatedName(stem, ReadTimestamp(stem, listing[i]).value, 0)
  }

  lemma RotatedTail(listing: seq<FileName>, stem: string)
    requires listing != [] && Distinct(listing) && AllRotated(listing, stem)
    ensures Distinct(listing[1..]) && AllRotated(listing[1..], stem) && listing[0] !in listing[1..]
    ensures forall n :: n in listing <==> n == listing[0] || n in listing[1..]
  {
    assert forall i | 0 <= i < |listing[1..]| :: listing[1..][i] == listing[i + 1];
    Rejoin(listing);
  }

  lemma WithKeyFirst<X>(x: Keyed<X>, s: seq<Keyed<X>>, k: nat)
    ensures WithKey([x] + s, k) == (if x.0 == k then [x] else []) + WithKey(s, k)
  {
    SplitAt([x], s);
  }

  lemma {:induction false} CollectedKey(listing: seq<FileName>, stem: string, k: nat)
    requires Distinct(listing) && AllRotated(listing, stem)
    ensures var n := RotatedName(stem, k, 0);
            WithKey(Collect(listing, stem), k)
              == if n in listing && ReadTimestamp(stem, n) == Some(k) then [(k, n)] else []
  {
    if listing != [] {
      RotatedTail(listing, stem);
      CollectedKey(listing[1..], stem, k);
      var ts, tail := ReadTimestamp(stem, listing[0]).value, Collect(listing[1..], stem);
      WithKeyFirst((ts, listing[0]), tail, k);
      EmptySides(WithKey(tail, k));
      EmptySides([(ts, listing[0])]);
    }
  }

  lemma {:induction false} NameListKey(stem: string, segments: seq<Segment>, k: nat)
    requires Increasing(segments)
    ensures WithKey(NameList(stem, segments), k)
         == if HasStamp(segments, k) then [(k, RotatedName(stem, k, 0))] else []
  {
    if segments != [] {
      NameListKey(stem, segments[1..], k);
      HasStampTail(segments, k);
      SplitAt([(segments[0].0, RotatedName(stem, segments[0].0, 0))], NameList(stem, segments[1..]));
      assert forall i | 0 <= i < |segments[1..]| :: segments[0].0 < segments[1..][i].0;
    }
  }

  lemma {:induction false} NameListAscending(stem: string, segments: seq<Segment>)
    requires Increasing(segments)
    ensures |NameList(stem, segments)| == |segments| && Ascending(NameList(stem, segments))
    ensures forall i | 0 <= i < |segments| ::
              NameList(stem, segments)[i] == (segments[i].0, RotatedName(stem, segments[i].0, 0))
  {
    if segments != [] {
      NameListAscending(stem, segments[1..]);
      assert forall i | 0 < i < |segments| :: segments[i] == segments[1..][i - 1];
    }
  }

  /** In whatever order the directory is listed, the files sort by the time they were rotated. */
  lemma SortedByTime(listing: seq<FileName>, stem: string, segments: seq<Segment>)
    requires Increasing(segments) && Lists(listing, Files(stem, segments).Keys)
    ensures SortByKey(Collect(listing, stem)) == NameList(stem, segments)
  {
    forall i | 0 <= i < |listing|
      ensures ReadTimestamp(stem, listing[i]).Some?
      ensures listing[i] == RotatedName(stem, ReadTimestamp(stem, listing[i]).value, 0)
    {
      assert listing[i] in listing;
      EveryFileRotated(stem, segments, listing[i]);
    }
    SortByKeyStable(Collect(listing, stem));
    NameListAscending(stem, segments);
    forall k
      ensures WithKey(SortByKey(Collect(listing, stem)), k) == WithKey(NameList(stem, segments), k)
    {
      SameEntries(listing, stem, segments, k);
    }
    StableSortUnique(SortByKey(Collect(listing, stem)), NameList(stem, segments));
  }

  lemma SameEntries(listing: seq<FileName>, stem: string, segments: seq<Segment>, k: nat)
    requires Increasing(segments) && Lists(listing, Files(stem, segments).Keys) && AllRotated(listing, stem)
    ensures WithKey(Collect(listing, stem), k) == WithKey(NameList(stem, segments), k)
  {
    var n := RotatedName(stem, k, 0);
    CollectedKey(listing, stem, k);
    NameListKey(stem, segments, k);
    if n in listing {
      EveryFileRotated(stem, segments, n);
    }
    if HasStamp(segments, k) {
      TimestampRecovered(stem, k, 0);
      FileNames(stem, segments, k);
    }
  }

  lemma FirstFileGone(stem: string, segments: seq<Segment>)
    requires segments != [] && Increasing(segments)
    ensures Files(stem, segments) - {RotatedName(stem, segments[0].0, 0)} == Files(stem, segments[1..])
  {
    FileNames(stem, segments[1..], segments[0].0);
    assert forall i | 0 <= i < |segments[1..]| :: segments[0].0 < segments[1..][i].0;
  }

  lemma {:induction false} OldestRemoved(stem: string, segments: seq<Segment>, n: nat)
    requires n <= |segments| && Increasing(segments)
    ensures |NameList(stem, segments)| == |segments|
    ensures Remove(Files(stem, segments), NameList(stem, segments)[..n]) == Files(stem, segments[n..])
    decreases n
  {
    NameListAscending(stem, segments);
    if n == 0 {
      assert segments[0..] == segments;
    } else {
      OldestRemoved(stem, segments, n - 1);
      var names := NameList(stem, segments)[..n];
      assert names[..n - 1] == NameList(stem, segments)[..n - 1];
      FirstFileGone(stem, segments[n - 1..]);
      assert segments[n - 1..][1..] == segments[n..];
    }
  }

  lemma UpdatesCommute(dir: Directory, a: FileName, x: Bytes, b: FileName, y: Bytes)
    requires a != b
    ensures dir[a := x][b := y] == dir[b := y][a := x]
  {
  }

  lemma {:induction false} FileAdded(stem: string, segments: seq<Segment>, last: Segment)
    requires Increasing(segments + [last])
    ensures Files(stem, segments + [last]) == Files(stem, segments)[RotatedName(stem, last.0, 0) := Lines(last.1)]
  {
    var all := segments + [last];
    if segments == [] {
      assert all[1..] == [];
    } else {
      HeadTail(segments, [last]);
      FileAdded(stem, segments[1..], last);
      assert all[0].0 < all[|segments|].0;
      TimestampRecovered(stem, segments[0].0, 0);
      TimestampRecovered(stem, last.0, 0);
      UpdatesCommute(Files(stem, segments[1..]), RotatedName(stem, segments[0].0, 0), Lines(segments[0].1),
        RotatedName(stem, last.0, 0), Lines(last.1));
    }
  }

  lemma RenamedJoins(dir: Directory, name: FileName, segments: seq<Segment>, current: seq<Bytes>, ts: nat)
    requires Increasing(segments) && Before(segments, ts) && ts <= U64_MAX
    requires dir == Files(FileStem(name), segments)[name := Lines(current)]
    ensures RotatedName(FileStem(name), ts, 0) !in dir
    ensures Renamed(dir, name, RotatedName(FileStem(name), ts, 0))
         == Files(FileStem(name), segments + [(ts, current)])
  {
    CurrentNotFile(name, segments);
    FileNames(FileStem(name), segments, ts);
    NamesDistinct(name, ts, ts);
    FileAdded(FileStem(name), segments, (ts, current));
  }

  lemma CleanKeepsNewest(stem: string, all: seq<Segment>, maxFiles: nat, after: Directory, deleted: nat)
    requires Increasing(all) && Cleaned(Files(stem, all), stem, maxFiles, after, deleted)
    ensures deleted == Surplus(|all|, maxFiles) && after == Files(stem, all[deleted..])
  {
    var dir := Files(stem, all);
    var listing: seq<FileName> :| Lists(listing, dir.Keys)
      && after == Remove(dir, Victims(listing, stem, maxFiles)) && deleted == |Victims(listing, stem, maxFiles)|;
    SortedByTime(listing, stem, all);
    OldestRemoved(stem, all, Surplus(|all|, maxFiles));
  }

  lemma IncreasingSnoc(segments: seq<Segment>, last: Segment)
    requires Increasing(segments) && Before(segments, last.0) && last.0 <= U64_MAX
    ensures Increasing(segments + [last])
  {
  }

  /** One rotation: the current file joins the rotated ones under the plain name, and the oldest beyond the
      limit go, unless the directory cannot be listed. */
  lemma RotationKeepsNewest(dir: Directory, parent: string, name: FileName, segments: seq<Segment>,
                            current: seq<Bytes>, ts: nat, nanos: nat, maxFiles: nat, after: Directory,
                            count: Option<nat>)
    requires Increasing(segments) && Before(segments, ts) && ts <= U64_MAX && maxFiles >= 1
    requires dir == Files(FileStem(name), segments)[name := Lines(current)]
    requires RotatedTo(dir, parent, name, maxFiles, ts, nanos, after, count)
    ensures var all := segments + [(ts, current)];
            var gone := if parent == "" || |all| < maxFiles then 0 else |all| - (maxFiles - 1);
            && Increasing(all) && after == Files(FileStem(name), all[gone..])
            && count == (if parent == "" then None else Some(1 + gone))
  {
    var all := segments + [(ts, current)];
    IncreasingSnoc(segments, (ts, current));
    RenamedJoins(dir, name, segments, current, ts);
    PlainRename(dir, parent, name, maxFiles, ts, nanos, after, count);
    RanKeepsNewest(parent, FileStem(name), all, maxFiles, after, count,
      if parent == "" || |all| < maxFiles then 0 else |all| - (maxFiles - 1));
  }

  lemma PlainRename(dir: Directory, parent: string, name: FileName, maxFiles: nat, ts: nat, nanos: nat,
                    after: Directory, count: Option<nat>)
    requires name in dir && RotatedName(FileStem(name), ts, 0) !in dir
    requires RotatedTo(dir, parent, name, maxFiles, ts, nanos, after, count)
    ensures CleanupRan(Renamed(dir, name, RotatedName(FileStem(name), ts, 0)), parent, FileStem(name), maxFiles,
              after, count)
  {
    var final: FileName :| Permitted(dir, FileStem(name), ts, nanos, final)
      && CleanupRan(Renamed(dir, name, final), parent, FileStem(name), maxFiles, after, count);
    PlainName(dir, FileStem(name), ts, nanos, final);
  }

  lemma RanKeepsNewest(parent: string, stem: string, all: seq<Segment>, maxFiles: nat, after: Directory,
                       count: Option<nat>, gone: nat)
    requires Increasing(all) && CleanupRan(Files(stem, all), parent, stem, maxFiles, after, count) && maxFiles >= 1
    requires gone == if parent == "" || |all| < maxFiles then 0 else |all| - (maxFiles - 1)
    ensures after == Files(stem, all[gone..]) && count == (if parent == "" then None else Some(1 + gone))
  {
    if parent == "" {
      NothingGone(all);
    } else {
      SurplusMeans(|all|, maxFiles);
      CleanKeepsNewest(stem, all, maxFiles, after, count.value - 1);
    }
  }

  lemma SurplusMeans(count: nat, maxFiles: nat)
    requires maxFiles >= 1
    ensures Surplus(count, maxFiles) == if count < maxFiles then 0 else count - (maxFiles - 1)
  {
  }

  lemma PlainName(dir: Directory, stem: string, ts: nat, nanos: nat, final: FileName)
    requires Permitted(dir, stem, ts, nanos, final) && RotatedName(stem, ts, 0) !in dir
    ensures final == RotatedName(stem, ts, 0)
  {
  }

  lemma CurrentNotFile(name: FileName, segments: seq<Segment>)
    requires Increasing(segments)
    ensures name !in Files(FileStem(name), segments)
  {
    if name in Files(FileStem(name), segments) {
      EveryFileRotated(FileStem(name), segments, name);
      CurrentNotRotated(name);
    }
  }

  // ----- When rotations fire -----

  lemma TakeOneMore<T>(s: seq<T>, i: nat)
    requires i < |s|
    ensures s[i..][0] == s[i] && s[i..][1..] == s[i + 1..] && s[..i] + [s[i]] == s[..i + 1]
  {
  }

  /** What one iteration reads from the clocks: the monotonic time, and the wall-clock seconds a rotation before
      the write and one after it would be stamped with. */
  datatype Tick = Tick(now: nat, timeStamp: nat, sizeStamp: nat, nanos: nat)

  /** The interval has passed since the current file was opened. */
  predicate Due(c: RotationConfig, openedAt: int, tick: Tick) {
    c.intervalSecs.Some? && tick.now - openedAt >= c.intervalSecs.value
  }

  /** The bytes of the current file once the message is written. */
  function SizeAfter(c: RotationConfig, openedAt: int, size: nat, msg: Bytes, tick: Tick): nat {
    (if Due(c, openedAt, tick) then 0 else size) + |msg| + 1
  }

  predicate Full(c: RotationConfig, size: nat) { c.Threshold().Some? && size >= c.Threshold().value }

  predicate Fills(c: RotationConfig, openedAt: int, size: nat, msg: Bytes, tick: Tick) {
    Full(c, SizeAfter(c, openedAt, size, msg, tick))
  }

  /** The stamps of the rotations that one message sets off; without a directory part the first one ends the
      sender. */
  function Fired(c: RotationConfig, parent: string, openedAt: int, size: nat, msg: Bytes, tick: Tick): seq<nat> {
    var due, fills := Due(c, openedAt, tick), Fills(c, openedAt, size, msg, tick);
    (if due then [tick.timeStamp] else []) + (if fills && (!due || parent != "") then [tick.sizeStamp] else [])
  }

  /** When rotations fire, in seconds and bytes: before the write once the interval has passed, and after it once the
      file, a new one in that case, holds the configured number of mebibytes. */
  lemma TriggersMean(c: RotationConfig, openedAt: int, size: nat, msg: Bytes, tick: Tick, parent: string)
    requires parent != "" && (c.sizeMb.Some? ==> c.sizeMb.value * 1_048_576 <= U64_MAX)
    ensures var due := c.intervalSecs.Some? && tick.now - openedAt >= c.intervalSecs.value;
            var full := c.sizeMb.Some?
                        && (if due then 0 else size) + |msg| + 1 >= c.sizeMb.value * 1_048_576;
            Fired(c, parent, openedAt, size, msg, tick)
              == (if due then [tick.timeStamp] else []) + (if full then [tick.sizeStamp] else [])
  {
  }

  function NextOpened(c: RotationConfig, openedAt: int, size: nat, msg: Bytes, tick: Tick): int {
    if Due(c, openedAt, tick) || Fills(c, openedAt, size, msg, tick) then tick.now else openedAt
  }

  function NextSize(c: RotationConfig, openedAt: int, size: nat, msg: Bytes, tick: Tick): nat {
    if Fills(c, openedAt, size, msg, tick) then 0 else SizeAfter(c, openedAt, size, msg, tick)
  }

  /** The stamps of all rotations of a run, in order. */
  function Stamps(c: RotationConfig, parent: string, openedAt: int, size: nat, msgs: seq<Bytes>, ticks: seq<Tick>)
    : seq<nat>
    requires |msgs| == |ticks|
    decreases |msgs|
  {
    if msgs == [] then []
    else
      var f := Fired(c, parent, openedAt, size, msgs[0], ticks[0]);
      if parent == "" && f != [] then f
      else
        f + Stamps(c, parent, NextOpened(c, openedAt, size, msgs[0], ticks[0]),
              NextSize(c, openedAt, size, msgs[0], ticks[0]), msgs[1..], ticks[1..])
  }

  /** How many messages of a run are written: all of them, or those up to the rotation that ends the sender. */
  function Written(c: RotationConfig, parent: string, openedAt: int, size: nat, msgs: seq<Bytes>, ticks: seq<Tick>)
    : nat
    requires |msgs| == |ticks|
    decreases |msgs|
  {
    if msgs == [] || (parent == "" && Due(c, openedAt, ticks[0])) then 0
    else if parent == "" && Fills(c, openedAt, size, msgs[0], ticks[0]) then 1
    else
      1 + Written(c, parent, NextOpened(c, openedAt, size, msgs[0], ticks[0]),
            NextSize(c, openedAt, size, msgs[0], ticks[0]), msgs[1..], ticks[1..])
  }

  /** The stamps of the rotations after the first message. */
  function Later(c: RotationConfig, parent: string, openedAt: int, size: nat, msgs: seq<Bytes>, ticks: seq<Tick>)
    : seq<nat>
    requires |msgs| == |ticks| > 0
  {
    if parent == "" && Fired(c, parent, openedAt, size, msgs[0], ticks[0]) != [] then []
    else
      Stamps(c, parent, NextOpened(c, openedAt, size, msgs[0], ticks[0]),
        NextSize(c, openedAt, size, msgs[0], ticks[0]), msgs[1..], ticks[1..])
  }

  /** A run is its first message and the rest, unless the first message ends it. */
  lemma RunStep(c: RotationConfig, parent: string, openedAt: int, size: nat, msgs: seq<Bytes>, ticks: seq<Tick>)
    requires |msgs| == |ticks| > 0
    ensures var f := Fired(c, parent, openedAt, size, msgs[0], ticks[0]);
            && Stamps(c, parent, openedAt, size, msgs, ticks) == f + Later(c, parent, openedAt, size, msgs, ticks)
            && Written(c, parent, openedAt, size, msgs, ticks)
                 == if parent == "" && f != [] then if Due(c, openedAt, ticks[0]) then 0 else 1
                    else 1 + Written(c, parent, NextOpened(c, openedAt, size, msgs[0], ticks[0]),
                               NextSize(c, openedAt, size, msgs[0], ticks[0]), msgs[1..], ticks[1..])
  {
    EmptySides(Fired(c, parent, openedAt, size, msgs[0], ticks[0]));
  }

  /** With a directory part, or without a rotation, every message is written. */
  lemma {:induction false} AllWritten(c: RotationConfig, parent: string, openedAt: int, size: nat, msgs: seq<Bytes>,
                                      ticks: seq<Tick>)
    requires |msgs| == |ticks|
    requires parent != "" || Stamps(c, parent, openedAt, size, msgs, ticks) == []
    ensures Written(c, parent, openedAt, size, msgs, ticks) == |msgs|
    decreases |msgs|
  {
    if msgs != [] {
      AllWritten(c, parent, NextOpened(c, openedAt, size, msgs[0], ticks[0]),
        NextSize(c, openedAt, size, msgs[0], ticks[0]), msgs[1..], ticks[1..]);
    }
  }

  /** A file named without a directory part: the first rotation ends the sender before the message is written. */
  lemma BarePathStops(msg: Bytes, tick: Tick)
    requires tick.now == 1
    ensures var c := RotationConfig(None, Some(1), None);
            && c.Validates()
            && Stamps(c, "", 0, 0, [msg], [tick]) == [tick.timeStamp] && Written(c, "", 0, 0, [msg], [tick]) == 0
            && Written(c, "logs", 0, 0, [msg], [tick]) == 1
  {
    var c := RotationConfig(None, Some(1), None);
    AllWritten(c, "logs", 0, 0, [msg], [tick]);
  }

  /** Strictly increasing stamps of 64 bits, all later than the rotated files. */
  ghost predicate Fresh(segments: seq<Segment>, stamps: seq<nat>) {
    && (forall i, j | 0 <= i < j < |stamps| :: stamps[i] < stamps[j])
    && forall i | 0 <= i < |stamps| :: stamps[i] <= U64_MAX && Before(segments, stamps[i])
  }

  lemma FreshParts(segments: seq<Segment>, a: seq<nat>, b: seq<nat>)
    requires Fresh(segments, a + b)
    ensures Fresh(segments, a) && Fresh(segments, b)
    ensures forall i, j | 0 <= i < |a| && 0 <= j < |b| :: a[i] < b[j]
  {
    var all := a + b;
    assert forall i | 0 <= i < |a| :: a[i] == all[i];
    assert forall j | 0 <= j < |b| :: b[j] == all[|a| + j];
  }

  /** The first stamps are those of the rotations that the next message sets off. */
  lemma FiredFresh(c: RotationConfig, parent: string, openedAt: int, size: nat, msg: Bytes, tick: Tick,
                   segments: seq<Segment>)
    requires Fresh(segments, Fired(c, parent, openedAt, size, msg, tick))
    ensures Due(c, openedAt, tick) ==> Before(segments, tick.timeStamp) && tick.timeStamp <= U64_MAX
    ensures Fills(c, openedAt, size, msg, tick) && (Due(c, openedAt, tick) ==> parent != "") ==>
              && tick.sizeStamp <= U64_MAX
              && if Due(c, openedAt, tick) then tick.timeStamp < tick.sizeStamp else Before(segments, tick.sizeStamp)
  {
    var f := Fired(c, parent, openedAt, size, msg, tick);
    assert Due(c, openedAt, tick) ==> f[0] == tick.timeStamp;
    assert Fills(c, openedAt, size, msg, tick) && (Due(c, openedAt, tick) ==> parent != "") ==>
        f[|f| - 1] == tick.sizeStamp;
  }

  /** Stamps later than a rotation are later than all files after it. */
  lemma FreshAfter(before: seq<Segment>, after: seq<Segment>, a: seq<nat>, b: seq<nat>)
    requires Fresh(before, a + b)
    requires if a == [] then after == before else Before(after, a[|a| - 1] + 1)
    ensures Fresh(after, b)
  {
    FreshParts(before, a, b);
    if a != [] {
      forall j | 0 <= j < |b|
        ensures Before(after, b[j])
      {
        assert a[|a| - 1] < b[j];
      }
    }
  }

  // ----- The state of a sender -----

  /** The directory and the bytes in the current file; and the records written, split into those deleted, those in
      rotated files, and those in the current file. */
  datatype View = View(
    dir: Directory,
    size: nat,
    failed: bool,
    lost: seq<Bytes>,
    rotated: seq<Segment>,
    current: seq<Bytes>)

  /** The survivors, oldest first, follow the lost records: they are a suffix of what was written. */
  function HistoryOf(v: View): seq<Bytes> { v.lost + (Records(v.rotated) + v.current) }

  /** How many files may exist, the current one included: ten unless configured. */
  function FileLimit(c: RotationConfig): nat { if c.maxFiles.Some? then c.maxFiles.value else 10 }

  /** The files hold what the split says, in at most the permitted number, and nothing is lost before that number is
      reached; a sender that failed has renamed its current file and opened no other. */
  predicate Sound(c: RotationConfig, parent: string, name: FileName, v: View) {
    && c.Validates() && Increasing(v.rotated)
    && (v.rotated != [] ==> c.Enabled())
    && (parent == "" ==> v.lost == [] && |v.rotated| == (if v.failed then 1 else 0))
    && (v.failed ==> parent == "" && v.current == [])
    && (if v.failed then v.dir == Files(FileStem(name), v.rotated)
        else
          && v.dir == Files(FileStem(name), v.rotated)[name := Lines(v.current)]
          && v.size == |Lines(v.current)|
          && (c.Enabled() ==> |v.rotated| + 1 <= FileLimit(c))
          && (v.lost != [] ==> |v.rotated| + 1 == FileLimit(c)))
  }

  /** How many of `n` rotated files a rotation deletes; it fails before deleting any without a directory part. */
  function Gone(c: RotationConfig, parent: string, n: nat): (gone: nat)
    requires c.MaxFiles() >= 1
    ensures gone <= n
  {
    if parent == "" || n < c.MaxFiles() then 0 else n - (c.MaxFiles() - 1)
  }

  /** The state after a rotation that left the directory `after`. */
  function RotatedView(c: RotationConfig, parent: string, name: FileName, v: View, ts: nat, after: Directory): View
    requires c.MaxFiles() >= 1
  {
    var all := v.rotated + [(ts, v.current)];
    var gone := Gone(c, parent, |all|);
    View(if parent == "" then after else after[name := []], if parent == "" then v.size else 0, parent == "",
      v.lost + Records(all[..gone]), all[gone..], [])
  }

  lemma OpenedSound(c: RotationConfig, parent: string, name: FileName, lost: seq<Bytes>, kept: seq<Segment>)
    requires parent != "" && c.Validates() && c.Enabled() && Increasing(kept) && |kept| + 1 <= FileLimit(c)
    requires lost != [] ==> |kept| + 1 == FileLimit(c)
    ensures Sound(c, parent, name, View(Files(FileStem(name), kept)[name := []], 0, false, lost, kept, []))
  {
  }

  lemma FailedSound(c: RotationConfig, name: FileName, size: nat, kept: seq<Segment>)
    requires c.Validates() && c.Enabled() && Increasing(kept) && |kept| == 1
    ensures Sound(c, "", name, View(Files(FileStem(name), kept), size, true, [], kept, []))
  {
  }

  /** Nothing is deleted before the limit is reached, and then one file for each new one. */
  lemma LimitReached(c: RotationConfig, lost: seq<Bytes>, all: seq<Segment>, gone: nat)
    requires 1 <= |all| <= FileLimit(c) && (lost != [] ==> |all| == FileLimit(c))
    requires gone == if |all| < FileLimit(c) then 0 else |all| - (FileLimit(c) - 1)
    ensures |all[gone..]| + 1 <= FileLimit(c)
    ensures lost + Records(all[..gone]) != [] ==> |all[gone..]| + 1 == FileLimit(c)
  {
    if gone == 0 {
      NothingGone(all);
      EmptySides(lost);
    }
  }

  lemma OpenRotationSound(c: RotationConfig, parent: string, name: FileName, v: View, all: seq<Segment>, gone: nat,
                          after: Directory)
    requires parent != "" && c.Validates() && c.Enabled() && Increasing(all) && 1 <= |all| <= FileLimit(c)
    requires v.lost != [] ==> |all| == FileLimit(c)
    requires gone == if |all| < FileLimit(c) then 0 else |all| - (FileLimit(c) - 1)
    requires after == Files(FileStem(name), all[gone..]) && Increasing(all[gone..])
    ensures Sound(c, parent, name, View(after[name := []], 0, false, v.lost + Records(all[..gone]), all[gone..], []))
  {
    LimitReached(c, v.lost, all, gone);
    OpenedSound(c, parent, name, v.lost + Records(all[..gone]), all[gone..]);
  }

  lemma BareRotationSound(c: RotationConfig, name: FileName, v: View, all: seq<Segment>, after: Directory)
    requires c.Validates() && c.Enabled() && Increasing(all) && |all| == 1 && v.lost == []
    requires after == Files(FileStem(name), all)
    ensures Sound(c, "", name, View(after, v.size, true, v.lost + Records(all[..0]), all[0..], []))
  {
    NothingGone(all);
    EmptySides(v.lost);
    FailedSound(c, name, v.size, all);
  }

  /** The numbers that `Sound` bounds. */
  lemma SoundNumbers(c: RotationConfig, parent: string, name: FileName, v: View)
    requires Sound(c, parent, name, v) && !v.failed && c.Enabled()
    ensures c.Validates() && c.MaxFiles() == FileLimit(c) >= 1 && |v.rotated| + 1 <= FileLimit(c)
    ensures v.lost != [] ==> |v.rotated| + 1 == FileLimit(c)
    ensures parent == "" ==> v.lost == [] && v.rotated == []
    ensures Increasing(v.rotated) && v.dir == Files(FileStem(name), v.rotated)[name := Lines(v.current)]
  {
  }

  lemma RotationSound(c: RotationConfig, parent: string, name: FileName, v: View, ts: nat, nanos: nat,
                      after: Directory, count: Option<nat>)
    requires Sound(c, parent, name, v) && !v.failed && c.Enabled() && Before(v.rotated, ts) && ts <= U64_MAX
    requires RotatedTo(v.dir, parent, name, c.MaxFiles(), ts, nanos, after, count)
    ensures c.MaxFiles() >= 1
    ensures var w := RotatedView(c, parent, name, v, ts, after);
            Sound(c, parent, name, w) && (count.None? <==> parent == "")
  {
    SoundNumbers(c, parent, name, v);
    var all := v.rotated + [(ts, v.current)];
    var gone := Gone(c, parent, |all|);
    RotationKeepsNewest(v.dir, parent, name, v.rotated, v.current, ts, nanos, c.MaxFiles(), after, count);
    KeptStamps(v.rotated, v.current, ts, gone);
    if parent == "" {
      NothingGone(all);
      BareRotationSound(c, name, v, all, after);
    } else {
      OpenRotationSound(c, parent, name, v, all, gone, after);
    }
  }

  lemma RotationKeepsHistory(c: RotationConfig, parent: string, name: FileName, v: View, ts: nat, after: Directory)
    requires Increasing(v.rotated + [(ts, v.current)]) && Before(v.rotated, ts) && c.MaxFiles() >= 1
    ensures var w := RotatedView(c, parent, name, v, ts, after);
            HistoryOf(w) == HistoryOf(v) && Before(w.rotated, ts + 1)
  {
    var gone := Gone(c, parent, |v.rotated| + 1);
    KeptStamps(v.rotated, v.current, ts, gone);
    HistoryKept(v.lost, v.rotated, v.current, ts, gone);
  }

  lemma RotationStep(c: RotationConfig, parent: string, name: FileName, v: View, ts: nat, nanos: nat,
                     after: Directory, count: Option<nat>)
    requires Sound(c, parent, name, v) && !v.failed && c.Enabled() && Before(v.rotated, ts) && ts <= U64_MAX
    requires RotatedTo(v.dir, parent, name, c.MaxFiles(), ts, nanos, after, count)
    ensures c.MaxFiles() >= 1
    ensures var w := RotatedView(c, parent, name, v, ts, after);
            && Sound(c, parent, name, w) && HistoryOf(w) == HistoryOf(v) && Before(w.rotated, ts + 1)
            && (count.None? <==> parent == "")
  {
    SoundNumbers(c, parent, name, v);
    IncreasingSnoc(v.rotated, (ts, v.current));
    RotationSound(c, parent, name, v, ts, nanos, after, count);
    RotationKeepsHistory(c, parent, name, v, ts, after);
  }

  lemma NothingGone(all: seq<Segment>)
    ensures Records(all[..0]) == [] && all[0..] == all
  {
  }

  function WrittenView(name: FileName, v: View, msg: Bytes): View
    requires name in v.dir
  {
    v.(dir := v.dir[name := v.dir[name] + (msg + [LF])], size := v.size + |msg| + 1, current := v.current + [msg])
  }

  lemma WriteSound(c: RotationConfig, parent: string, name: FileName, v: View, msg: Bytes)
    requires Sound(c, parent, name, v) && !v.failed
    ensures name in v.dir
    ensures var w := WrittenView(name, v, msg);
            Sound(c, parent, name, w) && HistoryOf(w) == HistoryOf(v) + [msg]
  {
    LinesSnoc(v.current, msg);
    Assoc(Records(v.rotated), v.current, [msg]);
    Assoc(v.lost, Records(v.rotated) + v.current, [msg]);
    assert v.dir[name := v.dir[name] + (msg + [LF])]
        == Files(FileStem(name), v.rotated)[name := Lines(v.current + [msg])];
  }

  // ----- The sender -----

  /** One worker writing to one file of a fresh directory. */
  class FileSender {
    const config: RotationConfig
    const parent: string
    const name: FileName
    var dir: Directory
    var openedAt: int
    var bytesWritten: nat
    var failed: bool
    ghost var lost: seq<Bytes>
    ghost var rotated: seq<Segment>
    ghost var current: seq<Bytes>

    ghost function Now(): View
      reads this
    {
      View(dir, bytesWritten, failed, lost, rotated, current)
    }

    ghost predicate Valid()
      reads this
    {
      Sound(config, parent, name, Now())
    }

    ghost function History(): seq<Bytes>
      reads this
    {
      HistoryOf(Now())
    }

    constructor (config: RotationConfig, parent: string, name: FileName, now: int)
      requires config.Validates()
      ensures Valid() && History() == [] && rotated == [] && openedAt == now && bytesWritten == 0 && !failed
      ensures this.config == config && this.parent == parent && this.name == name
    {
      this.config, this.parent, this.name := config, parent, name;
      dir := map[name := []];
      openedAt, bytesWritten, failed := now, 0, false;
      lost, rotated, current := [], [], [];
    }

    /** Renames, cleans up and opens a new current file; the sender fails when the cleanup does. */
    method Rotate(ts: nat, nanos: nat, now: int)
      requires Valid() && !failed && config.Enabled() && Before(rotated, ts) && ts <= U64_MAX
      modifies this
      ensures Valid() && History() == old(History()) && current == [] && Before(rotated, ts + 1)
      ensures failed <==> parent == ""
      ensures !failed ==> openedAt == now && bytesWritten == 0
    {
      var after, count := RotateFile(dir, parent, name, config.MaxFiles(), ts, nanos);
      RotationStep(config, parent, name, Now(), ts, nanos, after, count);
      Reopen(after, count, now, RotatedView(config, parent, name, Now(), ts, after));
    }

    /** The state `view` after a rotation: a new current file, unless the cleanup failed. */
    method Reopen(after: Directory, count: Option<nat>, now: int, ghost view: View)
      requires view.failed <==> count.None?
      requires if count.None? then view.dir == after && view.size == bytesWritten
               else view.dir == after[name := []] && view.size == 0
      requires !failed
      modifies this
      ensures Now() == view && (!failed ==> openedAt == now)
    {
      lost, rotated, current := view.lost, view.rotated, view.current;
      dir := after;
      if count.None? {
        failed := true;
      } else {
        dir := dir[name := []];
        openedAt, bytesWritten := now, 0;
      }
    }

    method Write(msg: Bytes)
      requires Valid() && !failed
      modifies this`dir, this`bytesWritten, this`current
      ensures Valid() && History() == old(History()) + [msg] && current == old(current) + [msg]
      ensures bytesWritten == old(bytesWritten) + |msg| + 1
      ensures name in old(dir) && dir == old(dir)[name := old(dir)[name] + (msg + [10])]
    {
      WriteSound(config, parent, name, Now(), msg);
      ghost var view := WrittenView(name, Now(), msg);
      dir := dir[name := dir[name] + (msg + [LF])];
      bytesWritten := bytesWritten + |msg| + 1;
      current := current + [msg];
      assert Now() == view;
    }

    /** One message: a rotation first when the interval has passed, the write, and a rotation after it when
        the file has reached its size.  Only the rotations that fire need later stamps. */
    method Handle(msg: Bytes, tick: Tick)
      requires Valid() && !failed
      requires Due(config, openedAt, tick) ==> Before(rotated, tick.timeStamp) && tick.timeStamp <= U64_MAX
      requires Fills(config, openedAt, bytesWritten, msg, tick) && (Due(config, openedAt, tick) ==> parent != "") ==>
                 && tick.sizeStamp <= U64_MAX
                 && if Due(config, openedAt, tick) then tick.timeStamp < tick.sizeStamp
                    else Before(rotated, tick.sizeStamp)
      modifies this
      ensures Valid()
      ensures var due := Due(config, old(openedAt), tick);
              var fills := Fills(config, old(openedAt), old(bytesWritten), msg, tick);
              && (failed <==> parent == "" && (due || fills))
              && History() == old(History()) + (if failed && due then [] else [msg])
              && (!failed ==> current == if fills then [] else (if due then [] else old(current)) + [msg])
              && (!failed ==> if fills then Before(rotated, tick.sizeStamp + 1)
                              else if due then Before(rotated, tick.timeStamp + 1) else rotated == old(rotated))
      ensures !failed ==> openedAt == NextOpened(config, old(openedAt), old(bytesWritten), msg, tick)
      ensures !failed ==> bytesWritten == NextSize(config, old(openedAt), old(bytesWritten), msg, tick)
      ensures !failed ==> !Full(config, bytesWritten)
    {
      EmptySides(History());
      RotateIfDue(tick);
      if failed {
        return;
      }
      Write(msg);
      RotateIfFull(tick);
    }

    method RotateIfDue(tick: Tick)
      requires Valid() && !failed
      requires Due(config, openedAt, tick) ==> Before(rotated, tick.timeStamp) && tick.timeStamp <= U64_MAX
      modifies this
      ensures Valid() && History() == old(History())
      ensures failed <==> parent == "" && Due(config, old(openedAt), tick)
      ensures if Due(config, old(openedAt), tick) then current == [] && Before(rotated, tick.timeStamp + 1)
              else rotated == old(rotated) && current == old(current)
      ensures !failed ==> openedAt == if Due(config, old(openedAt), tick) then tick.now else old(openedAt)
      ensures !failed ==> bytesWritten == if Due(config, old(openedAt), tick) then 0 else old(bytesWritten)
    {
      if config.intervalSecs.Some? && tick.now - openedAt >= config.intervalSecs.value {
        Rotate(tick.timeStamp, tick.nanos, tick.now);
      }
    }

    method RotateIfFull(tick: Tick)
      requires Valid() && !failed
      requires Full(config, bytesWritten) ==> Before(rotated, tick.sizeStamp) && tick.sizeStamp <= U64_MAX
      modifies this
      ensures Valid() && History() == old(History())
      ensures failed <==> parent == "" && Full(config, old(bytesWritten))
      ensures if Full(config, old(bytesWritten)) then current == [] && Before(rotated, tick.sizeStamp + 1)
              else rotated == old(rotated) && current == old(current)
      ensures !failed ==> openedAt == if Full(config, old(bytesWritten)) then tick.now else old(openedAt)
      ensures !failed ==> bytesWritten == if Full(config, old(bytesWritten)) then 0 else old(bytesWritten)
      ensures !failed ==> !Full(config, bytesWritten)
    {
      if Full(config, bytesWritten) {
        Rotate(tick.sizeStamp, tick.nanos, tick.now);
      }
    }

    /** One message with the stamps of the later rotations still ahead. */
    method HandleFresh(msg: Bytes, tick: Tick, ghost later: seq<nat>)
      requires Valid() && !failed
      requires Fresh(rotated, Fired(config, parent, openedAt, bytesWritten, msg, tick) + later)
      modifies this
      ensures Valid()
      ensures failed <==> parent == "" && Fired(config, parent, old(openedAt), old(bytesWritten), msg, tick) != []
      ensures History() == old(History()) + (if failed && Due(config, old(openedAt), tick) then [] else [msg])
      ensures !failed ==> Fresh(rotated, later)
      ensures !failed ==> openedAt == NextOpened(config, old(openedAt), old(bytesWritten), msg, tick)
      ensures !failed ==> bytesWritten == NextSize(config, old(openedAt), old(bytesWritten), msg, tick)
    {
      ghost var f := Fired(config, parent, openedAt, bytesWritten, msg, tick);
      ghost var before := rotated;
      FreshParts(rotated, f, later);
      FiredFresh(config, parent, openedAt, bytesWritten, msg, tick, rotated);
      Handle(msg, tick);
      if !failed {
        FreshAfter(before, rotated, f, later);
      }
    }

    /** What the rest of the run still writes and stamps, from here. */
    ghost predicate Continues(written: seq<Bytes>, msgs: seq<Bytes>, ticks: seq<Tick>, total: nat, stamps: seq<nat>)
      requires |msgs| == |ticks|
      reads this
    {
      var rest := Stamps(config, parent, openedAt, bytesWritten, msgs, ticks);
      && Valid() && !failed && History() == written && Fresh(rotated, rest)
      && total == |written| + Written(config, parent, openedAt, bytesWritten, msgs, ticks)
      && (parent == "" ==> stamps == rest)
    }

    /** One message of a run: the run continues, or it has ended with the rotation that failed. */
    method HandleNext(written: seq<Bytes>, msgs: seq<Bytes>, ticks: seq<Tick>, ghost total: nat, ghost stamps: seq<nat>)
      requires |msgs| == |ticks| > 0 && Continues(written, msgs, ticks, total, stamps)
      modifies this
      ensures !failed ==> Continues(written + [msgs[0]], msgs[1..], ticks[1..], total, stamps)
      ensures failed ==> Valid() && parent == "" && stamps != [] && total == |History()|
      ensures failed ==> History() == written || History() == written + [msgs[0]]
    {
      ghost var later := Later(config, parent, openedAt, bytesWritten, msgs, ticks);
      RunStep(config, parent, openedAt, bytesWritten, msgs, ticks);
      EmptySides(later);
      EmptySides(written);
      HandleFresh(msgs[0], ticks[0], later);
    }

    /** A run under strictly increasing stamps of the rotations that fire.  The history is what was written, by
        `AllWritten` everything handed over if the path has a directory part; by `Valid`, the surviving files in
        timestamp order and the current file hold a contiguous suffix of it, no record split, in at most the
        permitted number of files.  Without a directory part the first rotation ends the sender. */
    method Run(msgs: seq<Bytes>, ticks: seq<Tick>)
      requires Valid() && !failed && History() == [] && rotated == [] && |ticks| == |msgs|
      requires Fresh([], Stamps(config, parent, openedAt, bytesWritten, msgs, ticks))
      modifies this
      ensures Valid()
      ensures var total := Written(config, parent, old(openedAt), old(bytesWritten), msgs, ticks);
              total <= |msgs| && History() == msgs[..total]
      ensures failed <==>
                parent == "" && Stamps(config, parent, old(openedAt), old(bytesWritten), msgs, ticks) != []
    {
      ghost var total := Written(config, parent, openedAt, bytesWritten, msgs, ticks);
      ghost var stamps := Stamps(config, parent, openedAt, bytesWritten, msgs, ticks);
      assert msgs[0..] == msgs && ticks[0..] == ticks && msgs[..0] == [];
      for i := 0 to |msgs|
        invariant Continues(msgs[..i], msgs[i..], ticks[i..], total, stamps)
      {
        TakeOneMore(msgs, i);
        TakeOneMore(ticks, i);
        HandleNext(msgs[..i], msgs[i..], ticks[i..], total, stamps);
        if failed {
          return;
        }
      }
    }
  }

  lemma KeptStamps(segments: seq<Segment>, current: seq<Bytes>, ts: nat, n: nat)
    requires n <= |segments| + 1 && Increasing(segments + [(ts, current)])
    ensures var kept := (segments + [(ts, current)])[n..];
            && Increasing(kept) && |kept| == |segments| + 1 - n
            && (Before(segments, ts) ==> Before(kept, ts + 1))
  {
    var all := segments + [(ts, current)];
    var kept := all[n..];
    assert forall i | 0 <= i < |kept| :: kept[i] == all[n + i];
  }

  lemma HistoryKept(lost: seq<Bytes>, segments: seq<Segment>, current: seq<Bytes>, ts: nat, n: nat)
    requires n <= |segments| + 1
    ensures var all := segments + [(ts, current)];
            lost + Records(all[..n]) + (Records(all[n..]) + []) == lost + (Records(segments) + current)
  {
    var all := segments + [(ts, current)];
    RecordsSnoc(segments, current, ts);
    RecordsCut(all, n);
    Regroup(lost, Records(all[..n]), Records(all[n..]));
  }

  lemma RecordsCut(all: seq<Segment>, n: nat)
    requires n <= |all|
    ensures Records(all[..n]) + Records(all[n..]) == Records(all)
  {
    RecordsConcat(all[..n], all[n..]);
    CutJoin(all, n);
  }

  lemma Regroup<T>(a: seq<T>, b: seq<T>, c: seq<T>)
    ensures a + b + (c + []) == a + (b + c)
  {
    EmptySides(c);
    Assoc(a, b, c);
  }

  lemma RecordsSnoc(segments: seq<Segment>, current: seq<Bytes>, ts: nat)
    ensures Records(segments + [(ts, current)]) == Records(segments) + current
  {
    RecordsConcat(segments, [(ts, current)]);
    assert [(ts, current)][1..] == [];
    EmptySides(current);
  }
}
