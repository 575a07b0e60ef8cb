/** Point overrides of a profile: paths into a JSON tree, the update along a path, and lists of updates. */
module SetOverride {
  import opened Basics
  import opened Decimal

  datatype Json =
    | Null
    | Bool(b: bool)
    | Number(text: string)
    | Text(s: string)
    | Array(items: seq<Json>)
    | Object(fields: map<string, Json>)

  datatype Segment = Field(name: string) | Index(i: nat)

  type Path = seq<Segment>

  datatype Error = BadEntry | BadIndex | EmptyPath | NotAnObject | NotAnArray | OutOfBounds | BadProfile

  // ----- Entries -----

  function ParseSetEntry(entry: string): Result<(string, string), Error> {
    var parts := SplitOnce(entry, '=');
    if parts.None? || parts.value.0 == "" || parts.value.1 == "" then Err(BadEntry) else Ok(parts.value)
  }

  /** The entries accepted are a key without an equals sign, an equals sign and a value, neither empty. */
  lemma EntryForms(entry: string, key: string, value: string)
    ensures ParseSetEntry(entry) == Ok((key, value))
         <==> entry == key + "=" + value && '=' !in key && key != "" && value != ""
  {
    if ParseSetEntry(entry) == Ok((key, value)) {
      SplitOnceJoins(entry, '=');
    }
    if entry == key + "=" + value && '=' !in key {
      SplitOnceAt(key, '=', value);
    }
  }

  lemma {:induction false} SplitOnceJoins(s: string, c: char)
    requires SplitOnce(s, c).Some?
    ensures var (a, b) := SplitOnce(s, c).value; s == a + [c] + b && c !in a
  {
    if s[0] == c {
      EmptySides([c]);
      Rejoin(s);
    } else {
      SplitOnceJoins(s[1..], c);
      var (a, b) := SplitOnce(s[1..], c).value;
      Assoc([s[0]], a, [c]);
      Assoc([s[0]], a + [c], b);
      Rejoin(s);
    }
  }

  // ----- Paths -----

  function Flush(current: string): Path { if current == "" then [] else [Field(current)] }

  /** The text up to a closing bracket, or to the end, and what follows it. */
  function IndexText(s: string): (r: (string, string))
    ensures |r.1| <= |s|
  {
    if s == "" then ("", "")
    else if s[0] == ']' then ("", s[1..])
    else
      var r := IndexText(s[1..]);
      ([s[0]] + r.0, r.1)
  }

  function After(front: Path, rest: Result<Path, Error>): Result<Path, Error> {
    if rest.Err? then rest else Ok(front + rest.value)
  }

  /** The segments of a path text whose current field name so far is `current`. */
  function ParseFrom(s: string, current: string): Result<Path, Error>
    decreases |s|
  {
    if s == "" then Ok(Flush(current))
    else if s[0] == '.' then After(Flush(current), ParseFrom(s[1..], ""))
    else if s[0] == '[' then
      var r := IndexText(s[1..]);
      var n := ParseU64(r.0);
      if n.None? then Err(BadIndex) else After(Flush(current) + [Index(n.value)], ParseFrom(r.1, ""))
    else ParseFrom(s[1..], current + [s[0]])
  }

  function Parse(path: string): Result<Path, Error> {
    var r := ParseFrom(path, "");
    if r == Ok([]) then Err(EmptyPath) else r
  }

  method ReadIndex(path: string, start: nat) returns (text: string, after: nat)
    requires start <= |path|
    ensures start <= after <= |path| && (text, path[after..]) == IndexText(path[start..])
  {
    text, after := "", start;
    ghost var goal := IndexText(path[start..]);
    EmptySides(goal.0);
    while after < |path|
      invariant start <= after <= |path|
      invariant (text + IndexText(path[after..]).0, IndexText(path[after..]).1) == goal
    {
      assert path[after..][1..] == path[after + 1..];
      if path[after] == ']' {
        EmptySides(text);
        return text, after + 1;
      }
      Assoc(text, [path[after]], IndexText(path[after + 1..]).0);
      text := text + [path[after]];
      after := after + 1;
    }
    EmptySides(text);
  }

  method ParsePath(path: string) returns (result: Result<Path, Error>)
    ensures result == Parse(path)
  {
    var segments: Path := [];
    var current := "";
    var i := 0;
    assert path[0..] == path;
    AfterNothing(ParseFrom(path, ""));
    while i < |path|
      invariant 0 <= i <= |path|
      invariant After(segments, ParseFrom(path[i..], current)) == ParseFrom(path, "")
      decreases |path| - i
    {
      var c := path[i];
      ghost var before, name, rest := segments, current, path[i..];
      assert rest[1..] == path[i + 1..];
      i := i + 1;
      if c == '.' {
        if current != "" {
          segments := segments + [Field(current)];
          current := "";
        }
        AfterAfter(before, Flush(name), ParseFrom(path[i..], ""));
      } else if c == '[' {
        if current != "" {
          segments := segments + [Field(current)];
          current := "";
        }
        var text, next := ReadIndex(path, i);
        var n := ParseU64(text);
        if n.None? {
          return Err(BadIndex);
        }
        segments := segments + [Index(n.value)];
        EmptySides(before);
        Assoc(before, Flush(name), [Index(n.value)]);
        AfterAfter(before, Flush(name) + [Index(n.value)], ParseFrom(path[next..], ""));
        i := next;
      } else {
        current := current + [c];
      }
    }
    assert path[i..] == "";
    EmptySides(segments);
    if current != "" {
      segments := segments + [Field(current)];
    }
    if segments == [] {
      return Err(EmptyPath);
    }
    return Ok(segments);
  }

  lemma AfterNothing(rest: Result<Path, Error>)
    ensures After([], rest) == rest
  {
    if rest.Ok? {
      EmptySides(rest.value);
    }
  }

  lemma AfterAfter(a: Path, b: Path, rest: Result<Path, Error>)
    ensures After(a, After(b, rest)) == After(a + b, rest)
    ensures b == [] ==> a + b == a
  {
    if rest.Ok? {
      Assoc(a, b, rest.value);
    }
  }

  // ----- Printing paths -----

  predicate PlainName(name: string) { name != "" && '.' !in name && '[' !in name }

  predicate WellFormed(p: Path) {
    forall k | 0 <= k < |p| :: if p[k].Field? then PlainName(p[k].name) else p[k].i <= U64_MAX
  }

  /** A path as a user would write it; a field takes a dot unless it comes first. */
  function Print(p: Path, first: bool): string {
    if p == [] then ""
    else
      (match p[0]
       case Field(name) => (if first then "" else ".") + name
       case Index(i) => "[" + Decimal.Text(i) + "]")
      + Print(p[1..], false)
  }

  lemma {:induction false} IndexTextAt(text: string, rest: string)
    requires ']' !in text
    ensures IndexText(text + "]" + rest) == (text, rest)
  {
    if text == "" {
      EmptySides("]");
      SplitAt("]", rest);
    } else {
      IndexTextAt(text[1..], rest);
      HeadTail(text, "]");
      HeadTail(text + "]", rest);
      Rejoin(text);
    }
  }

  lemma {:induction false} NameRead(name: string, rest: string, current: string)
    requires '.' !in name && '[' !in name
    ensures ParseFrom(name + rest, current) == ParseFrom(rest, current + name)
    decreases |name|
  {
    if name == "" {
      EmptySides(rest);
      EmptySides(current);
    } else {
      HeadTail(name, rest);
      NameRead(name[1..], rest, current + [name[0]]);
      Assoc(current, [name[0]], name[1..]);
      Rejoin(name);
    }
  }

  lemma IndexRead(i: nat, rest: string, current: string)
    requires i <= U64_MAX
    ensures ParseFrom("[" + Decimal.Text(i) + "]" + rest, current)
         == After(Flush(current) + [Index(i)], ParseFrom(rest, ""))
  {
    var digits := Decimal.Text(i);
    assert forall k | 0 <= k < |digits| :: IsDigit(digits[k]);
    Assoc("[", digits, "]");
    Assoc("[", digits + "]", rest);
    SplitAt("[", digits + "]" + rest);
    IndexTextAt(digits, rest);
    ParseU64Text(i);
  }

  /** Behind a complete name, the printed rest of a path reads back. */
  lemma {:induction false} RestRead(p: Path, current: string)
    requires WellFormed(p)
    ensures ParseFrom(Print(p, false), current) == Ok(Flush(current) + p)
    decreases |p|
  {
    if p == [] {
      EmptySides(Flush(current));
    } else {
      var rest := Print(p[1..], false);
      Rejoin(p);
      match p[0]
      case Field(name) =>
        RestRead(p[1..], name);
        Assoc(".", name, rest);
        SplitAt(".", name + rest);
        NameRead(name, rest, "");
        EmptySides(name);
      case Index(i) =>
        RestRead(p[1..], "");
        EmptySides(p[1..]);
        IndexRead(i, rest, current);
        Assoc(Flush(current), [Index(i)], p[1..]);
    }
  }

  /** Parsing inverts printing for every well-formed path. */
  lemma ParsePrinted(p: Path)
    requires WellFormed(p) && p != []
    ensures Parse(Print(p, true)) == Ok(p)
  {
    var rest := Print(p[1..], false);
    Rejoin(p);
    EmptySides(p);
    match p[0]
    case Field(name) =>
      EmptySides(name);
      NameRead(name, rest, "");
      RestRead(p[1..], name);
    case Index(i) =>
      IndexRead(i, rest, "");
      RestRead(p[1..], "");
      EmptySides(p[1..]);
      EmptySides([Index(i)]);
  }

  lemma {:induction false} ParsedFrom(s: string, current: string)
    requires '.' !in current && '[' !in current && ParseFrom(s, current).Ok?
    ensures WellFormed(ParseFrom(s, current).value)
    decreases |s|
  {
    if s != "" {
      if s[0] == '.' {
        ParsedFrom(s[1..], "");
      } else if s[0] == '[' {
        ParsedFrom(IndexText(s[1..]).1, "");
      } else {
        ParsedFrom(s[1..], current + [s[0]]);
      }
    }
  }

  /** Whatever parses is a well-formed path, so printing and parsing it again changes nothing. */
  lemma ParsedNormal(path: string)
    requires Parse(path).Ok?
    ensures var p := Parse(path).value; p != [] && WellFormed(p) && Parse(Print(p, true)) == Ok(p)
  {
    ParsedFrom(path, "");
    ParsePrinted(Parse(path).value);
  }

  predicate AllDots(s: string) { forall i | 0 <= i < |s| :: s[i] == '.' }

  lemma AllDotsTail(s: string)
    requires s != ""
    ensures AllDots(s) <==> s[0] == '.' && AllDots(s[1..])
  {
    assert forall i | 0 < i < |s| :: s[i] == s[1..][i - 1];
  }

  lemma {:induction false} DotsOnly(s: string, current: string)
    ensures ParseFrom(s, current) == Ok([]) <==> current == "" && AllDots(s)
    decreases |s|
  {
    if s != "" {
      AllDotsTail(s);
      if s[0] == '.' {
        DotsOnly(s[1..], "");
        if current == "" {
          AfterNothing(ParseFrom(s[1..], ""));
        }
      } else if s[0] != '[' {
        DotsOnly(s[1..], current + [s[0]]);
      }
    }
  }

  /** A path is empty exactly when it is made of dots alone. */
  lemma EmptyPathExact(path: string)
    ensures Parse(path) == Err(EmptyPath) <==> AllDots(path)
  {
    DotsOnly(path, "");
    NeverEmptyPath(path, "");
  }

  lemma {:induction false} NeverEmptyPath(s: string, current: string)
    ensures ParseFrom(s, current) != Err(EmptyPath)
    decreases |s|
  {
    if s != "" {
      if s[0] == '[' {
        NeverEmptyPath(IndexText(s[1..]).1, "");
      } else if s[0] == '.' {
        NeverEmptyPath(s[1..], "");
      } else {
        NeverEmptyPath(s[1..], current + [s[0]]);
      }
    }
  }

  /** Brackets around anything but an unsigned 64-bit number make the path an error, whatever follows. */
  lemma BadIndexFails(name: string, index: string, rest: string)
    requires '.' !in name && '[' !in name && ']' !in index && ParseU64(index).None?
    ensures Parse(name + ("[" + index + "]" + rest)) == Err(BadIndex)
  {
    var tail := "[" + index + "]" + rest;
    NameRead(name, tail, "");
    Assoc("[", index, "]");
    Assoc("[", index + "]", rest);
    SplitAt("[", index + "]" + rest);
    IndexTextAt(index, rest);
  }

  // ----- Reading and writing along a path -----

  predicate HasChild(v: Json, seg: Segment) {
    match seg
    case Field(name) => v.Object? && name in v.fields
    case Index(i) => v.Array? && i < |v.items|
  }

  function Child(v: Json, seg: Segment): Json
    requires HasChild(v, seg)
  {
    match seg
    case Field(name) => v.fields[name]
    case Index(i) => v.items[i]
  }

  function Get(v: Json, p: Path): Option<Json> {
    if p == [] then Some(v) else if HasChild(v, p[0]) then Get(Child(v, p[0]), p[1..]) else None
  }

  /** May a segment be followed for writing?  A field of an object need not exist yet. */
  function Blocked(v: Json, seg: Segment): Option<Error> {
    match seg
    case Field(_) => if v.Object? then None else Some(NotAnObject)
    case Index(i) => if !v.Array? then Some(NotAnArray) else if i >= |v.items| then Some(OutOfBounds) else None
  }

  /** The child to write into; a missing field is null. */
  function Slot(v: Json, seg: Segment): Json
    requires Blocked(v, seg).None?
  {
    if HasChild(v, seg) then Child(v, seg) else Null
  }

  function Put(v: Json, seg: Segment, child: Json): Json
    requires Blocked(v, seg).None?
  {
    match seg
    case Field(name) => Object(v.fields[name := child])
    case Index(i) => Array(v.items[i := child])
  }

  /** The tree after setting a path, and the error that stopped the descent; the null that a descent
      inserted for a missing field stays. */
  function Set(v: Json, p: Path, leaf: Json): (Json, Option<Error>)
    decreases |p|
  {
    if p == [] then (leaf, None)
    else if Blocked(v, p[0]).Some? then (v, Blocked(v, p[0]))
    else
      var r := Set(Slot(v, p[0]), p[1..], leaf);
      (Put(v, p[0], r.0), r.1)
  }

  method SetAtPath(value: Json, segments: Path, leaf: Json) returns (updated: Json, error: Option<Error>)
    ensures (updated, error) == Set(value, segments, leaf)
    decreases segments
  {
    if segments == [] {
      return leaf, None;
    }
    match segments[0] {
      case Field(name) =>
        if !value.Object? {
          return value, Some(NotAnObject);
        }
        var entry := if name in value.fields then value.fields[name] else Null;
        entry, error := SetAtPath(entry, segments[1..], leaf);
        updated := Object(value.fields[name := entry]);
      case Index(i) =>
        if !value.Array? {
          return value, Some(NotAnArray);
        }
        if i >= |value.items| {
          return value, Some(OutOfBounds);
        }
        var item;
        item, error := SetAtPath(value.items[i], segments[1..], leaf);
        updated := Array(value.items[i := item]);
    }
  }

  // ----- Lens laws -----

  lemma PutChild(v: Json, seg: Segment, child: Json)
    requires Blocked(v, seg).None?
    ensures var w := Put(v, seg, child);
            HasChild(w, seg) && Child(w, seg) == child && Blocked(w, seg).None? && Slot(w, seg) == child
  {
  }

  lemma PutSame(v: Json, seg: Segment)
    requires HasChild(v, seg)
    ensures Blocked(v, seg).None? && Put(v, seg, Child(v, seg)) == v
  {
    match seg
    case Field(name) => assert v.fields[name := v.fields[name]] == v.fields;
    case Index(i) => assert v.items[i := v.items[i]] == v.items;
  }

  lemma PutTwice(v: Json, seg: Segment, a: Json, b: Json)
    requires Blocked(v, seg).None?
    ensures Blocked(Put(v, seg, a), seg).None? && Put(Put(v, seg, a), seg, b) == Put(v, seg, b)
  {
    match seg
    case Field(name) => assert v.fields[name := a][name := b] == v.fields[name := b];
    case Index(i) => assert v.items[i := a][i := b] == v.items[i := b];
  }

  /** Writing one child leaves another alone. */
  lemma PutElsewhere(v: Json, seg: Segment, child: Json, other: Segment)
    requires Blocked(v, seg).None? && seg != other
    ensures var w := Put(v, seg, child);
            && (HasChild(w, other) <==> HasChild(v, other))
            && (HasChild(v, other) ==> Child(w, other) == Child(v, other))
            && Blocked(w, other) == Blocked(v, other)
            && (Blocked(v, other).None? ==> Slot(w, other) == Slot(v, other))
  {
  }

  lemma PutsCommute(v: Json, seg: Segment, a: Json, other: Segment, b: Json)
    requires Blocked(v, seg).None? && Blocked(v, other).None? && seg != other
    ensures Blocked(Put(v, seg, a), other).None? && Blocked(Put(v, other, b), seg).None?
    ensures Put(Put(v, seg, a), other, b) == Put(Put(v, other, b), seg, a)
  {
    PutElsewhere(v, seg, a, other);
    PutElsewhere(v, other, b, seg);
    if seg.Field? && other.Field? {
      assert v.fields[seg.name := a][other.name := b] == v.fields[other.name := b][seg.name := a];
    } else if seg.Index? && other.Index? {
      assert v.items[seg.i := a][other.i := b] == v.items[other.i := b][seg.i := a];
    }
  }

  /** Set then get: below the path one reads the new value. */
  lemma {:induction false} SetGet(v: Json, p: Path, leaf: Json, below: Path)
    requires Set(v, p, leaf).1.None?
    ensures Get(Set(v, p, leaf).0, p + below) == Get(leaf, below)
    decreases |p|
  {
    if p == [] {
      EmptySides(below);
    } else {
      var r := Set(Slot(v, p[0]), p[1..], leaf);
      SetGet(Slot(v, p[0]), p[1..], leaf, below);
      PutChild(v, p[0], r.0);
      HeadTail(p, below);
    }
  }

  /** Get then set: writing back what a path holds changes nothing. */
  lemma {:induction false} GetSet(v: Json, p: Path)
    requires Get(v, p).Some?
    ensures Set(v, p, Get(v, p).value) == (v, None)
    decreases |p|
  {
    if p != [] {
      GetSet(Child(v, p[0]), p[1..]);
      PutSame(v, p[0]);
    }
  }

  /** The last of two writes to one path wins. */
  lemma {:induction false} SetSet(v: Json, p: Path, a: Json, b: Json)
    ensures Set(Set(v, p, a).0, p, b) == Set(v, p, b)
    decreases |p|
  {
    if p != [] && Blocked(v, p[0]).None? {
      var r, w := Set(Slot(v, p[0]), p[1..], a), Set(Slot(v, p[0]), p[1..], b);
      SetSet(Slot(v, p[0]), p[1..], a, b);
      PutChild(v, p[0], r.0);
      PutTwice(v, p[0], r.0, w.0);
    }
  }

  /** The paths part at some segment. */
  predicate Diverge(p: Path, q: Path) { p != [] && q != [] && (p[0] != q[0] || Diverge(p[1..], q[1..])) }

  lemma {:induction false} DivergeSymmetric(p: Path, q: Path)
    ensures Diverge(p, q) <==> Diverge(q, p)
  {
    if p != [] && q != [] && p[0] == q[0] {
      DivergeSymmetric(p[1..], q[1..]);
    }
  }

  /** A write, even a failed one, changes nothing on a path that diverges. */
  lemma {:induction false} SetElsewhere(v: Json, p: Path, leaf: Json, q: Path)
    requires Diverge(p, q)
    ensures Get(Set(v, p, leaf).0, q) == Get(v, q)
    decreases |p|
  {
    if Blocked(v, p[0]).None? {
      var r := Set(Slot(v, p[0]), p[1..], leaf);
      if p[0] != q[0] {
        PutElsewhere(v, p[0], r.0, q[0]);
      } else {
        PutChild(v, p[0], r.0);
        SetElsewhere(Slot(v, p[0]), p[1..], leaf, q[1..]);
        if !HasChild(v, p[0]) {
          NothingBelow(q[1..]);
        }
      }
    }
  }

  lemma NothingBelow(q: Path)
    requires q != []
    ensures Get(Null, q) == None
  {
  }

  predicate Commute(v: Json, p: Path, a: Json, q: Path, b: Json) {
    && Set(Set(v, p, a).0, q, b).0 == Set(Set(v, q, b).0, p, a).0
    && Set(Set(v, p, a).0, q, b).1 == Set(v, q, b).1
    && Set(Set(v, q, b).0, p, a).1 == Set(v, p, a).1
  }

  lemma BelowCommute(v: Json, p: Path, a: Json, q: Path, b: Json)
    requires p != [] && q != [] && p[0] == q[0] && Blocked(v, p[0]).None?
    requires Commute(Slot(v, p[0]), p[1..], a, q[1..], b)
    ensures Commute(v, p, a, q, b)
  {
    var slot := Slot(v, p[0]);
    var x, y := Set(slot, p[1..], a), Set(slot, q[1..], b);
    PutChild(v, p[0], x.0);
    PutChild(v, p[0], y.0);
    PutTwice(v, p[0], x.0, Set(x.0, q[1..], b).0);
    PutTwice(v, p[0], y.0, Set(y.0, p[1..], a).0);
  }

  /** Writes to diverging paths commute, tree and errors alike. */
  lemma {:induction false} SetsCommute(v: Json, p: Path, a: Json, q: Path, b: Json)
    requires Diverge(p, q)
    ensures Set(Set(v, p, a).0, q, b).0 == Set(Set(v, q, b).0, p, a).0
    ensures Set(Set(v, p, a).0, q, b).1 == Set(v, q, b).1
    ensures Set(Set(v, q, b).0, p, a).1 == Set(v, p, a).1
    decreases |p|
  {
    if p[0] == q[0] {
      if Blocked(v, p[0]).None? {
        SetsCommute(Slot(v, p[0]), p[1..], a, q[1..], b);
        BelowCommute(v, p, a, q, b);
      }
    } else {
      ApartCommute(v, p, a, q, b);
    }
  }

  lemma ApartCommute(v: Json, p: Path, a: Json, q: Path, b: Json)
    requires p != [] && q != [] && p[0] != q[0]
    ensures Set(Set(v, p, a).0, q, b).0 == Set(Set(v, q, b).0, p, a).0
    ensures Set(Set(v, p, a).0, q, b).1 == Set(v, q, b).1
    ensures Set(Set(v, q, b).0, p, a).1 == Set(v, p, a).1
  {
    if Blocked(v, p[0]).None? && Blocked(v, q[0]).None? {
      BothOpenCommute(v, p, a, q, b);
    } else if Blocked(v, p[0]).None? {
      OneOpenCommute(v, p, a, q, b);
    } else if Blocked(v, q[0]).None? {
      OneOpenCommute(v, q, b, p, a);
    } else {
      assert Set(v, p, a).0 == v == Set(v, q, b).0;
    }
  }

  lemma OneOpenCommute(v: Json, p: Path, a: Json, q: Path, b: Json)
    requires p != [] && q != [] && p[0] != q[0] && Blocked(v, p[0]).None? && Blocked(v, q[0]).Some?
    ensures Set(Set(v, p, a).0, q, b).0 == Set(Set(v, q, b).0, p, a).0
    ensures Set(Set(v, p, a).0, q, b).1 == Set(v, q, b).1
    ensures Set(Set(v, q, b).0, p, a).1 == Set(v, p, a).1
  {
    PutElsewhere(v, p[0], Set(Slot(v, p[0]), p[1..], a).0, q[0]);
  }

  lemma BothOpenCommute(v: Json, p: Path, a: Json, q: Path, b: Json)
    requires p != [] && q != [] && p[0] != q[0] && Blocked(v, p[0]).None? && Blocked(v, q[0]).None?
    ensures Set(Set(v, p, a).0, q, b).0 == Set(Set(v, q, b).0, p, a).0
    ensures Set(Set(v, p, a).0, q, b).1 == Set(v, q, b).1
    ensures Set(Set(v, q, b).0, p, a).1 == Set(v, p, a).1
  {
    var x, y := Set(Slot(v, p[0]), p[1..], a), Set(Slot(v, q[0]), q[1..], b);
    PutElsewhere(v, p[0], x.0, q[0]);
    PutElsewhere(v, q[0], y.0, p[0]);
    PutsCommute(v, p[0], x.0, q[0], y.0);
  }

  /** A field can be written into an object, an index into an array that has it. */
  predicate Writable(v: Json, seg: Segment) {
    match seg
    case Field(_) => v.Object?
    case Index(i) => v.Array? && i < |v.items|
  }

  /** Can the path be set?  Its parent must exist, and be an object for a field, or an array long enough for
      an index. */
  predicate Settable(v: Json, p: Path) {
    p == []
    || var parent := Get(v, p[..|p| - 1]);
       parent.Some? && Writable(parent.value, p[|p| - 1])
  }

  lemma {:induction false} SetSucceeds(v: Json, p: Path, leaf: Json)
    ensures Set(v, p, leaf).1.None? <==> Settable(v, p)
    decreases |p|
  {
    if |p| == 1 {
      assert p[..0] == [] && p[1..] == [];
    } else if |p| > 1 {
      assert p[1..][..|p| - 2] == p[..|p| - 1][1..];
      if Blocked(v, p[0]).None? {
        SetSucceeds(Slot(v, p[0]), p[1..], leaf);
        if !HasChild(v, p[0]) {
          assert Blocked(Null, p[1..][0]).Some?;
        }
      }
    }
  }

  // ----- Lists of overrides -----

  type Override = (string, string)

  /** A raw value is JSON if it parses as JSON and a string otherwise. */
  function ParseValue(json: string -> Option<Json>, raw: string): Json {
    var v := json(raw);
    if v.Some? then v.value else Text(raw)
  }

  function ApplyOne(json: string -> Option<Json>, v: Json, o: Override): Result<Json, Error> {
    var p := Parse(o.0);
    if p.Err? then Err(p.error)
    else
      var r := Set(v, p.value, ParseValue(json, o.1));
      if r.1.Some? then Err(r.1.value) else Ok(r.0)
  }

  function ApplyAll(json: string -> Option<Json>, v: Json, os: seq<Override>): Result<Json, Error>
    decreases |os|
  {
    if os == [] then Ok(v)
    else
      var r := ApplyOne(json, v, os[0]);
      if r.Err? then r else ApplyAll(json, r.value, os[1..])
  }

  /** One override on a path that can be set: the path then reads the raw value as JSON, or as a string when it is
      none, and every path that diverges reads what it did. */
  lemma OverrideRead(json: string -> Option<Json>, v: Json, path: string, raw: string, other: Path)
    requires Parse(path).Ok? && Settable(v, Parse(path).value)
    ensures var r := ApplyAll(json, v, [(path, raw)]);
            && r.Ok?
            && Get(r.value, Parse(path).value) == Some(if json(raw).Some? then json(raw).value else Text(raw))
            && (Diverge(Parse(path).value, other) ==> Get(r.value, other) == Get(v, other))
  {
    var p, leaf := Parse(path).value, ParseValue(json, raw);
    SetSucceeds(v, p, leaf);
    SetGet(v, p, leaf, []);
    EmptySides(p);
    assert [(path, raw)][1..] == [];
    if Diverge(p, other) {
      SetElsewhere(v, p, leaf, other);
    }
  }

  /** A profile and its conversions to and from JSON. */
  class ProfileCell<P> {
    var profile: P
    const toJson: P -> Json
    const fromJson: Json -> Option<P>
    const json: string -> Option<Json>

    constructor (profile: P, toJson: P -> Json, fromJson: Json -> Option<P>, json: string -> Option<Json>)
      ensures this.profile == profile && this.toJson == toJson && this.fromJson == fromJson && this.json == json
    {
      this.profile, this.toJson, this.fromJson, this.json := profile, toJson, fromJson, json;
    }

    /** All overrides apply and the result is a profile, or the profile is untouched. */
    method ApplySetOverrides(overrides: seq<Override>) returns (error: Option<Error>)
      modifies this
      ensures var applied := ApplyAll(json, toJson(old(profile)), overrides);
              && (error.None? <==> applied.Ok? && fromJson(applied.value).Some?)
              && (error.None? ==> fromJson(applied.value) == Some(profile))
              && (error.Some? ==> profile == old(profile))
              && (error.Some? ==> error.value == if applied.Err? then applied.error else BadProfile)
    {
      var value := toJson(profile);
      ghost var goal := ApplyAll(json, value, overrides);
      assert overrides[0..] == overrides;
      for i := 0 to |overrides|
        invariant profile == old(profile)
        invariant ApplyAll(json, value, overrides[i..]) == goal
      {
        assert overrides[i..][1..] == overrides[i + 1..];
        var parsed := ParseValue(json, overrides[i].1);
        var segments := ParsePath(overrides[i].0);
        if segments.Err? {
          return Some(segments.error);
        }
        var failed;
        value, failed := SetAtPath(value, segments.value, parsed);
        if failed.Some? {
          return failed;
        }
      }
      var converted := fromJson(value);
      if converted.None? {
        return Some(BadProfile);
      }
      profile := converted.value;
      return None;
    }
  }

  /** Neighbouring overrides whose paths diverge may be swapped: both orders apply or neither does, and they
      give the same tree. */
  lemma OverridesSwap(json: string -> Option<Json>, v: Json, a: Override, b: Override, rest: seq<Override>)
    requires Parse(a.0).Ok? && Parse(b.0).Ok? && Diverge(Parse(a.0).value, Parse(b.0).value)
    ensures var ab, ba := ApplyAll(json, v, [a, b] + rest), ApplyAll(json, v, [b, a] + rest);
            (ab.Ok? <==> ba.Ok?) && (ab.Ok? ==> ab == ba)
  {
    SetsCommute(v, Parse(a.0).value, ParseValue(json, a.1), Parse(b.0).value, ParseValue(json, b.1));
    TwoOverrides(json, v, a, b, rest);
    TwoOverrides(json, v, b, a, rest);
  }

  lemma TwoOverrides(json: string -> Option<Json>, v: Json, a: Override, b: Override, rest: seq<Override>)
    requires Parse(a.0).Ok? && Parse(b.0).Ok?
    ensures var x := Set(v, Parse(a.0).value, ParseValue(json, a.1));
            var y := Set(x.0, Parse(b.0).value, ParseValue(json, b.1));
            var r := ApplyAll(json, v, [a, b] + rest);
            if x.1.Some? || y.1.Some? then r.Err? else r == ApplyAll(json, y.0, rest)
  {
    var os := [a, b] + rest;
    assert os[1..] == [b] + rest && os[0] == a;
    SplitAt([b], rest);
  }
}
