/** Text from a regular expression: the tree walk over a stream of random draws, and the language it
    walks in. */
module RegexGen {
  import opened Basics

  const MAX_REPEAT: nat := 16
  const U32: nat := 0x1_0000_0000

  /** An inclusive range of scalar values. */
  datatype Range = Range(start: char, end: char)

  datatype Hir =
    | Empty
    | Look
    | Literal(text: string)
    | Class(ranges: seq<Range>)
    | Repetition(min: nat, max: Option<nat>, sub: Hir)
    | Capture(sub: Hir)
    | Concat(subs: seq<Hir>)
    | Alternation(subs: seq<Hir>)

  // ----- Draws -----

  type Draws = seq<nat>

  /** A uniform number below `n`: any number at all, depending on the stream. */
  function Draw(ds: Draws, n: nat): (r: nat)
    requires n > 0
    ensures r < n
  {
    if ds == [] then 0 else ds[0] % n
  }

  function Rest(ds: Draws): Draws { if ds == [] then [] else ds[1..] }

  class Rng {
    var draws: Draws

    constructor (ds: Draws)
      ensures draws == ds
    {
      draws := ds;
    }

    method Below(n: nat) returns (r: nat)
      requires n > 0
      modifies this
      ensures r == Draw(old(draws), n) && draws == Rest(old(draws))
    {
      r := Draw(draws, n);
      draws := Rest(draws);
    }
  }

  // ----- Classes -----

  function Span(r: Range): int { r.end as int - r.start as int + 1 }

  predicate Ordered(ranges: seq<Range>) { forall i | 0 <= i < |ranges| :: ranges[i].start <= ranges[i].end }

  function Total(ranges: seq<Range>): nat
    requires Ordered(ranges)
  {
    if ranges == [] then 0 else Span(ranges[0]) + Total(ranges[1..])
  }

  predicate Surrogate(n: int) { 0xD800 <= n < 0xE000 }

  predicate Scalar(n: int) { 0 <= n < 0x11_0000 && !Surrogate(n) }

  /** `char::from_u32`, as text: a surrogate is no character. */
  function FromCode(n: int): string { if Scalar(n) then [n as char] else "" }

  /** The text of the `pick`-th position of a class. */
  function Picked(ranges: seq<Range>, pick: nat): string
    requires Ordered(ranges)
  {
    if ranges == [] then ""
    else if pick < Span(ranges[0]) then FromCode(ranges[0].start as int + pick)
    else Picked(ranges[1..], pick - Span(ranges[0]))
  }

  function GenClass(ranges: seq<Range>, ds: Draws): (string, Draws)
    requires Ordered(ranges)
  {
    if Total(ranges) == 0 then ("", ds) else (Picked(ranges, Draw(ds, Total(ranges))), Rest(ds))
  }

  lemma TotalPositive(ranges: seq<Range>)
    requires Ordered(ranges)
    ensures Total(ranges) == 0 <==> ranges == []
  {
  }

  method WriteClass(ranges: seq<Range>, rng: Rng, out: TextBuffer)
    requires Ordered(ranges)
    modifies rng, out
    ensures out.text == old(out.text) + GenClass(ranges, old(rng.draws)).0
    ensures rng.draws == GenClass(ranges, old(rng.draws)).1
  {
    TotalPositive(ranges);
    if ranges == [] {
      EmptySides(out.text);
      return;
    }
    var total := 0;
    for i := 0 to |ranges|
      invariant total + Total(ranges[i..]) == Total(ranges)
    {
      assert ranges[i..][1..] == ranges[i + 1..];
      total := total + Span(ranges[i]);
    }
    var pick: int := rng.Below(total);
    ghost var drawn := pick;
    for i := 0 to |ranges|
      invariant 0 <= pick && Picked(ranges[i..], pick) == Picked(ranges, drawn)
      invariant out.text == old(out.text)
    {
      var r := ranges[i];
      assert ranges[i..][1..] == ranges[i + 1..];
      var span := Span(r);
      if pick < span {
        var code := r.start as int + pick;
        if Scalar(code) {
          out.PushStr([code as char]);
        } else {
          EmptySides(out.text);
        }
        return;
      }
      pick := pick - span;
    }
    EmptySides(out.text);
  }

  // ----- The walk -----

  function Cap(min: nat): nat { (min + MAX_REPEAT) % U32 }

  /** The greatest number of repetitions; the sum that limits it wraps at 32 bits. */
  function Most(min: nat, max: Option<nat>): nat {
    var bound := if max.Some? then max.value else Cap(min);
    if bound < Cap(min) then bound else Cap(min)
  }

  function Count(min: nat, max: Option<nat>, ds: Draws): (nat, Draws) {
    if Most(min, max) > min then (min + Draw(ds, Most(min, max) - min + 1), Rest(ds)) else (min, ds)
  }

  predicate Valid(h: Hir) {
    match h
    case Class(ranges) => Ordered(ranges)
    case Repetition(min, max, sub) => (max.Some? ==> min <= max.value) && Valid(sub)
    case Capture(sub) => Valid(sub)
    case Concat(subs) => forall i | 0 <= i < |subs| :: Valid(subs[i])
    case Alternation(subs) => forall i | 0 <= i < |subs| :: Valid(subs[i])
    case _ => true
  }

  /** The text a stream of draws yields, and the draws left over. */
  function Gen(h: Hir, ds: Draws): (string, Draws)
    requires Valid(h)
    decreases h
  {
    match h
    case Empty => ("", ds)
    case Look => ("", ds)
    case Literal(text) => (text, ds)
    case Class(ranges) => GenClass(ranges, ds)
    case Repetition(min, max, sub) => var n := Count(min, max, ds); GenTimes(h, n.0, n.1)
    case Capture(sub) => Gen(sub, ds)
    case Concat(subs) => GenFrom(h, 0, ds)
    case Alternation(subs) => if subs == [] then ("", ds) else Gen(subs[Draw(ds, |subs|)], Rest(ds))
  }

  function GenTimes(h: Hir, n: nat, ds: Draws): (string, Draws)
    requires h.Repetition? && Valid(h)
    decreases h, n
  {
    if n == 0 then ("", ds)
    else
      var first := Gen(h.sub, ds);
      var more := GenTimes(h, n - 1, first.1);
      (first.0 + more.0, more.1)
  }

  function GenFrom(h: Hir, i: nat, ds: Draws): (string, Draws)
    requires h.Concat? && Valid(h) && i <= |h.subs|
    decreases h, |h.subs| - i
  {
    if i == |h.subs| then ("", ds)
    else
      var first := Gen(h.subs[i], ds);
      var more := GenFrom(h, i + 1, first.1);
      (first.0 + more.0, more.1)
  }

  method GenHir(h: Hir, rng: Rng, out: TextBuffer)
    requires Valid(h)
    modifies rng, out
    ensures out.text == old(out.text) + Gen(h, old(rng.draws)).0
    ensures rng.draws == Gen(h, old(rng.draws)).1
    decreases h
  {
    match h {
      case Empty =>
        EmptySides(out.text);
      case Look =>
        EmptySides(out.text);
      case Literal(text) =>
        out.PushStr(text);
      case Class(ranges) =>
        WriteClass(ranges, rng, out);
      case Repetition(min, max, sub) =>
        WriteRepetition(h, rng, out);
      case Capture(sub) =>
        GenHir(sub, rng, out);
      case Concat(subs) =>
        WriteConcat(h, rng, out);
      case Alternation(subs) =>
        if subs != [] {
          var index := rng.Below(|subs|);
          GenHir(subs[index], rng, out);
        } else {
          EmptySides(out.text);
        }
    }
  }

  method WriteRepetition(h: Hir, rng: Rng, out: TextBuffer)
    requires h.Repetition? && Valid(h)
    modifies rng, out
    ensures out.text == old(out.text) + Gen(h, old(rng.draws)).0
    ensures rng.draws == Gen(h, old(rng.draws)).1
    decreases h, 0
  {
    ghost var start, goal := out.text, Gen(h, rng.draws);
    var min := h.min;
    var max := Most(min, h.max);
    var count := min;
    if max > min {
      var extra := rng.Below(max - min + 1);
      count := min + extra;
    }
    assert GenTimes(h, count, rng.draws) == goal;
    for i := 0 to count
      invariant var more := GenTimes(h, count - i, rng.draws); out.text + more.0 == start + goal.0 && more.1 == goal.1
    {
      ghost var before, first := out.text, Gen(h.sub, rng.draws);
      Assoc(before, first.0, GenTimes(h, count - i - 1, first.1).0);
      GenHir(h.sub, rng, out);
    }
    EmptySides(out.text);
  }

  method WriteConcat(h: Hir, rng: Rng, out: TextBuffer)
    requires h.Concat? && Valid(h)
    modifies rng, out
    ensures out.text == old(out.text) + Gen(h, old(rng.draws)).0
    ensures rng.draws == Gen(h, old(rng.draws)).1
    decreases h, 0
  {
    ghost var start, goal := out.text, Gen(h, rng.draws);
    for i := 0 to |h.subs|
      invariant var more := GenFrom(h, i, rng.draws); out.text + more.0 == start + goal.0 && more.1 == goal.1
    {
      ghost var before, first := out.text, Gen(h.subs[i], rng.draws);
      Assoc(before, first.0, GenFrom(h, i + 1, first.1).0);
      GenHir(h.subs[i], rng, out);
    }
    EmptySides(out.text);
  }

  // ----- The language -----

  predicate InClass(ranges: seq<Range>, c: char) {
    exists i :: 0 <= i < |ranges| && ranges[i].start <= c <= ranges[i].end
  }

  /** May the repetition be taken `n` times?  Without the cap: at least `min`, at most `max` if given. */
  predicate Allowed(h: Hir, n: nat, capped: bool)
    requires h.Repetition?
  {
    && n >= h.min && (h.max.Some? ==> n <= h.max.value)
    && (capped ==> n == h.min || n <= Most(h.min, h.max))
  }

  /** The strings of a tree, look-around aside; `capped` limits every repetition as the walk does. */
  ghost predicate Lang(h: Hir, s: string, capped: bool)
    decreases h
  {
    match h
    case Empty => s == ""
    case Look => s == ""
    case Literal(text) => s == text
    case Class(ranges) => |s| == 1 && InClass(ranges, s[0])
    case Repetition(min, max, sub) => exists n: nat :: Allowed(h, n, capped) && LangTimes(h, n, s, capped)
    case Capture(sub) => Lang(sub, s, capped)
    case Concat(subs) => LangFrom(h, 0, s, capped)
    case Alternation(subs) => exists i :: 0 <= i < |subs| && Lang(subs[i], s, capped)
  }

  ghost predicate LangTimes(h: Hir, n: nat, s: string, capped: bool)
    requires h.Repetition?
    decreases h, n
  {
    if n == 0 then s == ""
    else exists k :: 0 <= k <= |s| && Lang(h.sub, s[..k], capped) && LangTimes(h, n - 1, s[k..], capped)
  }

  ghost predicate LangFrom(h: Hir, i: nat, s: string, capped: bool)
    requires h.Concat? && i <= |h.subs|
    decreases h, |h.subs| - i
  {
    if i == |h.subs| then s == ""
    else exists k :: 0 <= k <= |s| && Lang(h.subs[i], s[..k], capped) && LangFrom(h, i + 1, s[k..], capped)
  }

  /** No range of a class straddles the surrogate gap. */
  predicate GapFree(ranges: seq<Range>) {
    forall i | 0 <= i < |ranges| :: !(ranges[i].start as int < 0xD800 && 0xE000 <= ranges[i].end as int)
  }

  /** No look-around, no empty class or alternation, no class across the gap. */
  predicate Clean(h: Hir) {
    match h
    case Empty => true
    case Look => false
    case Literal(_) => true
    case Class(ranges) => ranges != [] && GapFree(ranges)
    case Repetition(_, _, sub) => Clean(sub)
    case Capture(sub) => Clean(sub)
    case Concat(subs) => forall i | 0 <= i < |subs| :: Clean(subs[i])
    case Alternation(subs) => subs != [] && forall i | 0 <= i < |subs| :: Clean(subs[i])
  }

  // ----- Soundness -----

  lemma {:induction false} PickedInClass(ranges: seq<Range>, pick: nat)
    requires Ordered(ranges) && GapFree(ranges) && pick < Total(ranges)
    ensures |Picked(ranges, pick)| == 1 && InClass(ranges, Picked(ranges, pick)[0])
  {
    var r := ranges[0];
    if pick < Span(r) {
      assert r.start as int <= r.start as int + pick <= r.end as int;
      assert ranges[0].start <= Picked(ranges, pick)[0] <= ranges[0].end;
    } else {
      PickedInClass(ranges[1..], pick - Span(r));
      var i :| 0 <= i < |ranges[1..]| && ranges[1..][i].start <= Picked(ranges, pick)[0] <= ranges[1..][i].end;
      assert ranges[i + 1] == ranges[1..][i];
    }
  }

  /** Every stream of draws yields a string of the language, even with the repetitions capped. */
  lemma {:induction false} GenSound(h: Hir, ds: Draws)
    requires Valid(h) && Clean(h)
    ensures Lang(h, Gen(h, ds).0, true)
    decreases h
  {
    match h
    case Class(ranges) =>
      TotalPositive(ranges);
      PickedInClass(ranges, Draw(ds, Total(ranges)));
    case Repetition(min, max, sub) =>
      var n := Count(min, max, ds);
      assert Allowed(h, n.0, true);
      TimesSound(h, n.0, n.1);
    case Capture(sub) => GenSound(sub, ds);
    case Concat(subs) => FromSound(h, 0, ds);
    case Alternation(subs) => GenSound(subs[Draw(ds, |subs|)], Rest(ds));
    case _ =>
  }

  lemma {:induction false} TimesSound(h: Hir, n: nat, ds: Draws)
    requires h.Repetition? && Valid(h) && Clean(h)
    ensures LangTimes(h, n, GenTimes(h, n, ds).0, true)
    decreases h, n
  {
    if n > 0 {
      var first := Gen(h.sub, ds);
      GenSound(h.sub, ds);
      TimesSound(h, n - 1, first.1);
      SplitAt(first.0, GenTimes(h, n - 1, first.1).0);
    }
  }

  lemma {:induction false} FromSound(h: Hir, i: nat, ds: Draws)
    requires h.Concat? && Valid(h) && Clean(h) && i <= |h.subs|
    ensures LangFrom(h, i, GenFrom(h, i, ds).0, true)
    decreases h, |h.subs| - i
  {
    if i < |h.subs| {
      var first := Gen(h.subs[i], ds);
      GenSound(h.subs[i], ds);
      FromSound(h, i + 1, first.1);
      SplitAt(first.0, GenFrom(h, i + 1, first.1).0);
    }
  }

  /** A stream whose draw falls into the gap of a class that straddles it. */
  lemma {:induction false} GapPick(ranges: seq<Range>) returns (pick: nat)
    requires Ordered(ranges) && !GapFree(ranges)
    ensures pick < Total(ranges) && Picked(ranges, pick) == ""
  {
    var r := ranges[0];
    if r.start as int < 0xD800 && 0xE000 <= r.end as int {
      pick := 0xD800 - r.start as int;
    } else {
      assert forall i | 0 <= i < |ranges[1..]| :: ranges[1..][i] == ranges[i + 1];
      var p := GapPick(ranges[1..]);
      pick := p + Span(r);
    }
  }

  /** One character of the class, whatever is drawn. */
  ghost predicate AlwaysYields(ranges: seq<Range>)
    requires Ordered(ranges)
  {
    forall ds: Draws :: Lang(Class(ranges), GenClass(ranges, ds).0, false)
  }

  lemma GapMisses(ranges: seq<Range>) returns (ds: Draws)
    requires Ordered(ranges) && (ranges == [] || !GapFree(ranges))
    ensures GenClass(ranges, ds).0 == ""
  {
    TotalPositive(ranges);
    ds := [];
    if ranges != [] {
      var pick := GapPick(ranges);
      ds := [pick] + [];
      DrawFront(pick, [], Total(ranges));
    }
  }

  /** A class always yields one of its characters exactly when it has some and no range straddles the
      surrogate gap; otherwise a draw yields nothing. */
  lemma ClassAlwaysYields(ranges: seq<Range>)
    requires Ordered(ranges)
    ensures AlwaysYields(ranges) <==> ranges != [] && GapFree(ranges)
  {
    TotalPositive(ranges);
    if ranges == [] || !GapFree(ranges) {
      var ds := GapMisses(ranges);
      assert !Lang(Class(ranges), GenClass(ranges, ds).0, false);
    } else {
      forall ds: Draws
        ensures Lang(Class(ranges), GenClass(ranges, ds).0, false)
      {
        PickedInClass(ranges, Draw(ds, Total(ranges)));
      }
    }
  }

  /** The complement of a single character, say, straddles the gap: the walk can return no character. */
  lemma ComplementStraddles()
    ensures !GapFree([Range(0 as char, 0x9 as char), Range(0xB as char, 0x10_FFFF as char)])
  {
    var ranges := [Range(0 as char, 0x9 as char), Range(0xB as char, 0x10_FFFF as char)];
    assert ranges[1].start as int < 0xD800 && 0xE000 <= ranges[1].end as int;
  }

  // ----- The cap -----

  /** Short of the wrap, the cap is sixteen more than the least number of repetitions. */
  lemma CapMeans(h: Hir, n: nat)
    requires h.Repetition? && Valid(h) && h.min + 16 < 0x1_0000_0000
    ensures Allowed(h, n, true) <==> h.min <= n <= h.min + 16 && (h.max.Some? ==> n <= h.max.value)
  {
  }

  /** The capped language is part of the language. */
  lemma {:induction false} CappedInLanguage(h: Hir, s: string)
    requires Lang(h, s, true)
    ensures Lang(h, s, false)
    decreases h
  {
    match h
    case Repetition(min, max, sub) =>
      var n: nat :| Allowed(h, n, true) && LangTimes(h, n, s, true);
      CappedTimes(h, n, s);
      assert Allowed(h, n, false);
    case Capture(sub) => CappedInLanguage(sub, s);
    case Concat(subs) => CappedFrom(h, 0, s);
    case Alternation(subs) =>
      var i :| 0 <= i < |subs| && Lang(subs[i], s, true);
      CappedInLanguage(subs[i], s);
    case _ =>
  }

  lemma {:induction false} CappedTimes(h: Hir, n: nat, s: string)
    requires h.Repetition? && LangTimes(h, n, s, true)
    ensures LangTimes(h, n, s, false)
    decreases h, n
  {
    if n > 0 {
      var k :| 0 <= k <= |s| && Lang(h.sub, s[..k], true) && LangTimes(h, n - 1, s[k..], true);
      CappedInLanguage(h.sub, s[..k]);
      CappedTimes(h, n - 1, s[k..]);
    }
  }

  lemma {:induction false} CappedFrom(h: Hir, i: nat, s: string)
    requires h.Concat? && i <= |h.subs| && LangFrom(h, i, s, true)
    ensures LangFrom(h, i, s, false)
    decreases h, |h.subs| - i
  {
    if i < |h.subs| {
      var k :| 0 <= k <= |s| && Lang(h.subs[i], s[..k], true) && LangFrom(h, i + 1, s[k..], true);
      CappedInLanguage(h.subs[i], s[..k]);
      CappedFrom(h, i + 1, s[k..]);
    }
  }

  // ----- Completeness -----

  lemma DrawFront(v: nat, rest: Draws, n: nat)
    requires v < n
    ensures Draw([v] + rest, n) == v && Rest([v] + rest) == rest
  {
  }

  lemma {:induction false} PickFor(ranges: seq<Range>, c: char) returns (pick: nat)
    requires Ordered(ranges) && InClass(ranges, c)
    ensures pick < Total(ranges) && Picked(ranges, pick) == [c]
  {
    var r := ranges[0];
    if r.start <= c <= r.end {
      pick := c as int - r.start as int;
    } else {
      var i :| 0 <= i < |ranges| && ranges[i].start <= c <= ranges[i].end;
      assert ranges[1..][i - 1] == ranges[i];
      var p := PickFor(ranges[1..], c);
      pick := p + Span(r);
    }
  }

  lemma ClassComplete(ranges: seq<Range>, c: char, rest: Draws) returns (ds: Draws)
    requires Ordered(ranges) && InClass(ranges, c)
    ensures GenClass(ranges, ds + rest) == ([c], rest)
  {
    var pick := PickFor(ranges, c);
    ds := [pick];
    DrawFront(pick, rest, Total(ranges));
  }

  lemma CountComplete(h: Hir, n: nat, more: Draws, rest: Draws) returns (ds: Draws)
    requires h.Repetition? && Allowed(h, n, true)
    ensures Count(h.min, h.max, ds + rest) == (n, more + rest)
  {
    if Most(h.min, h.max) > h.min {
      ds := [n - h.min] + more;
      DrawFront(n - h.min, more + rest, Most(h.min, h.max) - h.min + 1);
      Assoc([n - h.min], more, rest);
    } else {
      ds := more;
    }
  }

  /** Every string of the capped language is the text of some stream, which the walk uses up exactly:
      whatever follows the stream is left over. */
  lemma {:induction false} GenComplete(h: Hir, s: string, rest: Draws) returns (ds: Draws)
    requires Valid(h) && Lang(h, s, true)
    ensures Gen(h, ds + rest) == (s, rest)
    decreases h
  {
    EmptySides(rest);
    ds := [];
    match h
    case Class(ranges) =>
      ds := ClassComplete(ranges, s[0], rest);
      assert s == [s[0]];
    case Repetition(min, max, sub) =>
      var n: nat :| Allowed(h, n, true) && LangTimes(h, n, s, true);
      var more := TimesComplete(h, n, s, rest);
      ds := CountComplete(h, n, more, rest);
    case Capture(sub) => ds := GenComplete(sub, s, rest);
    case Concat(subs) => ds := FromComplete(h, 0, s, rest);
    case Alternation(subs) =>
      var i :| 0 <= i < |subs| && Lang(subs[i], s, true);
      var more := GenComplete(subs[i], s, rest);
      ds := [i] + more;
      DrawFront(i, more + rest, |subs|);
      Assoc([i], more, rest);
    case _ =>
  }

  lemma {:induction false} TimesComplete(h: Hir, n: nat, s: string, rest: Draws) returns (ds: Draws)
    requires h.Repetition? && Valid(h) && LangTimes(h, n, s, true)
    ensures GenTimes(h, n, ds + rest) == (s, rest)
    decreases h, n
  {
    if n == 0 {
      ds := [];
      EmptySides(rest);
    } else {
      var k :| 0 <= k <= |s| && Lang(h.sub, s[..k], true) && LangTimes(h, n - 1, s[k..], true);
      var more := TimesComplete(h, n - 1, s[k..], rest);
      var first := GenComplete(h.sub, s[..k], more + rest);
      ds := first + more;
      TimesJoin(h, n, s, k, first, more, rest);
    }
  }

  lemma TimesJoin(h: Hir, n: nat, s: string, k: nat, first: Draws, more: Draws, rest: Draws)
    requires h.Repetition? && Valid(h) && n > 0 && k <= |s|
    requires Gen(h.sub, first + (more + rest)) == (s[..k], more + rest)
    requires GenTimes(h, n - 1, more + rest) == (s[k..], rest)
    ensures GenTimes(h, n, first + more + rest) == (s, rest)
  {
    Assoc(first, more, rest);
    CutJoin(s, k);
  }

  lemma {:induction false} FromComplete(h: Hir, i: nat, s: string, rest: Draws) returns (ds: Draws)
    requires h.Concat? && Valid(h) && i <= |h.subs| && LangFrom(h, i, s, true)
    ensures GenFrom(h, i, ds + rest) == (s, rest)
    decreases h, |h.subs| - i
  {
    if i == |h.subs| {
      ds := [];
      EmptySides(rest);
    } else {
      var k :| 0 <= k <= |s| && Lang(h.subs[i], s[..k], true) && LangFrom(h, i + 1, s[k..], true);
      var more := FromComplete(h, i + 1, s[k..], rest);
      var first := GenComplete(h.subs[i], s[..k], more + rest);
      ds := first + more;
      Assoc(first, more, rest);
      assert s[..k] + s[k..] == s;
    }
  }

  /** The walk yields exactly the capped language. */
  lemma GenExact(h: Hir, s: string)
    requires Valid(h) && Clean(h)
    ensures Lang(h, s, true) <==> exists ds: Draws :: Gen(h, ds).0 == s
  {
    if Lang(h, s, true) {
      var ds := GenComplete(h, s, []);
      EmptySides(ds);
      assert Gen(h, ds).0 == s;
    }
    if exists ds: Draws :: Gen(h, ds).0 == s {
      var ds: Draws :| Gen(h, ds).0 == s;
      GenSound(h, ds);
    }
  }
}
