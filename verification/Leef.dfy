/** IBM QRadar LEEF 2.0: the printer, a parser for it, and their inverse. */
module Leef {
  import opened Basics
  import opened Escaping
  import Utf8

  /** `attributes` lists the sorted map's entries in iteration order; text fields are UTF-8 bytes. */
  datatype Config = Config(
    vendor: Bytes,
    product: Bytes,
    version: Bytes,
    eventId: Bytes,
    attributes: Option<seq<Pair>>)

  const PREFIX: Bytes := [76, 69, 69, 70, 58, 50, 46, 48, PIPE] // LEEF:2.0|
  const MSG: Bytes := [109, 115, 103]                           // msg
  const LETTER_T: Byte := 116
  const LETTER_N: Byte := 110

  const VALUE_CODE: Code :=
    map[BACKSLASH := BACKSLASH, EQUALS := EQUALS, TAB := LETTER_T, LF := LETTER_N]
  const VALUE_DECODE: Code :=
    map[BACKSLASH := BACKSLASH, EQUALS := EQUALS, LETTER_T := TAB, LETTER_N := LF]

  /** Backslash and equals sign of a value get a backslash in front, a tab becomes backslash and t, a line feed
      backslash and n, and no other byte is changed. */
  lemma ValueEscapes(b: Byte)
    ensures Escape([b], VALUE_CODE)
         == if b == 92 || b == 61 then [92, b] else if b == 9 then [92, 116] else if b == 10 then [92, 110] else [b]
  {
    EmptySides(EscapeByte(b, VALUE_CODE));
    assert [b][1..] == [];
  }

  function Entries(c: Config): seq<Pair> {
    if c.attributes.Some? then c.attributes.value else []
  }

  // ----- The text of an event -----

  function Header(c: Config): Bytes {
    Escape(c.vendor, HEADER_CODE) + [PIPE] + Escape(c.product, HEADER_CODE) + [PIPE]
    + Escape(c.version, HEADER_CODE) + [PIPE] + Escape(c.eventId, HEADER_CODE)
  }

  function PairText(p: Pair): Bytes { p.0 + [EQUALS] + Escape(p.1, VALUE_CODE) }

  /** The pairs, each closed by a TAB. */
  function PairsText(pairs: seq<Pair>): Bytes {
    if pairs == [] then [] else PairText(pairs[0]) + [TAB] + PairsText(pairs[1..])
  }

  function Event(c: Config, msg: Bytes): Bytes {
    PREFIX + Header(c) + [TAB] + PairsText(Entries(c)) + PairText((MSG, Body(msg))) + [LF]
  }

  // ----- The printer -----

  method EscapeAttrValueInto(out: ByteBuffer, s: Bytes)
    modifies out
    ensures out.data == old(out.data) + Escape(s, VALUE_CODE)
  {
    for i := 0 to |s|
      invariant out.data == old(out.data) + Escape(s[..i], VALUE_CODE)
    {
      EscapeSnoc(s[..i], s[i], VALUE_CODE);
      assert s[..i + 1] == s[..i] + [s[i]];
      if s[i] == BACKSLASH {
        out.Push(BACKSLASH);
        out.Push(BACKSLASH);
      } else if s[i] == EQUALS {
        out.Push(BACKSLASH);
        out.Push(EQUALS);
      } else if s[i] == TAB {
        out.Push(BACKSLASH);
        out.Push(LETTER_T);
      } else if s[i] == LF {
        out.Push(BACKSLASH);
        out.Push(LETTER_N);
      } else {
        out.Push(s[i]);
      }
    }
    assert s[..|s|] == s;
  }

  /** A pipe and the next header field. */
  method WriteNextField(out: ByteBuffer, s: Bytes)
    modifies out
    ensures out.data == old(out.data) + [PIPE] + Escape(s, HEADER_CODE)
  {
    out.Push(PIPE);
    EscapeHeaderInto(out, s);
  }

  method WriteHeader(out: ByteBuffer, c: Config)
    modifies out
    ensures out.data == old(out.data) + PREFIX + Header(c)
  {
    ghost var base := out.data + PREFIX;
    out.Extend(PREFIX);
    EscapeHeaderInto(out, c.vendor);
    WriteNextField(out, c.product);
    WriteNextField(out, c.version);
    WriteNextField(out, c.eventId);
    HeaderJoin(base, Escape(c.vendor, HEADER_CODE), Escape(c.product, HEADER_CODE), Escape(c.version, HEADER_CODE),
      Escape(c.eventId, HEADER_CODE));
  }

  lemma HeaderJoin(base: Bytes, a: Bytes, b: Bytes, c: Bytes, d: Bytes)
    ensures base + a + [PIPE] + b + [PIPE] + c + [PIPE] + d
         == base + (a + [PIPE] + b + [PIPE] + c + [PIPE] + d)
  {
    var ab := a + [PIPE] + b;
    var abc := ab + [PIPE] + c;
    Assoc(base, a, [PIPE]);
    Assoc(base, a + [PIPE], b);
    Assoc(base, ab, [PIPE]);
    Assoc(base, ab + [PIPE], c);
    Assoc(base, abc, [PIPE]);
    Assoc(base, abc + [PIPE], d);
  }

  method WritePair(out: ByteBuffer, p: Pair)
    modifies out
    ensures out.data == old(out.data) + PairText(p)
  {
    out.Extend(p.0);
    out.Push(EQUALS);
    EscapeAttrValueInto(out, p.1);
  }

  method WriteAttributes(out: ByteBuffer, pairs: seq<Pair>)
    modifies out
    ensures out.data == old(out.data) + PairsText(pairs)
  {
    ghost var base := out.data;
    if pairs != [] {
      ghost var written := PairsText([]);
      assert base == base + written;
      for i := 0 to |pairs|
        invariant i == 0 ==> out.data == base
        invariant i > 0 ==> out.data + [TAB] == base + PairsText(pairs[..i])
      {
        assert pairs[..i + 1] == pairs[..i] + [pairs[i]];
        PairsTextSnoc(pairs[..i], pairs[i]);
        if i > 0 {
          out.Push(TAB);
        }
        WritePair(out, pairs[i]);
      }
      assert pairs[..|pairs|] == pairs;
      out.Push(TAB);
    } else {
      assert base + PairsText(pairs) == base;
    }
  }

  method Build(c: Config, msg: Bytes) returns (result: Bytes)
    ensures result == Event(c, msg)
  {
    var out := new ByteBuffer();
    WriteHeader(out, c);
    out.Push(TAB);
    WriteAttributes(out, Entries(c));
    WritePair(out, (MSG, Body(msg)));
    out.Push(LF);
    assert [] + PREFIX == PREFIX;
    return out.data;
  }

  lemma {:induction false} PairsTextSnoc(pairs: seq<Pair>, p: Pair)
    ensures PairsText(pairs + [p]) == PairsText(pairs) + PairText(p) + [TAB]
  {
    var all := pairs + [p];
    if pairs == [] {
      EmptySides(all);
      assert all == [p] && all[1..] == [];
      EmptySides(PairText(p) + [TAB]);
      EmptySides(PairText(p));
    } else {
      PairsTextSnoc(pairs[1..], p);
      HeadTail(pairs, [p]);
      var front, more := PairText(pairs[0]) + [TAB], PairsText(pairs[1..]);
      Assoc(front, more, PairText(p));
      Assoc(front, more + PairText(p), [TAB]);
    }
  }

  // ----- The parser -----

  datatype Parsed = Parsed(vendor: Bytes, product: Bytes, version: Bytes, eventId: Bytes, pairs: seq<Pair>)

  /** The first position of `b`, or the length. */
  function IndexOf(s: Bytes, b: Byte): (r: nat)
    ensures r <= |s|
  {
    if s == [] || s[0] == b then 0 else 1 + IndexOf(s[1..], b)
  }

  /** A header field and what follows its stop byte. */
  function ParseField(s: Bytes, stop: Byte): Option<(Bytes, Bytes)> {
    var f := Field(s, {stop}, HEADER_CODE);
    if f.None? || f.value.1 == [] then None else Some((f.value.0, f.value.1[1..]))
  }

  /** Attributes separated by TAB up to the LF that ends the event.  A key runs to the first equals
      sign. */
  function ParsePairs(s: Bytes): Option<seq<Pair>>
    decreases |s|
  {
    var at := IndexOf(s, EQUALS);
    if at == |s| then None
    else
      var v := Field(s[at + 1..], {TAB, LF}, VALUE_DECODE);
      if v.None? || v.value.1 == [] || |v.value.1| >= |s| then None
      else
        var pair, rest := (s[..at], v.value.0), v.value.1;
        if rest == [LF] then Some([pair])
        else if rest[0] == TAB then
          var more := ParsePairs(rest[1..]);
          if more.None? then None else Some([pair] + more.value)
        else None
  }

  function Parse(s: Bytes): Option<Parsed> {
    if !(PREFIX <= s) then None
    else
      var vendor := ParseField(s[|PREFIX|..], PIPE);
      if vendor.None? then None
      else
        var product := ParseField(vendor.value.1, PIPE);
        if product.None? then None
        else
          var version := ParseField(product.value.1, PIPE);
          if version.None? then None
          else
            var eventId := ParseField(version.value.1, TAB);
            if eventId.None? then None
            else
              var pairs := ParsePairs(eventId.value.1);
              if pairs.None? then None
              else Some(Parsed(vendor.value.0, product.value.0, version.value.0, eventId.value.0, pairs.value))
  }

  // ----- The parser inverts the printer -----

  predicate PlainHeader(s: Bytes) { TAB !in s && LF !in s }

  predicate PlainKey(s: Bytes) { TAB !in s && LF !in s && EQUALS !in s }

  predicate WellFormed(c: Config) {
    && PlainHeader(c.vendor) && PlainHeader(c.product) && PlainHeader(c.version) && PlainHeader(c.eventId)
    && forall i | 0 <= i < |Entries(c)| :: PlainKey(Entries(c)[i].0)
  }

  lemma ParseFieldText(s: Bytes, stop: Byte, rest: Bytes)
    requires stop == PIPE || (stop == TAB && TAB !in s)
    ensures ParseField(Escape(s, HEADER_CODE) + ([stop] + rest), stop) == Some((s, rest))
  {
    FieldEscaped(s, [stop] + rest, HEADER_CODE, {stop}, HEADER_CODE);
    assert ([stop] + rest)[1..] == rest;
  }

  lemma {:induction false} IndexOfAfter(key: Bytes, rest: Bytes, b: Byte)
    requires b !in key
    ensures IndexOf(key + ([b] + rest), b) == |key|
  {
    if key == [] {
      EmptySides([b] + rest);
    } else {
      IndexOfAfter(key[1..], rest, b);
      HeadTail(key, [b] + rest);
    }
  }

  /** One attribute and the text after it. */
  lemma PairParts(p: Pair, rest: Bytes)
    requires PlainKey(p.0) && rest != [] && rest[0] in {TAB, LF}
    ensures var s := PairText(p) + rest;
            && IndexOf(s, EQUALS) == |p.0| < |s| && s[..|p.0|] == p.0
            && Field(s[|p.0| + 1..], {TAB, LF}, VALUE_DECODE) == Some((p.1, rest))
            && |rest| < |s|
  {
    var v := Escape(p.1, VALUE_CODE) + rest;
    Assoc(p.0 + [EQUALS], Escape(p.1, VALUE_CODE), rest);
    SplitAt(p.0 + [EQUALS], v);
    Assoc(p.0, [EQUALS], v);
    SplitAt(p.0, [EQUALS] + v);
    IndexOfAfter(p.0, v, EQUALS);
    FieldEscaped(p.1, rest, VALUE_CODE, {TAB, LF}, VALUE_DECODE);
  }

  lemma ParseLast(p: Pair)
    requires PlainKey(p.0)
    ensures ParsePairs(PairText(p) + [LF]) == Some([p])
  {
    PairParts(p, [LF]);
  }

  lemma ParseOneMore(p: Pair, tail: Bytes, more: seq<Pair>)
    requires PlainKey(p.0) && ParsePairs(tail) == Some(more)
    ensures ParsePairs(PairText(p) + ([TAB] + tail)) == Some([p] + more)
  {
    var rest := [TAB] + tail;
    PairParts(p, rest);
    SplitAt([TAB], tail);
  }

  lemma {:induction false} ParsePairsText(pairs: seq<Pair>, last: Pair)
    requires PlainKey(last.0) && forall i | 0 <= i < |pairs| :: PlainKey(pairs[i].0)
    ensures ParsePairs(PairsText(pairs) + PairText(last) + [LF]) == Some(pairs + [last])
  {
    if pairs == [] {
      ParseLast(last);
      EmptySides(PairText(last));
      EmptySides([last]);
    } else {
      ParsePairsText(pairs[1..], last);
      ParseOneMore(pairs[0], PairsText(pairs[1..]) + PairText(last) + [LF], pairs[1..] + [last]);
      OneMoreText(PairText(pairs[0]), PairsText(pairs[1..]), PairText(last));
      Rejoin(pairs);
      Assoc([pairs[0]], pairs[1..], [last]);
    }
  }

  lemma OneMoreText(p: Bytes, more: Bytes, last: Bytes)
    ensures p + ([TAB] + (more + last + [LF])) == (p + [TAB] + more) + last + [LF]
  {
    Assoc(p, [TAB], more + last + [LF]);
    Assoc(p + [TAB], more, last);
    Assoc(p + [TAB], more + last, [LF]);
  }

  /** An event whose header fields hold no TAB or LF and whose keys hold no TAB, LF or equals sign
      decodes to exactly what was printed; values may hold anything. */
  lemma ParseEvent(c: Config, msg: Bytes)
    requires WellFormed(c)
    ensures Parse(Event(c, msg))
         == Some(Parsed(c.vendor, c.product, c.version, c.eventId,
                (if c.attributes.Some? then c.attributes.value else [])
                + [([109, 115, 103], if Utf8.Decode(msg).Some? then msg else [])]))
    ensures [76, 69, 69, 70, 58, 50, 46, 48, 124] <= Event(c, msg)
  {
    var last := (MSG, Body(msg));
    var attrs := PairsText(Entries(c)) + PairText(last) + [LF];
    var t3 := Escape(c.eventId, HEADER_CODE) + ([TAB] + attrs);
    var t2 := Escape(c.version, HEADER_CODE) + ([PIPE] + t3);
    var t1 := Escape(c.product, HEADER_CODE) + ([PIPE] + t2);
    var t0 := Escape(c.vendor, HEADER_CODE) + ([PIPE] + t1);
    assert Event(c, msg) == PREFIX + t0 by { EventShape(c, msg); }
    SplitAt(PREFIX, t0);
    ParseFieldText(c.vendor, PIPE, t1);
    ParseFieldText(c.product, PIPE, t2);
    ParseFieldText(c.version, PIPE, t3);
    ParseFieldText(c.eventId, TAB, attrs);
    ParsePairsText(Entries(c), last);
  }

  lemma EventShape(c: Config, msg: Bytes)
    ensures var attrs := PairsText(Entries(c)) + PairText((MSG, Body(msg))) + [LF];
            Event(c, msg)
              == PREFIX + (Escape(c.vendor, HEADER_CODE) + ([PIPE] + (Escape(c.product, HEADER_CODE) + ([PIPE]
                 + (Escape(c.version, HEADER_CODE) + ([PIPE] + (Escape(c.eventId, HEADER_CODE) + ([TAB] + attrs))))))))
  {
    var pairs, last := PairsText(Entries(c)), PairText((MSG, Body(msg)));
    Regroup(PREFIX + Header(c), [TAB], pairs, last, [LF]);
    HeaderShape(Escape(c.vendor, HEADER_CODE), Escape(c.product, HEADER_CODE), Escape(c.version, HEADER_CODE),
      Escape(c.eventId, HEADER_CODE), [TAB] + (pairs + last + [LF]));
    Assoc(PREFIX, Header(c), [TAB] + (pairs + last + [LF]));
  }

  lemma Regroup(a: Bytes, b: Bytes, c: Bytes, d: Bytes, e: Bytes)
    ensures a + b + c + d + e == a + (b + (c + d + e))
  {
    Assoc(a, b, c + d + e);
    Assoc(a + b, c, d);
    Assoc(a + b, c + d, e);
  }

  lemma Cut(a: Bytes, b: Byte, c: Bytes, rest: Bytes)
    ensures (a + [b] + c) + rest == a + ([b] + (c + rest))
  {
    Assoc(a + [b], c, rest);
    Assoc(a, [b], c + rest);
  }

  lemma HeaderShape(a: Bytes, b: Bytes, c: Bytes, d: Bytes, rest: Bytes)
    ensures (a + [PIPE] + b + [PIPE] + c + [PIPE] + d) + rest
         == a + ([PIPE] + (b + ([PIPE] + (c + ([PIPE] + (d + rest))))))
  {
    Cut(a + [PIPE] + b + [PIPE] + c, PIPE, d, rest);
    Cut(a + [PIPE] + b, PIPE, c, [PIPE] + (d + rest));
    Cut(a, PIPE, b, [PIPE] + (c + ([PIPE] + (d + rest))));
  }

  // ----- Line feeds -----

  lemma {:induction false} PairsLineFeeds(pairs: seq<Pair>)
    ensures LF in PairsText(pairs) <==> exists i :: 0 <= i < |pairs| && LF in pairs[i].0
  {
    if pairs != [] {
      EscapeRemoves(pairs[0].1, VALUE_CODE, LF);
      PairsLineFeeds(pairs[1..]);
      if exists i :: 0 <= i < |pairs| && LF in pairs[i].0 {
        var i :| 0 <= i < |pairs| && LF in pairs[i].0;
        assert i > 0 ==> pairs[1..][i - 1] == pairs[i];
      }
    }
  }

  /** The final LF is the only one exactly when no header field and no key holds one. */
  lemma OneLineFeed(c: Config, msg: Bytes)
    ensures var e := Event(c, msg);
            && e[|e| - 1] == LF
            && (LF !in e[..|e| - 1] <==>
                  && LF !in c.vendor && LF !in c.product && LF !in c.version && LF !in c.eventId
                  && forall i | 0 <= i < |Entries(c)| :: LF !in Entries(c)[i].0)
  {
    var e := Event(c, msg);
    var pairs, last := PairsText(Entries(c)), PairText((MSG, Body(msg)));
    assert e[..|e| - 1] == PREFIX + Header(c) + [TAB] + pairs + last;
    HeaderLineFeeds(c);
    PairsLineFeeds(Entries(c));
    EscapeRemoves(Body(msg), VALUE_CODE, LF);
  }

  lemma HeaderLineFeeds(c: Config)
    ensures LF !in PREFIX + Header(c) <==>
              LF !in c.vendor && LF !in c.product && LF !in c.version && LF !in c.eventId
  {
    EscapeKeepsPlain(c.vendor, HEADER_CODE, LF);
    EscapeKeepsPlain(c.product, HEADER_CODE, LF);
    EscapeKeepsPlain(c.version, HEADER_CODE, LF);
    EscapeKeepsPlain(c.eventId, HEADER_CODE, LF);
  }

  // ----- The capacity estimate -----

  function PairsLength(pairs: seq<Pair>): nat {
    if pairs == [] then 0 else |pairs[0].0| + 2 * |pairs[0].1| + PairsLength(pairs[1..])
  }

  /** The capacity reserved before anything is written. */
  function EstimatedCapacity(c: Config, msg: Bytes): nat {
    var n := |Entries(c)|;
    9 + 2 * (|c.vendor| + |c.product| + |c.version| + |c.eventId|) + 4 + (if n == 0 then 0 else n - 1)
    + PairsLength(Entries(c)) + n + 4 + |msg| + 1
  }

  lemma {:induction false} PairsTextLength(pairs: seq<Pair>)
    ensures |PairsText(pairs)| <= PairsLength(pairs) + 2 * |pairs|
  {
    if pairs != [] {
      EscapeLength(pairs[0].1, VALUE_CODE);
      PairsTextLength(pairs[1..]);
    }
  }

  /** The length is that of the parts. */
  lemma EventLength(c: Config, msg: Bytes)
    ensures |Event(c, msg)|
         == |Escape(c.vendor, HEADER_CODE)| + |Escape(c.product, HEADER_CODE)| + |Escape(c.version, HEADER_CODE)|
            + |Escape(c.eventId, HEADER_CODE)| + |PairsText(Entries(c))| + |Escape(Body(msg), VALUE_CODE)| + 18
  {
  }

  /** The sorted map's keys are distinct. */
  predicate DistinctKeys(c: Config) {
    forall i, j | 0 <= i < j < |Entries(c)| :: Entries(c)[i].0 != Entries(c)[j].0
  }

  /** The estimate suffices for every event with `n` attributes and this message. */
  ghost predicate AlwaysSuffices(n: nat, msg: Bytes) {
    forall c: Config | |Entries(c)| == n && DistinctKeys(c) :: |Event(c, msg)| <= EstimatedCapacity(c, msg)
  }

  /** What the message gains by escaping, and the separator after the last attribute, fit in the message. */
  predicate MessageLeavesRoom(n: nat, msg: Bytes) {
    |Escape(Body(msg), VALUE_CODE)| + (if n == 0 then 0 else 1) <= |msg|
  }

  /** The event exceeds the estimate at most by what the message gains and by one separator. */
  lemma CapacityShortfall(c: Config, msg: Bytes)
    ensures |Event(c, msg)|
         <= EstimatedCapacity(c, msg) + (|Escape(Body(msg), VALUE_CODE)| - |msg|) + (if Entries(c) == [] then 0 else 1)
  {
    EventLength(c, msg);
    EscapeLength(c.vendor, HEADER_CODE);
    EscapeLength(c.product, HEADER_CODE);
    EscapeLength(c.version, HEADER_CODE);
    EscapeLength(c.eventId, HEADER_CODE);
    PairsTextLength(Entries(c));
  }

  const LETTER_A: Byte := 97

  /** Attributes without a value, their keys of lengths 0, 1, ..., n - 1. */
  function BareKeys(n: nat): seq<Pair> {
    if n == 0 then [] else BareKeys(n - 1) + [(seq(n - 1, i => LETTER_A), [])]
  }

  lemma {:induction false} BareKeysTight(n: nat)
    ensures |BareKeys(n)| == n && forall i | 0 <= i < n :: |BareKeys(n)[i].0| == i
    ensures |PairsText(BareKeys(n))| == PairsLength(BareKeys(n)) + 2 * n
  {
    if n > 0 {
      var last := (seq(n - 1, i => LETTER_A), []);
      BareKeysTight(n - 1);
      PairsTextSnoc(BareKeys(n - 1), last);
      PairsLengthSnoc(BareKeys(n - 1), last);
    }
  }

  lemma {:induction false} PairsLengthSnoc(pairs: seq<Pair>, p: Pair)
    ensures PairsLength(pairs + [p]) == PairsLength(pairs) + |p.0| + 2 * |p.1|
  {
    if pairs == [] {
      assert [p][1..] == [];
      EmptySides([p]);
    } else {
      HeadTail(pairs, [p]);
      PairsLengthSnoc(pairs[1..], p);
    }
  }

  /** The reserved capacity covers every event with `n` attributes and a message exactly when the message's
      escapes, and the separator after the last attribute if there is one, fit in the message's own length:
      the worst case counts neither. */
  lemma CapacityExact(n: nat, msg: Bytes)
    ensures AlwaysSuffices(n, msg) <==> MessageLeavesRoom(n, msg)
  {
    if MessageLeavesRoom(n, msg) {
      forall c: Config | |Entries(c)| == n && DistinctKeys(c)
        ensures |Event(c, msg)| <= EstimatedCapacity(c, msg)
      {
        CapacityShortfall(c, msg);
      }
    } else {
      var c := Config([], [], [], [], Some(BareKeys(n)));
      BareKeysTight(n);
      assert Entries(c) == BareKeys(n) && DistinctKeys(c);
      EventLength(c, msg);
      assert |Event(c, msg)| > EstimatedCapacity(c, msg);
    }
  }

  /** Two inputs that exceed the estimate by one: an escape in the message, and a single attribute with no
      escape anywhere. */
  lemma CapacityExceeded()
    ensures var c := Config([], [], [], [], None);
            |Event(c, [BACKSLASH])| == EstimatedCapacity(c, [BACKSLASH]) + 1
    ensures var c := Config([], [], [], [], Some([([], [])]));
            |Event(c, [])| == EstimatedCapacity(c, []) + 1
  {
    assert [BACKSLASH][1..] == [];
    assert Escape([BACKSLASH], VALUE_CODE) == [BACKSLASH, BACKSLASH] + Escape([], VALUE_CODE);
    assert Utf8.DecodeOne([BACKSLASH]) == Some((BACKSLASH as char, 1));
    assert Utf8.Decode([BACKSLASH][1..]) == Some("");
    assert Utf8.Decode([BACKSLASH]).Some?;
    EventLength(Config([], [], [], [], None), [BACKSLASH]);
    var pairs: seq<Pair> := [([], [])];
    EventLength(Config([], [], [], [], Some(pairs)), []);
    assert pairs[1..] == [];
  }
}
