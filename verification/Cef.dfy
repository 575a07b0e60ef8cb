/** ArcSight Common Event Format: the printer, a parser for it, and their inverse. */
module Cef {
  import opened Basics
  import opened Decimal
  import opened Escaping
  import Utf8

  /** `extensions` lists the sorted map's entries in iteration order; text fields are UTF-8 bytes. */
  datatype Config = Config(
    vendor: Bytes,
    product: Bytes,
    version: Bytes,
    signatureId: Bytes,
    name: Bytes,
    severity: Option<nat>,
    extensions: Option<seq<Pair>>)

  const PREFIX: Bytes := [67, 69, 70, 58, 48, PIPE] // CEF:0|
  const MSG: Bytes := [109, 115, 103]               // msg

  const VALUE_CODE: Code := map[BACKSLASH := BACKSLASH, PIPE := PIPE, EQUALS := EQUALS]

  /** Backslash, pipe and equals sign of a value get a backslash in front, and no other byte is changed. */
  lemma ValueEscapes(b: Byte)
    ensures Escape([b], VALUE_CODE) == if b == 92 || b == 124 || b == 61 then [92, b] else [b]
  {
    EmptySides(EscapeByte(b, VALUE_CODE));
    assert [b][1..] == [];
  }

  function HeaderFields(c: Config): seq<Bytes> {
    [c.vendor, c.product, c.version, c.signatureId, c.name]
  }

  function Severity(c: Config): nat {
    if c.severity.Some? then c.severity.value else 0
  }

  function Entries(c: Config): seq<Pair> {
    if c.extensions.Some? then c.extensions.value else []
  }

  // ----- The text of an event -----

  function FieldsText(fields: seq<Bytes>): Bytes {
    if fields == [] then [] else Escape(fields[0], HEADER_CODE) + [PIPE] + FieldsText(fields[1..])
  }

  /** Up to three digits, the tens digit only when it is not zero. */
  function SeverityText(n: nat): Bytes {
    (if n >= 100 then [DIGIT_ZERO + n / 100] else [])
    + (if n % 100 >= 10 then [DIGIT_ZERO + n % 100 / 10] else [])
    + [DIGIT_ZERO + n % 10]
  }

  function PairText(p: Pair): Bytes { p.0 + [EQUALS] + Escape(p.1, VALUE_CODE) }

  /** The pairs, separated by single spaces. */
  function PairsText(pairs: seq<Pair>): Bytes {
    if pairs == [] then []
    else if |pairs| == 1 then PairText(pairs[0])
    else PairText(pairs[0]) + [SPACE] + PairsText(pairs[1..])
  }

  function Event(c: Config, msg: Bytes): Bytes {
    PREFIX + FieldsText(HeaderFields(c)) + (SeverityText(Severity(c)) + [PIPE])
    + PairsText(Entries(c) + [(MSG, Body(msg))])
  }

  // ----- The printer -----

  method EscapeExtensionValueInto(out: ByteBuffer, s: Bytes)
    modifies out
    ensures out.data == old(out.data) + Escape(s, VALUE_CODE)
  {
    for i := 0 to |s|
      invariant out.data == old(out.data) + Escape(s[..i], VALUE_CODE)
    {
      EscapeSnoc(s[..i], s[i], VALUE_CODE);
      assert s[..i + 1] == s[..i] + [s[i]];
      if s[i] == BACKSLASH {
        out.Push(BACKSLASH);
        out.Push(BACKSLASH);
      } else if s[i] == PIPE {
        out.Push(BACKSLASH);
        out.Push(PIPE);
      } else if s[i] == EQUALS {
        out.Push(BACKSLASH);
        out.Push(EQUALS);
      } else {
        out.Push(s[i]);
      }
    }
    assert s[..|s|] == s;
  }

  method PushU8Decimal(out: ByteBuffer, value: nat)
    requires value < 256
    modifies out
    ensures out.data == old(out.data) + SeverityText(value)
  {
    ghost var base := out.data;
    ghost var hundreds := if value >= 100 then [DIGIT_ZERO + value / 100] else [];
    ghost var tens := if value % 100 >= 10 then [DIGIT_ZERO + value % 100 / 10] else [];
    var n := value;
    if n >= 100 {
      var q := n / 100;
      out.Push(DIGIT_ZERO + q);
      n := n - q * 100;
    }
    assert out.data == base + hundreds && n == value % 100;
    if n >= 10 {
      var q := n / 10;
      out.Push(DIGIT_ZERO + q);
      n := n - q * 10;
    }
    assert out.data == base + hundreds + tens && n == value % 10;
    out.Push(DIGIT_ZERO + n);
    Assoc(base, hundreds, tens);
    Assoc(base, hundreds + tens, [DIGIT_ZERO + value % 10]);
  }

  function TotalLength(parts: seq<Bytes>): nat {
    if parts == [] then 0 else |parts[0]| + TotalLength(parts[1..])
  }

  function PairsLength(pairs: seq<Pair>): nat {
    if pairs == [] then 0 else |pairs[0].0| + 2 * |pairs[0].1| + PairsLength(pairs[1..])
  }

  /** The capacity reserved before anything is written. */
  function EstimatedCapacity(c: Config, msg: Bytes): nat {
    7 + 2 * TotalLength(HeaderFields(c)) + 7 + 2
    + |Entries(c)| + |Entries(c)| + PairsLength(Entries(c)) + 5 + 2 * |Body(msg)|
  }

  /** One header field and its pipe; `done` are the fields written since `base`. */
  method WriteField(out: ByteBuffer, s: Bytes, ghost base: Bytes, ghost done: seq<Bytes>)
    requires out.data == base + FieldsText(done)
    modifies out
    ensures out.data == base + FieldsText(done + [s])
  {
    FieldsTextSnoc(done, s);
    EscapeHeaderInto(out, s);
    out.Push(PIPE);
  }

  method WriteHeader(out: ByteBuffer, c: Config)
    requires Severity(c) < 256
    modifies out
    ensures out.data == old(out.data) + FieldsText(HeaderFields(c)) + (SeverityText(Severity(c)) + [PIPE])
  {
    ghost var base := out.data;
    assert base + FieldsText([]) == base;
    WriteField(out, c.vendor, base, []);
    WriteField(out, c.product, base, [] + [c.vendor]);
    WriteField(out, c.version, base, [] + [c.vendor] + [c.product]);
    WriteField(out, c.signatureId, base, [] + [c.vendor] + [c.product] + [c.version]);
    WriteField(out, c.name, base, [] + [c.vendor] + [c.product] + [c.version] + [c.signatureId]);
    assert [] + [c.vendor] + [c.product] + [c.version] + [c.signatureId] + [c.name] == HeaderFields(c);
    PushU8Decimal(out, Severity(c));
    out.Push(PIPE);
  }

  method WritePair(out: ByteBuffer, p: Pair)
    modifies out
    ensures out.data == old(out.data) + PairText(p)
  {
    out.Extend(p.0);
    out.Push(EQUALS);
    EscapeExtensionValueInto(out, p.1);
  }

  /** One more pair, after a space unless it is the first; `done` are the pairs written since `base`. */
  method WriteNextPair(out: ByteBuffer, ghost base: Bytes, ghost done: seq<Pair>, p: Pair, separate: bool)
    requires out.data == base + PairsText(done) && (separate <==> done != [])
    modifies out
    ensures out.data == base + PairsText(done + [p])
  {
    PairsTextSnoc(done, p);
    ghost var gap := if separate then [SPACE] else [];
    EmptySides(PairsText(done));
    Assoc(base, PairsText(done), gap);
    Assoc(base, PairsText(done) + gap, PairText(p));
    if separate {
      out.Push(SPACE);
    }
    WritePair(out, p);
  }

  method WritePairs(out: ByteBuffer, c: Config, msg: Bytes)
    modifies out
    ensures out.data == old(out.data) + PairsText(Entries(c) + [(MSG, Body(msg))])
  {
    var entries := Entries(c);
    ghost var base := out.data;
    EmptySides(base);
    for i := 0 to |entries|
      invariant out.data == base + PairsText(entries[..i])
    {
      assert entries[..i + 1] == entries[..i] + [entries[i]];
      WriteNextPair(out, base, entries[..i], entries[i], i > 0);
    }
    assert entries[..|entries|] == entries;
    WriteNextPair(out, base, entries, (MSG, Body(msg)), entries != []);
  }

  method Build(c: Config, msg: Bytes) returns (result: Bytes)
    requires Severity(c) < 256
    ensures result == Event(c, msg)
  {
    var out := new ByteBuffer();
    out.Extend(PREFIX);
    WriteHeader(out, c);
    WritePairs(out, c, msg);
    return out.data;
  }

  lemma {:induction false} FieldsTextSnoc(fields: seq<Bytes>, f: Bytes)
    ensures FieldsText(fields + [f]) == FieldsText(fields) + Escape(f, HEADER_CODE) + [PIPE]
  {
    if fields == [] {
      OneField(f);
      EmptySides([f]);
      EmptySides(Escape(f, HEADER_CODE));
    } else {
      FieldsTextSnoc(fields[1..], f);
      HeadTail(fields, [f]);
      var front, more := Escape(fields[0], HEADER_CODE) + [PIPE], FieldsText(fields[1..]);
      Assoc(front, more, Escape(f, HEADER_CODE));
      Assoc(front, more + Escape(f, HEADER_CODE), [PIPE]);
    }
  }

  lemma {:induction false} PairsTextSnoc(pairs: seq<Pair>, p: Pair)
    ensures PairsText(pairs + [p])
         == PairsText(pairs) + (if pairs == [] then [] else [SPACE]) + PairText(p)
  {
    if pairs == [] {
      EmptySides([p]);
      EmptySides(PairText(p));
    } else {
      PairsTextSnoc(pairs[1..], p);
      HeadTail(pairs, [p]);
      if |pairs| == 1 {
        assert pairs[1..] == [];
        EmptySides(PairText(p));
      } else {
        var front, more := PairText(pairs[0]) + [SPACE], PairsText(pairs[1..]);
        Assoc(front, more, [SPACE]);
        Assoc(front, more + [SPACE], PairText(p));
      }
    }
  }

  // ----- The parser -----

  datatype Parsed = Parsed(
    vendor: Bytes,
    product: Bytes,
    version: Bytes,
    signatureId: Bytes,
    name: Bytes,
    severity: nat,
    pairs: seq<Pair>)

  /** `n` fields, each closed by an unescaped pipe. */
  function ParseFields(s: Bytes, n: nat): (r: Option<(seq<Bytes>, Bytes)>)
    ensures r.Some? ==> |r.value.0| == n
    decreases n
  {
    if n == 0 then Some(([], s))
    else
      var f := Field(s, {PIPE}, HEADER_CODE);
      if f.None? || f.value.1 == [] then None
      else
        var r := ParseFields(f.value.1[1..], n - 1);
        if r.None? then None else Some(([f.value.0] + r.value.0, r.value.1))
  }

  function LastSpace(s: Bytes): Option<nat> {
    if s == [] then None
    else if s[|s| - 1] == SPACE then Some(|s| - 1)
    else LastSpace(s[..|s| - 1])
  }

  function ParseValue(raw: Bytes): Option<Bytes> {
    var f := Field(raw, {}, VALUE_CODE);
    if f.None? then None else Some(f.value.0)
  }

  /** The value of `key` and the pairs after it.  Up to the next unescaped equals sign come the value,
      a space and the next key; the value itself may hold spaces, so the last one is the separator. */
  function ParsePairs(key: Bytes, s: Bytes): Option<seq<Pair>>
    decreases |s|
  {
    var (raw, rest) := UntilEquals(s);
    if rest == [] then
      var v := ParseValue(raw);
      if v.None? then None else Some([(key, v.value)])
    else
      var at := LastSpace(raw);
      if at.None? || at.value >= |raw| then None
      else
        var v := ParseValue(raw[..at.value]);
        var more := ParsePairs(raw[at.value + 1..], rest[1..]);
        if v.None? || more.None? then None else Some([(key, v.value)] + more.value)
  }

  function Parse(s: Bytes): Option<Parsed> {
    if !(PREFIX <= s) then None
    else
      var header := ParseFields(s[|PREFIX|..], 5);
      if header.None? then None
      else
        var sev := ParseFields(header.value.1, 1);
        if sev.None? || sev.value.0 == [] then None
        else
          var n := ParseBytes(sev.value.0[0]);
          var (key, rest) := UntilEquals(sev.value.1);
          if n.None? || rest == [] then None
          else
            var pairs := ParsePairs(key, rest[1..]);
            if pairs.None? then None
            else
              var f := header.value.0;
              Some(Parsed(f[0], f[1], f[2], f[3], f[4], n.value, pairs.value))
  }

  // ----- The parser inverts the printer -----

  lemma {:induction false} ParseFieldsText(fields: seq<Bytes>, rest: Bytes)
    ensures ParseFields(FieldsText(fields) + rest, |fields|) == Some((fields, rest))
  {
    if fields == [] {
      EmptySides(rest);
    } else {
      var tail := FieldsText(fields[1..]) + rest;
      Assoc(Escape(fields[0], HEADER_CODE) + [PIPE], FieldsText(fields[1..]), rest);
      Assoc(Escape(fields[0], HEADER_CODE), [PIPE], tail);
      FieldEscaped(fields[0], [PIPE] + tail, HEADER_CODE, {PIPE}, HEADER_CODE);
      SplitAt([PIPE], tail);
      ParseFieldsText(fields[1..], rest);
      Rejoin(fields);
    }
  }

  predicate PlainKey(key: Bytes) { SPACE !in key && EQUALS !in key && BACKSLASH !in key }

  lemma {:induction false} LastSpaceBeforeKey(v: Bytes, key: Bytes)
    requires SPACE !in key
    ensures LastSpace(v + [SPACE] + key) == Some(|v|)
    decreases |key|
  {
    var s := v + [SPACE] + key;
    if key == [] {
      assert s[|s| - 1] == SPACE;
    } else {
      var front := key[..|key| - 1];
      assert s[|s| - 1] == key[|key| - 1];
      assert s[..|s| - 1] == v + [SPACE] + front;
      LastSpaceBeforeKey(v, front);
    }
  }

  lemma ParseValueEscaped(v: Bytes)
    ensures ParseValue(Escape(v, VALUE_CODE)) == Some(v)
  {
    FieldEscaped(v, [], VALUE_CODE, {}, VALUE_CODE);
    assert Escape(v, VALUE_CODE) + [] == Escape(v, VALUE_CODE);
  }

  /** What follows the first key and its equals sign. */
  function AfterFirstKey(pairs: seq<Pair>): Bytes
    requires pairs != []
  {
    Escape(pairs[0].1, VALUE_CODE)
    + if |pairs| == 1 then [] else [SPACE] + pairs[1].0 + ([EQUALS] + AfterFirstKey(pairs[1..]))
  }

  lemma {:induction false} PairsTextSplit(pairs: seq<Pair>)
    requires pairs != []
    ensures PairsText(pairs) == pairs[0].0 + ([EQUALS] + AfterFirstKey(pairs))
  {
    if |pairs| > 1 {
      PairsTextSplit(pairs[1..]);
      assert pairs[1..][0] == pairs[1];
    }
  }

  lemma {:induction false} ParsePairsText(pairs: seq<Pair>)
    requires pairs != [] && forall i | 0 <= i < |pairs| :: PlainKey(pairs[i].0)
    ensures ParsePairs(pairs[0].0, AfterFirstKey(pairs)) == Some(pairs)
  {
    var v := Escape(pairs[0].1, VALUE_CODE);
    ParseValueEscaped(pairs[0].1);
    EmptySides(v);
    if |pairs| == 1 {
      UntilEqualsEscaped(pairs[0].1, [], VALUE_CODE);
      assert pairs == [pairs[0]];
    } else {
      var key, more := pairs[1].0, AfterFirstKey(pairs[1..]);
      assert PlainKey(key);
      RawValue(pairs[0].1, key, more);
      LastSpaceBeforeKey(v, key);
      SplitAt(v, [SPACE] + key);
      SplitAt(v + [SPACE], key);
      SplitAt([EQUALS], more);
      Assoc(v, [SPACE], key);
      ParsePairsText(pairs[1..]);
      Rejoin(pairs);
    }
  }

  /** Up to the next equals sign come the value, a space and the next key. */
  lemma RawValue(value: Bytes, key: Bytes, more: Bytes)
    requires PlainKey(key)
    ensures var v := Escape(value, VALUE_CODE);
            UntilEquals(v + ([SPACE] + key + ([EQUALS] + more))) == (v + ([SPACE] + key), [EQUALS] + more)
  {
    var after := [EQUALS] + more;
    UntilEqualsEscaped(value, [SPACE] + key + after, VALUE_CODE);
    UntilEqualsPlain([SPACE] + key, after);
    assert UntilEquals(after) == ([], after);
    EmptySides([SPACE] + key);
  }

  /** Every event decodes to its header fields, its severity, and its pairs with the message last,
      whatever the fields and values contain. */
  lemma ParseEvent(c: Config, msg: Bytes)
    requires SeverityExact(Severity(c)) && Severity(c) < 256
    requires forall i | 0 <= i < |Entries(c)| :: PlainKey(Entries(c)[i].0)
    ensures Parse(Event(c, msg))
         == Some(Parsed(c.vendor, c.product, c.version, c.signatureId, c.name,
                if c.severity.Some? then c.severity.value else 0,
                (if c.extensions.Some? then c.extensions.value else [])
                + [([109, 115, 103], if Utf8.Decode(msg).Some? then msg else [])]))
    ensures [67, 69, 70, 58, 48, 124] <= Event(c, msg)
  {
    var fields, sev, pairs := HeaderFields(c), SeverityText(Severity(c)), Entries(c) + [(MSG, Body(msg))];
    var tail := sev + [PIPE] + PairsText(pairs);
    EventShape(FieldsText(fields), sev + [PIPE], PairsText(pairs));
    ParseFieldsText(fields, tail);
    ParseSeverity(Severity(c), PairsText(pairs));
    assert PlainKey(MSG);
    ParseFirstKey(pairs);
    ParsePairsText(pairs);
  }

  lemma EventShape(fields: Bytes, sev: Bytes, pairs: Bytes)
    ensures var e := PREFIX + fields + sev + pairs;
            PREFIX <= e && e[|PREFIX|..] == fields + (sev + pairs)
  {
    Assoc(PREFIX + fields, sev, pairs);
    Assoc(PREFIX, fields, sev + pairs);
    SplitAt(PREFIX, fields + (sev + pairs));
  }

  lemma ParseSeverity(n: nat, rest: Bytes)
    requires n < 256
    ensures ParseFields(SeverityText(n) + [PIPE] + rest, 1) == Some(([SeverityText(n)], rest))
    ensures SeverityExact(n) ==> ParseBytes(SeverityText(n)) == Some(n)
  {
    var sev := SeverityText(n);
    SeverityRoundTrip(n);
    assert forall i | 0 <= i < |sev| :: DIGIT_ZERO <= sev[i] <= DIGIT_ZERO + 9;
    PlainEscape(sev, HEADER_CODE);
    OneField(sev);
    ParseFieldsText([sev], rest);
  }

  lemma OneField(f: Bytes)
    ensures FieldsText([f]) == Escape(f, HEADER_CODE) + [PIPE]
  {
    assert [f][1..] == [];
    EmptySides(Escape(f, HEADER_CODE) + [PIPE]);
  }

  lemma ParseFirstKey(pairs: seq<Pair>)
    requires pairs != [] && PlainKey(pairs[0].0)
    ensures UntilEquals(PairsText(pairs)) == (pairs[0].0, [EQUALS] + AfterFirstKey(pairs))
    ensures ([EQUALS] + AfterFirstKey(pairs))[1..] == AfterFirstKey(pairs)
  {
    var after := [EQUALS] + AfterFirstKey(pairs);
    PairsTextSplit(pairs);
    UntilEqualsPlain(pairs[0].0, after);
    assert UntilEquals(after) == ([], after);
    assert pairs[0].0 + [] == pairs[0].0;
  }

  lemma {:induction false} PlainEscape(s: Bytes, code: Code)
    requires forall b | b in s :: b !in code
    ensures Escape(s, code) == s
  {
    if s != [] {
      assert s[0] in s;
      PlainEscape(s[1..], code);
      Rejoin(s);
    }
  }

  // ----- Severity -----

  /** The severities that print as their own numeral. */
  predicate SeverityExact(n: nat) { n < 100 || n % 100 >= 10 }

  /** A severity survives exactly when no zero tens digit was dropped: 105, say, prints as 15. */
  lemma SeverityRoundTrip(n: nat)
    requires n < 256
    ensures ParseBytes(SeverityText(n)) == Some(n) <==> SeverityExact(n)
  {
    if n >= 100 && n % 100 >= 10 {
      assert SeverityText(n) == [DIGIT_ZERO + n / 100, DIGIT_ZERO + n % 100 / 10, DIGIT_ZERO + n % 10];
      ParseDigits([n / 100, n % 100 / 10, n % 10], SeverityText(n));
      NumberOfThree(n / 100, n % 100 / 10, n % 10);
    } else if n >= 100 {
      assert SeverityText(n) == [DIGIT_ZERO + n / 100, DIGIT_ZERO + n % 10];
      ParseDigits([n / 100, n % 10], SeverityText(n));
      NumberOfTwo(n / 100, n % 10);
    } else if n >= 10 {
      assert SeverityText(n) == [DIGIT_ZERO + n / 10, DIGIT_ZERO + n % 10];
      ParseDigits([n / 10, n % 10], SeverityText(n));
      NumberOfTwo(n / 10, n % 10);
    } else {
      ParseDigits([n], SeverityText(n));
      NumberOfOne(n);
    }
  }

  lemma ParseDigits(ds: seq<Digit>, bs: Bytes)
    requires |ds| == |bs| > 0 && forall i | 0 <= i < |ds| :: ds[i] < 10 && bs[i] == DIGIT_ZERO + ds[i]
    ensures ParseBytes(bs) == Some(Number(ds))
  {
    var es: seq<Digit> := seq(|bs|, i requires 0 <= i < |bs| => bs[i] - DIGIT_ZERO);
    assert es == ds;
  }

  lemma NumberOfOne(a: Digit)
    ensures Number([a]) == a
  {
    assert [a][..0] == [];
  }

  lemma NumberOfTwo(a: Digit, b: Digit)
    ensures Number([a, b]) == a * 10 + b
  {
    NumberOfOne(a);
    assert [a, b][..1] == [a];
  }

  lemma NumberOfThree(a: Digit, b: Digit, c: Digit)
    ensures Number([a, b, c]) == a * 100 + b * 10 + c
  {
    NumberOfTwo(a, b);
    assert [a, b, c][..2] == [a, b];
  }

  // ----- The capacity estimate -----

  lemma {:induction false} FieldsLength(fields: seq<Bytes>)
    ensures |FieldsText(fields)| <= 2 * TotalLength(fields) + |fields|
  {
    if fields != [] {
      EscapeLength(fields[0], HEADER_CODE);
      FieldsLength(fields[1..]);
    }
  }

  lemma {:induction false} PairsTextLength(pairs: seq<Pair>)
    ensures |PairsText(pairs)| <= PairsLength(pairs) + (if pairs == [] then 0 else 2 * |pairs| - 1)
  {
    if pairs != [] {
      EscapeLength(pairs[0].1, VALUE_CODE);
      PairsTextLength(pairs[1..]);
    }
  }

  lemma {:induction false} PairsLengthConcat(a: seq<Pair>, b: seq<Pair>)
    ensures PairsLength(a + b) == PairsLength(a) + PairsLength(b)
  {
    if a == [] {
      assert a + b == b;
    } else {
      PairsLengthConcat(a[1..], b);
      assert (a + b)[1..] == a[1..] + b;
    }
  }

  /** The reserved capacity is never exceeded, so the event is written without reallocation. */
  lemma CapacitySuffices(c: Config, msg: Bytes)
    ensures |Event(c, msg)| <= EstimatedCapacity(c, msg)
  {
    var last := (MSG, Body(msg));
    FieldsLength(HeaderFields(c));
    PairsTextLength(Entries(c) + [last]);
    PairsLengthConcat(Entries(c), [last]);
    assert PairsLength([last]) == |last.0| + 2 * |last.1| + PairsLength([last][1..]);
  }
}
