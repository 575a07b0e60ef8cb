/** RFC 5424 messages: the printer, a parser for the syntax of section 6, and their inverse. */
module Rfc5424 {
  import opened Basics
  import opened Decimal
  import opened Escaping
  import opened FormatCommon
  import Utf8

  const BOM: Bytes := [0xEF, 0xBB, 0xBF]
  const LETTER_ONE: Byte := 49
  const NIL: Bytes := [DASH]

  // ----- The text of a message -----

  function StructuredData(h: Header): Bytes {
    if h.structuredData == "" then NIL else Utf8.Encode(h.structuredData)
  }

  function BomAndMessage(h: Header, msg: Bytes): Bytes { (if h.bom then BOM else []) + msg }

  /** Each part followed by a space. */
  function Spaced(parts: seq<Bytes>): Bytes {
    if parts == [] then [] else parts[0] + [SPACE] + Spaced(parts[1..])
  }

  /** Timestamp, the four names and the structured data. */
  function Fields(h: Header, clock: string): seq<Bytes> {
    [Utf8.Encode(Stamp(h, clock)), Utf8.Encode(Sanitized(h.hostname, 255)), Utf8.Encode(Sanitized(h.appName, 48)),
     Utf8.Encode(Sanitized(h.procid, 128)), Utf8.Encode(Sanitized(h.msgid, 32)), StructuredData(h)]
  }

  /** The priority and the version. */
  function Start(h: Header): Bytes {
    [LESS] + ByteText(Prival(h.facility, h.severity)) + [GREATER, LETTER_ONE, SPACE]
  }

  function Message(h: Header, clock: string, msg: Bytes): Bytes {
    Start(h) + (Spaced(Fields(h, clock)) + BomAndMessage(h, msg))
  }

  // ----- The printer -----

  function Bound(i: nat): nat {
    if i == 0 then 0 else if i == 1 then 9 else if i == 2 then 99 else if i == 3 then 999 else if i == 4 then 9999
    else 65535
  }

  lemma ByteTextStep(n: nat)
    ensures ByteText(n) == (if n < 10 then [] else ByteText(n / 10)) + [DIGIT_ZERO + n % 10]
  {
  }

  /** The digits fill a five-byte array from its end. */
  method FillDigits(buf: array<Byte>, value: nat) returns (i: nat)
    requires 0 < value <= 65535 && buf.Length == 5
    modifies buf
    ensures i <= 5 && buf[i..] == ByteText(value)
  {
    var n: nat := value;
    i := 5;
    while n > 0
      invariant i <= 5 && n <= Bound(i)
      invariant ByteText(value) == (if n == 0 then [] else ByteText(n)) + buf[i..]
    {
      ByteTextStep(n);
      ghost var before := buf[i..];
      ghost var front := if n < 10 then [] else ByteText(n / 10);
      ghost var digit := [DIGIT_ZERO + n % 10];
      i := i - 1;
      buf[i] := DIGIT_ZERO + n % 10;
      assert buf[i..] == digit + before;
      Assoc(front, digit, before);
      n := n / 10;
    }
  }

  method PushU16Decimal(out: ByteBuffer, n: nat)
    requires n <= 65535
    modifies out
    ensures out.data == old(out.data) + ByteText(n)
  {
    if n == 0 {
      assert ByteText(0) == [DIGIT_ZERO];
      out.Push(DIGIT_ZERO);
      return;
    }
    var buf := new Byte[5];
    var i := FillDigits(buf, n);
    out.Extend(buf[i..]);
  }

  method PushSpaced(out: ByteBuffer, part: Bytes, ghost base: Bytes, ghost done: seq<Bytes>)
    requires out.data == base + Spaced(done)
    modifies out
    ensures out.data == base + Spaced(done + [part])
  {
    SpacedSnoc(done, part);
    out.Extend(part);
    out.Push(SPACE);
  }

  lemma {:induction false} SpacedSnoc(parts: seq<Bytes>, part: Bytes)
    ensures Spaced(parts + [part]) == Spaced(parts) + part + [SPACE]
  {
    if parts == [] {
      assert [part][1..] == [] && parts + [part] == [part];
    } else {
      SpacedSnoc(parts[1..], part);
      assert (parts + [part])[1..] == parts[1..] + [part];
      Assoc(parts[0] + [SPACE], Spaced(parts[1..]), part + [SPACE]);
    }
  }

  method WriteStart(out: ByteBuffer, h: Header)
    modifies out
    ensures out.data == old(out.data) + Start(h)
  {
    out.Push(LESS);
    PushU16Decimal(out, Prival(h.facility, h.severity));
    out.Extend([GREATER, LETTER_ONE, SPACE]);
  }

  method WriteSpaced(out: ByteBuffer, stamp: Bytes, hostname: Bytes, appName: Bytes, procid: Bytes, msgid: Bytes,
                     sd: Bytes)
    modifies out
    ensures out.data == old(out.data) + Spaced([stamp, hostname, appName, procid, msgid, sd])
  {
    ghost var base := out.data;
    assert base == base + Spaced([]);
    PushSpaced(out, stamp, base, []);
    PushSpaced(out, hostname, base, [stamp]);
    assert [stamp] + [hostname] == [stamp, hostname];
    PushSpaced(out, appName, base, [stamp, hostname]);
    assert [stamp, hostname] + [appName] == [stamp, hostname, appName];
    PushSpaced(out, procid, base, [stamp, hostname, appName]);
    assert [stamp, hostname, appName] + [procid] == [stamp, hostname, appName, procid];
    PushSpaced(out, msgid, base, [stamp, hostname, appName, procid]);
    assert [stamp, hostname, appName, procid] + [msgid] == [stamp, hostname, appName, procid, msgid];
    PushSpaced(out, sd, base, [stamp, hostname, appName, procid, msgid]);
    assert [stamp, hostname, appName, procid, msgid] + [sd] == [stamp, hostname, appName, procid, msgid, sd];
  }

  method WriteFields(out: ByteBuffer, h: Header, clock: string)
    modifies out
    ensures out.data == old(out.data) + Spaced(Fields(h, clock))
  {
    var hostname := SanitizeHeader(h.hostname, 255);
    var appName := SanitizeHeader(h.appName, 48);
    var procid := SanitizeHeader(h.procid, 128);
    var msgid := SanitizeHeader(h.msgid, 32);
    var stamp := if h.timestamp == "" then clock else h.timestamp;
    var sd := if h.structuredData == "" then NIL else Utf8.Encode(h.structuredData);
    WriteSpaced(out, Utf8.Encode(stamp), Utf8.Encode(hostname), Utf8.Encode(appName), Utf8.Encode(procid),
      Utf8.Encode(msgid), sd);
  }

  /** `clock` is the formatted current time, used when the header carries none. */
  method BuildInto(out: ByteBuffer, h: Header, clock: string, msg: Bytes)
    modifies out
    ensures out.data == old(out.data) + Message(h, clock, msg)
  {
    ghost var base, fields := out.data, Spaced(Fields(h, clock));
    WriteStart(out, h);
    WriteFields(out, h, clock);
    if h.bom {
      out.Extend(BOM);
    }
    out.Extend(msg);
    Gather(base, Start(h), fields, if h.bom then BOM else [], msg);
  }

  lemma Gather(base: Bytes, start: Bytes, fields: Bytes, bom: Bytes, msg: Bytes)
    ensures base + start + fields + bom + msg == base + (start + (fields + (bom + msg)))
    ensures bom == [] ==> base + start + fields + msg == base + (start + (fields + (bom + msg)))
  {
    Assoc(base + start + fields, bom, msg);
    Assoc(base + start, fields, bom + msg);
    Assoc(base, start, fields + (bom + msg));
    if bom == [] { assert bom + msg == msg; }
  }

  // ----- Structured data (section 6.3 of RFC 5424) -----

  type Param = (Bytes, Bytes)

  datatype Element = Element(id: Bytes, params: seq<Param>)

  function ParamText(p: Param): Bytes { [SPACE] + (p.0 + ([EQUALS, QUOTE] + (Escape(p.1, SD_CODE) + [QUOTE]))) }

  /** The parameters and the bracket that closes the element. */
  function ParamsText(ps: seq<Param>): Bytes {
    if ps == [] then [RBRACKET] else ParamText(ps[0]) + ParamsText(ps[1..])
  }

  function ElementText(e: Element): Bytes { [LBRACKET] + (e.id + ParamsText(e.params)) }

  function ElementsText(es: seq<Element>): Bytes {
    if es == [] then [] else ElementText(es[0]) + ElementsText(es[1..])
  }

  const NAME_STOPS: set<Byte> := {SPACE, EQUALS, RBRACKET, QUOTE}

  predicate SdName(name: Bytes) { forall b | b in name :: b !in NAME_STOPS }

  predicate WellFormed(e: Element) { SdName(e.id) && forall i | 0 <= i < |e.params| :: SdName(e.params[i].0) }

  /** Structured data is absent, or the text of at least one element. */
  predicate Represents(sd: string, es: seq<Element>) {
    && (forall i | 0 <= i < |es| :: WellFormed(es[i]))
    && if es == [] then sd == "" || sd == NILVALUE else Utf8.Encode(sd) == ElementsText(es)
  }

  // ----- The parser -----

  /** Splits before the first stop byte. */
  function Until(s: Bytes, stops: set<Byte>): (r: (Bytes, Bytes))
    ensures s == r.0 + r.1 && |r.1| <= |s|
  {
    if s == [] || s[0] in stops then ([], s)
    else
      var r := Until(s[1..], stops);
      ([s[0]] + r.0, r.1)
  }

  function ParseSpaced(s: Bytes, n: nat): (r: Option<(seq<Bytes>, Bytes)>)
    ensures r.Some? ==> |r.value.0| == n
    decreases n
  {
    if n == 0 then Some(([], s))
    else
      var (part, rest) := Until(s, {SPACE});
      if rest == [] then None
      else
        var r := ParseSpaced(rest[1..], n - 1);
        if r.None? then None else Some(([part] + r.value.0, r.value.1))
  }

  function ParseParam(s: Bytes): Option<(Param, Bytes)> {
    var (name, rest) := Until(s, NAME_STOPS);
    if !([EQUALS, QUOTE] <= rest) then None
    else
      var v := Field(rest[2..], {QUOTE}, SD_CODE);
      if v.None? || v.value.1 == [] then None else Some(((name, v.value.0), v.value.1[1..]))
  }

  function ParseParams(s: Bytes): Option<(seq<Param>, Bytes)>
    decreases |s|
  {
    if s == [] then None
    else if s[0] == RBRACKET then Some(([], s[1..]))
    else if s[0] != SPACE then None
    else
      var p := ParseParam(s[1..]);
      if p.None? || |p.value.1| >= |s| then None
      else
        var r := ParseParams(p.value.1);
        if r.None? then None else Some(([p.value.0] + r.value.0, r.value.1))
  }

  function ParseElements(s: Bytes): Option<(seq<Element>, Bytes)>
    decreases |s|
  {
    if s == [] || s[0] != LBRACKET then Some(([], s))
    else
      var (id, rest) := Until(s[1..], NAME_STOPS);
      var ps := ParseParams(rest);
      if ps.None? || |ps.value.1| >= |s| then None
      else
        var r := ParseElements(ps.value.1);
        if r.None? then None else Some(([Element(id, ps.value.0)] + r.value.0, r.value.1))
  }

  function ParseStructuredData(s: Bytes): Option<(seq<Element>, Bytes)> {
    if NIL <= s then Some(([], s[1..]))
    else
      var r := ParseElements(s);
      if r.None? || r.value.0 == [] then None else r
  }

  /** A message by the parts of section 6. */
  datatype Parsed = Parsed(
    facility: nat,
    severity: nat,
    timestamp: Bytes,
    hostname: Bytes,
    appName: Bytes,
    procid: Bytes,
    msgid: Bytes,
    elements: seq<Element>,
    body: Bytes)

  function Parse(s: Bytes): Option<Parsed> {
    if !([LESS] <= s) then None
    else
      var (digits, rest) := Until(s[1..], {GREATER});
      var pri := ParseBytes(digits);
      if pri.None? || !([GREATER, LETTER_ONE, SPACE] <= rest) then None
      else
        var fields := ParseSpaced(rest[3..], 5);
        if fields.None? then None
        else
          var sd := ParseStructuredData(fields.value.1);
          if sd.None? || !([SPACE] <= sd.value.1) then None
          else
            var f := fields.value.0;
            Some(Parsed(pri.value / 8, pri.value % 8, f[0], f[1], f[2], f[3], f[4], sd.value.0, sd.value.1[1..]))
  }

  // ----- The parser inverts the printer -----

  lemma {:induction false} UntilPlain(part: Bytes, rest: Bytes, stops: set<Byte>)
    requires forall b | b in part :: b !in stops
    requires rest == [] || rest[0] in stops
    ensures Until(part + rest, stops) == (part, rest)
  {
    if part == [] {
      assert part + rest == rest;
    } else {
      UntilPlain(part[1..], rest, stops);
      var s := part + rest;
      assert s[0] == part[0] && s[1..] == part[1..] + rest;
      assert part[0] in part;
      assert Until(s, stops) == ([s[0]] + part[1..], rest);
      assert [part[0]] + part[1..] == part;
    }
  }

  lemma {:induction false} ParseSpacedText(parts: seq<Bytes>, rest: Bytes)
    requires forall i | 0 <= i < |parts| :: SPACE !in parts[i]
    ensures ParseSpaced(Spaced(parts) + rest, |parts|) == Some((parts, rest))
  {
    if parts == [] {
      assert Spaced(parts) + rest == rest;
    } else {
      var tail := Spaced(parts[1..]) + rest;
      Assoc(parts[0] + [SPACE], Spaced(parts[1..]), rest);
      Assoc(parts[0], [SPACE], tail);
      UntilPlain(parts[0], [SPACE] + tail, {SPACE});
      assert ([SPACE] + tail)[1..] == tail;
      ParseSpacedText(parts[1..], rest);
      assert [parts[0]] + parts[1..] == parts;
    }
  }

  lemma ParseParamText(p: Param, rest: Bytes)
    requires SdName(p.0)
    ensures ParamText(p) + rest == [SPACE] + (ParamText(p) + rest)[1..]
    ensures ParseParam((ParamText(p) + rest)[1..]) == Some((p, rest))
  {
    var v := Escape(p.1, SD_CODE);
    var after := v + ([QUOTE] + rest);
    var quoted := [EQUALS, QUOTE] + after;
    ParamShape(p.0, v, rest);
    UntilPlain(p.0, quoted, NAME_STOPS);
    assert quoted[2..] == after && [EQUALS, QUOTE] <= quoted;
    FieldEscaped(p.1, [QUOTE] + rest, SD_CODE, {QUOTE}, SD_CODE);
    assert ([QUOTE] + rest)[1..] == rest;
  }

  lemma ParamShape(name: Bytes, v: Bytes, rest: Bytes)
    ensures var text := [SPACE] + (name + ([EQUALS, QUOTE] + (v + [QUOTE]))) + rest;
            text[0] == SPACE && text[1..] == name + ([EQUALS, QUOTE] + (v + ([QUOTE] + rest)))
  {
    var inner := name + ([EQUALS, QUOTE] + (v + [QUOTE]));
    assert ([SPACE] + inner + rest)[1..] == inner + rest;
    Assoc(name, [EQUALS, QUOTE] + (v + [QUOTE]), rest);
    Assoc([EQUALS, QUOTE], v + [QUOTE], rest);
    Assoc(v, [QUOTE], rest);
  }

  lemma {:induction false} ParseParamsText(ps: seq<Param>, rest: Bytes)
    requires forall i | 0 <= i < |ps| :: SdName(ps[i].0)
    ensures ParseParams(ParamsText(ps) + rest) == Some((ps, rest))
    ensures (ParamsText(ps) + rest)[0] in {SPACE, RBRACKET}
  {
    var text := ParamsText(ps) + rest;
    if ps == [] {
      assert text[1..] == rest;
    } else {
      var tail := ParamsText(ps[1..]) + rest;
      Assoc(ParamText(ps[0]), ParamsText(ps[1..]), rest);
      assert text == ParamText(ps[0]) + tail;
      ParseParamText(ps[0], tail);
      ParseParamsText(ps[1..], rest);
      assert [ps[0]] + ps[1..] == ps;
    }
  }

  lemma ElementParts(e: Element, rest: Bytes)
    requires WellFormed(e)
    ensures var text := ElementText(e) + rest;
            && text[0] == LBRACKET && |rest| < |text|
            && Until(text[1..], NAME_STOPS) == (e.id, ParamsText(e.params) + rest)
            && ParseParams(ParamsText(e.params) + rest) == Some((e.params, rest))
  {
    ParseParamsText(e.params, rest);
    var inner := e.id + ParamsText(e.params);
    UntilPlain(e.id, ParamsText(e.params) + rest, NAME_STOPS);
    Assoc([LBRACKET], inner, rest);
    SplitAt([LBRACKET], inner + rest);
    Assoc(e.id, ParamsText(e.params), rest);
  }

  lemma {:induction false} ParseElementsText(es: seq<Element>, rest: Bytes)
    requires forall i | 0 <= i < |es| :: WellFormed(es[i])
    requires [SPACE] <= rest
    ensures ParseElements(ElementsText(es) + rest) == Some((es, rest))
  {
    if es == [] {
      EmptySides(rest);
    } else {
      var tail := ElementsText(es[1..]) + rest;
      Assoc(ElementText(es[0]), ElementsText(es[1..]), rest);
      ElementParts(es[0], tail);
      ParseElementsText(es[1..], rest);
      Rejoin(es);
    }
  }

  lemma ParseStructuredDataText(sd: string, es: seq<Element>, h: Header, rest: Bytes)
    requires h.structuredData == sd && Represents(sd, es) && [SPACE] <= rest
    ensures ParseStructuredData(StructuredData(h) + rest) == Some((es, rest))
  {
    var text := StructuredData(h) + rest;
    if es == [] {
      assert Utf8.Encode(NILVALUE) == NIL by {
        assert NILVALUE[1..] == "" && Utf8.EncodeChar('-') == NIL;
        assert NIL + Utf8.Encode("") == NIL;
      }
      assert text[1..] == rest;
    } else {
      ParseElementsText(es, rest);
      ElementParts(es[0], ElementsText(es[1..]) + rest);
      Assoc(ElementText(es[0]), ElementsText(es[1..]), rest);
      assert Utf8.Encode(sd) != [] && sd != "";
    }
  }

  lemma StartParses(h: Header, rest: Bytes)
    ensures var text := Start(h) + rest; var pri := ByteText(Prival(h.facility, h.severity));
            && [LESS] <= text
            && Until(text[1..], {GREATER}) == (pri, [GREATER, LETTER_ONE, SPACE] + rest)
  {
    var pri := ByteText(Prival(h.facility, h.severity));
    var after := [GREATER, LETTER_ONE, SPACE];
    Assoc([LESS], pri, after);
    assert (Start(h) + rest)[1..] == pri + after + rest;
    Assoc(pri, after, rest);
    UntilPlain(pri, after + rest, {GREATER});
  }

  lemma PlainName(value: string, max: nat)
    ensures SPACE !in Utf8.Encode(Sanitized(value, max)) && Sanitized(value, max) != ""
  {
    SanitizedShape(value, max);
    PrintableBytes(Sanitized(value, max));
  }

  lemma FieldsParse(h: Header, clock: string, rest: Bytes)
    requires ' ' !in Stamp(h, clock)
    ensures ParseSpaced(Spaced(Fields(h, clock)) + rest, 5)
         == Some((Fields(h, clock)[..5], StructuredData(h) + ([SPACE] + rest)))
  {
    var first, sd := Fields(h, clock)[..5], StructuredData(h);
    Utf8.AsciiByteIffChar(Stamp(h, clock), SPACE);
    PlainName(h.hostname, 255);
    PlainName(h.appName, 48);
    PlainName(h.procid, 128);
    PlainName(h.msgid, 32);
    assert forall i | 0 <= i < 5 :: SPACE !in first[i];
    assert Fields(h, clock) == first + [sd];
    SpacedSnoc(first, sd);
    Assoc(Spaced(first), sd, [SPACE]);
    Assoc(Spaced(first), sd + [SPACE], rest);
    Assoc(sd, [SPACE], rest);
    ParseSpacedText(first, sd + ([SPACE] + rest));
  }

  lemma ParseParts(h: Header, clock: string, msg: Bytes, es: seq<Element>)
    requires ' ' !in Stamp(h, clock) && Represents(h.structuredData, es)
    ensures var f := Fields(h, clock);
            Parse(Message(h, clock, msg))
              == Some(Parsed(Min(h.facility, 23), Min(h.severity, 7), f[0], f[1], f[2], f[3], f[4], es,
                   BomAndMessage(h, msg)))
  {
    var body := BomAndMessage(h, msg);
    var fields := Spaced(Fields(h, clock)) + body;
    var rest := [GREATER, LETTER_ONE, SPACE] + fields;
    StartParses(h, fields);
    ParseByteText(Prival(h.facility, h.severity));
    PrivalDecodes(h.facility, h.severity);
    assert rest[3..] == fields;
    FieldsParse(h, clock, body);
    ParseStructuredDataText(h.structuredData, es, h, [SPACE] + body);
    assert ([SPACE] + body)[1..] == body;
  }

  /** A message with a space-free timestamp and well-formed structured data splits back into the clamped facility
      and severity, the timestamp given or the current one, host, application, process and message id in this order,
      each shown within its limit, the elements and the body behind its byte order mark. */
  lemma ParseMessage(h: Header, clock: string, msg: Bytes, es: seq<Element>)
    requires ' ' !in (if h.timestamp == "" then clock else h.timestamp) && Represents(h.structuredData, es)
    ensures var r := Parse(Message(h, clock, msg));
            && r.Some?
            && r.value.facility == (if h.facility < 24 then h.facility else 23)
            && r.value.severity == (if h.severity < 8 then h.severity else 7)
            && r.value.timestamp == Utf8.Encode(if h.timestamp == "" then clock else h.timestamp)
            && ShownAs(h.hostname, 255, r.value.hostname) && ShownAs(h.appName, 48, r.value.appName)
            && ShownAs(h.procid, 128, r.value.procid) && ShownAs(h.msgid, 32, r.value.msgid)
            && r.value.elements == es
            && r.value.body == (if h.bom then [0xEF, 0xBB, 0xBF] else []) + msg
    ensures var pri := (if h.facility < 24 then h.facility else 23) * 8 + if h.severity < 8 then h.severity else 7;
            [60] + ByteText(pri) + [62, 49, 32] <= Message(h, clock, msg)
  {
    ParseParts(h, clock, msg, es);
    NameShown(h.hostname, 255);
    NameShown(h.appName, 48);
    NameShown(h.procid, 128);
    NameShown(h.msgid, 32);
  }
}
