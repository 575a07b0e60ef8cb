/** What the message formats share: the priority value, header sanitizing and PARAM-VALUE escaping. */
module FormatCommon {
  import opened Basics
  import opened Escaping
  import Utf8

  const NILVALUE: string := "-"

  /** The syslog header of a message; strings are Unicode text. */
  datatype Header = Header(
    facility: nat,
    severity: nat,
    hostname: string,
    appName: string,
    procid: string,
    msgid: string,
    structuredData: string,
    timestamp: string,
    bom: bool)

  /** The timestamp given, or the formatted current time. */
  function Stamp(h: Header, clock: string): string { if h.timestamp == "" then clock else h.timestamp }

  function Min(a: nat, b: nat): nat { if a < b then a else b }

  /** PRIVAL (section 6.2.1 of RFC 5424), with out-of-range inputs clamped. */
  function Prival(facility: nat, severity: nat): nat { Min(facility, 23) * 8 + Min(severity, 7) }

  lemma PrivalDecodes(facility: nat, severity: nat)
    ensures Prival(facility, severity) <= 191
    ensures Prival(facility, severity) / 8 == Min(facility, 23)
    ensures Prival(facility, severity) % 8 == Min(severity, 7)
  {
  }

  // ----- Sanitizing -----

  predicate Printable(c: char) { '!' <= c <= '~' }

  predicate PrintableByte(b: Byte) { 0x21 <= b <= 0x7E }

  predicate AllPrintable(s: string) { forall i | 0 <= i < |s| :: Printable(s[i]) }

  function CleanChar(c: char): char { if Printable(c) then c else '_' }

  function Clean(s: string): string { seq(|s|, i requires 0 <= i < |s| => CleanChar(s[i])) }

  /** The limit applied character by character, and the placeholder for an empty result. */
  function Sanitized(value: string, max: nat): string {
    var cleaned := Clean(value)[..Min(|value|, max)];
    if cleaned == "" then NILVALUE else cleaned
  }

  /** Text that starts with `k` ASCII bytes starts with those `k` characters. */
  lemma {:induction false} AsciiPrefix(s: string, k: nat)
    requires k <= |Utf8.Encode(s)|
    requires forall i | 0 <= i < k :: Utf8.Encode(s)[i] < 0x80
    ensures k <= |s|
    ensures Utf8.Encode(s)[..k] == Utf8.Encode(s[..k])
    ensures forall i | 0 <= i < k :: s[i] as int == Utf8.Encode(s)[i]
    decreases k
  {
    if k == 0 {
      assert s[..0] == "";
    } else {
      var head, tail := Utf8.EncodeChar(s[0]), Utf8.Encode(s[1..]);
      assert Utf8.Encode(s) == head + tail;
      assert (head + tail)[0] == head[0];
      assert |head| == 1 && head[0] == s[0] as int;
      assert forall i | 0 <= i < k - 1 :: tail[i] == Utf8.Encode(s)[i + 1];
      AsciiPrefix(s[1..], k - 1);
      assert s[..k][0] == s[0] && s[..k][1..] == s[1..][..k - 1];
      assert (head + tail)[..k] == head + tail[..k - 1];
      forall i | 0 <= i < k
        ensures s[i] as int == Utf8.Encode(s)[i]
      {
        if i > 0 { assert s[i] == s[1..][i - 1]; }
      }
    }
  }

  /** Printable text takes one byte a character. */
  lemma {:induction false} PrintableBytes(s: string)
    requires AllPrintable(s)
    ensures |Utf8.Encode(s)| == |s|
    ensures forall b | b in Utf8.Encode(s) :: PrintableByte(b)
  {
    if s != "" {
      PrintableBytes(s[1..]);
    }
  }

  /** The result is never empty, always printable ASCII, within the limit in bytes, and leaves clean text
      alone. */
  lemma SanitizedShape(value: string, max: nat)
    ensures var r := Sanitized(value, max);
            && r != "" && AllPrintable(r)
            && (max >= 1 ==> |Utf8.Encode(r)| <= max)
            && (AllPrintable(value) && 1 <= |value| <= max ==> r == value)
  {
    PrintableBytes(Sanitized(value, max));
    if AllPrintable(value) && 1 <= |value| <= max {
      assert Clean(value) == value;
    }
  }

  /** How a header field shows a name: the dash for an empty one; otherwise its first characters up to the limit,
      printable ASCII as it is and an underscore for anything else. */
  predicate ShownAs(name: string, max: nat, shown: Bytes) {
    if name == "" then shown == [45]
    else
      && |shown| == (if |name| < max then |name| else max)
      && forall i | 0 <= i < |shown| && i < |name| :: shown[i] == if '!' <= name[i] <= '~' then name[i] as int else 95
  }

  lemma {:induction false} PrintableSame(s: string)
    requires AllPrintable(s)
    ensures |Utf8.Encode(s)| == |s| && forall i | 0 <= i < |s| :: Utf8.Encode(s)[i] == s[i] as int
  {
    if s != "" {
      PrintableSame(s[1..]);
      assert Utf8.EncodeChar(s[0]) == [s[0] as int];
      assert forall i | 0 < i < |s| :: s[i] == s[1..][i - 1];
    }
  }

  lemma NameShown(value: string, max: nat)
    requires max >= 1
    ensures ShownAs(value, max, Utf8.Encode(Sanitized(value, max)))
  {
    SanitizedShape(value, max);
    PrintableSame(Sanitized(value, max));
  }

  /** The slow path: every character is looked at. */
  method CleanCharacters(value: string, max: nat) returns (r: string)
    ensures r == Sanitized(value, max)
  {
    var cleaned := "";
    var taken := 0;
    while taken < |value| && taken < max
      invariant 0 <= taken <= Min(|value|, max)
      invariant cleaned == Clean(value)[..taken]
    {
      cleaned := cleaned + [CleanChar(value[taken])];
      taken := taken + 1;
    }
    r := if cleaned == "" then NILVALUE else cleaned;
  }

  /** The bytes before the limit, and whether all of them are printable ASCII. */
  method ScanAscii(value: string, max: nat) returns (len: nat, needsClean: bool)
    ensures len == Min(|Utf8.Encode(value)|, max)
    ensures !needsClean <==> forall k | 0 <= k < len :: PrintableByte(Utf8.Encode(value)[k])
  {
    var bytes := Utf8.Encode(value);
    len := Min(|bytes|, max);
    needsClean := false;
    var i := 0;
    while i < len
      invariant 0 <= i <= len && !needsClean
      invariant forall k | 0 <= k < i :: PrintableByte(bytes[k])
    {
      if !PrintableByte(bytes[i]) {
        needsClean := true;
        break;
      }
      i := i + 1;
    }
  }

  /** An ASCII scan of the bytes first, the character loop only when it finds something to replace.
      Every non-zero limit gives the character-by-character result; a limit of zero does not. */
  method SanitizeHeader(value: string, max: nat) returns (r: string)
    ensures max >= 1 || value == "" || value == NILVALUE ==> r == Sanitized(value, max)
    ensures max == 0 && value != "" && value != NILVALUE ==> r == "" != Sanitized(value, max)
  {
    if value == "" || value == NILVALUE {
      assert Clean(NILVALUE) == NILVALUE;
      return NILVALUE;
    }
    var len, needsClean := ScanAscii(value, max);
    if needsClean {
      r := CleanCharacters(value, max);
    } else {
      AsciiPrefix(value, len);
      Utf8.DecodeEncode(value[..len]);
      r := Utf8.Decode(Utf8.Encode(value)[..len]).value;
      if max >= 1 {
        FastIsClean(value, max);
      }
    }
  }

  lemma FastIsClean(value: string, max: nat)
    requires value != "" && max >= 1
    requires forall k | 0 <= k < Min(|Utf8.Encode(value)|, max) :: PrintableByte(Utf8.Encode(value)[k])
    ensures Min(|Utf8.Encode(value)|, max) <= |value|
    ensures value[..Min(|Utf8.Encode(value)|, max)] == Sanitized(value, max)
  {
    var len := Min(|Utf8.Encode(value)|, max);
    AsciiPrefix(value, len);
    EncodeNotShorter(value);
    assert len == Min(|value|, max) && len >= 1;
    assert forall k | 0 <= k < len :: Printable(value[k]);
    assert Clean(value)[..len] == value[..len];
  }

  lemma {:induction false} EncodeNotShorter(s: string)
    ensures |s| <= |Utf8.Encode(s)|
  {
    if s != "" {
      EncodeNotShorter(s[1..]);
    }
  }

  // ----- Structured-data values (section 6.3.3 of RFC 5424) -----

  const SD_CODE: Code := map[QUOTE := QUOTE, BACKSLASH := BACKSLASH, RBRACKET := RBRACKET]

  /** Quotation mark, backslash and closing bracket get a backslash in front, and no other byte is changed. */
  lemma SdEscapes(b: Byte)
    ensures Escape([b], SD_CODE) == if b == 34 || b == 92 || b == 93 then [92, b] else [b]
  {
    EmptySides(EscapeByte(b, SD_CODE));
    assert [b][1..] == [];
  }

  /** Escaping the characters of a value escapes its bytes. */
  method EscapeSdValue(value: string) returns (out: string)
    ensures Utf8.Encode(out) == Escape(Utf8.Encode(value), SD_CODE)
  {
    out := "";
    for i := 0 to |value|
      invariant Utf8.Encode(out) == Escape(Utf8.Encode(value[..i]), SD_CODE)
    {
      var c := value[i];
      var piece := if c == '\"' || c == '\\' || c == ']' then ['\\', c] else [c];
      assert value[..i + 1] == value[..i] + [c];
      Utf8.EncodeConcat(value[..i], [c]);
      Utf8.EncodeConcat(out, piece);
      EscapeConcat(Utf8.Encode(value[..i]), Utf8.Encode([c]), SD_CODE);
      PieceEscaped(c);
      out := out + piece;
    }
    assert value[..|value|] == value;
  }

  lemma PieceEscaped(c: char)
    ensures var piece := if c == '\"' || c == '\\' || c == ']' then ['\\', c] else [c];
            Utf8.Encode(piece) == Escape(Utf8.Encode([c]), SD_CODE)
  {
    var bs := Utf8.EncodeChar(c);
    assert [c][1..] == "" && Utf8.Encode([c]) == bs + Utf8.Encode("");
    assert bs + Utf8.Encode("") == bs;
    if c == '\"' || c == '\\' || c == ']' {
      assert ['\\', c][1..] == [c];
      assert Utf8.Encode(['\\', c]) == [BACKSLASH] + bs;
      assert bs[1..] == [] && Escape(bs[1..], SD_CODE) == [];
    } else {
      EscapePlain(bs);
    }
  }

  lemma {:induction false} EscapePlain(s: Bytes)
    requires forall b | b in s :: b !in SD_CODE
    ensures Escape(s, SD_CODE) == s
  {
    if s != [] {
      assert s[0] in s;
      EscapePlain(s[1..]);
    }
  }
}
