/** Newline-delimited JSON: the string escaper, the record, a parser (RFC 8259), and their inverse. */
module JsonLines {
  import opened Basics
  import opened Decimal
  import opened FormatCommon
  import opened Sorting
  import Utf8

  // ----- Escaping (section 7 of RFC 8259) -----

  const QUOTE_CHAR: char := '\"'
  const HEX: string := "0123456789abcdef"

  predicate Plain(c: char) { c as int >= 0x20 && c != QUOTE_CHAR && c != '\\' }

  /** How one character is written. */
  function EscapeChar(c: char): string {
    var n := c as int;
    if c == QUOTE_CHAR then ['\\', QUOTE_CHAR]
    else if c == '\\' then "\\\\"
    else if n == 8 then "\\b"
    else if n == 9 then "\\t"
    else if n == 10 then "\\n"
    else if n == 12 then "\\f"
    else if n == 13 then "\\r"
    else if n < 0x20 then ['\\', 'u', '0', '0', HEX[n / 16], HEX[n % 16]]
    else [c]
  }

  function EscapeText(s: string): string { if s == "" then "" else EscapeChar(s[0]) + EscapeText(s[1..]) }

  function Quoted(s: string): string { [QUOTE_CHAR] + EscapeText(s) + [QUOTE_CHAR] }

  lemma {:induction false} EscapeSnoc(s: string, c: char)
    ensures EscapeText(s + [c]) == EscapeText(s) + EscapeChar(c)
  {
    if s == "" {
      EmptySides([c]);
      EmptySides(EscapeChar(c));
      assert [c][1..] == "";
    } else {
      EscapeSnoc(s[1..], c);
      HeadTail(s, [c]);
      Assoc(EscapeChar(s[0]), EscapeText(s[1..]), EscapeChar(c));
    }
  }

  /** Copies the spans between escapes; the result is that of escaping character by character. */
  method EscapeJsonStringInto(out: TextBuffer, s: string)
    modifies out
    ensures out.text == old(out.text) + Quoted(s)
  {
    ghost var before := out.text;
    out.PushStr([QUOTE_CHAR]);
    var start: nat := 0;
    ghost var base := out.text;
    EmptySides(base);
    for i := 0 to |s|
      invariant start <= i && Copied(out.text, base, s, start, i)
    {
      if Plain(s[i]) {
        PlainStep(out.text, base, s, start, i);
        continue;
      }
      EscapeStep(out.text, base, s, start, i);
      if i > start {
        out.PushStr(s[start..i]);
      }
      PushEscape(out, s[i]);
      start := i + 1;
    }
    AllCopied(out.text, base, s, start);
    if start < |s| {
      out.PushStr(s[start..]);
    }
    out.PushStr([QUOTE_CHAR]);
    Assoc(before, [QUOTE_CHAR], EscapeText(s));
    Assoc(before, [QUOTE_CHAR] + EscapeText(s), [QUOTE_CHAR]);
  }

  /** Up to `i` everything is written but the plain span from `start` on. */
  ghost predicate Copied(text: string, base: string, s: string, start: nat, i: nat) {
    start <= i <= |s| && text + s[start..i] == base + EscapeText(s[..i])
  }

  lemma PlainStep(text: string, base: string, s: string, start: nat, i: nat)
    requires i < |s| && Plain(s[i]) && Copied(text, base, s, start, i)
    ensures Copied(text, base, s, start, i + 1)
  {
    EscapeSnoc(s[..i], s[i]);
    assert s[..i + 1] == s[..i] + [s[i]] && s[start..i + 1] == s[start..i] + [s[i]];
    Assoc(base, EscapeText(s[..i]), [s[i]]);
    Assoc(text, s[start..i], [s[i]]);
  }

  lemma EscapeStep(text: string, base: string, s: string, start: nat, i: nat)
    requires i < |s| && Copied(text, base, s, start, i)
    ensures i == start ==> text + s[start..i] == text
    ensures Copied(text + s[start..i] + EscapeChar(s[i]), base, s, i + 1, i + 1)
  {
    EscapeSnoc(s[..i], s[i]);
    assert s[..i + 1] == s[..i] + [s[i]] && s[i + 1..i + 1] == "";
    Assoc(base, EscapeText(s[..i]), EscapeChar(s[i]));
    EmptySides(text);
    EmptySides(text + s[start..i] + EscapeChar(s[i]));
  }

  lemma AllCopied(text: string, base: string, s: string, start: nat)
    requires start <= |s|
    ensures Copied(text, base, s, start, |s|) ==> text + s[start..] == base + EscapeText(s)
    ensures start == |s| && Copied(text, base, s, start, |s|) ==> text == base + EscapeText(s)
  {
    assert s[..|s|] == s && s[start..|s|] == s[start..];
    EmptySides(text);
  }

  method PushEscape(out: TextBuffer, c: char)
    requires !Plain(c)
    modifies out
    ensures out.text == old(out.text) + EscapeChar(c)
  {
    var n := c as int;
    if c == QUOTE_CHAR {
      out.PushStr(['\\', QUOTE_CHAR]);
    } else if c == '\\' {
      out.PushStr("\\\\");
    } else if n == 8 {
      out.PushStr("\\b");
    } else if n == 9 {
      out.PushStr("\\t");
    } else if n == 10 {
      out.PushStr("\\n");
    } else if n == 12 {
      out.PushStr("\\f");
    } else if n == 13 {
      out.PushStr("\\r");
    } else {
      ghost var base := out.text;
      out.PushStr("\\u00");
      out.PushStr([HEX[n / 16]]);
      out.PushStr([HEX[n % 16]]);
      assert "\\u00" + [HEX[n / 16]] + [HEX[n % 16]] == EscapeChar(c);
      Assoc(base, "\\u00", [HEX[n / 16]]);
      Assoc(base, "\\u00" + [HEX[n / 16]], [HEX[n % 16]]);
    }
  }

  // ----- The record: a map kept sorted by key -----

  type Entry = (string, string)

  predicate SortedKeys(es: seq<Entry>) { forall i, j | 0 <= i < j < |es| :: NameLt(es[i].0, es[j].0) }

  function Put(es: seq<Entry>, k: string, v: string): seq<Entry> {
    if es == [] then [(k, v)]
    else if k == es[0].0 then [(k, v)] + es[1..]
    else if NameLt(k, es[0].0) then [(k, v)] + es
    else [es[0]] + Put(es[1..], k, v)
  }

  function ToMap(es: seq<Entry>): map<string, string> {
    if es == [] then map[] else ToMap(es[1..])[es[0].0 := es[0].1]
  }

  lemma {:induction false} PutKeys(es: seq<Entry>, k: string, v: string, i: nat)
    requires i < |Put(es, k, v)|
    ensures Put(es, k, v)[i].0 == k || exists j :: 0 <= j < |es| && es[j].0 == Put(es, k, v)[i].0
  {
    if es != [] && k != es[0].0 && !NameLt(k, es[0].0) && i > 0 {
      PutKeys(es[1..], k, v, i - 1);
      if Put(es, k, v)[i].0 != k {
        var j :| 0 <= j < |es[1..]| && es[1..][j].0 == Put(es[1..], k, v)[i - 1].0;
        assert es[j + 1].0 == Put(es, k, v)[i].0;
      }
    }
  }

  lemma {:induction false} PutMap(es: seq<Entry>, k: string, v: string)
    requires SortedKeys(es)
    ensures ToMap(Put(es, k, v)) == ToMap(es)[k := v]
  {
    if es == [] {
      assert [(k, v)][1..] == [];
    } else if k == es[0].0 {
      SplitAt([(k, v)], es[1..]);
    } else if NameLt(k, es[0].0) {
      SplitAt([(k, v)], es);
    } else {
      PutMap(es[1..], k, v);
      SplitAt([es[0]], Put(es[1..], k, v));
    }
  }

  lemma {:induction false} PutSorted(es: seq<Entry>, k: string, v: string)
    requires SortedKeys(es)
    ensures SortedKeys(Put(es, k, v))
  {
    if es != [] {
      NameLeTotal(k, es[0].0);
      if k != es[0].0 && NameLt(k, es[0].0) {
        forall j | 0 < j < |es|
          ensures NameLt(k, es[j].0)
        {
          NameLtTransitive(k, es[0].0, es[j].0);
        }
      } else if k != es[0].0 {
        PutSorted(es[1..], k, v);
        var rest := Put(es[1..], k, v);
        FirstBelow(es, k, v, rest);
        ConsSorted(es[0], rest);
      }
    }
  }

  lemma ConsSorted(e: Entry, rest: seq<Entry>)
    requires SortedKeys(rest) && forall i | 0 <= i < |rest| :: NameLt(e.0, rest[i].0)
    ensures SortedKeys([e] + rest)
  {
    var all := [e] + rest;
    forall i, j | 0 <= i < j < |all|
      ensures NameLt(all[i].0, all[j].0)
    {
      assert all[j] == rest[j - 1];
      if i > 0 { assert all[i] == rest[i - 1]; }
    }
  }

  lemma FirstBelow(es: seq<Entry>, k: string, v: string, rest: seq<Entry>)
    requires es != [] && SortedKeys(es) && NameLt(es[0].0, k) && rest == Put(es[1..], k, v)
    ensures forall i | 0 <= i < |rest| :: NameLt(es[0].0, rest[i].0)
  {
    forall i | 0 <= i < |rest|
      ensures NameLt(es[0].0, rest[i].0)
    {
      PutKeys(es[1..], k, v, i);
      if rest[i].0 != k {
        var j :| 0 <= j < |es[1..]| && es[1..][j].0 == rest[i].0;
        assert es[j + 1].0 == rest[i].0;
      }
    }
  }

  function Level(severity: nat): string {
    match severity
    case 0 => "Emergency"
    case 1 => "Alert"
    case 2 => "Critical"
    case 3 => "Error"
    case 4 => "Warning"
    case 5 => "Notice"
    case 6 => "Informational"
    case _ => "Debug"
  }

  /** The message as text; `lossy` is the library's replacement for bytes that are not UTF-8. */
  function MessageText(msg: Bytes, lossy: Bytes -> string): string {
    var text := Utf8.Decode(msg);
    if text.Some? then text.value else lossy(msg)
  }

  predicate Given(s: string) { s != "" && s != NILVALUE }

  function Extras(extra: Option<seq<Entry>>): seq<Entry> { if extra.Some? then extra.value else [] }

  /** The fields every record has, and the ids that are given. */
  function StandardMap(h: Header, clock: string, text: string): map<string, string> {
    var empty: map<string, string> := map[];
    var always := empty["ts" := Stamp(h, clock)]["level" := Level(h.severity)]["facility" := Facility(h)]
                       ["host" := h.hostname]["app" := h.appName];
    var procid := if Given(h.procid) then always["procid" := h.procid] else always;
    var msgid := if Given(h.msgid) then procid["msgid" := h.msgid] else procid;
    msgid["msg" := text]
  }

  function Facility(h: Header): string { Text(Min(h.facility, 23)) }

  /** The record: the standard fields, overridden by the user's. */
  function RecordMap(h: Header, clock: string, text: string, extra: seq<Entry>): map<string, string> {
    StandardMap(h, clock, text) + ToMap(extra)
  }

  const LEVELS: seq<string> :=
    ["Emergency", "Alert", "Critical", "Error", "Warning", "Notice", "Informational", "Debug"]

  predicate MaybeGiven(m: map<string, string>, k: string, v: string) {
    if v == "" || v == "-" then k !in m else k in m && m[k] == v
  }

  predicate Holds(m: map<string, string>, k: string, v: string) { k in m && m[k] == v }

  lemma StandardValues(h: Header, clock: string, text: string)
    ensures var m := StandardMap(h, clock, text);
            && Holds(m, "ts", if h.timestamp == "" then clock else h.timestamp)
            && Holds(m, "level", LEVELS[if h.severity < 7 then h.severity else 7])
            && Holds(m, "facility", Text(if h.facility < 23 then h.facility else 23))
            && Holds(m, "host", h.hostname) && Holds(m, "app", h.appName) && Holds(m, "msg", text)
            && MaybeGiven(m, "procid", h.procid) && MaybeGiven(m, "msgid", h.msgid)
            && m.Keys <= {"ts", "level", "facility", "host", "app", "msg", "procid", "msgid"}
  {
  }

  /** What a record holds: every value the user gives, and under each other key what the header says. */
  lemma RecordValues(h: Header, clock: string, text: string, extra: seq<Entry>)
    ensures var m, user := RecordMap(h, clock, text, extra), ToMap(extra);
            && (forall k | k in user :: Holds(m, k, user[k]))
            && ("ts" !in user ==> Holds(m, "ts", if h.timestamp == "" then clock else h.timestamp))
            && ("level" !in user ==> Holds(m, "level", LEVELS[if h.severity < 7 then h.severity else 7]))
            && ("facility" !in user ==> Holds(m, "facility", Text(if h.facility < 23 then h.facility else 23)))
            && ("host" !in user ==> Holds(m, "host", h.hostname))
            && ("app" !in user ==> Holds(m, "app", h.appName))
            && ("msg" !in user ==> Holds(m, "msg", text))
            && ("procid" !in user ==> MaybeGiven(m, "procid", h.procid))
            && ("msgid" !in user ==> MaybeGiven(m, "msgid", h.msgid))
            && m.Keys <= user.Keys + {"ts", "level", "facility", "host", "app", "msg", "procid", "msgid"}
  {
    StandardValues(h, clock, text);
  }

  method StandardFields(h: Header, clock: string, text: string) returns (obj: seq<Entry>)
    ensures SortedKeys(obj) && ToMap(obj) == StandardMap(h, clock, text)
  {
    obj := [];
    obj := PutEntry(obj, "ts", Stamp(h, clock));
    obj := PutEntry(obj, "level", Level(h.severity));
    obj := PutEntry(obj, "facility", Facility(h));
    obj := PutEntry(obj, "host", h.hostname);
    obj := PutEntry(obj, "app", h.appName);
    if h.procid != "" && h.procid != NILVALUE {
      obj := PutEntry(obj, "procid", h.procid);
    }
    if h.msgid != "" && h.msgid != NILVALUE {
      obj := PutEntry(obj, "msgid", h.msgid);
    }
    obj := PutEntry(obj, "msg", text);
  }

  method PutEntry(es: seq<Entry>, k: string, v: string) returns (obj: seq<Entry>)
    requires SortedKeys(es)
    ensures SortedKeys(obj) && ToMap(obj) == ToMap(es)[k := v]
  {
    PutSorted(es, k, v);
    PutMap(es, k, v);
    obj := Put(es, k, v);
  }

  method AddExtras(standard: seq<Entry>, extra: seq<Entry>) returns (obj: seq<Entry>)
    requires SortedKeys(standard) && SortedKeys(extra)
    ensures SortedKeys(obj) && ToMap(obj) == ToMap(standard) + ToMap(extra)
  {
    obj := standard;
    assert extra[..0] == [];
    for i := 0 to |extra|
      invariant SortedKeys(obj) && ToMap(obj) == ToMap(standard) + ToMap(extra[..i])
    {
      ToMapSnoc(extra[..i], extra[i]);
      assert extra[..i + 1] == extra[..i] + [extra[i]];
      Override(ToMap(standard), ToMap(extra[..i]), extra[i].0, extra[i].1);
      obj := PutEntry(obj, extra[i].0, extra[i].1);
    }
    assert extra[..|extra|] == extra;
  }

  lemma Override(a: map<string, string>, b: map<string, string>, k: string, v: string)
    ensures (a + b)[k := v] == a + b[k := v]
  {
  }

  lemma {:induction false} ToMapSnoc(es: seq<Entry>, e: Entry)
    requires SortedKeys(es + [e])
    ensures ToMap(es + [e]) == ToMap(es)[e.0 := e.1]
  {
    var all := es + [e];
    if es == [] {
      assert all == [e] && all[1..] == [];
    } else {
      assert all[1..] == es[1..] + [e] && all[0] == es[0];
      assert NameLt(all[0].0, all[|es|].0);
      ToMapSnoc(es[1..], e);
    }
  }

  // ----- The line -----

  function EntryText(e: Entry): string { Quoted(e.0) + ([':'] + Quoted(e.1)) }

  /** The entries after the first, each behind a comma. */
  function MoreText(es: seq<Entry>): string {
    if es == [] then "" else [','] + (EntryText(es[0]) + MoreText(es[1..]))
  }

  function EntriesText(es: seq<Entry>): string {
    if es == [] then "" else EntryText(es[0]) + MoreText(es[1..])
  }

  function Line(es: seq<Entry>): string { ['{'] + (EntriesText(es) + ['}', '\n']) }

  method WriteLine(obj: seq<Entry>) returns (text: string)
    ensures text == Line(obj)
  {
    var out := new TextBuffer();
    out.PushStr(['{']);
    EmptySides(['{']);
    var first := true;
    ghost var goal := ['{'] + EntriesText(obj);
    for i := 0 to |obj|
      invariant first <==> i == 0
      invariant first ==> out.text == ['{']
      invariant !first ==> out.text + MoreText(obj[i..]) == goal
    {
      ghost var base := out.text;
      assert obj[i..][1..] == obj[i + 1..] && obj[i..][0] == obj[i];
      assert i == 0 ==> obj[1..] == obj[i + 1..];
      if !first {
        out.PushStr([',']);
        Assoc(base, [','], EntryText(obj[i]) + MoreText(obj[i + 1..]));
      }
      first := false;
      ghost var entryStart := out.text;
      EscapeJsonStringInto(out, obj[i].0);
      out.PushStr([':']);
      EscapeJsonStringInto(out, obj[i].1);
      Assoc(entryStart, Quoted(obj[i].0), [':']);
      Assoc(entryStart, Quoted(obj[i].0) + [':'], Quoted(obj[i].1));
      Assoc(Quoted(obj[i].0), [':'], Quoted(obj[i].1));
      Assoc(entryStart, EntryText(obj[i]), MoreText(obj[i + 1..]));
    }
    EmptySides(out.text);
    out.PushStr(['}']);
    out.PushStr(['\n']);
    assert ['}'] + ['\n'] == ['}', '\n'];
    Assoc(goal, ['}'], ['\n']);
    Assoc(['{'], EntriesText(obj), ['}', '\n']);
    return out.text;
  }

  // ----- The parser -----

  function HexDigit(c: char): Option<nat> {
    if '0' <= c <= '9' then Some(c as int - '0' as int)
    else if 'a' <= c <= 'f' then Some(c as int - 'a' as int + 10)
    else if 'A' <= c <= 'F' then Some(c as int - 'A' as int + 10)
    else None
  }

  /** Four hexadecimal digits. */
  function Hex4(s: string): (r: Option<nat>)
    requires |s| >= 4
    ensures r.Some? ==> r.value < 0x1_0000
  {
    var a, b, c, d := HexDigit(s[0]), HexDigit(s[1]), HexDigit(s[2]), HexDigit(s[3]);
    if a.None? || b.None? || c.None? || d.None? then None
    else Some(((a.value * 16 + b.value) * 16 + c.value) * 16 + d.value)
  }

  /** The character of a `\u` escape and the text after it; a character beyond the first plane takes two
      escapes. */
  function ReadCode(s: string): Option<(char, string)> {
    if |s| < 6 then None
    else
      var n := Hex4(s[2..]);
      if n.None? then None
      else if !(0xD800 <= n.value < 0xE000) then Some((n.value as char, s[6..]))
      else if n.value >= 0xDC00 || |s| < 12 || s[6] != '\\' || s[7] != 'u' then None
      else
        var m := Hex4(s[8..]);
        if m.None? || !(0xDC00 <= m.value < 0xE000) then None
        else Some(((0x1_0000 + (n.value - 0xD800) * 0x400 + (m.value - 0xDC00)) as char, s[12..]))
  }

  /** One character of a string. */
  function ReadUnit(s: string): Option<(char, string)>
    requires s != "" && s[0] != QUOTE_CHAR
  {
    if s[0] != '\\' then
      if s[0] as int < 0x20 then None else Some((s[0], s[1..]))
    else if |s| < 2 then None
    else
      var c, rest := s[1], s[2..];
      if c == QUOTE_CHAR || c == '\\' || c == '/' then Some((c, rest))
      else if c == 'b' then Some((8 as char, rest))
      else if c == 't' then Some((9 as char, rest))
      else if c == 'n' then Some((10 as char, rest))
      else if c == 'f' then Some((12 as char, rest))
      else if c == 'r' then Some((13 as char, rest))
      else if c == 'u' then ReadCode(s)
      else None
  }

  /** The characters up to the closing quotation mark, and the text after it. */
  function ReadString(s: string): Option<(string, string)>
    decreases |s|
  {
    if s == "" then None
    else if s[0] == QUOTE_CHAR then Some(("", s[1..]))
    else
      var u := ReadUnit(s);
      if u.None? || |u.value.1| >= |s| then None
      else
        var r := ReadString(u.value.1);
        if r.None? then None else Some(([u.value.0] + r.value.0, r.value.1))
  }

  function ReadEntry(s: string): Option<(Entry, string)> {
    if s == "" || s[0] != QUOTE_CHAR then None
    else
      var k := ReadString(s[1..]);
      if k.None? || !([':', QUOTE_CHAR] <= k.value.1) then None
      else
        var v := ReadString(k.value.1[2..]);
        if v.None? then None else Some(((k.value.0, v.value.0), v.value.1))
  }

  function ReadMore(s: string): Option<(seq<Entry>, string)>
    decreases |s|
  {
    if s == "" then None
    else if s[0] == '}' then Some(([], s[1..]))
    else if s[0] != ',' then None
    else
      var e := ReadEntry(s[1..]);
      if e.None? || |e.value.1| >= |s| then None
      else
        var r := ReadMore(e.value.1);
        if r.None? then None else Some(([e.value.0] + r.value.0, r.value.1))
  }

  /** An object of strings without insignificant white space, on a line of its own. */
  function ReadLine(s: string): Option<seq<Entry>> {
    if s == "" || s[0] != '{' then None
    else if s[1..] == ['}', '\n'] then Some([])
    else
      var e := ReadEntry(s[1..]);
      if e.None? then None
      else
        var r := ReadMore(e.value.1);
        if r.None? || r.value.1 != ['\n'] then None else Some([e.value.0] + r.value.0)
  }

  // ----- The parser inverts the printer -----

  lemma HexRound(n: nat)
    requires n < 16
    ensures HexDigit(HEX[n]) == Some(n)
  {
  }

  lemma ReadCodeEscaped(n: nat, rest: string)
    requires n < 0x20
    ensures ReadCode(['\\', 'u', '0', '0', HEX[n / 16], HEX[n % 16]] + rest) == Some((n as char, rest))
  {
    var e := ['\\', 'u', '0', '0', HEX[n / 16], HEX[n % 16]];
    var s := e + rest;
    HexRound(n / 16);
    HexRound(n % 16);
    SplitAt(e, rest);
    var four := s[2..];
    assert four[0] == '0' && four[1] == '0' && four[2] == HEX[n / 16] && four[3] == HEX[n % 16];
    assert n / 16 * 16 + n % 16 == n;
    assert HexDigit('0') == Some(0);
  }

  lemma ReadUnitEscaped(c: char, rest: string)
    ensures var s := EscapeChar(c) + rest;
            s[0] != QUOTE_CHAR && |rest| < |s| && ReadUnit(s) == Some((c, rest))
  {
    var s := EscapeChar(c) + rest;
    SplitAt(EscapeChar(c), rest);
    var n := c as int;
    if !Plain(c) && c != QUOTE_CHAR && c != '\\' && n !in {8, 9, 10, 12, 13} {
      ReadCodeEscaped(n, rest);
    }
  }

  lemma {:induction false} ReadStringEscaped(s: string, rest: string)
    ensures ReadString(EscapeText(s) + ([QUOTE_CHAR] + rest)) == Some((s, rest))
    decreases |s|
  {
    if s == "" {
      EmptySides([QUOTE_CHAR] + rest);
      SplitAt([QUOTE_CHAR], rest);
    } else {
      var tail := EscapeText(s[1..]) + ([QUOTE_CHAR] + rest);
      Assoc(EscapeChar(s[0]), EscapeText(s[1..]), [QUOTE_CHAR] + rest);
      ReadUnitEscaped(s[0], tail);
      ReadStringEscaped(s[1..], rest);
      Rejoin(s);
    }
  }

  lemma QuotedShape(s: string, rest: string)
    ensures var text := Quoted(s) + rest;
            text[0] == QUOTE_CHAR && text[1..] == EscapeText(s) + ([QUOTE_CHAR] + rest)
  {
    Assoc([QUOTE_CHAR], EscapeText(s), [QUOTE_CHAR]);
    Assoc([QUOTE_CHAR], EscapeText(s) + [QUOTE_CHAR], rest);
    SplitAt([QUOTE_CHAR], EscapeText(s) + [QUOTE_CHAR] + rest);
    Assoc(EscapeText(s), [QUOTE_CHAR], rest);
  }

  lemma ReadEntryWritten(e: Entry, rest: string)
    ensures var s := EntryText(e) + rest;
            ReadEntry(s) == Some((e, rest)) && |rest| < |s| && s[0] == QUOTE_CHAR
  {
    var value := Quoted(e.1) + rest;
    var colon := [':'] + value;
    Assoc(Quoted(e.0), [':'] + Quoted(e.1), rest);
    Assoc([':'], Quoted(e.1), rest);
    QuotedShape(e.0, colon);
    ReadStringEscaped(e.0, colon);
    QuotedShape(e.1, rest);
    SplitAt([':'], value);
    assert colon[2..] == value[1..];
    assert [':', QUOTE_CHAR] <= colon;
    ReadStringEscaped(e.1, rest);
  }

  const END: string := ['}', '\n']

  lemma {:induction false} ReadMoreWritten(es: seq<Entry>)
    ensures ReadMore(MoreText(es) + END) == Some((es, ['\n']))
  {
    if es == [] {
      EmptySides(END);
      assert END[1..] == ['\n'];
    } else {
      var tail := MoreText(es[1..]) + END;
      Assoc([','], EntryText(es[0]) + MoreText(es[1..]), END);
      Assoc(EntryText(es[0]), MoreText(es[1..]), END);
      SplitAt([','], EntryText(es[0]) + tail);
      ReadEntryWritten(es[0], tail);
      ReadMoreWritten(es[1..]);
      Rejoin(es);
    }
  }

  /** Every line reads back to the entries it was built from. */
  lemma ReadLineWritten(es: seq<Entry>)
    ensures ReadLine(Line(es)) == Some(es)
  {
    SplitAt(['{'], EntriesText(es) + END);
    if es == [] {
      EmptySides(END);
    } else {
      var tail := MoreText(es[1..]) + END;
      Assoc(EntryText(es[0]), MoreText(es[1..]), END);
      ReadEntryWritten(es[0], tail);
      ReadMoreWritten(es[1..]);
      Rejoin(es);
      assert (EntryText(es[0]) + tail)[0] != END[0];
    }
  }

  // ----- One line -----

  lemma NoLineFeedUnit(c: char)
    ensures '\n' !in EscapeChar(c)
  {
    assert forall i | 0 <= i < |HEX| :: HEX[i] != '\n';
  }

  lemma {:induction false} NoLineFeedEscaped(s: string)
    ensures '\n' !in EscapeText(s)
  {
    if s != "" {
      NoLineFeedUnit(s[0]);
      NoLineFeedEscaped(s[1..]);
    }
  }

  lemma NoLineFeedEntry(e: Entry)
    ensures '\n' !in EntryText(e)
  {
    NoLineFeedEscaped(e.0);
    NoLineFeedEscaped(e.1);
  }

  lemma {:induction false} NoLineFeedMore(es: seq<Entry>)
    ensures '\n' !in MoreText(es)
  {
    if es != [] {
      NoLineFeedEntry(es[0]);
      NoLineFeedMore(es[1..]);
    }
  }

  lemma LineBody(es: seq<Entry>) returns (body: string)
    ensures Line(es) == body + ['\n'] && '\n' !in body
  {
    var entries := EntriesText(es);
    body := ['{'] + (entries + ['}']);
    assert ['}'] + ['\n'] == END;
    Assoc(entries, ['}'], ['\n']);
    Assoc(['{'], entries + ['}'], ['\n']);
    assert '\n' !in entries by {
      if es != [] {
        NoLineFeedEntry(es[0]);
        NoLineFeedMore(es[1..]);
      }
    }
  }

  /** The record is one line: its bytes hold exactly one line feed, the last. */
  lemma OneLineFeed(es: seq<Entry>)
    ensures var bytes := Utf8.Encode(Line(es));
            bytes != [] && bytes[|bytes| - 1] == LF && LF !in bytes[..|bytes| - 1]
  {
    var body := LineBody(es);
    EndsLine(body);
  }

  lemma EndsLine(body: string)
    requires '\n' !in body
    ensures var bytes := Utf8.Encode(body + ['\n']);
            bytes != [] && bytes[|bytes| - 1] == LF && LF !in bytes[..|bytes| - 1]
  {
    Utf8.EncodeConcat(body, ['\n']);
    assert ['\n'][1..] == "";
    EmptySides([LF]);
    assert Utf8.Encode(['\n']) == [LF];
    SplitAt(Utf8.Encode(body), [LF]);
    Utf8.AsciiByteIffChar(body, LF);
  }

  // ----- The record as built and read back -----

  /** The entries of a record's bytes. */
  function ReadRecord(bytes: Bytes): Option<seq<Entry>> {
    var text := Utf8.Decode(bytes);
    if text.None? then None else ReadLine(text.value)
  }

  /** The bytes are one line that reads back to the standard fields overridden by the user's, keys strictly
      sorted, and they are laid out as `Line` does.  `clock` is the formatted current time, `extra` lists the
      user's sorted map. */
  method Build(h: Header, clock: string, extra: Option<seq<Entry>>, msg: Bytes, lossy: Bytes -> string)
    returns (result: Bytes)
    requires SortedKeys(Extras(extra))
    ensures var read := ReadRecord(result);
            && read.Some? && SortedKeys(read.value)
            && ToMap(read.value)
                 == RecordMap(h, clock, if Utf8.Decode(msg).Some? then Utf8.Decode(msg).value else lossy(msg),
                      if extra.Some? then extra.value else [])
            && result == Utf8.Encode(Line(read.value))
    ensures result != [] && result[|result| - 1] == LF && LF !in result[..|result| - 1]
  {
    var text := MessageText(msg, lossy);
    var fields := StandardFields(h, clock, text);
    if extra.Some? {
      fields := AddExtras(fields, extra.value);
    }
    var line := WriteLine(fields);
    result := Utf8.Encode(line);
    Utf8.DecodeEncode(line);
    ReadLineWritten(fields);
    OneLineFeed(fields);
  }
}
