/** Backslash escapes: what the CEF, LEEF and RFC 5424 printers write, and a reader for it. */
module Escaping {
  import opened Basics
  import Utf8

  /** Which bytes are escaped, each with the letter written after the backslash. */
  type Code = map<Byte, Byte>

  /** The letters that may follow a backslash, each with the byte it stands for. */
  ghost predicate Decodes(decode: Code, code: Code) {
    BACKSLASH in code && forall b | b in code :: code[b] in decode && decode[code[b]] == b
  }

  function EscapeByte(b: Byte, code: Code): Bytes {
    if b in code then [BACKSLASH, code[b]] else [b]
  }

  function Escape(s: Bytes, code: Code): Bytes {
    if s == [] then [] else EscapeByte(s[0], code) + Escape(s[1..], code)
  }

  lemma {:induction false} EscapeConcat(a: Bytes, b: Bytes, code: Code)
    ensures Escape(a + b, code) == Escape(a, code) + Escape(b, code)
  {
    if a == [] {
      EmptySides(b);
      EmptySides(Escape(b, code));
    } else {
      HeadTail(a, b);
      EscapeConcat(a[1..], b, code);
      Assoc(EscapeByte(a[0], code), Escape(a[1..], code), Escape(b, code));
    }
  }

  lemma EscapeSnoc(s: Bytes, b: Byte, code: Code)
    ensures Escape(s + [b], code) == Escape(s, code) + EscapeByte(b, code)
  {
    EscapeConcat(s, [b], code);
    assert [b][1..] == [];
    EmptySides(EscapeByte(b, code));
  }

  lemma {:induction false} EscapeLength(s: Bytes, code: Code)
    ensures |s| <= |Escape(s, code)| <= 2 * |s|
  {
    if s != [] {
      EscapeLength(s[1..], code);
    }
  }

  /** Escaping neither adds nor hides a byte that is not escaped and not used as a letter. */
  lemma {:induction false} EscapeKeepsPlain(s: Bytes, code: Code, b: Byte)
    requires b != BACKSLASH && b !in code && b !in code.Values
    ensures b in Escape(s, code) <==> b in s
  {
    if s != [] {
      EscapeKeepsPlain(s[1..], code, b);
      if s[0] in code { assert code[s[0]] in code.Values; }
    }
  }

  /** An escaped byte that is not a letter of any escape never shows up. */
  lemma {:induction false} EscapeRemoves(s: Bytes, code: Code, b: Byte)
    requires b != BACKSLASH && b in code && b !in code.Values
    ensures b !in Escape(s, code)
  {
    if s != [] {
      EscapeRemoves(s[1..], code, b);
      if s[0] in code { assert code[s[0]] in code.Values; }
    }
  }

  /** Reads up to an unescaped stop byte or the end; yields the decoded bytes and the rest. */
  function Field(s: Bytes, stops: set<Byte>, decode: Code): Option<(Bytes, Bytes)> {
    if s == [] || s[0] in stops then Some(([], s))
    else if s[0] == BACKSLASH then
      if |s| < 2 || s[1] !in decode then None
      else
        var r := Field(s[2..], stops, decode);
        if r.None? then None else Some(([decode[s[1]]] + r.value.0, r.value.1))
    else
      var r := Field(s[1..], stops, decode);
      if r.None? then None else Some(([s[0]] + r.value.0, r.value.1))
  }

  /** The reader inverts the printer, provided the bytes that end a field are escaped inside it. */
  lemma {:induction false} FieldEscaped(s: Bytes, rest: Bytes, code: Code, stops: set<Byte>, decode: Code)
    requires Decodes(decode, code) && BACKSLASH !in stops
    requires forall b | b in s && b in stops :: b in code
    requires rest == [] || rest[0] in stops
    ensures Field(Escape(s, code) + rest, stops, decode) == Some((s, rest))
    decreases |s|
  {
    if s == [] {
      EmptySides(rest);
    } else {
      FieldEscaped(s[1..], rest, code, stops, decode);
      Rejoin(s);
      Assoc(EscapeByte(s[0], code), Escape(s[1..], code), rest);
      SplitAt(EscapeByte(s[0], code), Escape(s[1..], code) + rest);
      assert s[0] in s;
    }
  }

  // ----- What CEF and LEEF share -----

  type Pair = (Bytes, Bytes)

  const HEADER_CODE: Code := map[BACKSLASH := BACKSLASH, PIPE := PIPE]

  /** The message as text: bytes that are not UTF-8 count as an empty message. */
  function Body(msg: Bytes): Bytes {
    if Utf8.Decode(msg).Some? then msg else []
  }

  /** Backslash and pipe of a header field get a backslash in front, and no other byte is changed. */
  lemma HeaderEscapes(b: Byte)
    ensures Escape([b], HEADER_CODE) == if b == 92 || b == 124 then [92, b] else [b]
  {
    EmptySides(EscapeByte(b, HEADER_CODE));
    assert [b][1..] == [];
  }

  method EscapeHeaderInto(out: ByteBuffer, s: Bytes)
    modifies out
    ensures out.data == old(out.data) + Escape(s, HEADER_CODE)
  {
    for i := 0 to |s|
      invariant out.data == old(out.data) + Escape(s[..i], HEADER_CODE)
    {
      EscapeSnoc(s[..i], s[i], HEADER_CODE);
      assert s[..i + 1] == s[..i] + [s[i]];
      if s[i] == BACKSLASH {
        out.Push(BACKSLASH);
        out.Push(BACKSLASH);
      } else if s[i] == PIPE {
        out.Push(BACKSLASH);
        out.Push(PIPE);
      } else {
        out.Push(s[i]);
      }
    }
    assert s[..|s|] == s;
  }

  // ----- Raw text up to an unescaped equals sign -----

  /** Splits at the first equals sign that no backslash protects; escapes are left as they are. */
  function UntilEquals(s: Bytes): (r: (Bytes, Bytes))
    ensures |r.1| <= |s| && (r.1 == [] || r.1[0] == EQUALS)
  {
    if s == [] || s[0] == EQUALS then ([], s)
    else if s[0] == BACKSLASH && |s| >= 2 then
      var r := UntilEquals(s[2..]);
      (s[..2] + r.0, r.1)
    else
      var r := UntilEquals(s[1..]);
      ([s[0]] + r.0, r.1)
  }

  lemma UntilEqualsStep(b: Byte, tail: Bytes, code: Code)
    requires BACKSLASH in code && EQUALS in code
    ensures var head := EscapeByte(b, code);
            UntilEquals(head + tail) == (head + UntilEquals(tail).0, UntilEquals(tail).1)
  {
    SplitAt(EscapeByte(b, code), tail);
  }

  lemma {:induction false} UntilEqualsEscaped(s: Bytes, rest: Bytes, code: Code)
    requires BACKSLASH in code && EQUALS in code
    ensures UntilEquals(Escape(s, code) + rest)
         == (Escape(s, code) + UntilEquals(rest).0, UntilEquals(rest).1)
    decreases |s|
  {
    if s == [] {
      EmptySides(rest);
      EmptySides(UntilEquals(rest).0);
    } else {
      var head, tail := EscapeByte(s[0], code), Escape(s[1..], code) + rest;
      UntilEqualsEscaped(s[1..], rest, code);
      Assoc(head, Escape(s[1..], code), rest);
      UntilEqualsStep(s[0], tail, code);
      Assoc(head, Escape(s[1..], code), UntilEquals(rest).0);
    }
  }

  lemma {:induction false} UntilEqualsPlain(s: Bytes, rest: Bytes)
    requires EQUALS !in s && BACKSLASH !in s
    ensures UntilEquals(s + rest) == (s + UntilEquals(rest).0, UntilEquals(rest).1)
    decreases |s|
  {
    if s == [] {
      EmptySides(rest);
      EmptySides(UntilEquals(rest).0);
    } else {
      UntilEqualsPlain(s[1..], rest);
      HeadTail(s, rest);
      Rejoin(s);
      Assoc([s[0]], s[1..], UntilEquals(rest).0);
      assert s[0] in s;
    }
  }
}
