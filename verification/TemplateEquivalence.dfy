/** The two template compilers read one language: scanning the bytes finds the holes the characters show,
    and rendering from slots gives the bytes of the map-keyed rendering. */
module TemplateEquivalence {
  import opened Basics
  import opened PlanTemplate
  import opened Template
  import opened Utf8

  // ----- Bytes and characters cut alike -----

  function Chars(bytes: Bytes): TokenList {
    if bytes == [] then [] else [Chr(bytes[0])] + Chars(bytes[1..])
  }

  function EncodeToken(t: Token<char>): TokenList {
    match t
    case Chr(c) => Chars(EncodeChar(c))
    case Hole(name) => [Hole(Encode(name))]
    case Open(rest) => [Open(Encode(rest))]
  }

  function EncodeTokens(ts: seq<Token<char>>): TokenList {
    if ts == [] then [] else EncodeToken(ts[0]) + EncodeTokens(ts[1..])
  }

  lemma BraceByte(c: char, b: Byte)
    requires 0 <= b < 0x80
    ensures c == b as char <==> EncodeChar(c)[0] == b
    ensures c == b as char ==> EncodeChar(c) == [b]
    ensures forall i | 0 < i < |EncodeChar(c)| :: EncodeChar(c)[i] >= 0x80
  {
  }

  /** Two equal ASCII characters begin a text exactly when the two bytes begin its encoding. */
  lemma PairStarts(s: string, b: Byte)
    requires 0 <= b < 0x80
    ensures Opens(s, b as char) <==> Opens(Encode(s), b)
    ensures Opens(s, b as char) ==> Encode(s) == [b, b] + Encode(s[2..])
  {
    if |s| >= 1 {
      BraceByte(s[0], b);
      var tail := Encode(s[1..]);
      assert Encode(s) == EncodeChar(s[0]) + tail;
      if |s| >= 2 {
        BraceByte(s[1], b);
        assert s[1..][1..] == s[2..];
        assert tail == EncodeChar(s[1]) + Encode(s[2..]);
      }
    }
  }

  /** The same place, counted from `n` elements earlier. */
  function Later(k: Option<nat>, n: nat): Option<nat> { if k.None? then None else Some(k.value + n) }

  lemma FindCloseSkips(head: Bytes, tail: Bytes)
    requires head != [] && (forall i | 0 < i < |head| :: head[i] != RBRACE)
    requires !Opens(head + tail, RBRACE)
    ensures FindClose(head + tail, RBRACE) == Later(FindClose(tail, RBRACE), |head|)
    decreases |head|
  {
    var s := head + tail;
    HeadTail(head, tail);
    if |head| == 1 {
      assert head[1..] == [];
      EmptySides(tail);
      if |s| < 2 { assert tail == []; }
    } else {
      assert (head[1..] + tail)[0] == head[1];
      FindCloseSkips(head[1..], tail);
    }
  }

  lemma CloseLater<T>(s: seq<T>, r: T)
    requires s != [] && !Opens(s, r)
    ensures FindClose(s, r) == Later(FindClose(s[1..], r), 1)
  {
  }

  lemma BytesCloseLater(s: string)
    requires s != "" && !Opens(s, '}')
    ensures FindClose(Encode(s), RBRACE) == Later(FindClose(Encode(s[1..]), RBRACE), |EncodeChar(s[0])|)
  {
    PairStarts(s, RBRACE);
    BraceByte(s[0], RBRACE);
    FindCloseSkips(EncodeChar(s[0]), Encode(s[1..]));
  }

  /** The place `kb` among the bytes of `s` is the place `k` among its characters. */
  ghost predicate SamePlace(s: string, k: Option<nat>, kb: Option<nat>)
    requires k.Some? ==> k.value <= |s|
  {
    kb == if k.None? then None else Some(|Encode(s[..k.value])|)
  }

  lemma PlaceLater(s: string, k: Option<nat>, kb: Option<nat>)
    requires s != "" && (k.Some? ==> k.value <= |s[1..]|) && SamePlace(s[1..], k, kb)
    ensures SamePlace(s, Later(k, 1), Later(kb, |EncodeChar(s[0])|))
  {
    if k.Some? {
      assert s[..k.value + 1][1..] == s[1..][..k.value];
    }
  }

  /** The encoding of what precedes the closing braces, if any, tells where they are in bytes. */
  ghost predicate ClosesAlike(s: string) {
    SamePlace(s, FindClose(s, '}'), FindClose(Encode(s), RBRACE))
  }

  lemma CloseShifts(s: string)
    requires s != "" && !Opens(s, '}') && ClosesAlike(s[1..])
    ensures ClosesAlike(s)
  {
    BytesCloseLater(s);
    CloseLater(s, '}');
    PlaceLater(s, FindClose(s[1..], '}'), FindClose(Encode(s[1..]), RBRACE));
  }

  lemma {:induction false} FindCloseEncoded(s: string)
    ensures ClosesAlike(s)
  {
    PairStarts(s, RBRACE);
    if s == "" {
    } else if Opens(s, '}') {
      assert s[..0] == "";
    } else {
      FindCloseEncoded(s[1..]);
      CloseShifts(s);
    }
  }

  lemma {:induction false} TokensSkip(head: Bytes, tail: Bytes)
    requires head != [] && (forall i | 0 < i < |head| :: head[i] != LBRACE)
    requires !Opens(head + tail, LBRACE)
    ensures ByteTokens(head + tail) == Chars(head) + ByteTokens(tail)
    decreases |head|
  {
    HeadTail(head, tail);
    if |head| == 1 {
      assert head[1..] == [];
      EmptySides(tail);
    } else {
      assert (head[1..] + tail)[0] == head[1];
      TokensSkip(head[1..], tail);
      Assoc([Chr(head[0])], Chars(head[1..]), ByteTokens(tail));
    }
  }

  /** The bytes of a name, its closing braces and the rest. */
  lemma ClosedEncoded(body: string, k: nat)
    requires FindClose(body, '}') == Some(k)
    ensures Encode(body) == Encode(body[..k]) + ([RBRACE, RBRACE] + Encode(body[k + 2..]))
  {
    var name, rest := body[..k], body[k + 2..];
    CloseAt(body, '}');
    EncodeConcat(name, "}}" + rest);
    PairStarts("}}" + rest, RBRACE);
    SplitAt("}}", rest);
  }

  lemma HoleEncoded(s: string, k: nat)
    requires Opens(s, '{') && FindClose(s[2..], '}') == Some(k)
    ensures var name, rest := s[2..][..k], s[2..][k + 2..];
            ByteTokens(Encode(s)) == [Hole(Encode(name))] + ByteTokens(Encode(rest))
  {
    var body := s[2..];
    var name, rest := body[..k], body[k + 2..];
    PairStarts(s, LBRACE);
    SplitAt([LBRACE, LBRACE], Encode(body));
    FindCloseEncoded(body);
    ClosedEncoded(body, k);
    SplitAt(Encode(name), [RBRACE, RBRACE] + Encode(rest));
    CutRight(Encode(name), [RBRACE, RBRACE] + Encode(rest), |Encode(name)| + 2);
    SplitAt([RBRACE, RBRACE], Encode(rest));
  }

  lemma HoleTokens(s: string, k: nat)
    requires Opens(s, '{') && FindClose(s[2..], '}') == Some(k)
    requires var rest := s[2..][k + 2..]; ByteTokens(Encode(rest)) == EncodeTokens(CharTokens(rest))
    ensures ByteTokens(Encode(s)) == EncodeTokens(CharTokens(s))
  {
    HoleEncoded(s, k);
    SplitAt([Hole(s[2..][..k])], CharTokens(s[2..][k + 2..]));
  }

  lemma OpenTokens(s: string)
    requires Opens(s, '{') && FindClose(s[2..], '}') == None
    ensures ByteTokens(Encode(s)) == EncodeTokens(CharTokens(s))
  {
    PairStarts(s, LBRACE);
    FindCloseEncoded(s[2..]);
    SplitAt([LBRACE, LBRACE], Encode(s[2..]));
    assert [Open(s)][1..] == [];
    EmptySides([Open(Encode(s))]);
  }

  lemma ChrTokens(s: string)
    requires s != "" && !Opens(s, '{')
    requires ByteTokens(Encode(s[1..])) == EncodeTokens(CharTokens(s[1..]))
    ensures ByteTokens(Encode(s)) == EncodeTokens(CharTokens(s))
  {
    PairStarts(s, LBRACE);
    BraceByte(s[0], LBRACE);
    TokensSkip(EncodeChar(s[0]), Encode(s[1..]));
    SplitAt([Chr(s[0])], CharTokens(s[1..]));
  }

  /** Cutting the bytes gives the encoding of cutting the characters. */
  lemma {:induction false} TokensEncoded(s: string)
    ensures ByteTokens(Encode(s)) == EncodeTokens(CharTokens(s))
    decreases |s|
  {
    if s != "" {
      if !Opens(s, '{') {
        TokensEncoded(s[1..]);
        ChrTokens(s);
      } else if FindClose(s[2..], '}').None? {
        OpenTokens(s);
      } else {
        var k := FindClose(s[2..], '}').value;
        TokensEncoded(s[2..][k + 2..]);
        HoleTokens(s, k);
      }
    }
  }

  // ----- Rendering alike -----

  /** The bytes the map-keyed renderer would show for a name. */
  function ShowFrom(values: Values, name: Bytes): Bytes {
    var text := Decode(name);
    if text.None? then [] else Encode(LookUp(values, text.value))
  }

  lemma {:induction false} CharsShown(bytes: Bytes, rest: TokenList, show: Bytes -> Bytes)
    ensures Shown(Chars(bytes) + rest, show) == bytes + Shown(rest, show)
  {
    if bytes == [] {
      EmptySides(rest);
      EmptySides(Shown(rest, show));
    } else {
      CharsShown(bytes[1..], rest, show);
      HeadTail(Chars(bytes), rest);
      SplitAt([Chr(bytes[0])], Chars(bytes[1..]));
      Rejoin(bytes);
      Assoc([bytes[0]], bytes[1..], Shown(rest, show));
    }
  }

  lemma OneShown(t: Token<Byte>, rest: TokenList, show: Bytes -> Bytes)
    ensures Shown([t] + rest, show) == TokenShown(t, show) + Shown(rest, show)
  {
    SplitAt([t], rest);
  }

  const EMPTY_HOLE: string := "{{}}"

  lemma EncodedShown(t: Token<char>, rest: TokenList, values: Values)
    ensures var show := (name: Bytes) => ShowFrom(values, name);
            Shown(EncodeToken(t) + rest, show)
              == Encode(TokenText(t, values, EMPTY_HOLE)) + Shown(rest, show)
  {
    var show := (name: Bytes) => ShowFrom(values, name);
    match t
    case Chr(c) =>
      CharsShown(EncodeChar(c), rest, show);
      assert [c][1..] == "";
      EmptySides(EncodeChar(c));
    case Hole(name) =>
      OneShown(Hole(Encode(name)), rest, show);
      if name == "" {
        PairStarts(EMPTY_HOLE, LBRACE);
        PairStarts("}}", RBRACE);
        assert EMPTY_HOLE[2..] == "}}" && "}}"[2..] == "";
      } else {
        DecodeEncode(name);
        assert Encode(name) != [];
      }
    case Open(text) =>
      OneShown(Open(Encode(text)), rest, show);
  }

  lemma {:induction false} TokensShown(ts: seq<Token<char>>, values: Values)
    ensures var show := (name: Bytes) => ShowFrom(values, name);
            Shown(EncodeTokens(ts), show) == Encode(Meaning(ts, values, EMPTY_HOLE))
  {
    if ts != [] {
      TokensShown(ts[1..], values);
      EncodedShown(ts[0], EncodeTokens(ts[1..]), values);
      EncodeConcat(TokenText(ts[0], values, EMPTY_HOLE), Meaning(ts[1..], values, EMPTY_HOLE));
    }
  }

  /** The number of holes without a name. */
  function EmptyHoles(ts: seq<Token<char>>): nat {
    if ts == [] then 0 else (if ts[0] == Hole("") then 1 else 0) + EmptyHoles(ts[1..])
  }

  lemma {:induction false} EmptyHolesCost(ts: seq<Token<char>>, values: Values)
    ensures |Meaning(ts, values, EMPTY_HOLE)| == |Meaning(ts, values, "{{")| + 2 * EmptyHoles(ts)
    ensures EmptyHoles(ts) == 0 ==> Meaning(ts, values, EMPTY_HOLE) == Meaning(ts, values, "{{")
  {
    if ts != [] {
      EmptyHolesCost(ts[1..], values);
    }
  }

  /** The arena holds what the map gives for every name of the template. */
  ghost predicate Prepared(template: string, values: Values, arena: seq<Bytes>) {
    Populated(Names(ByteTokens(Encode(template))), 0, arena, (name: Bytes) => ShowFrom(values, name))
  }

  /** With every slot holding the value of its name, the two renderings agree exactly on the templates
      without an empty hole: there the map-keyed compiler drops the closing braces. */
  lemma RenderingsAgree(template: string, values: Values, arena: seq<Bytes>)
    requires Prepared(template, values, arena)
    ensures var parts := SlotParts(ByteTokens(Encode(template)), [], 0);
            var legacy := PartsText(Parts(CharTokens(template), ""), values);
            && InArena(parts, |arena|)
            && (SlotPartsText(parts, arena) == Encode(legacy) <==> EmptyHoles(CharTokens(template)) == 0)
  {
    var show := (name: Bytes) => ShowFrom(values, name);
    var ts := CharTokens(template);
    var full, legacy := Meaning(ts, values, EMPTY_HOLE), Meaning(ts, values, "{{");
    TemplateShows(ByteTokens(Encode(template)), 0, arena, show);
    TokensEncoded(template);
    TokensShown(ts, values);
    PartsMean(ts, "", values);
    EmptySides(legacy);
    EmptyHolesCost(ts, values);
    DecodeEncode(full);
    DecodeEncode(legacy);
  }

  /** The braces the map-keyed compiler drops: a lone empty hole comes out as two braces. */
  lemma EmptyHoleDiffers(values: Values)
    ensures PartsText(Parts(CharTokens(EMPTY_HOLE), ""), values) == "{{"
    ensures EmptyHoles(CharTokens(EMPTY_HOLE)) == 1
  {
    assert EMPTY_HOLE[2..] == "}}" && "}}"[2..] == "" && "}}"[..0] == "";
    assert CharTokens("") == [];
    assert CharTokens(EMPTY_HOLE) == [Hole("")] + [];
    var ts := CharTokens(EMPTY_HOLE);
    assert ts[0] == Hole("") && ts[1..] == [];
    PartsMean(ts, "", values);
    assert Meaning(ts, values, "{{") == "{{" + Meaning([], values, "{{");
  }
}
