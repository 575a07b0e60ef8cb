/** The template language, as a list of tokens, and the map-keyed compiler that works on characters. */
module Template {
  import opened Basics

  /** A template is text, holes `{{name}}`, and perhaps a final `{{` that nothing closes; `Open` keeps the
      text from those braces on. */
  datatype Token<T> = Chr(c: T) | Hole(name: seq<T>) | Open(rest: seq<T>)

  /** The first position of two closing braces. */
  function FindClose<T(==)>(s: seq<T>, r: T): (k: Option<nat>)
    ensures k.Some? ==> k.value + 2 <= |s|
  {
    if |s| < 2 then None
    else if s[0] == r && s[1] == r then Some(0)
    else
      var k := FindClose(s[1..], r);
      if k.None? then None else Some(k.value + 1)
  }

  predicate Opens<T(==)>(s: seq<T>, l: T) { |s| >= 2 && s[0] == l && s[1] == l }

  function Tokens<T(==)>(s: seq<T>, l: T, r: T): seq<Token<T>>
    decreases |s|
  {
    if s == [] then []
    else if Opens(s, l) then
      var k := FindClose(s[2..], r);
      if k.None? then [Open(s)]
      else [Hole(s[2..][..k.value])] + Tokens(s[2..][k.value + 2..], l, r)
    else [Chr(s[0])] + Tokens(s[1..], l, r)
  }

  function TokenSource<T>(t: Token<T>, l: T, r: T): seq<T> {
    match t
    case Chr(c) => [c]
    case Hole(name) => [l, l] + name + [r, r]
    case Open(rest) => rest
  }

  function Source<T>(ts: seq<Token<T>>, l: T, r: T): seq<T> {
    if ts == [] then [] else TokenSource(ts[0], l, r) + Source(ts[1..], l, r)
  }

  lemma {:induction false} CloseAt<T>(s: seq<T>, r: T)
    ensures var k := FindClose(s, r); k.Some? ==> s[..k.value] + ([r, r] + s[k.value + 2..]) == s
  {
    if |s| >= 2 && !(s[0] == r && s[1] == r) {
      CloseAt(s[1..], r);
    }
  }

  /** Tokens are nothing but the template, cut up. */
  lemma {:induction false} SourceOfTokens<T>(s: seq<T>, l: T, r: T)
    ensures Source(Tokens(s, l, r), l, r) == s
    decreases |s|
  {
    if s != [] && Opens(s, l) {
      var body := s[2..];
      var k := FindClose(body, r);
      if k.Some? {
        var tail := body[k.value + 2..];
        CloseAt(body, r);
        SourceOfTokens(tail, l, r);
        SplitAt([Hole(body[..k.value])], Tokens(tail, l, r));
        Assoc([l, l] + body[..k.value], [r, r], tail);
        Assoc([l, l], body[..k.value], [r, r] + tail);
        assert s == [l, l] + body;
      } else {
        EmptySides(s);
        assert Tokens(s, l, r)[1..] == [];
      }
    } else if s != [] {
      SourceOfTokens(s[1..], l, r);
      SplitAt([Chr(s[0])], Tokens(s[1..], l, r));
      Rejoin(s);
    }
  }

  // ----- The map-keyed form -----

  datatype Part = Literal(text: string) | Placeholder(key: string)

  function Flush(literal: string): seq<Part> { if literal == "" then [] else [Literal(literal)] }

  /** The parts of a token list after the pending text `literal`.  An empty hole becomes an opening pair
      of braces and joins the text after it. */
  function Parts(ts: seq<Token<char>>, literal: string): seq<Part> {
    if ts == [] then Flush(literal)
    else
      match ts[0]
      case Chr(c) => Parts(ts[1..], literal + [c])
      case Hole(name) =>
        if name == "" then Flush(literal) + Parts(ts[1..], "{{")
        else Flush(literal) + ([Placeholder(name)] + Parts(ts[1..], ""))
      case Open(rest) => Flush(literal) + Parts(ts[1..], rest)
  }

  function CharTokens(template: string): seq<Token<char>> { Tokens(template, '{', '}') }

  /** The characters up to two closing braces, and whether those were found; `after` is the position
      behind them. */
  method ReadName(template: string, start: nat) returns (name: string, closed: bool, after: nat)
    requires start <= |template|
    ensures start <= after <= |template|
    ensures var k := FindClose(template[start..], '}');
            if k.Some? then closed && name == template[start..][..k.value] && after == start + k.value + 2
            else !closed && name == template[start..] && after == |template|
  {
    name, closed, after := "", false, start;
    while after < |template|
      invariant start <= after <= |template| && !closed && name == template[start..after]
      invariant var k, rest := FindClose(template[start..], '}'), FindClose(template[after..], '}');
                && (k.Some? <==> rest.Some?)
                && (k.Some? ==> start + k.value == after + rest.value)
    {
      var c := template[after];
      assert template[after..][1..] == template[after + 1..];
      if c == '}' && after + 1 < |template| && template[after + 1] == '}' {
        closed := true;
        assert FindClose(template[after..], '}') == Some(0);
        assert template[start..][..after - start] == template[start..after];
        after := after + 2;
        break;
      }
      name := name + [c];
      after := after + 1;
    }
  }

  /** The parts so far, and those of the rest with the pending text, are all the parts. */
  ghost predicate Compiled(parts: seq<Part>, rest: string, literal: string, goal: seq<Part>) {
    parts + Parts(CharTokens(rest), literal) == goal
  }

  method Compile(template: string) returns (parts: seq<Part>)
    ensures parts == Parts(CharTokens(template), "")
  {
    parts := [];
    var literal := "";
    var i := 0;
    ghost var goal := Parts(CharTokens(template), "");
    EmptySides(goal);
    assert template[0..] == template;
    while i < |template|
      invariant 0 <= i <= |template|
      invariant Compiled(parts, template[i..], literal, goal)
      decreases |template| - i
    {
      var c := template[i];
      ghost var before, pending, text := parts, literal, template[i..];
      if c == '{' && i + 1 < |template| && template[i + 1] == '{' {
        if literal != "" {
          parts := parts + [Literal(literal)];
          literal := "";
        } else {
          EmptySides(parts);
        }
        assert parts == before + Flush(pending) && literal == "";
        var name, closed, after := ReadName(template, i + 2);
        assert text[2..] == template[i + 2..];
        if closed && name != "" {
          parts := parts + [Placeholder(name)];
          assert text[2..][|name| + 2..] == template[after..];
          CompiledHole(before, text, pending, name, goal);
        } else {
          literal := literal + "{{" + name;
          EmptySides("{{");
          assert closed ==> literal == "{{" && text[2..][2..] == template[after..];
          assert !closed ==> literal == "{{" + text[2..] && template[after..] == "";
          CompiledLiteral(before, text, pending, goal);
        }
        i := after;
      } else {
        literal := literal + [c];
        assert text[1..] == template[i + 1..];
        ChrStep(text, pending);
        i := i + 1;
      }
    }
    assert template[i..] == "";
    if literal != "" {
      parts := parts + [Literal(literal)];
    } else {
      EmptySides(parts);
    }
  }

  lemma CompiledHole(parts: seq<Part>, text: string, pending: string, name: string, goal: seq<Part>)
    requires Compiled(parts, text, pending, goal) && Opens(text, '{') && FindClose(text[2..], '}').Some?
    requires name == text[2..][..FindClose(text[2..], '}').value] && name != ""
    ensures Compiled(parts + Flush(pending) + [Placeholder(name)], text[2..][|name| + 2..], "", goal)
  {
    var rest := Parts(CharTokens(text[2..][|name| + 2..]), "");
    HoleStep(text, pending, name);
    Assoc(parts, Flush(pending), [Placeholder(name)]);
    Assoc(parts, Flush(pending) + [Placeholder(name)], rest);
  }

  lemma CompiledLiteral(parts: seq<Part>, text: string, pending: string, goal: seq<Part>)
    requires Compiled(parts, text, pending, goal) && Opens(text, '{')
    requires var k := FindClose(text[2..], '}'); k.None? || k.value == 0
    ensures FindClose(text[2..], '}').Some? ==> Compiled(parts + Flush(pending), text[2..][2..], "{{", goal)
    ensures FindClose(text[2..], '}').None? ==> Compiled(parts + Flush(pending), "", "{{" + text[2..], goal)
  {
    LiteralStep(text, pending);
    if FindClose(text[2..], '}').Some? {
      Assoc(parts, Flush(pending), Parts(CharTokens(text[2..][2..]), "{{"));
    } else {
      Assoc(parts, Flush(pending), Parts(CharTokens(""), "{{" + text[2..]));
    }
  }

  lemma ChrStep(s: string, literal: string)
    requires s != "" && !Opens(s, '{')
    ensures Parts(CharTokens(s), literal) == Parts(CharTokens(s[1..]), literal + [s[0]])
  {
    SplitAt([Chr(s[0])], CharTokens(s[1..]));
  }

  lemma HoleStep(s: string, literal: string, name: string)
    requires Opens(s, '{') && FindClose(s[2..], '}').Some?
    requires name == s[2..][..FindClose(s[2..], '}').value] && name != ""
    ensures Parts(CharTokens(s), literal)
         == Flush(literal) + [Placeholder(name)] + Parts(CharTokens(s[2..][|name| + 2..]), "")
  {
    var rest := CharTokens(s[2..][|name| + 2..]);
    SplitAt([Hole(name)], rest);
    Assoc(Flush(literal), [Placeholder(name)], Parts(rest, ""));
  }

  lemma LiteralStep(s: string, literal: string)
    requires Opens(s, '{')
    requires var k := FindClose(s[2..], '}'); k.None? || k.value == 0
    ensures FindClose(s[2..], '}').Some?
        ==> Parts(CharTokens(s), literal) == Flush(literal) + Parts(CharTokens(s[2..][2..]), "{{")
    ensures FindClose(s[2..], '}').None?
        ==> Parts(CharTokens(s), literal) == Flush(literal) + Parts(CharTokens(""), "{{" + s[2..])
  {
    if FindClose(s[2..], '}').Some? {
      SplitAt([Hole(s[2..][..0])], CharTokens(s[2..][2..]));
    } else {
      assert s == "{{" + s[2..];
      assert [Open(s)][1..] == [];
    }
  }

  type Values = map<string, string>

  /** What a placeholder shows: its value, or its own source when it has none. */
  function LookUp(values: Values, key: string): string {
    if key in values then values[key] else "{{" + key + "}}"
  }

  function PartText(p: Part, values: Values): string {
    match p
    case Literal(text) => text
    case Placeholder(key) => LookUp(values, key)
  }

  function PartsText(parts: seq<Part>, values: Values): string {
    if parts == [] then "" else PartText(parts[0], values) + PartsText(parts[1..], values)
  }

  method Render(parts: seq<Part>, values: Values) returns (out: string)
    ensures out == PartsText(parts, values)
  {
    out := "";
    for i := 0 to |parts|
      invariant out + PartsText(parts[i..], values) == PartsText(parts, values)
    {
      assert parts[i..][0] == parts[i] && parts[i..][1..] == parts[i + 1..];
      Assoc(out, PartText(parts[i], values), PartsText(parts[i + 1..], values));
      match parts[i] {
        case Literal(text) => out := out + text;
        case Placeholder(key) =>
          if key in values {
            out := out + values[key];
          } else {
            out := out + ("{{" + key + "}}");
          }
      }
    }
    EmptySides(out);
  }

  // ----- Meaning -----

  /** A template with its holes filled by `value`, and its empty holes by `empty`. */
  function TokenText(t: Token<char>, values: Values, empty: string): string {
    match t
    case Chr(c) => [c]
    case Hole(name) => if name == "" then empty else LookUp(values, name)
    case Open(rest) => rest
  }

  function Meaning(ts: seq<Token<char>>, values: Values, empty: string): string {
    if ts == [] then "" else TokenText(ts[0], values, empty) + Meaning(ts[1..], values, empty)
  }

  lemma FlushText(literal: string, parts: seq<Part>, values: Values)
    ensures PartsText(Flush(literal) + parts, values) == literal + PartsText(parts, values)
  {
    if literal == "" {
      EmptySides(parts);
      EmptySides(PartsText(parts, values));
    } else {
      SplitAt([Literal(literal)], parts);
    }
  }

  /** Compiling then rendering means: every hole by its value, the empty hole by two opening braces. */
  lemma {:induction false} PartsMean(ts: seq<Token<char>>, literal: string, values: Values)
    ensures PartsText(Parts(ts, literal), values) == literal + Meaning(ts, values, "{{")
    decreases |ts|
  {
    if ts == [] {
      FlushText(literal, [], values);
      EmptySides(Flush(literal));
    } else {
      var more := Meaning(ts[1..], values, "{{");
      match ts[0]
      case Chr(c) =>
        PartsMean(ts[1..], literal + [c], values);
        Assoc(literal, [c], more);
      case Hole(name) =>
        if name == "" {
          PartsMean(ts[1..], "{{", values);
          FlushText(literal, Parts(ts[1..], "{{"), values);
        } else {
          var tail := Parts(ts[1..], "");
          PartsMean(ts[1..], "", values);
          EmptySides(more);
          SplitAt([Placeholder(name)], tail);
          FlushText(literal, [Placeholder(name)] + tail, values);
        }
      case Open(rest) =>
        PartsMean(ts[1..], rest, values);
        FlushText(literal, Parts(ts[1..], rest), values);
    }
  }

  // ----- What a reader of a template sees -----

  /** What compiling and then rendering returns. */
  function Rendered(template: string, values: Values): string { PartsText(Parts(CharTokens(template), ""), values) }

  function Characters(text: string): seq<Token<char>> {
    if text == "" then [] else [Chr(text[0])] + Characters(text[1..])
  }

  lemma {:induction false} PlainTokens(a: string, rest: string)
    requires '{' !in a
    ensures CharTokens(a + rest) == Characters(a) + CharTokens(rest)
  {
    if a == "" {
      EmptySides(rest);
      EmptySides(CharTokens(rest));
    } else {
      HeadTail(a, rest);
      PlainTokens(a[1..], rest);
      Assoc([Chr(a[0])], Characters(a[1..]), CharTokens(rest));
    }
  }

  lemma {:induction false} CloseAfter(key: string, b: string)
    requires '}' !in key
    ensures FindClose(key + "}}" + b, '}') == Some(|key|)
  {
    if key == "" {
      assert ("" + "}}" + b)[0] == '}' && ("" + "}}" + b)[1] == '}';
    } else {
      CloseAfter(key[1..], b);
      HeadTail(key, "}}");
      HeadTail(key + "}}", b);
    }
  }

  lemma PlaceholderTokens(key: string, b: string)
    requires '}' !in key
    ensures CharTokens("{{" + key + "}}" + b) == [Hole(key)] + CharTokens(b)
  {
    var s, body := "{{" + key + "}}" + b, key + "}}" + b;
    assert s == "{{" + body;
    SplitAt("{{", body);
    CloseAfter(key, b);
    SplitAt(key, "}}" + b);
    Assoc(key, "}}", b);
    assert body[|key| + 2..] == b;
  }

  lemma {:induction false} PlainMeans(a: string, ts: seq<Token<char>>, values: Values)
    ensures Meaning(Characters(a) + ts, values, "{{") == a + Meaning(ts, values, "{{")
  {
    if a == "" {
      EmptySides(ts);
      EmptySides(Meaning(ts, values, "{{"));
    } else {
      PlainMeans(a[1..], ts, values);
      Assoc([Chr(a[0])], Characters(a[1..]), ts);
      SplitAt([Chr(a[0])], Characters(a[1..]) + ts);
      Assoc([a[0]], a[1..], Meaning(ts, values, "{{"));
      Rejoin(a);
    }
  }

  lemma RenderedMeans(template: string, values: Values)
    ensures Rendered(template, values) == Meaning(CharTokens(template), values, "{{")
  {
    PartsMean(CharTokens(template), "", values);
    EmptySides(Meaning(CharTokens(template), values, "{{"));
  }

  lemma HoleMeans(key: string, b: string, values: Values)
    requires '}' !in key && key != ""
    ensures Meaning(CharTokens("{{" + key + "}}" + b), values, "{{")
         == (if key in values then values[key] else "{{" + key + "}}") + Meaning(CharTokens(b), values, "{{")
  {
    PlaceholderTokens(key, b);
    SplitAt([Hole(key)], CharTokens(b));
  }

  /** Text in front of a placeholder stays, the placeholder shows its value, or itself when it has none, and the
      rest is rendered on its own. */
  lemma PlaceholderShown(a: string, key: string, b: string, values: Values)
    requires '{' !in a && '}' !in key && key != ""
    ensures Rendered(a + ("{{" + key + "}}" + b), values)
         == a + ((if key in values then values[key] else "{{" + key + "}}") + Rendered(b, values))
  {
    var hole := "{{" + key + "}}" + b;
    PlainTokens(a, hole);
    PlainMeans(a, CharTokens(hole), values);
    HoleMeans(key, b, values);
    RenderedMeans(a + hole, values);
    RenderedMeans(b, values);
  }

  /** No hole is empty or has a value. */
  predicate NothingKnown(ts: seq<Token<char>>, values: Values) {
    forall i | 0 <= i < |ts| && ts[i].Hole? :: ts[i].name != "" && ts[i].name !in values
  }

  lemma {:induction false} UnknownMeans(ts: seq<Token<char>>, values: Values)
    requires NothingKnown(ts, values)
    ensures Meaning(ts, values, "{{") == Source(ts, '{', '}')
  {
    if ts != [] {
      assert forall i | 0 <= i < |ts[1..]| :: ts[1..][i] == ts[i + 1];
      UnknownMeans(ts[1..], values);
      assert TokenText(ts[0], values, "{{") == TokenSource(ts[0], '{', '}');
    }
  }

  /** A template without an empty hole and without a known name is shown as it is; one without any opening brace
      always is. */
  lemma UnknownUnchanged(template: string, values: Values)
    ensures NothingKnown(CharTokens(template), values) ==> Rendered(template, values) == template
    ensures '{' !in template ==> Rendered(template, values) == template
  {
    RenderedMeans(template, values);
    if NothingKnown(CharTokens(template), values) {
      UnknownMeans(CharTokens(template), values);
      SourceOfTokens(template, '{', '}');
    }
    if '{' !in template {
      PlainTokens(template, "");
      PlainMeans(template, [], values);
      EmptySides(template);
      EmptySides(Characters(template));
    }
  }
}
