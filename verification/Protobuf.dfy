/** Protobuf messages from a schema of templates: field specifications, rendering, and serializing. */
module Protobuf {
  import opened Basics
  import opened Decimal
  import opened Sorting
  import opened Wire
  import Template
  import Utf8

  datatype PbType = Str | Raw | Int | Uint | Sint | Bool | Double | Float

  // ----- Text helpers of the standard library -----

  /** The characters with the Unicode property White_Space. */
  predicate IsSpace(c: char) {
    var n := c as int;
    0x9 <= n <= 0xD || n in {0x20, 0x85, 0xA0, 0x1680, 0x2028, 0x2029, 0x202F, 0x205F, 0x3000} || 0x2000 <= n <= 0x200A
  }

  function TrimStart(s: string): string { if s != "" && IsSpace(s[0]) then TrimStart(s[1..]) else s }

  function TrimEnd(s: string): string {
    if s != "" && IsSpace(s[|s| - 1]) then TrimEnd(s[..|s| - 1]) else s
  }

  function Trim(s: string): string { TrimEnd(TrimStart(s)) }

  function Lower(s: string): string {
    seq(|s|, i requires 0 <= i < |s| => if 'A' <= s[i] <= 'Z' then (s[i] as int + 32) as char else s[i])
  }

  // ----- Types -----

  function ParseType(s: string): PbType {
    var t := Lower(s);
    if t in {"int", "int64", "int32"} then Int
    else if t in {"uint", "uint64", "uint32"} then Uint
    else if t in {"sint", "sint64", "sint32"} then Sint
    else if t in {"bool", "boolean"} then Bool
    else if t in {"double", "f64"} then Double
    else if t in {"float", "f32"} then Float
    else if t == "bytes" then Raw
    else Str
  }

  predicate IsKnownType(s: string) {
    Lower(s) in {"int", "int64", "int32", "uint", "uint64", "uint32", "sint", "sint64", "sint32", "bool", "boolean",
                 "double", "f64", "float", "f32", "bytes", "str", "string"}
  }

  /** The keyword list is complete: a word outside it names no type, and the two that mean text are in it. */
  lemma KnownTypes(s: string)
    ensures IsKnownType(s) <==> ParseType(s) != Str || Lower(s) == "str" || Lower(s) == "string"
  {
  }

  /** Every keyword with the type it names, in any case of its letters. */
  lemma TypeWords(s: string)
    ensures Lower(s) in {"int", "int64", "int32"} ==> ParseType(s) == Int
    ensures Lower(s) in {"uint", "uint64", "uint32"} ==> ParseType(s) == Uint
    ensures Lower(s) in {"sint", "sint64", "sint32"} ==> ParseType(s) == Sint
    ensures Lower(s) in {"bool", "boolean"} ==> ParseType(s) == Bool
    ensures Lower(s) in {"double", "f64"} ==> ParseType(s) == Double
    ensures Lower(s) in {"float", "f32"} ==> ParseType(s) == Float
    ensures Lower(s) == "bytes" ==> ParseType(s) == Raw
    ensures ParseType("Int64") == Int && ParseType("string") == Str && ParseType("text") == Str
  {
    assert Lower("Int64") == "int64" && Lower("string") == "string" && Lower("text") == "text";
  }

  function WireType(ty: PbType): nat {
    match ty
    case Str => 2
    case Raw => 2
    case Int => 0
    case Uint => 0
    case Sint => 0
    case Bool => 0
    case Double => 1
    case Float => 5
  }

  // ----- Values -----

  /** Text to the little-endian octets of the floating-point number it denotes; zero when it denotes none. */
  datatype FloatCodec = FloatCodec(double: string -> Bytes, single: string -> Bytes) {
    ghost predicate Valid() {
      (forall s: string :: |double(s)| == 8) && (forall s: string :: |single(s)| == 4)
    }
  }

  function SignedValue(value: string): int {
    var v := ParseI64(Trim(value));
    if v.Some? then v.value else 0
  }

  function UnsignedValue(value: string): nat {
    var v := ParseU64(Trim(value));
    if v.Some? then v.value else 0
  }

  predicate Truth(value: string) { Lower(Trim(value)) in {"1", "true", "yes"} }

  lemma SignedFits(value: string)
    ensures Signed64(SignedValue(value))
  {
  }

  function PayloadOf(ty: PbType, value: string, floats: FloatCodec): Payload {
    SignedFits(value);
    match ty
    case Str => Length(Utf8.Encode(value))
    case Raw => Length(Utf8.Encode(value))
    case Int => Number(Word(SignedValue(value)))
    case Uint => Number(UnsignedValue(value))
    case Sint => Number(Zigzag(SignedValue(value)))
    case Bool => Number(if Truth(value) then 1 else 0)
    case Double => Fixed64(floats.double(Trim(value)))
    case Float => Fixed32(floats.single(Trim(value)))
  }

  method EncodeField(buf: ByteBuffer, number: nat, ty: PbType, value: string, floats: FloatCodec)
    modifies buf
    ensures buf.data == old(buf.data) + FieldBytes(number, PayloadOf(ty, value, floats))
  {
    ghost var base, p := buf.data, PayloadOf(ty, value, floats);
    WriteTag(buf, number, WireType(ty));
    match ty {
      case Str =>
        var bytes := Utf8.Encode(value);
        WriteVarint(buf, |bytes|);
        buf.Extend(bytes);
        Assoc(base + Varint(Tag(number, WireType(ty))), Varint(|bytes|), bytes);
      case Raw =>
        var bytes := Utf8.Encode(value);
        WriteVarint(buf, |bytes|);
        buf.Extend(bytes);
        Assoc(base + Varint(Tag(number, WireType(ty))), Varint(|bytes|), bytes);
      case Int =>
        SignedFits(value);
        WriteVarint(buf, Word(SignedValue(value)));
      case Uint =>
        WriteVarint(buf, UnsignedValue(value));
      case Sint =>
        SignedFits(value);
        WriteVarint(buf, Zigzag(SignedValue(value)));
      case Bool =>
        WriteVarint(buf, if Truth(value) then 1 else 0);
      case Double =>
        buf.Extend(floats.double(Trim(value)));
      case Float =>
        buf.Extend(floats.single(Trim(value)));
    }
    Assoc(base, Varint(Tag(number, WireType(ty))), PayloadBytes(p));
  }

  /** What a reader that knows the type gets back from the payload. */
  lemma ValueRecovered(ty: PbType, value: string, floats: FloatCodec)
    requires floats.Valid()
    ensures var p := PayloadOf(ty, value, floats);
            && WellSized(p) && WireCode(p) == WireType(ty)
            && (p.Number? ==> p.v < TWO64)
            && match ty {
                 case Str => Utf8.Decode(p.bytes) == Some(value)
                 case Raw => Utf8.Decode(p.bytes) == Some(value)
                 case Int => FromWord(p.v) == SignedValue(value)
                 case Uint => p.v == UnsignedValue(value)
                 case Sint => Unzigzag(p.v) == SignedValue(value)
                 case Bool => p.v == 1 <==> Truth(value)
                 case Double => p.bytes == floats.double(Trim(value))
                 case Float => p.bytes == floats.single(Trim(value))
               }
  {
    SignedFits(value);
    match ty
    case Str => Utf8.DecodeEncode(value);
    case Raw => Utf8.DecodeEncode(value);
    case Int =>
      WordBijective(SignedValue(value), 0);
    case Sint =>
      ZigzagBijective(SignedValue(value), 0);
    case _ =>
  }

  /** A printed number is recovered by a reader of each signed integer type. */
  lemma NumbersSent(v: int, floats: FloatCodec)
    requires Signed64(v) && floats.Valid()
    ensures PayloadOf(Int, SignedText(v), floats).Number? && PayloadOf(Sint, SignedText(v), floats).Number?
    ensures FromWord(PayloadOf(Int, SignedText(v), floats).v) == v
    ensures Unzigzag(PayloadOf(Sint, SignedText(v), floats).v) == v
  {
    SignedTextMeans(v);
    ValueRecovered(Int, SignedText(v), floats);
    ValueRecovered(Sint, SignedText(v), floats);
  }

  lemma SignedTextMeans(v: int)
    requires Signed64(v)
    ensures SignedValue(SignedText(v)) == v
  {
    SignedTextTrims(v);
    ParseI64Text(v);
  }

  lemma SignedTextTrims(v: int)
    ensures Trim(SignedText(v)) == SignedText(v)
  {
    var n: nat := if v < 0 then -v else v;
    assert forall i | 0 <= i < |Text(n)| :: IsDigit(Text(n)[i]);
    TrimPlain(SignedText(v));
  }

  /** Any unsigned 64-bit number is sent as it is, a word without digits as zero. */
  lemma UnsignedSent(n: nat, floats: FloatCodec)
    requires n < 0x1_0000_0000_0000_0000
    ensures PayloadOf(Uint, Text(n), floats) == Number(n)
    ensures PayloadOf(Int, "none", floats) == Number(0) && PayloadOf(Uint, "none", floats) == Number(0)
  {
    assert SignedText(n) == Text(n);
    SignedTextTrims(n);
    ParseU64Text(n);
    TrimPlain("none");
    assert !IsDigit("none"[0]) && !IsDigit("none"[1]);
  }

  /** The words for true, in any case and between spaces, are sent as one, and others as zero. */
  lemma TruthSent(floats: FloatCodec)
    ensures forall w | w in {"1", "true", "yes", "True", " YES "} :: PayloadOf(Bool, w, floats) == Number(1)
    ensures forall w | w in {"0", "false", "no", ""} :: PayloadOf(Bool, w, floats) == Number(0)
  {
    TrueWords();
    FalseWords();
  }

  lemma TrueWords()
    ensures forall w | w in {"1", "true", "yes", "True", " YES "} :: Truth(w)
  {
    TrimPlain("1");
    TrimPlain("true");
    TrimPlain("yes");
    TrimPlain("True");
    assert TrimStart(" YES ") == "YES " by { assert " YES "[1..] == "YES "; }
    assert TrimEnd("YES ") == "YES" by { assert "YES "[..3] == "YES"; }
    assert Lower("1") == "1" && Lower("true") == "true" && Lower("yes") == "yes" && Lower("True") == "true";
    assert Lower("YES") == "yes";
  }

  lemma FalseWords()
    ensures forall w | w in {"0", "false", "no", ""} :: !Truth(w)
  {
    TrimPlain("0");
    TrimPlain("false");
    TrimPlain("no");
    assert Lower("0") == "0" && Lower("false") == "false" && Lower("no") == "no" && Lower("") == "";
    assert "0"[0] != "1"[0] && |"no"| == 2 && |"false"| == 5 && |""| == 0;
  }

  // ----- Field specifications -----

  type Spec = (PbType, string)

  /** `number:type:template`, `number:template`, or a template that takes the default number. */
  function ParseFieldSpec(defaultNumber: nat, raw: string): (nat, Spec) {
    var head := SplitOnce(raw, ':');
    if head.None? || ParseU64(Trim(head.value.0)).None? then (defaultNumber, (Str, raw))
    else
      var number, rest := ParseU64(Trim(head.value.0)).value, head.value.1;
      var typed := SplitOnce(rest, ':');
      if typed.Some? && IsKnownType(Trim(typed.value.0)) then (number, (ParseType(Trim(typed.value.0)), typed.value.1))
      else (number, (Str, rest))
  }

  lemma {:induction false} TrimPlain(s: string)
    requires forall i | 0 <= i < |s| :: !IsSpace(s[i])
    ensures Trim(s) == s
  {
  }

  lemma NumeralPrefix(n: nat, rest: string)
    requires n <= U64_MAX
    ensures SplitOnce(Text(n) + ":" + rest, ':') == Some((Text(n), rest))
    ensures ParseU64(Trim(Text(n))) == Some(n)
  {
    assert forall i | 0 <= i < |Text(n)| :: IsDigit(Text(n)[i]);
    TrimPlain(Text(n));
    ParseU64Text(n);
    SplitOnceAt(Text(n), ':', rest);
  }

  /** A printed specification parses back, with or without a type. */
  lemma SpecForms(defaultNumber: nat, n: nat, word: string, template: string)
    requires n <= U64_MAX && ':' !in word
    ensures IsKnownType(Trim(word)) ==>
              ParseFieldSpec(defaultNumber, Text(n) + ":" + (word + ":" + template))
                == (n, (ParseType(Trim(word)), template))
    ensures (var t := SplitOnce(template, ':'); t.None? || !IsKnownType(Trim(t.value.0))) ==>
              ParseFieldSpec(defaultNumber, Text(n) + ":" + template) == (n, (Str, template))
  {
    NumeralPrefix(n, word + ":" + template);
    NumeralPrefix(n, template);
    SplitOnceAt(word, ':', template);
  }

  /** The default number is used exactly when no numeral stands before the first colon. */
  lemma SpecDefault(defaultNumber: nat, raw: string)
    ensures ParseFieldSpec(defaultNumber, raw) == (defaultNumber, (Str, raw))
         <==> var head := SplitOnce(raw, ':'); head.None? || ParseU64(Trim(head.value.0)).None?
  {
    var head := SplitOnce(raw, ':');
    if head.Some? {
      SplitShorter(raw, ':');
      var typed := SplitOnce(head.value.1, ':');
      if typed.Some? {
        SplitShorter(head.value.1, ':');
      }
    }
  }

  // ----- Resolving and compiling a schema -----

  type Schema = map<string, string>

  type TextField = Keyed<Spec>
  type CompiledField = Keyed<(PbType, seq<Template.Part>)>

  /** Names in order take the default numbers `index`, `index + 1`, and so on. */
  function Specs(names: seq<string>, schema: Schema, index: nat): seq<TextField>
    requires forall n | n in names :: n in schema
  {
    if names == [] then []
    else
      assert names[0] in names;
      [ParseFieldSpec(index, schema[names[0]])] + Specs(names[1..], schema, index + 1)
  }

  /** The fields come in name order, and one that gives no number of its own takes its position, counted from one. */
  lemma {:induction false} SpecsAt(names: seq<string>, schema: Schema, index: nat, i: nat)
    requires i < |names| && forall n | n in names :: n in schema
    ensures |Specs(names, schema, index)| == |names| && names[i] in schema
    ensures Specs(names, schema, index)[i] == ParseFieldSpec(index + i, schema[names[i]])
  {
    assert names[0] in names;
    if |names| > 1 {
      SpecsAt(names[1..], schema, index + 1, if i > 0 then i - 1 else 0);
    }
    assert names[i] in names;
  }

  /** The field of the i-th name in order: numbered by its position, counted from one, when it gives no number. */
  lemma PositionalNumbers(schema: Schema, keys: seq<string>, i: nat)
    requires Lists(keys, schema.Keys) && i < |SortNames(keys)|
    requires ':' !in (if SortNames(keys)[i] in schema then schema[SortNames(keys)[i]] else "")
    ensures var name := SortNames(keys)[i];
            && name in schema && i < |SchemaSpecs(Some(schema), keys)|
            && SchemaSpecs(Some(schema), keys)[i] == (i + 1, (Str, schema[name]))
  {
    SortedNames(keys, schema);
    SpecsAt(SortNames(keys), schema, 1, i);
    NoSplit(schema[SortNames(keys)[i]], ':');
  }

  lemma {:induction false} NoSplit(s: string, c: char)
    requires c !in s
    ensures SplitOnce(s, c).None?
  {
    if s != "" {
      NoSplit(s[1..], c);
    }
  }

  function RenderSpec(f: TextField, values: Template.Values): TextField {
    (f.0, (f.1.0, Template.PartsText(Template.Parts(Template.CharTokens(f.1.1), ""), values)))
  }

  function RenderSpecs(fs: seq<TextField>, values: Template.Values): seq<TextField> {
    if fs == [] then [] else [RenderSpec(fs[0], values)] + RenderSpecs(fs[1..], values)
  }

  function CompileSpec(f: TextField): CompiledField {
    (f.0, (f.1.0, Template.Parts(Template.CharTokens(f.1.1), "")))
  }

  function CompileSpecs(fs: seq<TextField>): seq<CompiledField> {
    if fs == [] then [] else [CompileSpec(fs[0])] + CompileSpecs(fs[1..])
  }

  function RenderCompiled(f: CompiledField, values: Template.Values): TextField {
    (f.0, (f.1.0, Template.PartsText(f.1.1, values)))
  }

  function RenderAll(fs: seq<CompiledField>, values: Template.Values): seq<TextField> {
    if fs == [] then [] else [RenderCompiled(fs[0], values)] + RenderAll(fs[1..], values)
  }

  lemma SortedNames(keys: seq<string>, schema: Schema)
    requires Lists(keys, schema.Keys)
    ensures forall n | n in SortNames(keys) :: n in schema
  {
    forall n | n in SortNames(keys)
      ensures n in schema
    {
      SortNamesElements(keys, n);
    }
  }

  /** The schema's specifications, in name order. */
  ghost function SchemaSpecs(schema: Option<Schema>, keys: seq<string>): seq<TextField>
    requires schema.Some? ==> Lists(keys, schema.value.Keys)
  {
    if schema.None? then []
    else
      SortedNames(keys, schema.value);
      Specs(SortNames(keys), schema.value, 1)
  }

  method ResolveFields(schema: Option<Schema>, keys: seq<string>, values: Template.Values)
    returns (out: seq<TextField>)
    requires schema.Some? ==> Lists(keys, schema.value.Keys)
    ensures out == RenderSpecs(SchemaSpecs(schema, keys), values)
  {
    out := [];
    if schema.Some? {
      SortedNames(keys, schema.value);
      var names := SortNames(keys);
      ghost var goal := RenderSpecs(Specs(names, schema.value, 1), values);
      EmptySides(goal);
      for i := 0 to |names|
        invariant out + RenderSpecs(Specs(names[i..], schema.value, i + 1), values) == goal
      {
        assert names[i] in names;
        var spec := ParseFieldSpec(i + 1, schema.value[names[i]]);
        assert names[i..][1..] == names[i + 1..];
        ghost var rest := Specs(names[i + 1..], schema.value, i + 2);
        SplitAt([spec], rest);
        var parts := Template.Compile(spec.1.1);
        var text := Template.Render(parts, values);
        Assoc(out, [(spec.0, (spec.1.0, text))], RenderSpecs(rest, values));
        out := out + [(spec.0, (spec.1.0, text))];
      }
      EmptySides(out);
    }
  }

  method CompileProtobufFields(schema: Option<Schema>, keys: seq<string>) returns (out: Option<seq<CompiledField>>)
    requires schema.Some? ==> Lists(keys, schema.value.Keys)
    ensures out == if schema.None? then None else Some(CompileSpecs(SchemaSpecs(schema, keys)))
  {
    if schema.None? {
      return None;
    }
    SortedNames(keys, schema.value);
    var names := SortNames(keys);
    var fields := [];
    ghost var goal := CompileSpecs(Specs(names, schema.value, 1));
    EmptySides(goal);
    for i := 0 to |names|
      invariant fields + CompileSpecs(Specs(names[i..], schema.value, i + 1)) == goal
    {
      assert names[i] in names;
      var spec := ParseFieldSpec(i + 1, schema.value[names[i]]);
      assert names[i..][1..] == names[i + 1..];
      ghost var rest := Specs(names[i + 1..], schema.value, i + 2);
      SplitAt([spec], rest);
      var parts := Template.Compile(spec.1.1);
      Assoc(fields, [(spec.0, (spec.1.0, parts))], CompileSpecs(rest));
      fields := fields + [(spec.0, (spec.1.0, parts))];
    }
    EmptySides(fields);
    return Some(fields);
  }

  // ----- Serializing -----

  function Payloads(fs: seq<TextField>, floats: FloatCodec): seq<Field> {
    if fs == [] then [] else [(fs[0].0, PayloadOf(fs[0].1.0, fs[0].1.1, floats))] + Payloads(fs[1..], floats)
  }

  method SerializeProtobuf(schema: Option<Schema>, keys: seq<string>, values: Template.Values, floats: FloatCodec)
    returns (result: Bytes)
    requires schema.Some? ==> Lists(keys, schema.value.Keys)
    ensures result == Message(Payloads(SortByKey(RenderSpecs(SchemaSpecs(schema, keys), values)), floats))
  {
    var fields := ResolveFields(schema, keys, values);
    var sorted := SortByKey(fields);
    result := EncodeFields(sorted, floats);
  }

  method EncodeFields(sorted: seq<TextField>, floats: FloatCodec) returns (result: Bytes)
    ensures result == Message(Payloads(sorted, floats))
  {
    var buf := new ByteBuffer();
    ghost var goal := Message(Payloads(sorted, floats));
    EmptySides(goal);
    for i := 0 to |sorted|
      invariant buf.data + Message(Payloads(sorted[i..], floats)) == goal
    {
      MessageStep(sorted[i..], floats, buf.data);
      assert sorted[i..][1..] == sorted[i + 1..];
      EncodeField(buf, sorted[i].0, sorted[i].1.0, sorted[i].1.1, floats);
    }
    EmptySides(buf.data);
    return buf.data;
  }

  lemma MessageStep(fs: seq<TextField>, floats: FloatCodec, done: Bytes)
    requires fs != []
    ensures done + Message(Payloads(fs, floats))
         == done + FieldBytes(fs[0].0, PayloadOf(fs[0].1.0, fs[0].1.1, floats)) + Message(Payloads(fs[1..], floats))
  {
    var f: Field := (fs[0].0, PayloadOf(fs[0].1.0, fs[0].1.1, floats));
    SplitAt([f], Payloads(fs[1..], floats));
    Assoc(done, FieldBytes(f.0, f.1), Message(Payloads(fs[1..], floats)));
  }

  method SerializeProtobufWithCompiled(fields: seq<CompiledField>, values: Template.Values, floats: FloatCodec)
    returns (result: Bytes)
    ensures result == Message(Payloads(RenderAll(SortByKey(fields), values), floats))
  {
    var sorted := SortByKey(fields);
    var buf := new ByteBuffer();
    ghost var goal := Message(Payloads(RenderAll(sorted, values), floats));
    EmptySides(goal);
    for i := 0 to |sorted|
      invariant buf.data + Message(Payloads(RenderAll(sorted[i..], values), floats)) == goal
    {
      assert sorted[i..][1..] == sorted[i + 1..];
      ghost var rest := RenderAll(sorted[i + 1..], values);
      SplitAt([RenderCompiled(sorted[i], values)], rest);
      MessageStep(RenderAll(sorted[i..], values), floats, buf.data);
      var text := Template.Render(sorted[i].1.1, values);
      EncodeField(buf, sorted[i].0, sorted[i].1.0, text, floats);
    }
    EmptySides(buf.data);
    return buf.data;
  }

  // ----- The two serializers -----

  lemma {:induction false} InsertCompiled(x: TextField, fs: seq<TextField>)
    ensures CompileSpecs(Insert(x, fs)) == Insert(CompileSpec(x), CompileSpecs(fs))
  {
    if fs == [] {
      assert [x][1..] == [];
    } else {
      SplitAt([CompileSpec(fs[0])], CompileSpecs(fs[1..]));
      if x.0 <= fs[0].0 {
        SplitAt([x], fs);
      } else {
        InsertCompiled(x, fs[1..]);
        SplitAt([fs[0]], Insert(x, fs[1..]));
      }
    }
  }

  lemma {:induction false} InsertRendered(x: TextField, fs: seq<TextField>, values: Template.Values)
    ensures RenderSpecs(Insert(x, fs), values) == Insert(RenderSpec(x, values), RenderSpecs(fs, values))
  {
    if fs == [] {
      assert [x][1..] == [];
    } else {
      SplitAt([RenderSpec(fs[0], values)], RenderSpecs(fs[1..], values));
      if x.0 <= fs[0].0 {
        SplitAt([x], fs);
      } else {
        InsertRendered(x, fs[1..], values);
        SplitAt([fs[0]], Insert(x, fs[1..]));
      }
    }
  }

  /** Sorting by number commutes with compiling and with rendering. */
  lemma {:induction false} SortCommutes(fs: seq<TextField>, values: Template.Values)
    ensures CompileSpecs(SortByKey(fs)) == SortByKey(CompileSpecs(fs))
    ensures RenderSpecs(SortByKey(fs), values) == SortByKey(RenderSpecs(fs, values))
  {
    if fs != [] {
      SortCommutes(fs[1..], values);
      InsertCompiled(fs[0], SortByKey(fs[1..]));
      InsertRendered(fs[0], SortByKey(fs[1..]), values);
      SplitAt([CompileSpec(fs[0])], CompileSpecs(fs[1..]));
      SplitAt([RenderSpec(fs[0], values)], RenderSpecs(fs[1..], values));
    }
  }

  lemma {:induction false} CompiledRenders(fs: seq<TextField>, values: Template.Values)
    ensures RenderAll(CompileSpecs(fs), values) == RenderSpecs(fs, values)
  {
    if fs != [] {
      CompiledRenders(fs[1..], values);
      SplitAt([CompileSpec(fs[0])], CompileSpecs(fs[1..]));
    }
  }

  /** Serializing from the compiled schema sends the same fields in the same order as compiling anew. */
  lemma SerializersAgree(schema: Option<Schema>, keys: seq<string>, values: Template.Values)
    requires schema.Some? ==> Lists(keys, schema.value.Keys)
    ensures var specs := SchemaSpecs(schema, keys);
            RenderAll(SortByKey(CompileSpecs(specs)), values) == SortByKey(RenderSpecs(specs, values))
  {
    var specs := SchemaSpecs(schema, keys);
    SortCommutes(specs, values);
    CompiledRenders(SortByKey(specs), values);
  }

  /** The order in which the hash map yields its keys does not show. */
  lemma KeyOrderIrrelevant(schema: Schema, a: seq<string>, b: seq<string>)
    requires Lists(a, schema.Keys) && Lists(b, schema.Keys)
    ensures SchemaSpecs(Some(schema), a) == SchemaSpecs(Some(schema), b)
  {
    ArrivalIrrelevant(a, b);
  }

  // ----- Decoding a serialized message -----

  lemma {:induction false} PayloadsWellSized(fs: seq<TextField>, floats: FloatCodec)
    requires floats.Valid()
    ensures |Payloads(fs, floats)| == |fs|
    ensures forall i | 0 <= i < |fs| :: WellSized(Payloads(fs, floats)[i].1) && Payloads(fs, floats)[i].0 == fs[i].0
  {
    if fs != [] {
      PayloadsWellSized(fs[1..], floats);
      ValueRecovered(fs[0].1.0, fs[0].1.1, floats);
    }
  }

  /** The decoder returns the rendered fields, sorted stably by number, exactly when every number is
      below 2^61; a greater number comes back modulo 2^61. */
  lemma DecodeSerialized(schema: Option<Schema>, keys: seq<string>, values: Template.Values, floats: FloatCodec)
    requires floats.Valid() && (schema.Some? ==> Lists(keys, schema.value.Keys))
    ensures var fields := SortByKey(RenderSpecs(SchemaSpecs(schema, keys), values));
            var sent := Payloads(fields, floats);
            && ReadMessage(Message(sent)) == Some(Wrapped(sent))
            && (ReadMessage(Message(sent)) == Some(sent) <==> forall i | 0 <= i < |fields| :: fields[i].0 < TWO61)
  {
    var fields := SortByKey(RenderSpecs(SchemaSpecs(schema, keys), values));
    var sent := Payloads(fields, floats);
    PayloadsWellSized(fields, floats);
    ReadMessageWritten(sent);
    WrappedSame(sent);
  }
}
