/** Schema values for one message: the two passes over the sorted fields, with and without the cache. */
module SchemaGen {
  import opened Basics
  import opened RegexGen
  import opened Sorting
  import Utf8

  datatype SchemaField = SchemaField(
    fieldType: string,
    regex: Option<string>,
    dependsOn: Option<string>,
    mapping: Option<map<string, string>>,
    mappingDefault: Option<string>)

  type Schema = map<string, SchemaField>
  type Values = map<string, string>

  /** What the passes call: the parser of regular expressions, and the generators of the other field types. */
  datatype Library = Library(parse: string -> Option<Hir>, base: (SchemaField, Draws) -> (string, Draws)) {
    ghost predicate Sound() {
      forall pattern: string :: parse(pattern).Some? ==> RegexGen.Valid(parse(pattern).value)
    }
  }

  // ----- One field -----

  function GenFromRegex(lib: Library, pattern: string, ds: Draws): (string, Draws)
    requires lib.Sound()
  {
    var hir := lib.parse(pattern);
    if hir.Some? then Gen(hir.value, ds) else ("", ds)
  }

  function Pattern(field: SchemaField): string { if field.regex.Some? then field.regex.value else "" }

  /** A value of the field's own type; the pattern is parsed anew. */
  function GenField(lib: Library, field: SchemaField, ds: Draws): (string, Draws)
    requires lib.Sound()
  {
    if field.fieldType == "regex" then GenFromRegex(lib, Pattern(field), ds) else lib.base(field, ds)
  }

  /** The tree cached for a field when the phase was resolved. */
  function CachedHir(lib: Library, field: SchemaField): Option<Hir> {
    if field.fieldType == "regex" && field.regex.Some? then lib.parse(field.regex.value) else None
  }

  method GenSchemaFieldWithHir(lib: Library, field: SchemaField, cached: Option<Hir>, rng: Rng)
    returns (value: string)
    requires lib.Sound() && (cached.Some? ==> cached == CachedHir(lib, field))
    modifies rng
    ensures (value, rng.draws) == GenField(lib, field, old(rng.draws))
  {
    if field.fieldType == "regex" {
      EmptySides(GenField(lib, field, rng.draws).0);
      var out := new TextBuffer();
      if cached.Some? {
        GenHir(cached.value, rng, out);
      } else {
        var hir := lib.parse(if field.regex.Some? then field.regex.value else "");
        if hir.Some? {
          GenHir(hir.value, rng, out);
        }
      }
      return out.text;
    }
    var r := lib.base(field, rng.draws);
    rng.draws := r.1;
    return r.0;
  }

  function Seen(values: Values, parent: string): string { if parent in values then values[parent] else "" }

  /** The mapping's entry for the parent's value, else the default, else a value of the field's own type. */
  function Correlated(lib: Library, field: SchemaField, seen: string, ds: Draws): (string, Draws)
    requires lib.Sound()
  {
    if field.mapping.Some? && seen in field.mapping.value then (field.mapping.value[seen], ds)
    else if field.mappingDefault.Some? then (field.mappingDefault.value, ds)
    else GenField(lib, field, ds)
  }

  method ResolveCorrelatedField(lib: Library, field: SchemaField, parent: string, values: Values, rng: Rng)
    returns (value: string)
    requires lib.Sound()
    modifies rng
    ensures (value, rng.draws) == Correlated(lib, field, Seen(values, parent), old(rng.draws))
  {
    var seen := if parent in values then values[parent] else "";
    if field.mapping.Some? {
      if seen in field.mapping.value {
        return field.mapping.value[seen];
      }
    }
    if field.mappingDefault.Some? {
      return field.mappingDefault.value;
    }
    value := GenSchemaFieldWithHir(lib, field, None, rng);
  }

  // ----- The two passes -----

  datatype State = State(values: Values, draws: Draws)

  predicate Independent(schema: Schema, k: string) { k in schema && schema[k].dependsOn.None? }

  predicate Dependent(schema: Schema, k: string) { k in schema && schema[k].dependsOn.Some? }

  predicate Known(names: seq<string>, schema: Schema) { forall i | 0 <= i < |names| :: names[i] in schema }

  function StepOne(lib: Library, schema: Schema, name: string, s: State): State
    requires lib.Sound() && name in schema
  {
    if schema[name].dependsOn.Some? then s
    else
      var r := GenField(lib, schema[name], s.draws);
      State(s.values[name := r.0], r.1)
  }

  function StepTwo(lib: Library, schema: Schema, name: string, s: State): State
    requires lib.Sound() && name in schema
  {
    if schema[name].dependsOn.None? then s
    else
      var r := Correlated(lib, schema[name], Seen(s.values, schema[name].dependsOn.value), s.draws);
      State(s.values[name := r.0], r.1)
  }

  /** The passes in order of the names: the last name is handled last. */
  function PassOne(lib: Library, schema: Schema, names: seq<string>, s: State): State
    requires lib.Sound() && Known(names, schema)
  {
    if names == [] then s
    else StepOne(lib, schema, names[|names| - 1], PassOne(lib, schema, names[..|names| - 1], s))
  }

  function PassTwo(lib: Library, schema: Schema, names: seq<string>, s: State): State
    requires lib.Sound() && Known(names, schema)
  {
    if names == [] then s
    else StepTwo(lib, schema, names[|names| - 1], PassTwo(lib, schema, names[..|names| - 1], s))
  }

  lemma KeysKnown(keys: seq<string>, schema: Schema)
    requires Lists(keys, schema.Keys)
    ensures Known(SortNames(keys), schema) && StrictlySorted(SortNames(keys))
    ensures forall k :: k in SortNames(keys) <==> k in schema
  {
    SortNamesSorted(keys);
    forall k
      ensures k in SortNames(keys) <==> k in keys
    {
      SortNamesElements(keys, k);
    }
    forall i | 0 <= i < |SortNames(keys)|
      ensures SortNames(keys)[i] in schema
    {
      assert SortNames(keys)[i] in SortNames(keys);
    }
  }

  ghost function Generated(lib: Library, schema: Schema, keys: seq<string>, s: State): State
    requires lib.Sound() && Lists(keys, schema.Keys)
  {
    KeysKnown(keys, schema);
    PassTwo(lib, schema, SortNames(keys), PassOne(lib, schema, SortNames(keys), s))
  }

  lemma PassStep(lib: Library, schema: Schema, names: seq<string>, i: nat, s: State)
    requires lib.Sound() && Known(names, schema) && i < |names|
    ensures Known(names[..i], schema) && Known(names[..i + 1], schema)
    ensures PassOne(lib, schema, names[..i + 1], s)
         == StepOne(lib, schema, names[i], PassOne(lib, schema, names[..i], s))
    ensures PassTwo(lib, schema, names[..i + 1], s)
         == StepTwo(lib, schema, names[i], PassTwo(lib, schema, names[..i], s))
  {
    assert names[..i + 1][..i] == names[..i];
  }

  /** The second pass, the same in both forms. */
  method SecondPass(lib: Library, schema: Schema, names: seq<string>, before: Values, rng: Rng)
    returns (values: Values)
    requires lib.Sound() && Known(names, schema)
    modifies rng
    ensures State(values, rng.draws) == PassTwo(lib, schema, names, State(before, old(rng.draws)))
  {
    ghost var start := State(before, rng.draws);
    values := before;
    for i := 0 to |names|
      invariant State(values, rng.draws) == PassTwo(lib, schema, names[..i], start)
    {
      PassStep(lib, schema, names, i, start);
      var field := schema[names[i]];
      if field.dependsOn.Some? {
        var value := ResolveCorrelatedField(lib, field, field.dependsOn.value, values, rng);
        values := values[names[i] := value];
      }
    }
    assert names[..|names|] == names;
  }

  /** Sorting the fields for every message; `keys` is the order in which the hash map yields them. */
  method GenerateUncached(lib: Library, schema: Schema, keys: seq<string>, defaults: Values, rng: Rng)
    returns (values: Values)
    requires lib.Sound() && Lists(keys, schema.Keys)
    modifies rng
    ensures State(values, rng.draws) == Generated(lib, schema, keys, State(defaults, old(rng.draws)))
  {
    KeysKnown(keys, schema);
    ghost var start := State(defaults, rng.draws);
    var names := SortNames(keys);
    values := defaults;
    for i := 0 to |names|
      invariant State(values, rng.draws) == PassOne(lib, schema, names[..i], start)
    {
      PassStep(lib, schema, names, i, start);
      var field := schema[names[i]];
      if field.dependsOn.None? {
        var value := GenSchemaFieldWithHir(lib, field, None, rng);
        values := values[names[i] := value];
      }
    }
    assert names[..|names|] == names;
    values := SecondPass(lib, schema, names, values, rng);
  }

  /** The sorted names and, beside each, its parsed pattern. */
  datatype Cache = Cache(names: seq<string>, hirs: seq<Option<Hir>>)

  ghost predicate CacheOf(cache: Cache, lib: Library, schema: Schema, keys: seq<string>) {
    && cache.names == SortNames(keys) && |cache.hirs| == |cache.names|
    && forall i | 0 <= i < |cache.names| ::
         cache.names[i] in schema && cache.hirs[i] == CachedHir(lib, schema[cache.names[i]])
  }

  method Resolve(lib: Library, schema: Schema, keys: seq<string>) returns (cache: Cache)
    requires Lists(keys, schema.Keys)
    ensures CacheOf(cache, lib, schema, keys)
  {
    KeysKnown(keys, schema);
    var hirs := CompileHirs(lib, schema, SortNames(keys));
    return Cache(SortNames(keys), hirs);
  }

  method CompileHirs(lib: Library, schema: Schema, names: seq<string>) returns (hirs: seq<Option<Hir>>)
    requires Known(names, schema)
    ensures |hirs| == |names| && forall i | 0 <= i < |names| :: hirs[i] == CachedHir(lib, schema[names[i]])
  {
    hirs := [];
    for i := 0 to |names|
      invariant |hirs| == i
      invariant forall j | 0 <= j < i :: hirs[j] == CachedHir(lib, schema[names[j]])
    {
      var hir := CompileHir(lib, schema[names[i]]);
      hirs := hirs + [hir];
    }
  }

  method CompileHir(lib: Library, field: SchemaField) returns (hir: Option<Hir>)
    ensures hir == CachedHir(lib, field)
  {
    hir := None;
    if field.fieldType == "regex" {
      if field.regex.Some? {
        hir := lib.parse(field.regex.value);
      }
    }
  }

  /** Reading the names and the trees from the cache changes nothing: the values and the draws used are
      those of the uncached passes. */
  method GenerateCached(lib: Library, schema: Schema, ghost keys: seq<string>, cache: Cache, defaults: Values, rng: Rng)
    returns (values: Values)
    requires lib.Sound() && Lists(keys, schema.Keys) && CacheOf(cache, lib, schema, keys)
    modifies rng
    ensures State(values, rng.draws) == Generated(lib, schema, keys, State(defaults, old(rng.draws)))
  {
    KeysKnown(keys, schema);
    ghost var start := State(defaults, rng.draws);
    var names := cache.names;
    values := defaults;
    for i := 0 to |names|
      invariant State(values, rng.draws) == PassOne(lib, schema, names[..i], start)
    {
      PassStep(lib, schema, names, i, start);
      var field := schema[names[i]];
      if field.dependsOn.None? {
        var value := GenSchemaFieldWithHir(lib, field, cache.hirs[i], rng);
        values := values[names[i] := value];
      }
    }
    assert names[..|names|] == names;
    values := SecondPass(lib, schema, names, values, rng);
  }

  /** The order in which the hash map yields the fields does not show, in the values or in the draws. */
  lemma IterationOrderIrrelevant(lib: Library, schema: Schema, a: seq<string>, b: seq<string>, s: State)
    requires lib.Sound() && Lists(a, schema.Keys) && Lists(b, schema.Keys)
    ensures Generated(lib, schema, a, s) == Generated(lib, schema, b, s)
  {
    ArrivalIrrelevant(a, b);
  }

  // ----- What the passes leave alone -----

  predicate SameAt(a: Values, b: Values, k: string) { (k in a <==> k in b) && (k in a && k in b ==> a[k] == b[k]) }

  lemma {:induction false} PassOneKeeps(lib: Library, schema: Schema, names: seq<string>, s: State, k: string)
    requires lib.Sound() && Known(names, schema) && !Independent(schema, k)
    ensures SameAt(s.values, PassOne(lib, schema, names, s).values, k)
    decreases |names|
  {
    if names != [] {
      PassOneKeeps(lib, schema, names[..|names| - 1], s, k);
    }
  }

  lemma {:induction false} PassTwoKeeps(lib: Library, schema: Schema, names: seq<string>, s: State, k: string)
    requires lib.Sound() && Known(names, schema) && (Dependent(schema, k) ==> k !in names)
    ensures SameAt(s.values, PassTwo(lib, schema, names, s).values, k)
    decreases |names|
  {
    if names != [] {
      assert names[|names| - 1] in names;
      PassTwoKeeps(lib, schema, names[..|names| - 1], s, k);
    }
  }

  lemma {:induction false} PassTwoSplit(lib: Library, schema: Schema, a: seq<string>, b: seq<string>, s: State)
    requires lib.Sound() && Known(a, schema) && Known(b, schema)
    ensures Known(a + b, schema)
    ensures PassTwo(lib, schema, a + b, s) == PassTwo(lib, schema, b, PassTwo(lib, schema, a, s))
    decreases |b|
  {
    if b == [] {
      EmptySides(a);
    } else {
      PassTwoSplit(lib, schema, a, b[..|b| - 1], s);
      assert (a + b)[..|a + b| - 1] == a + b[..|b| - 1];
    }
  }

  // ----- What a dependent field ends up as -----

  /** Is the parent's value final when the field is computed?  A parent that itself depends on a field must
      come earlier in name order. */
  predicate ParentReady(schema: Schema, name: string)
    requires Dependent(schema, name)
  {
    var parent := schema[name].dependsOn.value;
    !Dependent(schema, parent) || NameLt(parent, name)
  }

  /** The value of the mapping or the default, or some value of the field's own type. */
  ghost predicate FollowsFrom(lib: Library, field: SchemaField, seen: string, value: string)
    requires lib.Sound()
  {
    exists ds: Draws :: value == Correlated(lib, field, seen, ds).0
  }

  /** Follows from: spelled out. */
  lemma FollowsFromMeans(lib: Library, field: SchemaField, seen: string, value: string)
    requires lib.Sound()
    ensures field.mapping.Some? && seen in field.mapping.value ==>
              (FollowsFrom(lib, field, seen, value) <==> value == field.mapping.value[seen])
    ensures !(field.mapping.Some? && seen in field.mapping.value) && field.mappingDefault.Some? ==>
              (FollowsFrom(lib, field, seen, value) <==> value == field.mappingDefault.value)
    ensures !(field.mapping.Some? && seen in field.mapping.value) && field.mappingDefault.None? ==>
              (FollowsFrom(lib, field, seen, value) <==> exists ds: Draws :: value == GenField(lib, field, ds).0)
  {
    var ds: Draws := [];
    var here := Correlated(lib, field, seen, ds);
    if value == here.0 {
      assert FollowsFrom(lib, field, seen, value);
    }
    if !(field.mapping.Some? && seen in field.mapping.value) && field.mappingDefault.None? {
      assert forall d: Draws :: Correlated(lib, field, seen, d) == GenField(lib, field, d);
    }
  }

  /** Where a name is handled in the second pass: the state before and after, and the end of the pass. */
  ghost predicate HandledAt(lib: Library, schema: Schema, names: seq<string>, i: nat, middle: State, at: State,
                            final: State)
    requires lib.Sound()
  {
    && i < |names| && Known(names, schema) && StrictlySorted(names) && (forall k :: k in names <==> k in schema)
    && at == PassTwo(lib, schema, names[..i], middle)
    && final == PassTwo(lib, schema, names, middle)
  }

  lemma OwnValue(lib: Library, schema: Schema, names: seq<string>, i: nat, middle: State, at: State, final: State)
    requires lib.Sound() && HandledAt(lib, schema, names, i, middle, at, final)
    ensures SameAt(StepTwo(lib, schema, names[i], at).values, final.values, names[i])
  {
    var rest := names[i + 1..];
    PassStep(lib, schema, names, i, middle);
    SplitPass(lib, schema, names, i + 1, middle);
    forall j | 0 <= j < |rest|
      ensures rest[j] != names[i]
    {
      assert NameLt(names[i], names[i + 1 + j]);
    }
    PassTwoKeeps(lib, schema, rest, StepTwo(lib, schema, names[i], at), names[i]);
  }

  lemma SplitPass(lib: Library, schema: Schema, names: seq<string>, i: nat, middle: State)
    requires lib.Sound() && Known(names, schema) && i <= |names|
    ensures Known(names[..i], schema) && Known(names[i..], schema)
    ensures PassTwo(lib, schema, names, middle)
         == PassTwo(lib, schema, names[i..], PassTwo(lib, schema, names[..i], middle))
  {
    assert names[..i] + names[i..] == names;
    PassTwoSplit(lib, schema, names[..i], names[i..], middle);
  }

  /** A parent without a parent, or no field at all: the second pass never writes it. */
  lemma UnwrittenParent(lib: Library, schema: Schema, names: seq<string>, i: nat, middle: State, at: State,
                        final: State, parent: string)
    requires lib.Sound() && HandledAt(lib, schema, names, i, middle, at, final) && !Dependent(schema, parent)
    ensures SameAt(at.values, final.values, parent)
  {
    PassTwoKeeps(lib, schema, names[..i], middle, parent);
    PassTwoKeeps(lib, schema, names, middle, parent);
  }

  /** A parent earlier in name order: already final. */
  lemma EarlierParent(lib: Library, schema: Schema, names: seq<string>, i: nat, middle: State, at: State,
                      final: State, parent: string)
    requires lib.Sound() && HandledAt(lib, schema, names, i, middle, at, final) && NameLt(parent, names[i])
    ensures SameAt(at.values, final.values, parent)
  {
    var rest := names[i..];
    forall j | 0 <= j < |rest|
      ensures rest[j] != parent
    {
      NameLeTotal(parent, names[i]);
      assert j > 0 ==> NameLt(names[i], names[i + j]);
    }
    SplitPass(lib, schema, names, i, middle);
    PassTwoKeeps(lib, schema, rest, at, parent);
  }

  /** A parent later in name order: not written yet by either pass. */
  lemma LaterParent(lib: Library, schema: Schema, names: seq<string>, i: nat, s: State, middle: State, at: State,
                    final: State, parent: string)
    requires lib.Sound() && HandledAt(lib, schema, names, i, middle, at, final)
    requires middle == PassOne(lib, schema, names, s) && Dependent(schema, parent) && !NameLt(parent, names[i])
    ensures SameAt(s.values, at.values, parent)
  {
    forall j | 0 <= j < i
      ensures names[..i][j] != parent
    {
      assert NameLt(names[j], names[i]);
    }
    PassTwoKeeps(lib, schema, names[..i], middle, parent);
    PassOneKeeps(lib, schema, names, s, parent);
  }

  /** A dependent field follows from its parent's final value when the parent is ready, and otherwise from
      what the parent's name held before any field was generated. */
  lemma DependentValue(lib: Library, schema: Schema, keys: seq<string>, s: State, name: string)
    requires lib.Sound() && Lists(keys, schema.Keys) && Dependent(schema, name)
    ensures var final := Generated(lib, schema, keys, s).values;
            var parent := schema[name].dependsOn.value;
            && name in final
            && FollowsFrom(lib, schema[name], Seen(if ParentReady(schema, name) then final else s.values, parent),
                 final[name])
  {
    KeysKnown(keys, schema);
    var names, parent := SortNames(keys), schema[name].dependsOn.value;
    assert name in names;
    var i :| 0 <= i < |names| && names[i] == name;
    var middle := PassOne(lib, schema, names, s);
    assert Known(names[..i], schema);
    var at, final := PassTwo(lib, schema, names[..i], middle), PassTwo(lib, schema, names, middle);
    assert HandledAt(lib, schema, names, i, middle, at, final);
    OwnValue(lib, schema, names, i, middle, at, final);
    assert FollowsFrom(lib, schema[name], Seen(at.values, parent), final.values[name]);
    if !Dependent(schema, parent) {
      UnwrittenParent(lib, schema, names, i, middle, at, final, parent);
    } else if NameLt(parent, name) {
      EarlierParent(lib, schema, names, i, middle, at, final, parent);
    } else {
      LaterParent(lib, schema, names, i, s, middle, at, final, parent);
    }
  }

  /** A field without a parent keeps the value of the first pass. */
  lemma IndependentValue(lib: Library, schema: Schema, keys: seq<string>, s: State, name: string)
    requires lib.Sound() && Lists(keys, schema.Keys) && Independent(schema, name)
    ensures var final := Generated(lib, schema, keys, s).values;
            name in final && exists ds: Draws :: final[name] == GenField(lib, schema[name], ds).0
    ensures schema[name].fieldType != "regex" ==>
              exists ds: Draws :: Generated(lib, schema, keys, s).values[name] == lib.base(schema[name], ds).0
  {
    KeysKnown(keys, schema);
    var names := SortNames(keys);
    var middle := PassOne(lib, schema, names, s);
    assert name in names;
    FirstPassValue(lib, schema, names, s, name);
    PassTwoKeeps(lib, schema, names, middle, name);
  }

  lemma {:induction false} FirstPassValue(lib: Library, schema: Schema, names: seq<string>, s: State, name: string)
    requires lib.Sound() && Known(names, schema) && Independent(schema, name) && name in names
    ensures var v := PassOne(lib, schema, names, s).values;
            name in v && exists ds: Draws :: v[name] == GenField(lib, schema[name], ds).0
    decreases |names|
  {
    var last, front := names[|names| - 1], names[..|names| - 1];
    var before := PassOne(lib, schema, front, s);
    if last == name {
      assert PassOne(lib, schema, names, s).values[name] == GenField(lib, schema[name], before.draws).0;
    } else {
      assert names == front + [last];
      FirstPassValue(lib, schema, front, s, name);
    }
  }

  // ----- Fields given by a regular expression -----

  /** A field without a parent whose pattern parses to the tree `h`, one the walk is sound for. */
  predicate RegexField(lib: Library, schema: Schema, name: string, h: Hir) {
    && Independent(schema, name) && schema[name].fieldType == "regex" && schema[name].regex.Some?
    && lib.parse(schema[name].regex.value) == Some(h) && RegexGen.Valid(h) && RegexGen.Clean(h)
  }

  /** In every schema and for every draw stream the value is a string of the pattern's language, with capped
      repetitions. */
  lemma RegexValue(lib: Library, schema: Schema, keys: seq<string>, s: State, name: string, h: Hir)
    requires lib.Sound() && Lists(keys, schema.Keys) && RegexField(lib, schema, name, h)
    ensures var final := Generated(lib, schema, keys, s).values;
            name in final && RegexGen.Lang(h, final[name], true)
  {
    IndependentValue(lib, schema, keys, s, name);
    var final := Generated(lib, schema, keys, s).values;
    var ds: Draws :| final[name] == GenField(lib, schema[name], ds).0;
    GenSound(h, ds);
  }

  /** Some stream leaves `rest` after the field is generated. */
  ghost predicate CanLeave(lib: Library, field: SchemaField, rest: Draws)
    requires lib.Sound()
  {
    exists ds: Draws :: GenField(lib, field, ds).1 == rest
  }

  /** Whatever stream is to be left, some stream leaves it. */
  ghost predicate Steerable(lib: Library, field: SchemaField)
    requires lib.Sound()
  {
    forall rest: Draws :: CanLeave(lib, field, rest)
  }

  /** Fields with a sound tree are steerable; a generator of another type is when it reads a part of the stream and
      leaves the rest alone. */
  lemma RegexSteerable(lib: Library, schema: Schema, name: string, h: Hir)
    requires lib.Sound() && RegexField(lib, schema, name, h)
    ensures Steerable(lib, schema[name])
  {
    forall rest: Draws
      ensures CanLeave(lib, schema[name], rest)
    {
      GenSound(h, []);
      var ds := GenComplete(h, Gen(h, []).0, rest);
      assert GenField(lib, schema[name], ds + rest).1 == rest;
    }
  }

  ghost predicate AllSteerable(lib: Library, schema: Schema, names: seq<string>)
    requires lib.Sound() && Known(names, schema)
  {
    forall i | 0 <= i < |names| && schema[names[i]].dependsOn.None? :: Steerable(lib, schema[names[i]])
  }

  lemma StreamFor(lib: Library, field: SchemaField, rest: Draws) returns (ds: Draws)
    requires lib.Sound() && Steerable(lib, field)
    ensures GenField(lib, field, ds).1 == rest
  {
    assert CanLeave(lib, field, rest);
    ds :| GenField(lib, field, ds).1 == rest;
  }

  lemma {:induction false} StreamBefore(lib: Library, schema: Schema, names: seq<string>, values: Values, rest: Draws)
    returns (ds: Draws)
    requires lib.Sound() && Known(names, schema) && AllSteerable(lib, schema, names)
    ensures PassOne(lib, schema, names, State(values, ds)).draws == rest
    decreases |names|
  {
    if names == [] {
      ds := rest;
    } else {
      var front, last := names[..|names| - 1], names[|names| - 1];
      var needed := rest;
      if schema[last].dependsOn.None? {
        needed := StreamFor(lib, schema[last], rest);
      }
      ds := StreamBefore(lib, schema, front, values, needed);
    }
  }

  lemma {:induction false} PassOneLater(lib: Library, schema: Schema, names: seq<string>, s: State, i: nat)
    requires lib.Sound() && Known(names, schema) && StrictlySorted(names) && i < |names|
    ensures SameAt(PassOne(lib, schema, names[..i + 1], s).values, PassOne(lib, schema, names, s).values, names[i])
    decreases |names|
  {
    if i + 1 == |names| {
      assert names[..i + 1] == names;
    } else {
      var front := names[..|names| - 1];
      PassOneLater(lib, schema, front, s, i);
      assert front[..i + 1] == names[..i + 1];
      assert NameLt(names[i], names[|names| - 1]);
    }
  }

  /** Where the fields with an earlier name are steerable, every string of the language is the field's value for
      some stream. */
  lemma RegexReachable(lib: Library, schema: Schema, keys: seq<string>, values: Values, name: string, h: Hir, v: string)
    returns (ds: Draws)
    requires lib.Sound() && Lists(keys, schema.Keys) && RegexField(lib, schema, name, h)
    requires forall k | k in schema && NameLt(k, name) && schema[k].dependsOn.None? :: Steerable(lib, schema[k])
    requires RegexGen.Lang(h, v, true)
    ensures var final := Generated(lib, schema, keys, State(values, ds)).values;
            name in final && final[name] == v
  {
    KeysKnown(keys, schema);
    var names := SortNames(keys);
    assert name in names;
    var i :| 0 <= i < |names| && names[i] == name;
    var own := GenComplete(h, v, []);
    EmptySides(own);
    ds := StreamBefore(lib, schema, names[..i], values, own);
    var s := State(values, ds);
    PassStep(lib, schema, names, i, s);
    PassOneLater(lib, schema, names, s, i);
    PassTwoKeeps(lib, schema, names, PassOne(lib, schema, names, s), name);
  }

  /** Such a field takes exactly the strings of its pattern's language, with capped repetitions. */
  lemma RegexFieldExact(lib: Library, schema: Schema, keys: seq<string>, values: Values, name: string, h: Hir,
                        v: string)
    requires lib.Sound() && Lists(keys, schema.Keys) && RegexField(lib, schema, name, h)
    requires forall k | k in schema && NameLt(k, name) && schema[k].dependsOn.None? :: Steerable(lib, schema[k])
    ensures RegexGen.Lang(h, v, true) <==>
              exists ds: Draws :: Seen(Generated(lib, schema, keys, State(values, ds)).values, name) == v
  {
    if RegexGen.Lang(h, v, true) {
      var ds := RegexReachable(lib, schema, keys, values, name, h, v);
      assert Seen(Generated(lib, schema, keys, State(values, ds)).values, name) == v;
    }
    if exists ds: Draws :: Seen(Generated(lib, schema, keys, State(values, ds)).values, name) == v {
      var ds: Draws :| Seen(Generated(lib, schema, keys, State(values, ds)).values, name) == v;
      RegexValue(lib, schema, keys, State(values, ds), name, h);
    }
  }

  // ----- When a dependent parent is seen -----

  /** A field whose mapping copies two values and gives a default for any other. */
  function Copying(parent: string, mapping: map<string, string>): SchemaField {
    SchemaField("int", None, Some(parent), Some(mapping), Some("none"))
  }

  /** The field ends up with a value that follows from its parent's final one. */
  ghost predicate SeesParent(lib: Library, schema: Schema, keys: seq<string>, s: State, name: string)
    requires lib.Sound() && Lists(keys, schema.Keys) && Dependent(schema, name)
  {
    var final := Generated(lib, schema, keys, s).values;
    name in final && FollowsFrom(lib, schema[name], Seen(final, schema[name].dependsOn.value), final[name])
  }

  /** Whatever else the schema holds, whatever the draws and the values before the passes. */
  ghost predicate AlwaysSeen(lib: Library, name: string, parent: string)
    requires lib.Sound()
  {
    forall schema: Schema, keys: seq<string>, s: State ::
      Lists(keys, schema.Keys) && Dependent(schema, name) && schema[name].dependsOn == Some(parent)
      && Dependent(schema, parent)
      ==> SeesParent(lib, schema, keys, s, name)
  }

  lemma UnknownKept(lib: Library, schema: Schema, keys: seq<string>, s: State, k: string)
    requires lib.Sound() && Lists(keys, schema.Keys) && k !in schema
    ensures SameAt(s.values, Generated(lib, schema, keys, s).values, k)
  {
    KeysKnown(keys, schema);
    var names := SortNames(keys);
    PassOneKeeps(lib, schema, names, s, k);
    PassTwoKeeps(lib, schema, names, PassOne(lib, schema, names, s), k);
  }

  /** A field that is its own parent: it follows from the empty text, not from what it then holds. */
  lemma OwnParentUnseen(lib: Library, name: string) returns (schema: Schema, keys: seq<string>, s: State)
    requires lib.Sound()
    ensures Lists(keys, schema.Keys) && Dependent(schema, name) && schema[name].dependsOn == Some(name)
    ensures !SeesParent(lib, schema, keys, s, name)
  {
    var field := Copying(name, map["" := "y", "y" := "z"]);
    schema, keys, s := map[name := field], [name], State(map[], []);
    NameLeTotal(name, name);
    DependentValue(lib, schema, keys, s, name);
    var final := Generated(lib, schema, keys, s).values;
    assert |""| != |"y"| && "y"[0] != "z"[0];
    FollowsFromMeans(lib, field, "", final[name]);
    FollowsFromMeans(lib, field, "y", final[name]);
  }

  /** A parent later by name, with a parent of its own outside the schema: the field takes its default although
      its mapping has an entry for the parent's final value. */
  lemma LateParentUnseen(lib: Library, name: string, parent: string)
    returns (schema: Schema, keys: seq<string>, s: State)
    requires lib.Sound() && name != parent && !NameLt(parent, name)
    ensures Lists(keys, schema.Keys) && Dependent(schema, name) && schema[name].dependsOn == Some(parent)
    ensures Dependent(schema, parent) && !SeesParent(lib, schema, keys, s, name)
  {
    var origin := name + parent + "c";
    assert |origin| == |name| + |parent| + 1;
    var field, source := Copying(parent, map["y" := "z"]), Copying(origin, map["x" := "y"]);
    schema, keys, s := map[name := field, parent := source], [name, parent], State(map[origin := "x"], []);
    var final := Generated(lib, schema, keys, s).values;
    DependentValue(lib, schema, keys, s, parent);
    UnknownKept(lib, schema, keys, s, origin);
    FollowsFromMeans(lib, source, "x", final[parent]);
    DependentValue(lib, schema, keys, s, name);
    assert |""| != |"y"| && |"none"| != |"z"|;
    FollowsFromMeans(lib, field, "", final[name]);
    FollowsFromMeans(lib, field, "y", final[name]);
  }

  /** A dependent field always follows from the final value of a parent that depends on a field itself exactly
      when the parent comes earlier by name. */
  lemma SeenIffEarlier(lib: Library, name: string, parent: string)
    requires lib.Sound()
    ensures AlwaysSeen(lib, name, parent) <==> NameLt(parent, name)
  {
    if NameLt(parent, name) {
      forall schema: Schema, keys: seq<string>, s: State |
        Lists(keys, schema.Keys) && Dependent(schema, name) && schema[name].dependsOn == Some(parent)
        && Dependent(schema, parent)
        ensures SeesParent(lib, schema, keys, s, name)
      {
        DependentValue(lib, schema, keys, s, name);
      }
    } else if name == parent {
      var schema, keys, s := OwnParentUnseen(lib, name);
    } else {
      var schema, keys, s := LateParentUnseen(lib, name, parent);
    }
  }
}
