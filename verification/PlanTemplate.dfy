/** The slot-indexed template compiler.  It scans bytes; holes become indices into the value arena. */
module PlanTemplate {
  import opened Basics
  import opened PlanValue
  import opened Template
  import opened Utf8

  const LBRACE: Byte := 123
  const RBRACE: Byte := 125

  datatype SlotPart = Text(text: Bytes) | Fixed(text: Bytes) | Slot(index: nat)

  function ByteTokens(bytes: Bytes): seq<Token<Byte>> { Tokens(bytes, LBRACE, RBRACE) }

  function TextPart(text: Bytes): seq<SlotPart> { if text == [] then [] else [Text(text)] }

  function TokenNames(t: Token<Byte>): seq<Bytes> { if t.Hole? then HoleName(t.name) else [] }

  /** The names of the non-empty holes, in order. */
  function Names(ts: seq<Token<Byte>>): seq<Bytes> {
    if ts == [] then [] else TokenNames(ts[0]) + Names(ts[1..])
  }

  function HoleName(key: Bytes): seq<Bytes> { if key == [] then [] else [key] }

  function HolePart(key: Bytes, slot: nat): SlotPart {
    if key == [] then Text([LBRACE, LBRACE, RBRACE, RBRACE]) else Slot(slot)
  }

  function Piece(t: Token<Byte>, slot: nat): SlotPart
    requires !t.Chr?
  {
    if t.Hole? then HolePart(t.name, slot) else Text(t.rest)
  }

  /** The parts of a token list after the pending text, the next free slot being `slot`. */
  function SlotParts(ts: seq<Token<Byte>>, pending: Bytes, slot: nat): seq<SlotPart> {
    if ts == [] then TextPart(pending)
    else if ts[0].Chr? then SlotParts(ts[1..], pending + [ts[0].c], slot)
    else TextPart(pending) + ([Piece(ts[0], slot)] + SlotParts(ts[1..], [], slot + |TokenNames(ts[0])|))
  }

  /** `&text[a..b]`: cutting anywhere else would panic.  The slice is text again. */
  function Slice(text: string, a: nat, b: nat): (r: Bytes)
    requires a <= b <= |Encode(text)| && IsBoundary(Encode(text), a) && IsBoundary(Encode(text), b)
    ensures Decode(r).Some?
  {
    SliceIsText(text, a, b);
    Encode(text)[a..b]
  }

  /** The position of the two braces that close the hole whose name starts at `start`, or the last
      position looked at. */
  method SkipName(bytes: Bytes, start: nat) returns (i: nat)
    requires start <= |bytes|
    ensures start <= i <= |bytes|
    ensures var k := FindClose(bytes[start..], RBRACE);
            if k.Some? then i == start + k.value && i + 1 < |bytes| && bytes[i] == RBRACE && bytes[i + 1] == RBRACE
            else i + 1 >= |bytes|
  {
    i := start;
    while i + 1 < |bytes| && !(bytes[i] == RBRACE && bytes[i + 1] == RBRACE)
      invariant start <= i <= |bytes|
      invariant var k, rest := FindClose(bytes[start..], RBRACE), FindClose(bytes[i..], RBRACE);
                (k.Some? <==> rest.Some?) && (k.Some? ==> start + k.value == i + rest.value)
    {
      assert bytes[i..][1..] == bytes[i + 1..];
      i := i + 1;
    }
  }

  lemma ByteStep(s: Bytes, pending: Bytes, slot: nat)
    requires s != [] && !Opens(s, LBRACE)
    ensures SlotParts(ByteTokens(s), pending, slot) == SlotParts(ByteTokens(s[1..]), pending + [s[0]], slot)
    ensures Names(ByteTokens(s)) == Names(ByteTokens(s[1..]))
  {
    SplitAt([Chr(s[0])], ByteTokens(s[1..]));
    EmptySides(Names(ByteTokens(s[1..])));
  }

  lemma OpenStep(s: Bytes, pending: Bytes, slot: nat)
    requires Opens(s, LBRACE) && FindClose(s[2..], RBRACE).None?
    ensures SlotParts(ByteTokens(s), pending, slot) == TextPart(pending) + [Text(s)]
    ensures Names(ByteTokens(s)) == []
  {
    assert [Open(s)][1..] == [];
    EmptySides([Text(s)]);
  }

  lemma HoleSlotStep(s: Bytes, pending: Bytes, slot: nat, key: Bytes)
    requires Opens(s, LBRACE) && FindClose(s[2..], RBRACE).Some?
    requires key == s[2..][..FindClose(s[2..], RBRACE).value]
    ensures var rest := ByteTokens(s[2..][|key| + 2..]);
            && SlotParts(ByteTokens(s), pending, slot)
                 == TextPart(pending) + ([HolePart(key, slot)] + SlotParts(rest, [], slot + |HoleName(key)|))
            && Names(ByteTokens(s)) == HoleName(key) + Names(rest)
  {
    SplitAt([Hole(key)], ByteTokens(s[2..][|key| + 2..]));
  }

  lemma LastByte(s: Bytes, pending: Bytes, slot: nat)
    requires |s| <= 1
    ensures SlotParts(ByteTokens(s), pending, slot) == TextPart(pending + s)
    ensures Names(ByteTokens(s)) == []
  {
    if s == [] {
      EmptySides(pending);
    } else {
      ByteStep(s, pending, slot);
      assert s[1..] == [] && s == [s[0]];
    }
  }

  /** Between two steps of the scan: what is done, and what the rest of the bytes still yields, is the goal. */
  ghost predicate Progress(bytes: Bytes, i: nat, litStart: nat, slots: seq<Bytes>, parts: seq<SlotPart>,
                           goalSlots: seq<Bytes>, goalParts: seq<SlotPart>) {
    && litStart <= i <= |bytes| && IsBoundary(bytes, litStart)
    && slots + Names(ByteTokens(bytes[i..])) == goalSlots
    && parts + SlotParts(ByteTokens(bytes[i..]), bytes[litStart..i], |slots|) == goalParts
  }

  /** Pushes a hole: a slot with its name, or the two pairs of braces when the name is empty. */
  method AddHole(key: Bytes, slots: seq<Bytes>, parts: seq<SlotPart>)
    returns (allSlots: seq<Bytes>, allParts: seq<SlotPart>)
    ensures allSlots == slots + HoleName(key) && allParts == parts + [HolePart(key, |slots|)]
  {
    if key == [] {
      EmptySides(slots);
      return slots, parts + [Text([LBRACE, LBRACE, RBRACE, RBRACE])];
    }
    return slots + [key], parts + [Slot(|slots|)];
  }

  method FlushLiteral(template: string, lit: nat, at: nat, parts: seq<SlotPart>) returns (flushed: seq<SlotPart>)
    requires lit <= at <= |Encode(template)| && IsBoundary(Encode(template), lit) && IsBoundary(Encode(template), at)
    ensures flushed == parts + TextPart(Encode(template)[lit..at])
  {
    if lit < at {
      return parts + [Text(Slice(template, lit, at))];
    }
    EmptySides(parts);
    return parts;
  }

  /** The step at two opening braces: flush the literal, then a hole or the unclosed rest. */
  method ParseHole(template: string, at: nat, lit: nat, slots: seq<Bytes>, parts: seq<SlotPart>,
                   ghost goalSlots: seq<Bytes>, ghost goalParts: seq<SlotPart>)
    returns (closed: bool, i: nat, litStart: nat, allSlots: seq<Bytes>, allParts: seq<SlotPart>)
    requires at + 1 < |Encode(template)| && Encode(template)[at] == Encode(template)[at + 1] == LBRACE
    requires Progress(Encode(template), at, lit, slots, parts, goalSlots, goalParts)
    ensures closed ==> i > at && Progress(Encode(template), i, litStart, allSlots, allParts, goalSlots, goalParts)
    ensures !closed ==> litStart == |Encode(template)| && allSlots == goalSlots && allParts == goalParts
  {
    var bytes := Encode(template);
    BraceBoundaries(template, at, LBRACE);
    var flushed := FlushLiteral(template, lit, at, parts);
    var keyStart := at + 2;
    i := SkipName(bytes, keyStart);
    if i + 1 >= |bytes| {
      FinishOpen(bytes, at, lit, slots, parts, goalSlots, goalParts);
      return false, i, |bytes|, slots, flushed + [Text(Slice(template, keyStart - 2, |bytes|))];
    }
    BraceBoundaries(template, i, RBRACE);
    var key := Slice(template, keyStart, i);
    allSlots, allParts := AddHole(key, slots, flushed);
    closed, i := true, i + 2;
    litStart := i;
    FinishHole(bytes, at, lit, key, slots, parts, i, allSlots, allParts, goalSlots, goalParts);
  }

  lemma BraceBoundaries(template: string, at: nat, brace: Byte)
    requires brace < 0x80
    requires at + 1 < |Encode(template)| && Encode(template)[at] == Encode(template)[at + 1] == brace
    ensures IsBoundary(Encode(template), at) && IsBoundary(Encode(template), at + 2)
  {
    AfterAscii(template, at);
    AfterAscii(template, at + 1);
  }

  lemma FinishOpen(bytes: Bytes, at: nat, lit: nat, slots: seq<Bytes>, parts: seq<SlotPart>,
                   goalSlots: seq<Bytes>, goalParts: seq<SlotPart>)
    requires Progress(bytes, at, lit, slots, parts, goalSlots, goalParts)
    requires at + 2 <= |bytes| && bytes[at] == bytes[at + 1] == LBRACE && FindClose(bytes[at + 2..], RBRACE).None?
    ensures goalSlots == slots && goalParts == parts + TextPart(bytes[lit..at]) + [Text(bytes[at..|bytes|])]
  {
    assert bytes[at..|bytes|] == bytes[at..];
    assert bytes[at..][2..] == bytes[at + 2..];
    OpenStep(bytes[at..], bytes[lit..at], |slots|);
    Assoc(parts, TextPart(bytes[lit..at]), [Text(bytes[at..])]);
    EmptySides(slots);
  }

  lemma FinishHole(bytes: Bytes, at: nat, lit: nat, key: Bytes, slots: seq<Bytes>, parts: seq<SlotPart>,
                   i: nat, allSlots: seq<Bytes>, allParts: seq<SlotPart>,
                   goalSlots: seq<Bytes>, goalParts: seq<SlotPart>)
    requires Progress(bytes, at, lit, slots, parts, goalSlots, goalParts)
    requires i == at + 4 + |key| <= |bytes| && bytes[at] == bytes[at + 1] == LBRACE && IsBoundary(bytes, i)
    requires FindClose(bytes[at + 2..], RBRACE) == Some(|key|) && key == bytes[at + 2..i - 2]
    requires allSlots == slots + HoleName(key)
    requires allParts == parts + TextPart(bytes[lit..at]) + [HolePart(key, |slots|)]
    ensures Progress(bytes, i, i, allSlots, allParts, goalSlots, goalParts)
  {
    var text, pending, rest := bytes[at..], bytes[lit..at], bytes[i..];
    assert text[2..] == bytes[at + 2..];
    assert key == text[2..][..|key|] && text[2..][|key| + 2..] == rest && bytes[i..i] == [];
    HoleSlotStep(text, pending, |slots|, key);
    Regroup(parts, TextPart(pending), HolePart(key, |slots|), SlotParts(ByteTokens(rest), [], |allSlots|));
    Assoc(slots, HoleName(key), Names(ByteTokens(rest)));
  }

  lemma Regroup<T>(a: seq<T>, b: seq<T>, c: T, d: seq<T>)
    ensures a + b + [c] + d == a + (b + ([c] + d))
  {
    Assoc(a, b, [c] + d);
    Assoc(a + b, [c], d);
  }

  /** Appends the parts of one template, and the names of its holes, slots numbered on from the names
      already there. */
  method ParseInto(template: string, slots: seq<Bytes>, parts: seq<SlotPart>)
    returns (allSlots: seq<Bytes>, allParts: seq<SlotPart>)
    ensures allSlots == slots + Names(ByteTokens(Encode(template)))
    ensures allParts == parts + SlotParts(ByteTokens(Encode(template)), [], |slots|)
  {
    var bytes := Encode(template);
    ghost var goalSlots := slots + Names(ByteTokens(bytes));
    ghost var goalParts := parts + SlotParts(ByteTokens(bytes), [], |slots|);
    allSlots, allParts := slots, parts;
    var i: nat, litStart: nat, closed := 0, 0, true;
    StartScan(template, slots, parts);
    while i + 1 < |bytes|
      invariant closed && Progress(bytes, i, litStart, allSlots, allParts, goalSlots, goalParts)
      decreases |bytes| - i
    {
      if bytes[i] == LBRACE && bytes[i + 1] == LBRACE {
        closed, i, litStart, allSlots, allParts :=
          ParseHole(template, i, litStart, allSlots, allParts, goalSlots, goalParts);
        if !closed {
          break;
        }
        continue;
      }
      ByteProgress(bytes, i, litStart, allSlots, allParts, goalSlots, goalParts);
      i := i + 1;
    }
    if closed {
      FinishScan(bytes, i, litStart, allSlots, allParts, goalSlots, goalParts);
    }
    if litStart < |bytes| {
      allParts := allParts + [Text(Slice(template, litStart, |bytes|))];
    }
  }

  lemma StartScan(template: string, slots: seq<Bytes>, parts: seq<SlotPart>)
    ensures var bytes := Encode(template);
            Progress(bytes, 0, 0, slots, parts, slots + Names(ByteTokens(bytes)),
              parts + SlotParts(ByteTokens(bytes), [], |slots|))
  {
    var bytes := Encode(template);
    FirstByteNotCont(template);
    assert bytes[0..] == bytes && bytes[0..0] == [];
  }

  lemma FinishScan(bytes: Bytes, i: nat, litStart: nat, slots: seq<Bytes>, parts: seq<SlotPart>,
                   goalSlots: seq<Bytes>, goalParts: seq<SlotPart>)
    requires i + 1 >= |bytes| && Progress(bytes, i, litStart, slots, parts, goalSlots, goalParts)
    ensures goalSlots == slots
    ensures goalParts == if litStart < |bytes| then parts + [Text(bytes[litStart..|bytes|])] else parts
  {
    LastByte(bytes[i..], bytes[litStart..i], |slots|);
    assert bytes[litStart..i] + bytes[i..] == bytes[litStart..|bytes|];
    EmptySides(slots);
    EmptySides(parts);
  }

  lemma ByteProgress(bytes: Bytes, i: nat, litStart: nat, slots: seq<Bytes>, parts: seq<SlotPart>,
                     goalSlots: seq<Bytes>, goalParts: seq<SlotPart>)
    requires i < |bytes| && Progress(bytes, i, litStart, slots, parts, goalSlots, goalParts)
    requires !Opens(bytes[i..], LBRACE)
    ensures Progress(bytes, i + 1, litStart, slots, parts, goalSlots, goalParts)
  {
    ByteStep(bytes[i..], bytes[litStart..i], |slots|);
    assert bytes[i..][1..] == bytes[i + 1..];
    assert bytes[litStart..i] + [bytes[i..][0]] == bytes[litStart..i + 1];
  }

  // ----- Template lists -----

  type TokenList = seq<Token<Byte>>

  function TokenLists(templates: seq<string>): seq<TokenList> {
    seq(|templates|, i requires 0 <= i < |templates| => ByteTokens(Encode(templates[i])))
  }

  function ListNames(lists: seq<TokenList>): seq<Bytes> {
    if lists == [] then [] else Names(lists[0]) + ListNames(lists[1..])
  }

  function ListParts(lists: seq<TokenList>, slot: nat): seq<SlotPart> {
    if lists == [] then []
    else SlotParts(lists[0], [], slot) + ListParts(lists[1..], slot + |Names(lists[0])|)
  }

  ghost predicate ListProgress(rest: seq<TokenList>, slots: seq<Bytes>, parts: seq<SlotPart>,
                               goalSlots: seq<Bytes>, goalParts: seq<SlotPart>) {
    && slots + ListNames(rest) == goalSlots
    && parts + ListParts(rest, |slots|) == goalParts
  }

  method CompileFromStrings(templates: seq<string>, slots: seq<Bytes>)
    returns (allSlots: seq<Bytes>, parts: seq<SlotPart>)
    ensures allSlots == slots + ListNames(TokenLists(templates))
    ensures parts == ListParts(TokenLists(templates), |slots|)
  {
    allSlots, parts := slots, [];
    ghost var lists := TokenLists(templates);
    ghost var goalSlots, goalParts := slots + ListNames(lists), ListParts(lists, |slots|);
    EmptySides(goalParts);
    assert lists[0..] == lists;
    for i := 0 to |templates|
      invariant ListProgress(lists[i..], allSlots, parts, goalSlots, goalParts)
    {
      ListStep(lists[i..], allSlots, parts, allSlots + Names(lists[i]), goalSlots, goalParts);
      assert lists[i..][1..] == lists[i + 1..] && lists[i..][0] == ByteTokens(Encode(templates[i]));
      allSlots, parts := ParseInto(templates[i], allSlots, parts);
    }
    assert lists[|templates|..] == [];
    EmptySides(allSlots);
    EmptySides(parts);
  }

  lemma ListStep(lists: seq<TokenList>, slots: seq<Bytes>, parts: seq<SlotPart>, done: seq<Bytes>,
                 goalSlots: seq<Bytes>, goalParts: seq<SlotPart>)
    requires lists != [] && ListProgress(lists, slots, parts, goalSlots, goalParts)
    requires done == slots + Names(lists[0])
    ensures ListProgress(lists[1..], done, parts + SlotParts(lists[0], [], |slots|), goalSlots, goalParts)
  {
    ListNamesStep(lists, slots);
    ListPartsStep(lists, |slots|, |done|, parts);
  }

  lemma ListNamesStep(lists: seq<TokenList>, slots: seq<Bytes>)
    requires lists != []
    ensures slots + ListNames(lists) == slots + Names(lists[0]) + ListNames(lists[1..])
  {
    Assoc(slots, Names(lists[0]), ListNames(lists[1..]));
  }

  lemma ListPartsStep(lists: seq<TokenList>, slot: nat, next: nat, parts: seq<SlotPart>)
    requires lists != [] && next == slot + |Names(lists[0])|
    ensures parts + ListParts(lists, slot) == parts + SlotParts(lists[0], [], slot) + ListParts(lists[1..], next)
  {
    Assoc(parts, SlotParts(lists[0], [], slot), ListParts(lists[1..], next));
  }

  // ----- Rendering -----

  predicate InArena(parts: seq<SlotPart>, n: nat) {
    forall i | 0 <= i < |parts| :: parts[i].Slot? ==> parts[i].index < n
  }

  function SlotPartText(p: SlotPart, arena: seq<Bytes>): Bytes
    requires p.Slot? ==> p.index < |arena|
  {
    match p
    case Text(text) => text
    case Fixed(text) => text
    case Slot(index) => arena[index]
  }

  function SlotPartsText(parts: seq<SlotPart>, arena: seq<Bytes>): Bytes
    requires InArena(parts, |arena|)
  {
    if parts == [] then [] else SlotPartText(parts[0], arena) + SlotPartsText(parts[1..], arena)
  }

  /** Both renderers: a linear pass over the parts, the slots read from the arena. */
  method RenderInto(parts: seq<SlotPart>, arena: ValueArena, out: ByteBuffer)
    requires InArena(parts, |arena.Contents()|)
    modifies out
    ensures out.data == old(out.data) + SlotPartsText(parts, arena.Contents())
  {
    ghost var values := arena.Contents();
    ghost var goal := out.data + SlotPartsText(parts, values);
    for i := 0 to |parts|
      invariant arena.Contents() == values
      invariant out.data + SlotPartsText(parts[i..], values) == goal
    {
      assert parts[i..][0] == parts[i] && parts[i..][1..] == parts[i + 1..];
      Assoc(out.data, SlotPartText(parts[i], values), SlotPartsText(parts[i + 1..], values));
      match parts[i] {
        case Text(text) => out.Extend(text);
        case Fixed(text) => out.Extend(text);
        case Slot(index) =>
          var text := arena.Get(index);
          out.Extend(text);
      }
    }
    EmptySides(out.data);
  }

  lemma {:induction false} PartsTextConcat(a: seq<SlotPart>, b: seq<SlotPart>, arena: seq<Bytes>)
    requires InArena(a, |arena|) && InArena(b, |arena|)
    ensures InArena(a + b, |arena|) && SlotPartsText(a + b, arena) == SlotPartsText(a, arena) + SlotPartsText(b, arena)
  {
    if a == [] {
      EmptySides(b);
      EmptySides(SlotPartsText(b, arena));
    } else {
      PartsTextConcat(a[1..], b, arena);
      HeadTail(a, b);
      Assoc(SlotPartText(a[0], arena), SlotPartsText(a[1..], arena), SlotPartsText(b, arena));
    }
  }

  lemma OneSlotPart(p: SlotPart, arena: seq<Bytes>)
    requires p.Slot? ==> p.index < |arena|
    ensures InArena([p], |arena|) && SlotPartsText([p], arena) == SlotPartText(p, arena)
  {
    assert [p][1..] == [];
    EmptySides(SlotPartText(p, arena));
  }

  /** Literal and static text is shown as it is, a slot as the arena's value. */
  lemma PartShows(text: Bytes, index: nat, arena: seq<Bytes>)
    requires index < |arena|
    ensures SlotPartsText([Text(text)], arena) == text == SlotPartsText([Fixed(text)], arena)
    ensures SlotPartsText([Slot(index)], arena) == arena[index]
  {
    OneSlotPart(Text(text), arena);
    OneSlotPart(Fixed(text), arena);
    OneSlotPart(Slot(index), arena);
  }

  // ----- Slots -----

  /** The slot indices of a part list, in order. */
  function Indices(parts: seq<SlotPart>): seq<nat> {
    if parts == [] then [] else (if parts[0].Slot? then [parts[0].index] else []) + Indices(parts[1..])
  }

  function UpFrom(k: nat, n: nat): seq<nat>
    decreases n
  {
    if n == 0 then [] else [k] + UpFrom(k + 1, n - 1)
  }

  lemma {:induction false} UpFromAt(k: nat, n: nat)
    ensures |UpFrom(k, n)| == n && forall i | 0 <= i < n :: UpFrom(k, n)[i] == k + i
    decreases n
  {
    if n > 0 {
      UpFromAt(k + 1, n - 1);
    }
  }

  lemma {:induction false} UpFromConcat(k: nat, m: nat, n: nat)
    ensures UpFrom(k, m + n) == UpFrom(k, m) + UpFrom(k + m, n)
    decreases m
  {
    if m == 0 {
      EmptySides(UpFrom(k, n));
    } else {
      UpFromConcat(k + 1, m - 1, n);
      Assoc([k], UpFrom(k + 1, m - 1), UpFrom(k + m, n));
    }
  }

  lemma {:induction false} IndicesConcat(a: seq<SlotPart>, b: seq<SlotPart>)
    ensures Indices(a + b) == Indices(a) + Indices(b)
  {
    if a == [] {
      EmptySides(b);
      EmptySides(Indices(b));
    } else {
      IndicesConcat(a[1..], b);
      HeadTail(a, b);
      Assoc(if a[0].Slot? then [a[0].index] else [], Indices(a[1..]), Indices(b));
    }
  }

  lemma PendingIndices(pending: Bytes, p: SlotPart, parts: seq<SlotPart>)
    ensures Indices(TextPart(pending) + ([p] + parts)) == (if p.Slot? then [p.index] else []) + Indices(parts)
  {
    SplitAt([p], parts);
    if pending == [] {
      EmptySides([p] + parts);
    } else {
      SplitAt([Text(pending)], [p] + parts);
      EmptySides(Indices([p] + parts));
    }
  }

  lemma PieceIndices(pending: Bytes, t: Token<Byte>, slot: nat, tail: seq<SlotPart>, n: nat)
    requires !t.Chr? && Indices(tail) == UpFrom(slot + |TokenNames(t)|, n)
    ensures Indices(TextPart(pending) + ([Piece(t, slot)] + tail)) == UpFrom(slot, |TokenNames(t)| + n)
  {
    PendingIndices(pending, Piece(t, slot), tail);
    EmptySides(Indices(tail));
  }

  /** The slots of a token list's parts are numbered upwards from `slot`. */
  ghost predicate Numbered(ts: TokenList, pending: Bytes, slot: nat) {
    Indices(SlotParts(ts, pending, slot)) == UpFrom(slot, |Names(ts)|)
  }

  lemma ChrNumbered(ts: TokenList, pending: Bytes, slot: nat)
    requires ts != [] && ts[0].Chr? && Numbered(ts[1..], pending + [ts[0].c], slot)
    ensures Numbered(ts, pending, slot)
  {
    EmptySides(Names(ts[1..]));
  }

  lemma TokenNumbered(ts: TokenList, pending: Bytes, slot: nat)
    requires ts != [] && !ts[0].Chr? && Numbered(ts[1..], [], slot + |TokenNames(ts[0])|)
    ensures Numbered(ts, pending, slot)
  {
    var next := slot + |TokenNames(ts[0])|;
    PieceIndices(pending, ts[0], slot, SlotParts(ts[1..], [], next), |Names(ts[1..])|);
  }

  lemma {:induction false} SlotIndices(ts: TokenList, pending: Bytes, slot: nat)
    ensures Numbered(ts, pending, slot)
    decreases |ts|
  {
    if ts == [] {
      assert Indices(TextPart(pending)) == [];
    } else if ts[0].Chr? {
      SlotIndices(ts[1..], pending + [ts[0].c], slot);
      ChrNumbered(ts, pending, slot);
    } else {
      SlotIndices(ts[1..], [], slot + |TokenNames(ts[0])|);
      TokenNumbered(ts, pending, slot);
    }
  }

  lemma {:induction false} IndexBound(parts: seq<SlotPart>, n: nat)
    requires forall i | 0 <= i < |Indices(parts)| :: Indices(parts)[i] < n
    ensures InArena(parts, n)
  {
    if parts != [] {
      var front := if parts[0].Slot? then [parts[0].index] else [];
      var tail := Indices(parts[1..]);
      assert forall i | 0 <= i < |tail| :: tail[i] == Indices(parts)[|front| + i];
      assert parts[0].Slot? ==> Indices(parts)[0] == parts[0].index;
      IndexBound(parts[1..], n);
    }
  }

  /** The slots of a compiled list are 0, 1, ..., n - 1 in this order, n being the number of names: an
      arena with a value for every name is never read outside. */
  lemma {:induction false} SlotsInOrder(lists: seq<TokenList>, slot: nat)
    ensures Indices(ListParts(lists, slot)) == UpFrom(slot, |ListNames(lists)|)
    ensures InArena(ListParts(lists, slot), slot + |ListNames(lists)|)
    decreases |lists|
  {
    if lists != [] {
      var n, next := |Names(lists[0])|, slot + |Names(lists[0])|;
      SlotIndices(lists[0], [], slot);
      SlotsInOrder(lists[1..], next);
      IndicesConcat(SlotParts(lists[0], [], slot), ListParts(lists[1..], next));
      UpFromConcat(slot, n, |ListNames(lists[1..])|);
    }
    UpFromAt(slot, |ListNames(lists)|);
    IndexBound(ListParts(lists, slot), slot + |ListNames(lists)|);
  }

  // ----- Meaning -----

  function SlotTokenText(t: Token<Byte>, slot: nat, values: seq<Bytes>): Bytes
    requires slot + |TokenNames(t)| <= |values|
  {
    match t
    case Chr(b) => [b]
    case Hole(name) => if name == [] then [LBRACE, LBRACE, RBRACE, RBRACE] else values[slot]
    case Open(rest) => rest
  }

  /** The text of a token list whose holes show the values from `slot` on. */
  function SlotMeaning(ts: seq<Token<Byte>>, slot: nat, values: seq<Bytes>): Bytes
    requires slot + |Names(ts)| <= |values|
  {
    if ts == [] then []
    else SlotTokenText(ts[0], slot, values) + SlotMeaning(ts[1..], slot + |TokenNames(ts[0])|, values)
  }

  lemma PendingText(pending: Bytes, p: SlotPart, parts: seq<SlotPart>, arena: seq<Bytes>)
    requires (p.Slot? ==> p.index < |arena|) && InArena(parts, |arena|)
    ensures InArena(TextPart(pending) + ([p] + parts), |arena|)
    ensures SlotPartsText(TextPart(pending) + ([p] + parts), arena)
         == pending + (SlotPartText(p, arena) + SlotPartsText(parts, arena))
  {
    OneSlotPart(p, arena);
    PartsTextConcat([p], parts, arena);
    if pending == [] {
      EmptySides([p] + parts);
      EmptySides(SlotPartText(p, arena) + SlotPartsText(parts, arena));
    } else {
      OneSlotPart(Text(pending), arena);
      PartsTextConcat([Text(pending)], [p] + parts, arena);
    }
  }

  lemma PieceMeans(pending: Bytes, t: Token<Byte>, slot: nat, tail: seq<SlotPart>, arena: seq<Bytes>)
    requires !t.Chr? && slot + |TokenNames(t)| <= |arena| && InArena(tail, |arena|)
    ensures InArena(TextPart(pending) + ([Piece(t, slot)] + tail), |arena|)
    ensures SlotPartsText(TextPart(pending) + ([Piece(t, slot)] + tail), arena)
         == pending + (SlotTokenText(t, slot, arena) + SlotPartsText(tail, arena))
  {
    PendingText(pending, Piece(t, slot), tail, arena);
  }

  /** The parts of a token list show the pending text and then what the tokens mean. */
  ghost predicate Means(ts: TokenList, pending: Bytes, slot: nat, arena: seq<Bytes>) {
    && slot + |Names(ts)| <= |arena|
    && InArena(SlotParts(ts, pending, slot), |arena|)
    && SlotPartsText(SlotParts(ts, pending, slot), arena) == pending + SlotMeaning(ts, slot, arena)
  }

  lemma ChrMeans(pending: Bytes, ts: TokenList, slot: nat, arena: seq<Bytes>)
    requires ts != [] && ts[0].Chr? && Means(ts[1..], pending + [ts[0].c], slot, arena)
    ensures Means(ts, pending, slot, arena)
  {
    EmptySides(Names(ts[1..]));
    Assoc(pending, [ts[0].c], SlotMeaning(ts[1..], slot, arena));
  }

  lemma TokenMeans(pending: Bytes, ts: TokenList, slot: nat, arena: seq<Bytes>)
    requires ts != [] && !ts[0].Chr? && Means(ts[1..], [], slot + |TokenNames(ts[0])|, arena)
    ensures Means(ts, pending, slot, arena)
  {
    var next := slot + |TokenNames(ts[0])|;
    EmptySides(SlotMeaning(ts[1..], next, arena));
    PieceMeans(pending, ts[0], slot, SlotParts(ts[1..], [], next), arena);
  }

  lemma {:induction false} SlotPartsMean(ts: seq<Token<Byte>>, pending: Bytes, slot: nat, arena: seq<Bytes>)
    requires slot + |Names(ts)| <= |arena|
    ensures Means(ts, pending, slot, arena)
    decreases |ts|
  {
    if ts == [] {
      EmptySides(pending);
      if pending != [] { OneSlotPart(Text(pending), arena); }
    } else if ts[0].Chr? {
      SlotPartsMean(ts[1..], pending + [ts[0].c], slot, arena);
      ChrMeans(pending, ts, slot, arena);
    } else {
      SlotPartsMean(ts[1..], [], slot + |TokenNames(ts[0])|, arena);
      TokenMeans(pending, ts, slot, arena);
    }
  }

  // ----- Values by name -----

  /** The text of a token list when `show` gives the value of every non-empty name. */
  function TokenShown(t: Token<Byte>, show: Bytes -> Bytes): Bytes {
    match t
    case Chr(b) => [b]
    case Hole(name) => if name == [] then [LBRACE, LBRACE, RBRACE, RBRACE] else show(name)
    case Open(rest) => rest
  }

  function Shown(ts: TokenList, show: Bytes -> Bytes): Bytes {
    if ts == [] then [] else TokenShown(ts[0], show) + Shown(ts[1..], show)
  }

  function ListShown(lists: seq<TokenList>, show: Bytes -> Bytes): Bytes {
    if lists == [] then [] else Shown(lists[0], show) + ListShown(lists[1..], show)
  }

  /** From `slot` on the arena holds the values of these names. */
  ghost predicate Populated(names: seq<Bytes>, slot: nat, arena: seq<Bytes>, show: Bytes -> Bytes) {
    && slot + |names| <= |arena|
    && forall i | 0 <= i < |names| :: show(names[i]) == arena[slot + i]
  }

  lemma PopulatedParts(a: seq<Bytes>, b: seq<Bytes>, slot: nat, arena: seq<Bytes>, show: Bytes -> Bytes)
    requires Populated(a + b, slot, arena, show)
    ensures Populated(a, slot, arena, show) && Populated(b, slot + |a|, arena, show)
  {
    forall i | 0 <= i < |a|
      ensures show(a[i]) == arena[slot + i]
    {
      assert (a + b)[i] == a[i];
    }
    forall i | 0 <= i < |b|
      ensures show(b[i]) == arena[slot + |a| + i]
    {
      assert (a + b)[|a| + i] == b[i];
    }
  }

  lemma SlotShows(t: Token<Byte>, slot: nat, arena: seq<Bytes>, show: Bytes -> Bytes)
    requires Populated(TokenNames(t), slot, arena, show)
    ensures SlotTokenText(t, slot, arena) == TokenShown(t, show)
  {
    if t.Hole? && t.name != [] {
      assert TokenNames(t)[0] == t.name && arena[slot + 0] == show(t.name);
    }
  }

  lemma {:induction false} SlotsShow(ts: TokenList, slot: nat, arena: seq<Bytes>, show: Bytes -> Bytes)
    requires Populated(Names(ts), slot, arena, show)
    ensures SlotMeaning(ts, slot, arena) == Shown(ts, show)
    decreases |ts|
  {
    if ts != [] {
      PopulatedParts(TokenNames(ts[0]), Names(ts[1..]), slot, arena, show);
      SlotShows(ts[0], slot, arena, show);
      SlotsShow(ts[1..], slot + |TokenNames(ts[0])|, arena, show);
    }
  }

  /** Rendering a compiled list shows every template with its holes replaced by their values, one template
      after the other. */
  lemma {:induction false} ListShows(lists: seq<TokenList>, slot: nat, arena: seq<Bytes>, show: Bytes -> Bytes)
    requires Populated(ListNames(lists), slot, arena, show)
    ensures InArena(ListParts(lists, slot), |arena|)
    ensures SlotPartsText(ListParts(lists, slot), arena) == ListShown(lists, show)
    decreases |lists|
  {
    if lists != [] {
      PopulatedParts(Names(lists[0]), ListNames(lists[1..]), slot, arena, show);
      ListShows(lists[1..], slot + |Names(lists[0])|, arena, show);
      TemplateShows(lists[0], slot, arena, show);
      PartsTextConcat(SlotParts(lists[0], [], slot), ListParts(lists[1..], slot + |Names(lists[0])|), arena);
    }
  }

  lemma TemplateShows(ts: TokenList, slot: nat, arena: seq<Bytes>, show: Bytes -> Bytes)
    requires Populated(Names(ts), slot, arena, show)
    ensures InArena(SlotParts(ts, [], slot), |arena|)
    ensures SlotPartsText(SlotParts(ts, [], slot), arena) == Shown(ts, show)
  {
    SlotPartsMean(ts, [], slot, arena);
    EmptySides(SlotMeaning(ts, slot, arena));
    SlotsShow(ts, slot, arena, show);
  }

  // ----- Round trip: every slot filled with its own source gives the templates back -----

  function Braced(name: Bytes): Bytes { [LBRACE, LBRACE] + name + [RBRACE, RBRACE] }

  function ListSource(templates: seq<string>): Bytes {
    if templates == [] then [] else Encode(templates[0]) + ListSource(templates[1..])
  }

  lemma {:induction false} BracedIsSource(ts: TokenList)
    ensures Shown(ts, Braced) == Source(ts, LBRACE, RBRACE)
  {
    if ts != [] {
      BracedIsSource(ts[1..]);
    }
  }

  lemma {:induction false} ListBracedIsSource(templates: seq<string>)
    ensures ListShown(TokenLists(templates), Braced) == ListSource(templates)
  {
    if templates != [] {
      var ts := ByteTokens(Encode(templates[0]));
      BracedIsSource(ts);
      SourceOfTokens(Encode(templates[0]), LBRACE, RBRACE);
      assert TokenLists(templates)[0] == ts && TokenLists(templates)[1..] == TokenLists(templates[1..]);
      ListBracedIsSource(templates[1..]);
    }
  }

  /** Filling slot k with the k-th name in braces gives back the concatenated templates. */
  lemma TemplatesRecovered(templates: seq<string>, arena: seq<Bytes>)
    requires Populated(ListNames(TokenLists(templates)), 0, arena, Braced)
    ensures InArena(ListParts(TokenLists(templates), 0), |arena|)
    ensures SlotPartsText(ListParts(TokenLists(templates), 0), arena) == ListSource(templates)
  {
    ListShows(TokenLists(templates), 0, arena, Braced);
    ListBracedIsSource(templates);
  }
}
