/** The protobuf wire format (Protocol Buffers Encoding guide): varints, zigzag, tags and fields, with a
    decoder. */
module Wire {
  import opened Basics
  import Words

  const TWO61: int := 0x2000_0000_0000_0000
  const TWO63: int := 0x8000_0000_0000_0000
  const TWO64: int := 0x1_0000_0000_0000_0000

  // ----- Base 128 varints -----

  function Varint(v: nat): Bytes { if v < 128 then [v] else [128 + v % 128] + Varint(v / 128) }

  method WriteVarint(buf: ByteBuffer, value: nat)
    modifies buf
    ensures buf.data == old(buf.data) + Varint(value)
  {
    var v: nat := value;
    ghost var goal := buf.data + Varint(value);
    var more := true;
    while more
      invariant more ==> buf.data + Varint(v) == goal
      invariant !more ==> buf.data == goal
      decreases if more then v + 1 else 0
    {
      ghost var before, rest := buf.data, v;
      var byte := v % 128;
      v := v / 128;
      if v != 0 {
        byte := byte + 128;
      }
      buf.Push(byte);
      Assoc(before, [byte], Varint(v));
      more := v != 0;
    }
  }

  function ReadVarint(s: Bytes): Option<(nat, Bytes)> {
    if s == [] || !(0 <= s[0] < 256) then None
    else if s[0] < 128 then Some((s[0], s[1..]))
    else
      var r := ReadVarint(s[1..]);
      if r.None? then None else Some((s[0] - 128 + 128 * r.value.0, r.value.1))
  }

  lemma {:induction false} ReadVarintWritten(v: nat, rest: Bytes)
    ensures ReadVarint(Varint(v) + rest) == Some((v, rest))
    decreases v
  {
    if v < 128 {
      SplitAt([v], rest);
    } else {
      ReadVarintWritten(v / 128, rest);
      HeadTail(Varint(v), rest);
      SplitAt([128 + v % 128], Varint(v / 128));
    }
  }

  function Power128(n: nat): nat { if n == 0 then 1 else 128 * Power128(n - 1) }

  lemma {:induction false} VarintLength(v: nat, n: nat)
    requires n > 0 && v < Power128(n)
    ensures 1 <= |Varint(v)| <= n && Octets(Varint(v))
    decreases n
  {
    if v >= 128 {
      assert v < 128 * Power128(n - 1);
      assert n > 1;
      VarintLength(v / 128, n - 1);
    }
  }

  /** 64 bits take at most ten octets. */
  lemma VarintAtMostTen(v: nat)
    requires v < TWO64
    ensures 1 <= |Varint(v)| <= 10 && Octets(Varint(v))
  {
    assert Power128(10) == 128 * (128 * (128 * (128 * (128 * (128 * (128 * (128 * (128 * 128)))))))) by {
      assert Power128(1) == 128;
      assert Power128(2) == 128 * Power128(1);
      assert Power128(3) == 128 * Power128(2);
      assert Power128(4) == 128 * Power128(3);
      assert Power128(5) == 128 * Power128(4);
      assert Power128(6) == 128 * Power128(5);
      assert Power128(7) == 128 * Power128(6);
      assert Power128(8) == 128 * Power128(7);
      assert Power128(9) == 128 * Power128(8);
    }
    VarintLength(v, 10);
  }

  /** Canonical: whatever else reads as the same number is longer. */
  lemma {:induction false} VarintShortest(s: Bytes, v: nat)
    requires ReadVarint(s) == Some((v, []))
    ensures |s| >= |Varint(v)|
    ensures |s| == |Varint(v)| ==> s == Varint(v)
    decreases |s|
  {
    Rejoin(s);
    if s[0] >= 128 {
      var w := ReadVarint(s[1..]).value.0;
      VarintShortest(s[1..], w);
      assert v == s[0] - 128 + 128 * w;
      if v >= 128 {
        assert v / 128 == w && v % 128 == s[0] - 128;
      }
    }
  }

  // ----- Zigzag -----

  predicate Signed64(v: int) { -TWO63 <= v < TWO63 }

  /** The two's-complement word of a signed number. */
  function Word(v: int): nat
    requires Signed64(v)
  {
    if v < 0 then v + TWO64 else v
  }

  function FromWord(n: nat): int { if n < TWO63 then n else n - TWO64 }

  /** The word shifted to the left by one, exclusive-or the word shifted to the right, with its sign, by 63. */
  function Zigzag(v: int): nat
    requires Signed64(v)
  {
    var w := Words.WordOf(Word(v));
    Words.Value(Words.Xor(Words.ShlOne(w), Words.SignMask(w)))
  }

  /** In numbers: the double, or one less than the double of the magnitude. */
  lemma ZigzagValue(v: int)
    requires Signed64(v)
    ensures Zigzag(v) == if v >= 0 then 2 * v else -2 * v - 1
  {
    var w := Words.WordOf(Word(v));
    Words.WordOfValue(Word(v));
    Words.TopBit(w);
    Words.ShlOneDoubles(w);
    Words.XorMask(Words.ShlOne(w), Words.SignMask(w), w[63]);
  }

  function Unzigzag(n: nat): int { if n % 2 == 0 then n / 2 else -(n / 2) - 1 }

  /** A bijection between the signed and the unsigned words that keeps small magnitudes small. */
  lemma ZigzagBijective(v: int, n: nat)
    requires Signed64(v) && n < TWO64
    ensures Zigzag(v) < TWO64 && Unzigzag(Zigzag(v)) == v
    ensures Signed64(Unzigzag(n)) && Zigzag(Unzigzag(n)) == n
    ensures Zigzag(v) == if v >= 0 then 2 * v else -2 * v - 1
  {
    ZigzagValue(v);
    FoldedHalves(v, Zigzag(v));
    var u := Unzigzag(n);
    UnfoldedDouble(n, u);
    ZigzagValue(u);
  }

  lemma FoldedHalves(v: int, z: nat)
    requires Signed64(v) && z == if v >= 0 then 2 * v else -2 * v - 1
    ensures z < TWO64 && Unzigzag(z) == v
  {
  }

  lemma UnfoldedDouble(n: nat, u: int)
    requires n < TWO64 && u == Unzigzag(n)
    ensures Signed64(u) && n == if u >= 0 then 2 * u else -2 * u - 1
  {
  }

  lemma WordBijective(v: int, n: nat)
    requires Signed64(v) && n < TWO64
    ensures Word(v) < TWO64 && FromWord(Word(v)) == v
    ensures Signed64(FromWord(n)) && Word(FromWord(n)) == n
  {
  }

  // ----- Fields -----

  datatype Payload = Number(v: nat) | Fixed64(bytes: Bytes) | Length(bytes: Bytes) | Fixed32(bytes: Bytes)

  predicate WellSized(p: Payload) {
    (p.Fixed64? ==> |p.bytes| == 8) && (p.Fixed32? ==> |p.bytes| == 4)
  }

  function WireCode(p: Payload): nat {
    match p
    case Number(_) => 0
    case Fixed64(_) => 1
    case Length(_) => 2
    case Fixed32(_) => 5
  }

  /** The field number shifted by three, the bits pushed out of the word being lost, and the wire type. */
  function Tag(number: nat, code: nat): nat { number * 8 % TWO64 + code }

  method WriteTag(buf: ByteBuffer, number: nat, code: nat)
    requires code < 8
    modifies buf
    ensures buf.data == old(buf.data) + Varint(Tag(number, code))
  {
    WriteVarint(buf, number * 8 % TWO64 + code);
  }

  /** The wire type is always recovered, the field number modulo 2^61: exactly when it is below that. */
  lemma TagDecodes(number: nat, code: nat)
    requires code < 8
    ensures Tag(number, code) < TWO64
    ensures Tag(number, code) % 8 == code && Tag(number, code) / 8 == number % TWO61
    ensures Tag(number, code) / 8 == number <==> number < TWO61
  {
    var q, r := number / TWO61, number % TWO61;
    assert number == q * TWO61 + r;
    assert number * 8 == q * TWO64 + r * 8;
    WrapsTo(q, r * 8);
  }

  lemma WrapsTo(q: nat, r: nat)
    requires r < TWO64
    ensures (q * TWO64 + r) % TWO64 == r
  {
  }

  function PayloadBytes(p: Payload): Bytes {
    match p
    case Number(v) => Varint(v)
    case Fixed64(bytes) => bytes
    case Length(bytes) => Varint(|bytes|) + bytes
    case Fixed32(bytes) => bytes
  }

  type Field = (nat, Payload)

  function FieldBytes(number: nat, p: Payload): Bytes { Varint(Tag(number, WireCode(p))) + PayloadBytes(p) }

  function Message(fields: seq<Field>): Bytes {
    if fields == [] then [] else FieldBytes(fields[0].0, fields[0].1) + Message(fields[1..])
  }

  // ----- The decoder -----

  function ReadPayload(s: Bytes, code: nat): Option<(Payload, Bytes)> {
    if code == 0 then
      var v := ReadVarint(s);
      if v.None? then None else Some((Number(v.value.0), v.value.1))
    else if code == 1 then
      if |s| < 8 then None else Some((Fixed64(s[..8]), s[8..]))
    else if code == 2 then
      var n := ReadVarint(s);
      if n.None? || n.value.0 > |n.value.1| then None
      else Some((Length(n.value.1[..n.value.0]), n.value.1[n.value.0..]))
    else if code == 5 then
      if |s| < 4 then None else Some((Fixed32(s[..4]), s[4..]))
    else None
  }

  function ReadField(s: Bytes): Option<(Field, Bytes)> {
    var tag := ReadVarint(s);
    if tag.None? then None
    else
      var p := ReadPayload(tag.value.1, tag.value.0 % 8);
      if p.None? then None else Some(((tag.value.0 / 8, p.value.0), p.value.1))
  }

  function ReadMessage(s: Bytes): Option<seq<Field>>
    decreases |s|
  {
    if s == [] then Some([])
    else
      var f := ReadField(s);
      if f.None? || |f.value.1| >= |s| then None
      else
        var more := ReadMessage(f.value.1);
        if more.None? then None else Some([f.value.0] + more.value)
  }

  lemma ReadPayloadWritten(p: Payload, rest: Bytes)
    requires WellSized(p)
    ensures ReadPayload(PayloadBytes(p) + rest, WireCode(p)) == Some((p, rest))
  {
    match p
    case Number(v) => ReadVarintWritten(v, rest);
    case Fixed64(bytes) => SplitAt(bytes, rest);
    case Length(bytes) =>
      Assoc(Varint(|bytes|), bytes, rest);
      ReadVarintWritten(|bytes|, bytes + rest);
      SplitAt(bytes, rest);
    case Fixed32(bytes) => SplitAt(bytes, rest);
  }

  lemma ReadFieldWritten(number: nat, p: Payload, rest: Bytes)
    requires WellSized(p)
    ensures ReadField(FieldBytes(number, p) + rest) == Some(((number % TWO61, p), rest))
    ensures |rest| < |FieldBytes(number, p) + rest|
  {
    var tag := Tag(number, WireCode(p));
    Assoc(Varint(tag), PayloadBytes(p), rest);
    ReadVarintWritten(tag, PayloadBytes(p) + rest);
    TagDecodes(number, WireCode(p));
    ReadPayloadWritten(p, rest);
  }

  function Wrapped(fields: seq<Field>): seq<Field> {
    if fields == [] then [] else [(fields[0].0 % TWO61, fields[0].1)] + Wrapped(fields[1..])
  }

  /** Decoding inverts encoding; a field number comes back modulo 2^61. */
  lemma {:induction false} ReadMessageWritten(fields: seq<Field>)
    requires forall i | 0 <= i < |fields| :: WellSized(fields[i].1)
    ensures ReadMessage(Message(fields)) == Some(Wrapped(fields))
  {
    if fields != [] {
      ReadFieldWritten(fields[0].0, fields[0].1, Message(fields[1..]));
      ReadMessageWritten(fields[1..]);
    }
  }

  lemma {:induction false} WrappedSame(fields: seq<Field>)
    ensures Wrapped(fields) == fields <==> forall i | 0 <= i < |fields| :: fields[i].0 < TWO61
  {
    if fields != [] {
      WrappedSame(fields[1..]);
      Rejoin(fields);
      SplitAt([(fields[0].0 % TWO61, fields[0].1)], Wrapped(fields[1..]));
      assert forall i | 0 < i < |fields| :: fields[i] == fields[1..][i - 1];
    }
  }
}
