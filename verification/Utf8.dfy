/** UTF-8 (Unicode Standard, section 3.9): text is a string of scalar values, its bytes the encoding. */
module Utf8 {
  import opened Basics

  predicate Cont(b: Byte) { 0x80 <= b < 0xC0 }

  /** The six bits a continuation byte carries. */
  function Low(b: Byte): int { b - 0x80 }

  function EncodeChar(c: char): (r: Bytes)
    ensures 1 <= |r| <= 4 && Octets(r)
  {
    var n := c as int;
    if n < 0x80 then [n]
    else if n < 0x800 then [0xC0 + n / 64, 0x80 + n % 64]
    else if n < 0x1_0000 then [0xE0 + n / 4096, 0x80 + n / 64 % 64, 0x80 + n % 64]
    else [0xF0 + n / 262144, 0x80 + n / 4096 % 64, 0x80 + n / 64 % 64, 0x80 + n % 64]
  }

  function Encode(s: string): Bytes {
    if s == "" then [] else EncodeChar(s[0]) + Encode(s[1..])
  }

  /** The first scalar value of a byte string and the number of bytes it takes. */
  function DecodeOne(bs: Bytes): (r: Option<(char, nat)>)
    ensures r.Some? ==> 1 <= r.value.1 <= |bs|
  {
    if bs == [] then None
    else
      var b0: int := bs[0];
      if b0 < 0 then None
      else if b0 < 0x80 then Some((b0 as char, 1))
      else if b0 < 0xC0 then None
      else if b0 < 0xE0 then
        if |bs| < 2 || !Cont(bs[1]) then None
        else
          var n := (b0 - 0xC0) * 64 + Low(bs[1]);
          if n < 0x80 then None else Some((n as char, 2))
      else if b0 < 0xF0 then
        if |bs| < 3 || !Cont(bs[1]) || !Cont(bs[2]) then None
        else
          var n := (b0 - 0xE0) * 4096 + Low(bs[1]) * 64 + Low(bs[2]);
          if n < 0x800 || 0xD800 <= n < 0xE000 then None else Some((n as char, 3))
      else
        if |bs| < 4 || !Cont(bs[1]) || !Cont(bs[2]) || !Cont(bs[3]) then None
        else
          var n := (b0 - 0xF0) * 262144 + Low(bs[1]) * 4096 + Low(bs[2]) * 64 + Low(bs[3]);
          if n < 0x1_0000 || n >= 0x11_0000 then None else Some((n as char, 4))
  }

  function Decode(bs: Bytes): Option<string> {
    if bs == [] then Some("")
    else
      var one := DecodeOne(bs);
      if one.None? then None
      else
        var rest := Decode(bs[one.value.1..]);
        if rest.None? then None else Some([one.value.0] + rest.value)
  }

  /** A number is its base-64 digits. */
  lemma SixBitDigits(n: nat)
    ensures n / 64 * 64 + n % 64 == n && n / 4096 == n / 64 / 64 && n / 262144 == n / 4096 / 64
    ensures n / 4096 * 4096 + n / 64 % 64 * 64 + n % 64 == n
    ensures n / 262144 * 262144 + n / 4096 % 64 * 4096 + n / 64 % 64 * 64 + n % 64 == n
  {
    var a, b := n / 64, n / 64 / 64;
    assert n / 4096 == b && n / 262144 == b / 64;
    assert n == a * 64 + n % 64 && a == b * 64 + a % 64 && b == b / 64 * 64 + b % 64;
  }

  lemma DecodeOneEncoded(c: char, rest: Bytes)
    ensures DecodeOne(EncodeChar(c) + rest) == Some((c, |EncodeChar(c)|))
  {
    var n := c as int;
    var bs, text := EncodeChar(c), EncodeChar(c) + rest;
    SixBitDigits(n);
    if n < 0x80 {
      assert text[0] == bs[0];
    } else if n < 0x800 {
      assert text[0] == bs[0] && text[1] == bs[1];
    } else if n < 0x1_0000 {
      assert text[0] == bs[0] && text[1] == bs[1] && text[2] == bs[2];
    } else {
      assert text[0] == bs[0] && text[1] == bs[1] && text[2] == bs[2] && text[3] == bs[3];
    }
  }

  lemma {:induction false} DecodeEncode(s: string)
    ensures Decode(Encode(s)) == Some(s)
  {
    if s != "" {
      DecodeOneEncoded(s[0], Encode(s[1..]));
      DecodeEncode(s[1..]);
      var head := EncodeChar(s[0]);
      assert (head + Encode(s[1..]))[|head|..] == Encode(s[1..]);
      assert s == [s[0]] + s[1..];
    }
  }

  lemma {:induction false} EncodeConcat(a: string, b: string)
    ensures Encode(a + b) == Encode(a) + Encode(b)
  {
    if a == "" {
      assert a + b == b;
    } else {
      EncodeConcat(a[1..], b);
      assert (a + b)[0] == a[0] && (a + b)[1..] == a[1..] + b;
      Assoc(EncodeChar(a[0]), Encode(a[1..]), Encode(b));
    }
  }

  /** Bytes below 0x80 stand for themselves and nothing else: they occur in the encoding exactly where
      the text has that character. */
  lemma {:induction false} AsciiByteIffChar(s: string, b: Byte)
    requires 0 <= b < 0x80
    ensures b in Encode(s) <==> (b as char) in s
  {
    if s != "" {
      AsciiByteIffChar(s[1..], b);
      assert s == [s[0]] + s[1..];
      assert b in EncodeChar(s[0]) <==> s[0] == b as char;
    }
  }

  // ----- Slicing -----

  /** The positions at which text may be cut (`str::is_char_boundary`). */
  predicate IsBoundary(bs: Bytes, i: nat) { i == |bs| || (i < |bs| && !Cont(bs[i])) }

  lemma FirstByteNotCont(s: string)
    ensures s != "" ==> Encode(s) != [] && !Cont(Encode(s)[0])
  {
  }

  /** A boundary separates two texts. */
  lemma {:induction false} CutAtBoundary(s: string, i: nat) returns (k: nat)
    requires IsBoundary(Encode(s), i)
    ensures k <= |s| && Encode(s)[..i] == Encode(s[..k]) && Encode(s)[i..] == Encode(s[k..])
    decreases |s|
  {
    if i == 0 {
      k := 0;
      assert s[0..] == s;
    } else {
      var tail := Encode(s[1..]);
      NotInsideChar(s[0], tail, i);
      var j := CutAtBoundary(s[1..], i - |EncodeChar(s[0])|);
      k := j + 1;
      CutRight(EncodeChar(s[0]), tail, i);
      CutRight([s[0]], s[1..], k);
      Rejoin(s);
      SplitAt([s[0]], s[1..][..j]);
    }
  }

  lemma NotInsideChar(c: char, tail: Bytes, i: nat)
    requires i > 0 && IsBoundary(EncodeChar(c) + tail, i)
    ensures i >= |EncodeChar(c)| && IsBoundary(tail, i - |EncodeChar(c)|)
  {
    var head := EncodeChar(c);
    assert forall j | 0 < j < |head| :: Cont((head + tail)[j]);
    assert |head| <= i < |head + tail| ==> (head + tail)[i] == tail[i - |head|];
  }

  lemma AfterAscii(s: string, i: nat)
    requires i < |Encode(s)| && Encode(s)[i] < 0x80
    ensures IsBoundary(Encode(s), i) && IsBoundary(Encode(s), i + 1)
  {
    EncodeOctets(s);
    var k := CutAtBoundary(s, i);
    var rest := s[k..];
    assert Encode(s)[i..][0] == Encode(s)[i];
    var head, tail := EncodeChar(rest[0]), Encode(rest[1..]);
    assert Encode(rest) == head + tail;
    assert (head + tail)[0] == head[0];
    assert |head| == 1;
    FirstByteNotCont(rest[1..]);
    if i + 1 < |Encode(s)| {
      assert Encode(s)[i..][1] == Encode(s)[i + 1];
    }
  }

  lemma {:induction false} EncodeOctets(s: string)
    ensures Octets(Encode(s))
  {
    if s != "" {
      EncodeOctets(s[1..]);
    }
  }

  /** A slice between two boundaries is text again. */
  lemma SliceIsText(s: string, a: nat, b: nat)
    requires a <= b <= |Encode(s)| && IsBoundary(Encode(s), a) && IsBoundary(Encode(s), b)
    ensures Decode(Encode(s)[a..b]).Some?
  {
    var k := CutAtBoundary(s, a);
    var bs := Encode(s);
    SliceShift(bs, a, b);
    SliceFromStart(s[k..], b - a);
  }

  lemma SliceShift(bs: Bytes, a: nat, b: nat)
    requires a <= b <= |bs| && IsBoundary(bs, b)
    ensures bs[a..][..b - a] == bs[a..b] && IsBoundary(bs[a..], b - a)
  {
    assert b < |bs| ==> bs[a..][b - a] == bs[b];
  }

  lemma SliceFromStart(s: string, n: nat)
    requires IsBoundary(Encode(s), n)
    ensures Decode(Encode(s)[..n]).Some?
  {
    var j := CutAtBoundary(s, n);
    DecodeEncode(s[..j]);
  }
}
