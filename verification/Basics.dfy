/** Shared vocabulary: options, bytes, and the growable byte buffer that the encoders append to. */
module Basics {

  datatype Option<+T> = None | Some(value: T)

  datatype Result<+T, +E> = Ok(value: T) | Err(error: E)

  /** One octet.  The type does not bound it; `Octets` does, and the printers that compute bytes prove it
      of their output. */
  type Byte = int

  type Bytes = seq<Byte>

  predicate Octets(bs: Bytes) { forall i | 0 <= i < |bs| :: 0 <= bs[i] < 256 }

  const TAB: Byte := 9
  const LF: Byte := 10
  const SPACE: Byte := 32
  const QUOTE: Byte := 34
  const DASH: Byte := 45
  const DIGIT_ZERO: Byte := 48
  const LESS: Byte := 60
  const EQUALS: Byte := 61
  const GREATER: Byte := 62
  const LBRACKET: Byte := 91
  const BACKSLASH: Byte := 92
  const RBRACKET: Byte := 93
  const PIPE: Byte := 124

  /** The caller-owned output buffer (`Vec<u8>` / `BytesMut`): appending is its only update. */
  class ByteBuffer {
    var data: Bytes

    constructor ()
      ensures data == []
    {
      data := [];
    }

    method Push(b: Byte)
      modifies this
      ensures data == old(data) + [b]
    {
      data := data + [b];
    }

    method Extend(bs: Bytes)
      modifies this
      ensures data == old(data) + bs
    {
      data := data + bs;
    }
  }

  /** The output `String`. */
  class TextBuffer {
    var text: string

    constructor ()
      ensures text == ""
    {
      text := "";
    }

    method PushStr(s: string)
      modifies this
      ensures text == old(text) + s
    {
      text := text + s;
    }
  }

  lemma Assoc<T>(a: seq<T>, b: seq<T>, c: seq<T>)
    ensures a + (b + c) == (a + b) + c
  {
  }

  lemma EmptySides<T>(a: seq<T>)
    ensures a + [] == a && [] + a == a
  {
  }

  lemma HeadTail<T>(a: seq<T>, b: seq<T>)
    requires a != []
    ensures (a + b)[0] == a[0] && (a + b)[1..] == a[1..] + b
  {
  }

  lemma Rejoin<T>(a: seq<T>)
    requires a != []
    ensures [a[0]] + a[1..] == a
  {
  }

  lemma CutRight<T>(a: seq<T>, b: seq<T>, i: nat)
    requires |a| <= i <= |a| + |b|
    ensures (a + b)[..i] == a + b[..i - |a|] && (a + b)[i..] == b[i - |a|..]
  {
  }

  lemma SplitAt<T>(a: seq<T>, b: seq<T>)
    ensures (a + b)[..|a|] == a && (a + b)[|a|..] == b
  {
  }

  lemma CutJoin<T>(a: seq<T>, i: nat)
    requires i <= |a|
    ensures a[..i] + a[i..] == a
  {
  }

  /** The text before and after the first `c`. */
  function SplitOnce(s: string, c: char): Option<(string, string)> {
    if s == "" then None
    else if s[0] == c then Some(("", s[1..]))
    else
      var r := SplitOnce(s[1..], c);
      if r.None? then None else Some(([s[0]] + r.value.0, r.value.1))
  }

  lemma {:induction false} SplitOnceAt(a: string, c: char, b: string)
    requires c !in a
    ensures SplitOnce(a + [c] + b, c) == Some((a, b))
  {
    if a == "" {
      EmptySides([c]);
      SplitAt([c], b);
    } else {
      SplitOnceAt(a[1..], c, b);
      HeadTail(a, [c]);
      HeadTail(a + [c], b);
      Rejoin(a);
    }
  }

  lemma {:induction false} SplitShorter(s: string, c: char)
    requires SplitOnce(s, c).Some?
    ensures |SplitOnce(s, c).value.1| < |s|
  {
    if s[0] != c {
      SplitShorter(s[1..], c);
    }
  }
}
