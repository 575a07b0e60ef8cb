/** Machine words as their 64 bits, least significant first: exclusive-or and shifts work bit by bit,
    arithmetic on the number the bits stand for. */
module Words {
  import opened Arith

  type Word = bits: seq<bool> | |bits| == 64 witness seq(64, i => false)

  function Pow2(n: nat): nat { if n == 0 then 1 else 2 * Pow2(n - 1) }

  function Value(bits: seq<bool>): nat {
    if bits == [] then 0 else (if bits[0] then 1 else 0) + 2 * Value(bits[1..])
  }

  /** The lowest `len` bits of `n`. */
  function Bits(n: nat, len: nat): (r: seq<bool>)
    ensures |r| == len
  {
    if len == 0 then [] else [n % 2 == 1] + Bits(n / 2, len - 1)
  }

  function WordOf(n: nat): Word { Bits(n, 64) }

  function Xor(a: Word, b: Word): Word { seq(64, i requires 0 <= i < 64 => a[i] != b[i]) }

  function Shr(a: Word, k: nat): Word { seq(64, i requires 0 <= i < 64 => i + k < 64 && a[i + k]) }

  /** The shift to the left by one drops the top bit. */
  function ShlOne(a: Word): Word { [false] + a[..63] }

  /** The signed shift to the right by 63 fills the word with the top bit. */
  function SignMask(a: Word): Word { seq(64, i requires 0 <= i < 64 => a[63]) }

  lemma {:induction false} ValueBound(bits: seq<bool>)
    ensures Value(bits) < Pow2(|bits|)
  {
    if bits != [] {
      ValueBound(bits[1..]);
    }
  }

  lemma LowBit(n: nat, low: nat, v: nat)
    requires low < 2 && n == low + 2 * v
    ensures n % 2 == low && n / 2 == v
  {
  }

  lemma {:induction false} BitsOfValue(bits: seq<bool>)
    ensures Bits(Value(bits), |bits|) == bits
  {
    if bits != [] {
      BitsOfValue(bits[1..]);
      LowBit(Value(bits), if bits[0] then 1 else 0, Value(bits[1..]));
      assert bits == [bits[0]] + bits[1..];
    }
  }

  lemma {:induction false} Pow2Positive(n: nat)
    ensures Pow2(n) > 0
  {
    if n > 0 {
      Pow2Positive(n - 1);
    }
  }

  lemma {:induction false} ValueOfBits(n: nat, len: nat)
    ensures Pow2(len) > 0 && Value(Bits(n, len)) == n % Pow2(len)
  {
    Pow2Positive(len);
    if len > 0 {
      ValueOfBits(n / 2, len - 1);
      var m, half := Pow2(len - 1), n / 2;
      Pow2Positive(len - 1);
      var bits := Bits(n, len);
      assert bits[1..] == Bits(half, len - 1);
      QuotientRemainder(half, m);
      var r := n % 2 + 2 * (half % m);
      assert n == half / m * (2 * m) + r;
      DivModUnique(n, 2 * m, half / m, r);
    }
  }

  lemma Pow64()
    ensures Pow2(64) == 0x1_0000_0000_0000_0000
  {
    assert Pow2(8) == 0x100;
    assert Pow2(16) == 0x1_0000;
    assert Pow2(24) == 0x100_0000;
    assert Pow2(32) == 0x1_0000_0000;
    assert Pow2(40) == 0x100_0000_0000;
    assert Pow2(48) == 0x1_0000_0000_0000;
    assert Pow2(56) == 0x100_0000_0000_0000;
  }

  lemma {:induction false} ValueSnoc(bits: seq<bool>, top: bool)
    ensures Value(bits + [top]) == Value(bits) + (if top then Pow2(|bits|) else 0)
  {
    if bits == [] {
      assert [] + [top] == [top] && [top][1..] == [];
    } else {
      assert (bits + [top])[0] == bits[0] && (bits + [top])[1..] == bits[1..] + [top];
      ValueSnoc(bits[1..], top);
    }
  }

  lemma Pow63()
    ensures Pow2(63) == 0x8000_0000_0000_0000
  {
    Pow64();
    assert Pow2(64) == 2 * Pow2(63);
  }

  /** The top bit tells whether the number is at least 2^63. */
  lemma TopBit(a: Word)
    ensures Value(a) == Value(a[..63]) + (if a[63] then 0x8000_0000_0000_0000 else 0)
    ensures Value(a[..63]) < 0x8000_0000_0000_0000
  {
    assert a == a[..63] + [a[63]];
    ValueSnoc(a[..63], a[63]);
    Pow63();
    ValueBound(a[..63]);
  }

  lemma ShlOneDoubles(a: Word)
    ensures Value(ShlOne(a)) == 2 * Value(a[..63])
  {
    assert ([false] + a[..63])[1..] == a[..63];
  }

  lemma {:induction false} ComplementValue(a: seq<bool>, b: seq<bool>)
    requires |a| == |b| && forall i | 0 <= i < |a| :: b[i] == !a[i]
    ensures Value(a) + Value(b) == Pow2(|a|) - 1
  {
    if a != [] {
      ComplementValue(a[1..], b[1..]);
    }
  }

  /** Exclusive-or with a mask of equal bits is nothing or the complement. */
  lemma XorMask(a: Word, m: Word, top: bool)
    requires forall i | 0 <= i < 64 :: m[i] == top
    ensures Value(Xor(a, m)) == if top then 0xFFFF_FFFF_FFFF_FFFF - Value(a) else Value(a)
  {
    if top {
      ComplementValue(a, Xor(a, m));
      Pow64();
    } else {
      assert Xor(a, m) == a;
    }
  }

  lemma WordOfValue(n: nat)
    requires n < 0x1_0000_0000_0000_0000
    ensures Value(WordOf(n)) == n
  {
    Pow64();
    BitsFit(n, 64);
  }

  lemma BitsFit(n: nat, len: nat)
    requires n < Pow2(len)
    ensures Value(Bits(n, len)) == n
  {
    ValueOfBits(n, len);
    DivModUnique(n, Pow2(len), 0, n);
  }
}
