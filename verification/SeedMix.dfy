/** The 64-bit mixing that turns a seed and a sequence number into an RNG seed. */
module SeedMix {
  import opened Arith
  import opened Words

  const GAMMA: nat := 0x9E37_79B9_7F4A_7C15
  const MUL1: nat := 0xBF58_476D_1CE4_E5B9
  const MUL2: nat := 0x94D0_49BB_1331_11EB

  // The inverses of these odd numbers modulo 2^64.
  const GAMMA_INVERSE: nat := 0xF1DE_83E1_9937_733D
  const MUL1_INVERSE: nat := 0x96DE_1B17_3F11_9089
  const MUL2_INVERSE: nat := 0x3196_42B2_D24D_8EC3

  function WrappingMul(a: Word, c: nat): Word { WordOf(Value(a) * c) }

  /** The mixing: an exclusive-or with the multiplied sequence number, then two rounds of
      shift-xor-multiply and a last shift-xor. */
  function Mix(seed: Word, seqNo: nat): Word {
    var z0 := Xor(seed, WrappingMul(WordOf(seqNo), GAMMA));
    var z1 := WrappingMul(Xor(z0, Shr(z0, 30)), MUL1);
    var z2 := WrappingMul(Xor(z1, Shr(z1, 27)), MUL2);
    Xor(z2, Shr(z2, 31))
  }

  // ----- Each step can be undone -----

  /** Multiplying by a constant and then by its inverse gives back the word. */
  lemma MulUndone(a: Word, c: nat, d: nat)
    requires c * d % 0x1_0000_0000_0000_0000 == 1
    ensures WrappingMul(WrappingMul(a, c), d) == a
  {
    Pow64();
    ValueBound(a);
    ValueOfBits(Value(a) * c, 64);
    InverseCancels(Value(a), c, d, 0x1_0000_0000_0000_0000);
    var product := Value(a) * c % 0x1_0000_0000_0000_0000 * d;
    ValueOfBits(product, 64);
    ValueBound(WordOf(product));
    BitsOfValue(WordOf(product));
    BitsOfValue(a);
  }

  /** Undoes `z ^ (z >> k)` when three shifts clear the word. */
  function Unshift(y: Word, k: nat): Word { Xor(Xor(y, Shr(y, k)), Shr(y, 2 * k)) }

  lemma ShiftUndone(z: Word, k: nat)
    requires 22 <= k
    ensures Unshift(Xor(z, Shr(z, k)), k) == z && Xor(Unshift(z, k), Shr(Unshift(z, k), k)) == z
  {
    var y, u := Xor(z, Shr(z, k)), Unshift(z, k);
    forall i | 0 <= i < 64 ensures Unshift(y, k)[i] == z[i] && Xor(u, Shr(u, k))[i] == z[i] {
      assert 3 * k + i >= 64;
    }
  }

  lemma XorUndone(a: Word, b: Word)
    ensures Xor(a, Xor(a, b)) == b
  {
  }

  function Unmix(seed: Word, z: Word): nat {
    var z2 := Unshift(z, 31);
    var z1 := Unshift(WrappingMul(z2, MUL2_INVERSE), 27);
    var z0 := Unshift(WrappingMul(z1, MUL1_INVERSE), 30);
    Value(WrappingMul(Xor(seed, z0), GAMMA_INVERSE))
  }

  /** One round, shift-xor and multiplication, is undone by the inverse multiplication and shifts. */
  lemma RoundUndone(z: Word, k: nat, c: nat, d: nat)
    requires 22 <= k && c * d % 0x1_0000_0000_0000_0000 == 1
    ensures Unshift(WrappingMul(WrappingMul(Xor(z, Shr(z, k)), c), d), k) == z
  {
    MulUndone(Xor(z, Shr(z, k)), c, d);
    ShiftUndone(z, k);
  }

  lemma SequenceRecovered(seed: Word, seqNo: nat)
    requires seqNo < 0x1_0000_0000_0000_0000
    ensures Value(WrappingMul(Xor(seed, Xor(seed, WrappingMul(WordOf(seqNo), GAMMA))), GAMMA_INVERSE)) == seqNo
  {
    XorUndone(seed, WrappingMul(WordOf(seqNo), GAMMA));
    MulUndone(WordOf(seqNo), GAMMA, GAMMA_INVERSE);
    WordOfValue(seqNo);
  }

  lemma UnmixMix(seed: Word, seqNo: nat)
    requires seqNo < 0x1_0000_0000_0000_0000
    ensures Unmix(seed, Mix(seed, seqNo)) == seqNo
  {
    var z0 := Xor(seed, WrappingMul(WordOf(seqNo), GAMMA));
    var z1 := WrappingMul(Xor(z0, Shr(z0, 30)), MUL1);
    var z2 := WrappingMul(Xor(z1, Shr(z1, 27)), MUL2);
    ShiftUndone(z2, 31);
    RoundUndone(z1, 27, MUL2, MUL2_INVERSE);
    RoundUndone(z0, 30, MUL1, MUL1_INVERSE);
    SequenceRecovered(seed, seqNo);
  }

  /** The seed handed to the generator for message `seqNo` of a seeded phase: from it and the phase's seed
      the sequence number can be recovered, so no two messages of a phase share a generator seed. */
  method DeriveSeed(seed: Word, seqNo: nat) returns (z: Word)
    requires seqNo < 0x1_0000_0000_0000_0000
    ensures Unmix(seed, z) == seqNo
  {
    UnmixMix(seed, seqNo);
    z := Xor(seed, WrappingMul(WordOf(seqNo), GAMMA));
    z := WrappingMul(Xor(z, Shr(z, 30)), MUL1);
    z := WrappingMul(Xor(z, Shr(z, 27)), MUL2);
    z := Xor(z, Shr(z, 31));
  }

  lemma MixUnmix(seed: Word, z: Word)
    ensures Mix(seed, Unmix(seed, z)) == z
  {
    var z2 := Unshift(z, 31);
    var y1 := WrappingMul(z2, MUL2_INVERSE);
    var z1 := Unshift(y1, 27);
    var y0 := WrappingMul(z1, MUL1_INVERSE);
    var z0 := Unshift(y0, 30);
    var p := WrappingMul(Xor(seed, z0), GAMMA_INVERSE);
    BitsOfValue(p);
    MulUndone(Xor(seed, z0), GAMMA_INVERSE, GAMMA);
    XorUndone(seed, z0);
    ShiftUndone(y0, 30);
    MulUndone(z1, MUL1_INVERSE, MUL1);
    ShiftUndone(y1, 27);
    MulUndone(z2, MUL2_INVERSE, MUL2);
    ShiftUndone(z, 31);
  }

  /** For a fixed seed, two different 64-bit sequence numbers never give the same RNG seed, and every
      64-bit word is the RNG seed of some sequence number. */
  lemma MixBijective(seed: Word, a: nat, b: nat, z: Word)
    requires a < 0x1_0000_0000_0000_0000 && b < 0x1_0000_0000_0000_0000
    ensures Mix(seed, a) == Mix(seed, b) <==> a == b
    ensures exists n: nat :: n < 0x1_0000_0000_0000_0000 && Mix(seed, n) == z
  {
    UnmixMix(seed, a);
    UnmixMix(seed, b);
    MixUnmix(seed, z);
    Pow64();
    ValueBound(WrappingMul(Xor(seed, Unshift(WrappingMul(Unshift(WrappingMul(Unshift(z, 31),
      MUL2_INVERSE), 27), MUL1_INVERSE), 30)), GAMMA_INVERSE));
    assert Unmix(seed, z) < 0x1_0000_0000_0000_0000;
  }
}
