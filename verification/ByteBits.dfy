/** Bytes as numbers and as bit vectors. */
module ByteBits {
  /** What the binary digit of this weight adds to `b`. */
  function BinaryDigit(b: nat, weight: nat): nat
    requires weight > 0
  {
    b / weight % 2 * weight
  }

  /** `b` without the digits below `weight`. */
  function Rest(b: nat, weight: nat): nat
    requires weight > 0
  {
    b / weight * weight
  }

  lemma OneDigit(b: nat, weight: nat)
    requires weight in {1, 2, 4, 8, 16, 32, 64, 128}
    ensures Rest(b, weight) == BinaryDigit(b, weight) + Rest(b, 2 * weight)
  {
    var q := b / weight;
    assert q / 2 == b / (2 * weight);
  }

  lemma BinaryDigits(b: nat)
    requires b < 256
    ensures b == BinaryDigit(b, 1) + BinaryDigit(b, 2) + BinaryDigit(b, 4) + BinaryDigit(b, 8) + BinaryDigit(b, 16)
              + BinaryDigit(b, 32) + BinaryDigit(b, 64) + BinaryDigit(b, 128)
  {
    hide BinaryDigit;
    OneDigit(b, 1);
    OneDigit(b, 2);
    OneDigit(b, 4);
    OneDigit(b, 8);
    OneDigit(b, 16);
    OneDigit(b, 32);
    OneDigit(b, 64);
    OneDigit(b, 128);
    assert Rest(b, 1) == b && Rest(b, 256) == 0;
  }

  lemma BitsOfByte(b: nat)
    requires b < 256
    ensures b as bv8 as nat == b
  {
    BinaryDigits(b);
  }
}
