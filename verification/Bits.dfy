/** The eight flags of a byte, the least significant bit first. */
module Bits {

  function Mask(k: nat): bv8
    requires k < 8
  {
    (1 as bv8) << k
  }

  predicate BitOf(byte: bv8, k: nat)
    requires k < 8
  {
    Mask(k) & byte != 0
  }

  function WithBit(byte: bv8, k: nat): bv8
    requires k < 8
  {
    byte | Mask(k)
  }

  function WithoutBit(byte: bv8, k: nat): bv8
    requires k < 8
  {
    byte & !Mask(k)
  }

  lemma MasksDisjoint(j: nat, k: nat)
    requires j < 8 && k < 8
    ensures Mask(k) & Mask(j) == if j == k then Mask(k) else 0
    ensures Mask(k) & !Mask(j) == if j == k then 0 else Mask(k)
    ensures Mask(k) != 0
  {
    assert j in {0, 1, 2, 3, 4, 5, 6, 7} && k in {0, 1, 2, 3, 4, 5, 6, 7};
  }

  lemma SetBit(byte: bv8, j: nat, k: nat)
    requires j < 8 && k < 8
    ensures BitOf(WithBit(byte, j), k) <==> j == k || BitOf(byte, k)
  {
    MasksDisjoint(j, k);
    hide Mask;
    var a, b := Mask(j), Mask(k);
    assert b & (byte | a) == (b & byte) | (b & a);
  }

  lemma ClearBit(byte: bv8, j: nat, k: nat)
    requires j < 8 && k < 8
    ensures BitOf(WithoutBit(byte, j), k) <==> j != k && BitOf(byte, k)
  {
    MasksDisjoint(j, k);
    hide Mask;
    var a, b := Mask(j), Mask(k);
    assert b & (byte & !a) == byte & (b & !a);
    assert b & byte == byte & b;
  }

  lemma AllOnes(k: nat)
    requires k < 8
    ensures BitOf(0xFF, k)
  {
    assert k in {0, 1, 2, 3, 4, 5, 6, 7};
  }
}
