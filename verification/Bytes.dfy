/** Single bits of bytes. */
module Bytes {

  /** 1 << p. */
  function Bit(p: nat): bv8
    requires p < 8
  {
    match p
    case 0 => 1 case 1 => 2 case 2 => 4 case 3 => 8
    case 4 => 16 case 5 => 32 case 6 => 64 case 7 => 128
  }

  lemma BitAlone(x: bv8, p: nat, q: nat)
    requires p < 8 && q < 8
    ensures ((x | Bit(q)) & Bit(p) != 0) <==> (x & Bit(p) != 0) || p == q
  {
  }

  /** A byte without any of its eight bits is zero. */
  lemma ZeroByte(x: bv8)
    ensures x == 0 <==> forall p :: 0 <= p < 8 ==> x & Bit(p) == 0
  {
    assert Bit(0) == 1 && Bit(1) == 2 && Bit(2) == 4 && Bit(3) == 8;
    assert Bit(4) == 16 && Bit(5) == 32 && Bit(6) == 64 && Bit(7) == 128;
    assert (x & 1 == 0 && x & 2 == 0 && x & 4 == 0 && x & 8 == 0 &&
            x & 16 == 0 && x & 32 == 0 && x & 64 == 0 && x & 128 == 0) ==> x == 0;
  }
}
