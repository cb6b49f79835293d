/** Bytes and the numbers they stand for. */
module Bytes {
  /** The byte of value x, counted up so that the value is plain to see. */
  function Byte(x: nat): bv8
    requires x < 256
  {
    if x == 0 then 0 else Byte(x - 1) + 1
  }

  function Value(b: bv8): (x: nat)
    ensures x < 256
  {
    b as nat
  }

  lemma NextByte(b: bv8)
    ensures Value(b) < 255 ==> Value(b + 1) == Value(b) + 1
  {
  }

  lemma {:induction false} ByteValue(x: nat)
    requires x < 256
    ensures Value(Byte(x)) == x
    decreases x
  {
    if x > 0 {
      ByteValue(x - 1);
      NextByte(Byte(x - 1));
      hide Value;
    }
  }

  lemma ValueByte(b: bv8)
    ensures Byte(Value(b)) == b
  {
    hide Value, Byte;
    ByteValue(Value(b));
    SameValue(Byte(Value(b)), b);
  }

  lemma SameValue(a: bv8, b: bv8)
    requires Value(a) == Value(b)
    ensures a == b
  {
  }
}
