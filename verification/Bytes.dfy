/** The byte of every device in the model, and its value. */
module Bytes {
  type byte = bv8

  // unsigned char
  type u8 = x: int | 0 <= x < 256

  function ByteOf(x: u8): byte { x as byte }

  // A byte with a given value, counted up to.
  function Counted(x: u8): (b: byte)
    ensures b as int == x
  {
    if x == 0 then 0
    else
      Successor(Counted(x - 1));
      Counted(x - 1) + 1
  }

  lemma Successor(b: byte)
    requires b as int < 255
    ensures (b + 1) as int == b as int + 1
  {
  }

  lemma ValueBack(b: byte)
    ensures ByteOf(b as int) == b
  {
  }

  lemma ByteBack(x: u8)
    ensures ByteOf(x) as int == x
  {
    ValueBack(Counted(x));
    hide ByteOf;
  }
}
