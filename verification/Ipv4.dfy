/** IPv4 addresses and CIDR blocks (section 3.1 of RFC 4632), as numbers and as text. */
module Ipv4 {
  const ADDRESSES := 0x1_0000_0000

  type Address = a: int | 0 <= a < ADDRESSES

  function Pow2(n: nat): (p: nat)
    ensures p >= 1
  {
    if n == 0 then 1 else 2 * Pow2(n - 1)
  }

  /** How many addresses share a prefix of `length` bits. */
  function BlockSize(length: nat): (size: nat)
    requires length <= 32
    ensures size >= 1
  {
    Pow2(32 - length)
  }

  datatype Cidr = Cidr(network: Address, length: nat) {
    predicate Valid() {
      length <= 32 && network % BlockSize(length) == 0
    }

    /** The address agrees with the network on the first `length` bits. */
    predicate Contains(a: Address)
      requires length <= 32
    {
      a / BlockSize(length) == network / BlockSize(length)
    }
  }

  const ANY := Cidr(0, 0)

  /** Clears the host bits: `value & mask`. */
  function Canonical(value: Address, length: nat): (c: Cidr)
    requires length <= 32
    ensures c.Valid() && c.length == length
    ensures c.Contains(value)
  {
    var size := BlockSize(length);
    MaskArithmetic(value, size);
    Cidr(value - value % size, length)
  }

  lemma MaskArithmetic(value: nat, size: nat)
    requires size >= 1
    ensures 0 <= value - value % size <= value
    ensures (value - value % size) % size == 0
    ensures (value - value % size) / size == value / size
  {
    assert value == value / size * size + value % size;
    DivideMultiple(value / size, size);
  }

  lemma DivideMultiple(q: nat, size: nat)
    requires size >= 1
    ensures q * size / size == q && q * size % size == 0
  {
    SmallestMultiple(q - q * size / size, size);
    assert (q - q * size / size) * size == q * size % size;
  }

  lemma SmallestMultiple(d: int, size: nat)
    ensures d >= 1 ==> d * size >= size
    ensures d <= -1 ==> d * size <= -(size as int)
  {
  }

  lemma BlockSizes()
    ensures BlockSize(0) == ADDRESSES && BlockSize(32) == 1
  {
    assert Pow2(8) == 256;
    assert Pow2(16) == 0x1_0000 by {
      assert Pow2(12) == 4096;
    }
    assert Pow2(24) == 0x100_0000 by {
      assert Pow2(20) == 0x10_0000;
    }
    assert Pow2(28) == 0x1000_0000;
  }

  /** A block that holds everything is the whole address space. */
  lemma WholeSpace(c: Cidr)
    requires c.Valid() && c.length == 0
    ensures c == ANY
  {
    BlockSizes();
  }
}
