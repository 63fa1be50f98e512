/** Machine integers and memory bytes, at the widths the monitor uses. */
module Words {
  type Byte = bv8

  const TWO_31: int := 0x8000_0000
  const TWO_32: int := 0x1_0000_0000
  const TWO_63: int := 0x8000_0000_0000_0000
  const TWO_64: int := 0x1_0000_0000_0000_0000

  /** `unsigned long long`: a register, an address, a `size_t`. */
  type U64 = x: int | 0 <= x < TWO_64

  /** `int64_t` / `ssize_t`: a system call result. */
  type I64 = x: int | -TWO_63 <= x < TWO_63

  predicate FitsInt(x: int) {
    -TWO_31 <= x < TWO_31
  }

  /** The C cast `(int) x`: keep the low 32 bits and sign-extend them. */
  function ToInt(x: int): (r: I64)
    ensures FitsInt(r)
    ensures (r - x) % TWO_32 == 0
    ensures FitsInt(x) ==> r == x
  {
    var low := x % TWO_32;
    if low < TWO_31 then low else low - TWO_32
  }

  /** Which values the cast keeps, in figures. */
  lemma IntKeeps(x: int)
    ensures FitsInt(x) <==> -2_147_483_648 <= x <= 2_147_483_647
    ensures -2_147_483_648 <= ToInt(x) <= 2_147_483_647
    ensures ToInt(x) == x <==> -2_147_483_648 <= x <= 2_147_483_647
  {
  }

  /** A signed value stored in an unsigned 64-bit register. */
  function ToU64(x: int): (r: U64)
    ensures (r - x) % TWO_64 == 0
    ensures 0 <= x < TWO_64 ==> r == x
  {
    x % TWO_64
  }

  /** An unsigned 64-bit register read back as a signed value. */
  function ToI64(x: U64): I64 {
    if x < TWO_63 then x else x - TWO_64
  }

  /** A result that travels through a register comes back unchanged. */
  lemma RegisterRoundTrip(x: I64)
    ensures ToI64(ToU64(x)) == x
    ensures ToU64(x) <= TWO_63 - 1 <==> 0 <= x
  {
    if x < 0 {
      assert (x + TWO_64) % TWO_64 == x % TWO_64;
    }
  }

  /** Narrowing to `int` once more changes nothing. */
  lemma IntRoundTrip(x: int)
    ensures ToInt(ToU64(ToInt(x))) == ToInt(x)
  {
    var i := ToInt(x);
    assert i < 0 ==> ToU64(i) == i + TWO_64 by {
      assert (i + TWO_64) % TWO_64 == i % TWO_64;
    }
    assert TWO_64 == TWO_32 * TWO_32;
    assert (i + TWO_64) % TWO_32 == i % TWO_32;
  }

  /** Small values survive every cast. */
  lemma Small(x: int)
    requires 0 <= x < TWO_31
    ensures ToInt(x) == x && ToU64(x) == x
  {
  }
}
