/** The fixed-width integers of the C sources. */
module CTypes {
  import opened Modular

  /** `uint8_t` */
  type Byte = x: int | 0 <= x < 256

  const LONG_MAX := 0x7FFF_FFFF_FFFF_FFFF

  const SHORT_MAX := 0x7FFF

  /** Conversion to `short`. */
  function ToShort(x: int): int { (x + 0x8000) % 0x1_0000 - 0x8000 }

  /** Conversion to `int`. */
  function ToInt(x: int): int { (x + 0x8000_0000) % 0x1_0000_0000 - 0x8000_0000 }

  /** C's remainder, which takes the sign of the dividend. */
  function CRem(a: int, b: int): int
    requires b != 0
  {
    if a >= 0 then a % b else -((-a) % b)
  }

  /** A `short` has 16 bits: the conversion stays in range and drops multiples of 65536. */
  lemma ShortIs(x: int)
    ensures -32768 <= ToShort(x) <= 32767
    ensures exists k :: ToShort(x) == x + k * 65536
  {
    assert ToShort(x) == x + -((x + 0x8000) / 0x1_0000) * 65536;
  }

  /** An `int` has 32 bits. */
  lemma IntIs(x: int)
    ensures -2147483648 <= ToInt(x) <= 2147483647
    ensures exists k :: ToInt(x) == x + k * 4294967296
  {
    assert ToInt(x) == x + -((x + 0x8000_0000) / 0x1_0000_0000) * 4294967296;
  }

  lemma ShortIdentity(x: int)
    requires -32768 <= x <= 32767
    ensures ToShort(x) == x
  {
    ModIdentity(x + 0x8000, 0x1_0000);
  }

  lemma IntIdentity(x: int)
    requires -2147483648 <= x <= 2147483647
    ensures ToInt(x) == x
  {
    ModIdentity(x + 0x8000_0000, 0x1_0000_0000);
  }

  /** The remainder of C's division, which truncates: it has the sign of the dividend. */
  lemma CRemIs(a: int, b: int)
    requires b > 0
    ensures -b < CRem(a, b) < b && (a >= 0 ==> CRem(a, b) >= 0) && (a <= 0 ==> CRem(a, b) <= 0)
    ensures exists q :: a == q * b + CRem(a, b)
  {
    var q := if a >= 0 then a / b else -((-a) / b);
    assert -((-a) / b) * b == -(((-a) / b) * b);
    assert a == q * b + CRem(a, b);
  }
}
