/** The 32-bit integer conversions around the seed index: the session keeps
    it in an `unsigned`, the text entry produces an `int`, a competitor record
    stores an `int`, and the menu row prints it with "%i". */
module Numbers {
  import opened Text

  const TwoTo31: int := 0x8000_0000
  const TwoTo32: int := 0x1_0000_0000

  /** Values of a 32-bit `unsigned`. */
  type u32 = x: int | 0 <= x < 0x1_0000_0000

  /** Values of a 32-bit `int`. */
  predicate IsInt32(x: int) {
    -TwoTo31 <= x < TwoTo31
  }

  /** C's conversion of any integer to `unsigned`: reduction modulo 2^32. */
  function ToUnsigned32(x: int): (r: u32)
    ensures (r - x) % TwoTo32 == 0
  {
    x % TwoTo32
  }

  /** How an `unsigned` is read back as a 32-bit `int` (two's complement),
      both by "%i" and by an assignment to an `int` field. */
  function AsSigned32(x: u32): (r: int)
    ensures IsInt32(r)
    ensures (r - x) % TwoTo32 == 0
  {
    if x < TwoTo31 then x else x - TwoTo32
  }

  /** An unsigned value survives the trip through a signed field and back. */
  lemma UnsignedRoundTrip(x: u32)
    ensures ToUnsigned32(AsSigned32(x)) == x
  {
  }

  /** A signed 32-bit value survives the trip through an unsigned field and back. */
  lemma SignedRoundTrip(x: int)
    requires IsInt32(x)
    ensures AsSigned32(ToUnsigned32(x)) == x
  {
  }

  /** What the seed row shows for a stored seed. */
  function SeedText(seed: u32): (r: string)
    ensures |r| > 0
  {
    FormatInt(AsSigned32(seed))
  }

  /** Different seeds are never displayed alike. */
  lemma SeedTextInjective(a: u32, b: u32)
    requires SeedText(a) == SeedText(b)
    ensures a == b
  {
    FormatIntInjective(AsSigned32(a), AsSigned32(b));
    UnsignedRoundTrip(a);
    UnsignedRoundTrip(b);
  }
}
