/** The two-pin micro-step encoding of the driver chip (code/src/pins.hh). */
module Pins {

  // Micro-step configurations: low bit on MS1, high bit on MS2.
  const MS_8: int := 0
  const MS_16: int := 3
  const MS_32: int := 1
  const MS_64: int := 2

  /** A micro-step resolution the driver supports. */
  predicate IsResolution(n: int) {
    n == 8 || n == 16 || n == 32 || n == 64
  }

  /** A value two pins can hold. */
  predicate IsEncoding(e: int) {
    0 <= e < 4
  }

  /** `MS_ENCODE`: any integer that is not a supported resolution falls back
      to the finest setting, MS_64. */
  function MsEncode(n: int): (e: int)
    ensures IsEncoding(e)
    ensures !IsResolution(n) ==> e == MS_64
    ensures e == MS_64 <==> n == 64 || !IsResolution(n)
  {
    if n == 8 then MS_8
    else if n == 16 then MS_16
    else if n == 32 then MS_32
    else MS_64
  }

  /** `MS_DECODE`: every two-pin value decodes to a resolution, and encoding
      that resolution gives the pins back; anything else decodes to 1. */
  function MsDecode(e: int): (n: int)
    ensures IsEncoding(e) ==> IsResolution(n) && MsEncode(n) == e
    ensures !IsEncoding(e) ==> n == 1
  {
    if e == MS_8 then 8
    else if e == MS_16 then 16
    else if e == MS_32 then 32
    else if e == MS_64 then 64
    else 1
  }

  /** The four encodings are distinct and fill the two-bit range. */
  lemma EncodingsCoverTwoBits(e: int)
    requires IsEncoding(e)
    ensures e in {MS_8, MS_16, MS_32, MS_64}
    ensures |{MS_8, MS_16, MS_32, MS_64}| == 4
  {
  }

  /** Decoding undoes encoding for each supported resolution. */
  lemma DecodeEncode(n: int)
    requires IsResolution(n)
    ensures MsDecode(MsEncode(n)) == n
  {
  }

  /** The encoding the two pin levels form: `(ms2 << 1) | ms1`. */
  function PinsValue(ms1: bool, ms2: bool): (e: int)
    ensures IsEncoding(e)
    ensures e % 2 == (if ms1 then 1 else 0) && e / 2 == (if ms2 then 1 else 0)
  {
    (if ms2 then 2 else 0) + (if ms1 then 1 else 0)
  }

  /** `gpio_put(ms1, e & 1); gpio_put(ms2, (e >> 1) & 1)` followed by
      `(ms2 << 1) | ms1` reads back the encoding that was written. */
  lemma PinsRoundTrip(e: int)
    requires IsEncoding(e)
    ensures PinsValue(e % 2 == 1, (e / 2) % 2 == 1) == e
  {
  }
}
