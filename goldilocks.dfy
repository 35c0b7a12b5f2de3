/** The Goldilocks prime field of plonky2 and pod2, and pod2's four-element raw values. */
module Goldilocks {

  const TWO_32: nat := 0x1_0000_0000
  const TWO_64: nat := 0x1_0000_0000_0000_0000

  /** The field order p = 2^64 - 2^32 + 1 (F::ORDER). */
  const P: nat := 0xFFFF_FFFF_0000_0001

  lemma OrderValue()
    ensures P == TWO_64 - TWO_32 + 1
    ensures P < TWO_64
  {
  }

  /** A canonical field element: an integer in [0, p). */
  type Elem = x: nat | x < P

  /** Field addition. */
  function Add(a: Elem, b: Elem): (r: Elem)
    ensures a + b < P ==> r == a + b
    ensures a + b >= P ==> r == a + b - P
  {
    (a + b) % P
  }

  /** Field subtraction (`builder.sub`, `F - F`): the unique r with r + b = a modulo p. */
  function Sub(a: Elem, b: Elem): (r: Elem)
    ensures b <= a ==> r == a - b
    ensures a < b ==> r == P - (b - a)
    ensures Add(r, b) == a
  {
    (a - b) % P
  }

  /** A pod2 `RawValue` (and `Hash`): four field elements. */
  type Raw = s: seq<Elem> | |s| == 4 witness [0, 0, 0, 0]

  /** `EMPTY_VALUE` / `EMPTY_HASH`: the all-zero raw value. */
  const EMPTY_VALUE: Raw := [0, 0, 0, 0]

  /** `RawValue([x, 0, 0, 0])`: how a single element is widened into a raw value. */
  function FromElem(x: Elem): (r: Raw)
    ensures r[0] == x && r[1..] == [0, 0, 0]
  {
    [x, 0, 0, 0]
  }
}
