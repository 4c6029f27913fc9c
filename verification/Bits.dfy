/** Joining shifted parts with a bitwise or, on bit-vectors: where the parts do not overlap, joining is adding. */
module Bits {

  /** The two nibbles of a packed byte. */
  lemma NibblesJoin(lo: bv8, hi: bv8)
    requires lo < 16 && hi < 16
    ensures lo | (hi << 4) == lo + (hi << 4)
  {
  }

  /** What is left of one sextet and the first bits of the next. */
  lemma SextetsJoin(last: bv8, part: bv8)
    requires last < 64 && part < 64
    ensures (last << 2) | (part >> 4) == (last << 2) + (part >> 4)
    ensures (last << 4) | (part >> 2) == (last << 4) + (part >> 2)
    ensures (last << 6) | part == (last << 6) + part
  {
  }
}
