/** The bit tricks of proto.go on machine words, as the arithmetic that Varint and ProtoValues use. */
module BitIdentities {
  /** `val |= x << shift` adds, because val lies below the shift. */
  lemma OrIsPlus(val: bv64, x: bv64, shift: bv7)
    requires shift < 64 && val >> shift == 0
    ensures val | (x << shift) == val + (x << shift)
  {
    ShiftedIsDisjoint(val, x, shift);
    DisjointOr(val, x << shift);
  }

  lemma ShiftedIsDisjoint(val: bv64, x: bv64, shift: bv7)
    requires shift < 64 && val >> shift == 0
    ensures val & (x << shift) == 0
  {}

  lemma DisjointOr(a: bv64, b: bv64)
    requires a & b == 0
    ensures a | b == a + b
  {}
}
