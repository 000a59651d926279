/** Facts about shifted words, kept apart from everything else. */
module Words {
  lemma HalvingKeepsOrder(x: bv32, y: bv32)
    requires x <= y
    ensures x >> 1 <= y >> 1
  {
  }

  lemma DoublingNat(h: bv32)
    requires h <= 0x7fff_ffff
    ensures (h << 1) as nat == 2 * (h as nat) && ((h << 1) | 1) as nat == 2 * (h as nat) + 1
  {
  }
}
