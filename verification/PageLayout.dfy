/** Sizes shared by the leaf page and everything that must fit on it (crates/storage/src/page/leaf.rs). */
module PageLayout {

  const PAGE_SIZE := 4096
  const LEAF_HEADER := 48
  const SLOT_SIZE := 4
  const REC_HEADER := 24

  /** The next even number: the source's `(n + 1) & !1`. */
  function Even(n: nat): (e: nat)
    ensures n <= e <= n + 1
  {
    (n + 1) / 2 * 2
  }

  function SlotBase(highKeyLen: nat): nat { LEAF_HEADER + Even(highKeyLen) }

  function RecTotalSize(keyLen: nat, valLen: nat): nat { Even(REC_HEADER + Even(keyLen) + valLen) }
}
