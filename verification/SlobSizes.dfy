/** Sizes in bytes and units, and the three size classes of slob pages. */
module SlobSizes {
  const SLOB_BREAK1: nat := 256
  const SLOB_BREAK2: nat := 1024

  /** SLOB_UNITS(size): a size in bytes rounded up to units of sizeof(slob_t) = 2 bytes. */
  function UnitsFor(size: nat): nat { (size + 1) / 2 }

  /** The bytes in so many units; PAGE_SIZE for a page. */
  function BytesIn(units: nat): nat { units * 2 }

  datatype SizeClass = Small | Medium | Large

  function ClassOf(size: nat): SizeClass {
    if size < SLOB_BREAK1 then Small else if size < SLOB_BREAK2 then Medium else Large
  }
}
