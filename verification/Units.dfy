/** The units every part of the machine is built from. */
module Units {
  type Byte = x: nat | x < 256
  /** A 32-bit word. */
  type Word = x: nat | x < 0x1_0000_0000
}

/** The fetch buffer's geometry, shared by the cache hierarchy that fills it and
    the JIT whose blocks are parallel to its lines. */
module FetchGeometry {
  const FETCH_LINES: nat := 4096
  const NO_BASE: nat := 1 // no 32-byte block starts here

  /** The line a 32-byte block is buffered in. */
  function SlotOfBlock(b: nat): (s: nat)
    ensures s < FETCH_LINES
  {
    b % FETCH_LINES
  }
}
