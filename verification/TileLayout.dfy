/** The layout of a transparency log's tiles (C2SP tlog-tiles). */
module TileLayout {
  /** The entries in a full bundle, and the hashes in a full tile. */
  const WIDTH: nat := 256
}
