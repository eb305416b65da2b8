/** The image values the cache stores, seen only through what the cache uses of them. */
module Graphics {

  /** A decoded android.graphics.Bitmap: its dimensions and `byteCount`. */
  datatype Bitmap = Bitmap(width: int, height: int, byteCount: nat)

  /** The bytes of one disk-cache entry (a compressed image). */
  type Bytes = seq<bv8>
}
