/** Bytes as the values a `Uint8Array` holds. */
module Binary {

  /** One element of a `Uint8Array`. */
  type Byte = x: int | 0 <= x < 256

  type Bytes = seq<Byte>
}
