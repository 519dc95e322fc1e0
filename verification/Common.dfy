// Definitions shared by the models.
module Options {
  datatype Option<+T> = None | Some(value: T)
}

module Words {
  // The bytes of a 64-bit word in the opposite order.
  function Byteswap(w: bv64): bv64 {
    (w << 56) | ((w & 0xFF00) << 40) | ((w & 0xFF_0000) << 24) | ((w & 0xFF00_0000) << 8)
    | ((w >> 8) & 0xFF00_0000) | ((w >> 24) & 0xFF_0000) | ((w >> 40) & 0xFF00) | (w >> 56)
  }
}
