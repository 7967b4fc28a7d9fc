/** Fixed-width integer types of the C++ side (uint8_t, u16_t, unsigned int, err_t)
    and the Option type used for handles that may be null. */
module Common {

  newtype uint8 = x: int | 0 <= x < 0x100
  newtype uint16 = x: int | 0 <= x < 0x1_0000
  newtype uint32 = x: int | 0 <= x < 0x1_0000_0000
  /** lwIP's err_t is an s8_t */
  newtype int8 = x: int | -0x80 <= x < 0x80

  datatype Option<T> = None | Some(value: T)

  function Min(a: int, b: int): (r: int)
    ensures r <= a && r <= b && (r == a || r == b)
  {
    if a <= b then a else b
  }
}
