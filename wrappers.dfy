/** Small helper types shared by every module of the model. */
module Wrappers {
  /** A value that may be absent: a NULL pointer, a missing map entry. */
  datatype Option<T> = None | Some(value: T)
}

/** C bytes. A `char` of the C library is a value 0..255; memcmp and memchr
    compare them as `unsigned char`. */
module Bytes {
  type Byte = c: char | c as int < 256 witness '\0'
  type Bytes = seq<Byte>

  /** The C locale's `isspace`: space, \t, \n, \v, \f and \r. */
  predicate IsSpace(c: Byte) {
    c == ' ' || c == '\t' || c == '\n' || c as int == 11 || c as int == 12 || c == '\r'
  }

  /** The value of `(signed char)c`, as on platforms where `char` is signed. */
  function Signed(c: Byte): (v: int)
    ensures -128 <= v < 128
    ensures (v - c as int) % 256 == 0
  {
    if c as int < 128 then c as int else c as int - 256
  }
}
