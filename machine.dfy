/** Machine-level value types shared by the timer and synchronisation models. */
module Machine {

  /** C/C++ `unsigned int` on the supported platforms. */
  type uint32 = x: int | 0 <= x < 0x1_0000_0000

  /** C/C++ `uint64_t`. */
  type uint64 = x: int | 0 <= x < 0x1_0000_0000_0000_0000

  /** Win32 `LONG`, a signed 32-bit integer. */
  type int32 = x: int | -0x8000_0000 <= x < 0x8000_0000

  /** Win32 `LARGE_INTEGER::QuadPart`, a signed 64-bit integer. */
  type int64 = x: int | -0x8000_0000_0000_0000 <= x < 0x8000_0000_0000_0000

  /** A value that may be absent: stands for a null pointer or a "not found" result. */
  datatype Option<T> = None | Some(value: T)

  /** The two's-complement reinterpretation of an unsigned 32-bit value as a signed one,
      which is what `static_cast<LONG>` does to an `unsigned int`. */
  function AsInt32(x: uint32): (r: int32)
    ensures 0 <= x < 0x8000_0000 ==> r == x
    ensures 0x8000_0000 <= x ==> r < 0
    ensures (r + 0x1_0000_0000) % 0x1_0000_0000 == x
  {
    if x < 0x8000_0000 then x else x - 0x1_0000_0000
  }
}
