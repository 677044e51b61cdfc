/** Constants and value types shared by the logger's frame format. */
module Frame {
  /** Samples per frame (`#define LEN 85` in both post-processing programs). */
  const LEN: nat := 85

  /** Modulus of the 11-bit wrap-around timestamp (`#define TIME_SIZE 2048`). */
  const TIME_SIZE: int := 2048

  /** `uint8_t` */
  type byte = x: int | 0 <= x < 256

  /** `int16_t` */
  type int16 = x: int | -0x8000 <= x < 0x8000

  /** One three-axis sample, `struct XYZ { int16_t xyz[3]; }`. */
  datatype Xyz = Xyz(x: int16, y: int16, z: int16)
}
