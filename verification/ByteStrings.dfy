module ByteStrings {
  type Byte = x: int | 0 <= x < 256
}
