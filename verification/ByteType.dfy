/** The unit that buffers and files are made of. */
module ByteType {
  type Byte = b: int | 0 <= b < 256
}
