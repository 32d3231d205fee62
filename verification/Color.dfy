/** Bytes and RGB colours, shared by the server, the client and the framebuffer. */
module Color {
  newtype byte = i: int | 0 <= i < 256

  datatype Color = Color(r: byte, g: byte, b: byte)
}
