/** Word sizes shared by the layers. */
module Words {
  const U16: int := 0x1_0000
  const U32: int := 0x1_0000_0000
}
