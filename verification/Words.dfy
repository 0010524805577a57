/** Machine quantities. */
module Words {

  type Byte = x: int | 0 <= x < 256

  type Bytes = seq<Byte>

  const TWO_64: nat := 0x1_0000_0000_0000_0000
}
