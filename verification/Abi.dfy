/** Reading static words of contract data. A 32-byte value is the number its bytes spell. */
module Abi {
  import opened Common

  const TWO_160: nat := 0x1_0000000000_0000000000_0000000000_0000000000

  type Address = a: nat | a < TWO_160

  /** The big-endian number of some bytes. */
  function ToNat(bytes: seq<Byte>): nat {
    if bytes == [] then 0 else 256 * ToNat(bytes[..|bytes| - 1]) + bytes[|bytes| - 1]
  }

  /** The 32-byte word at a word index. */
  function U256Word(bytes: seq<Byte>, index: nat): Option<nat> {
    if 32 * index + 32 <= |bytes| then Some(ToNat(bytes[32 * index..32 * index + 32])) else None
  }

  /** A word as an address, refused when its high bytes are not zero. */
  function AsAddress(word: nat): Option<Address> {
    if word < TWO_160 then Some(word) else None
  }

  function AddressWord(bytes: seq<Byte>, index: nat): Option<Address> {
    match U256Word(bytes, index)
    case Some(w) => AsAddress(w)
    case None => None
  }

  /** A word as a `uint8`, refusing anything wider. */
  function U8Word(bytes: seq<Byte>, index: nat): Option<Byte> {
    match U256Word(bytes, index)
    case Some(w) => if w < 256 then Some(w) else None
    case None => None
  }
}
