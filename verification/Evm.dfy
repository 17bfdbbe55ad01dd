/** Solidity's value types, as the contracts of this project use them. */
module Evm {
  const TWO_16: nat := 0x1_0000
  const TWO_64: nat := 0x1_0000_0000_0000_0000
  const TWO_256: nat := 0x1_0000000000000000_0000000000000000_0000000000000000_0000000000000000
  const MAX_UINT256: Uint256 := TWO_256 - 1

  type Uint16 = x: nat | x < TWO_16
  type Uint64 = x: nat | x < TWO_64
  type Uint256 = x: nat | x < TWO_256

  // Addresses and 32-byte words are only compared, so their width plays no part.
  type Address = nat
  type Bytes32 = nat
  const ZERO: Address := 0

  /** An explicit `uint64(...)` cast drops the high bits without a check. */
  function ToUint64(x: Uint256): Uint64 {
    x % TWO_64
  }

  /** An explicit `uint16(...)` cast drops the high bits without a check. */
  function ToUint16(x: nat): Uint16 {
    x % TWO_16
  }
}
