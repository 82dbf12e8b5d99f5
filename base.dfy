/** Shared vocabulary: optional values and the unsigned integer widths of the tool. */
module Base {

  datatype Option<T> = None | Some(value: T)

  /** uint32_t: the type of the addresses kept in the symbol table. */
  type uint32 = x: nat | x < 0x1_0000_0000

  /** uint64_t: the type strtoull returns. */
  type uint64 = x: nat | x < 0x1_0000_0000_0000_0000

  const UINT32_LIMIT: nat := 0x1_0000_0000
  const UINT64_LIMIT: nat := 0x1_0000_0000_0000_0000
}
