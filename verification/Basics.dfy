/** What several of the models share. */
module Basics {

  datatype Option<T> = None | Some(value: T)

  /** err_t of lwIP */
  datatype Err =
    | Ok | Mem | WouldBlock | InProgress | Rte | ConnErr | Clsd | Already | IsConn | Rst | Abrt | Val | Other(code: int)

  type Byte = x: int | 0 <= x < 0x100

  function Min(a: nat, b: nat): nat {
    if a < b then a else b
  }

  /** A conversion to u8_t. */
  function AsU8(n: nat): Byte {
    n % 0x100
  }
}
