/** Shared value types and characters. */
module Common {

  datatype Option<+T> = None | Some(value: T)

  type byte = b: int | 0 <= b < 256
  type Bytes = seq<byte>

  const DOUBLE_QUOTE: char := '\U{22}'
  const SINGLE_QUOTE: char := '\U{27}'
  const ESCAPE: char := '\U{5C}'
}
