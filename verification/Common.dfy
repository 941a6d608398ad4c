/** Names that several parts of the model share. */
module Common {

  datatype Option<T> = None | Some(value: T)

  /** Bytes in a page. */
  const PAGE: nat := 4096

  /** The number of values of a 64-bit word. */
  const WORD: nat := 0x1_0000_0000_0000_0000

  /** The sequence without its element i. */
  function Without<T>(s: seq<T>, i: nat): (r: seq<T>)
    requires i < |s|
    ensures |r| == |s| - 1
  {
    s[..i] + s[i + 1..]
  }
}
