/** Small shared vocabulary: optional values, bytes and header pairs. */
module Base {

  /** Python's `X | None`. */
  datatype Option<+T> = None | Some(value: T)

  /** A value or the error the program reports instead (an HTTP error status, say). */
  datatype Result<+T, +E> = Success(value: T) | Failure(error: E)

  /** One octet of a raw HTTP body. */
  newtype byte = x: int | 0 <= x < 256

  /** A raw body as Python `bytes`. */
  type Bytes = seq<byte>

  /** An HTTP header as the `(name, value)` tuples the program passes around. */
  type Header = (string, string)

  function Min(a: int, b: int): int { if a <= b then a else b }

  /** Python's `data[:limit]` for a non-negative `limit`. */
  function Prefix<T>(s: seq<T>, limit: nat): (r: seq<T>)
    ensures |r| == Min(|s|, limit)
    ensures r <= s
  {
    if |s| <= limit then s else s[..limit]
  }
}
