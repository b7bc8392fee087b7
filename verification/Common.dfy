/** Types shared by every part of the model. */
module Common {

  datatype Option<+T> = None | Some(value: T) {
    function GetOr(default: T): T {
      match this
      case Some(v) => v
      case None => default
    }
  }

  newtype byte = x: int | 0 <= x < 256

  type Bytes = seq<byte>

  /** The largest integer up to which a JavaScript number is exact. */
  const MAX_SAFE_INTEGER := 0x1F_FFFF_FFFF_FFFF

  predicate IsHexDigit(c: char) {
    '0' <= c <= '9' || 'a' <= c <= 'f'
  }

  predicate IsSha256Hex(s: string) {
    |s| == 64 && forall n | 0 <= n < |s| :: IsHexDigit(s[n])
  }

  ghost predicate NoCollision(hash: Bytes -> string) {
    forall a, b :: hash(a) == hash(b) ==> a == b
  }

  /** No two of these have the same hash without being the same. */
  ghost predicate NoCollisionAmong(hash: Bytes -> string, values: seq<Bytes>) {
    forall i, j | 0 <= i < |values| && 0 <= j < |values| && hash(values[i]) == hash(values[j]) :: values[i] == values[j]
  }

  /** No two of them have one name. */
  predicate DistinctBy<T>(name: T -> string, s: seq<T>) {
    forall i, j | 0 <= i < j < |s| :: name(s[i]) != name(s[j])
  }
}
