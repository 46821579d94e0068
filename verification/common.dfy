/** Small shared vocabulary: an optional value, integer clamps and sequence
    helpers used by every ledger of the game. */
module Common {

  /** A value that may be absent (JavaScript's `undefined`/`null`). */
  datatype Option<T> = None | Some(value: T)

  function Min(a: int, b: int): (r: int)
    ensures r <= a && r <= b
    ensures r == a || r == b
  {
    if a <= b then a else b
  }

  function Max(a: int, b: int): (r: int)
    ensures r >= a && r >= b
    ensures r == a || r == b
  {
    if a >= b then a else b
  }

  /** No element occurs twice. */
  predicate NoDup<T(==)>(s: seq<T>) {
    forall i, j | 0 <= i < j < |s| :: s[i] != s[j]
  }

  /** `s` with the element at index `i` taken out (JavaScript `splice(i, 1)`). */
  function RemoveAt<T>(s: seq<T>, i: nat): (r: seq<T>)
    requires i < |s|
    ensures |r| == |s| - 1
    ensures forall k | 0 <= k < i :: r[k] == s[k]
    ensures forall k | i <= k < |r| :: r[k] == s[k + 1]
    ensures forall x | x in r :: x in s
  {
    s[..i] + s[i + 1..]
  }

  /** JavaScript `str.startsWith(prefix)`. */
  predicate StartsWith(str: string, prefix: string) {
    |prefix| <= |str| && str[..|prefix|] == prefix
  }
}
