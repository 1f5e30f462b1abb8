/** Types and sequence facts shared by the models. */
module Common {

  datatype Option<+T> = None | Some(value: T)

  /** The range of uint64_t. */
  const WORD: nat := 0x1_0000_0000_0000_0000

  function Max(x: nat, y: nat): nat { if x >= y then x else y }

  function Min(x: nat, y: nat): nat { if x <= y then x else y }

  /** (int) x of a 64-bit integer. */
  function ToInt(x: nat): int {
    var r := x % 0x1_0000_0000;
    if r < 0x8000_0000 then r else r - 0x1_0000_0000
  }

  /** It is the one int congruent to x modulo 2^32. */
  lemma CastIff(x: nat, r: int)
    ensures r == ToInt(x) <==> -0x8000_0000 <= r < 0x8000_0000 && (x - r) % 0x1_0000_0000 == 0
  {
    assert x == x / 0x1_0000_0000 * 0x1_0000_0000 + x % 0x1_0000_0000;
  }

  /** The sequence without its element at index k. */
  function RemoveAt<T>(s: seq<T>, k: nat): (r: seq<T>)
    requires k < |s|
    ensures |r| == |s| - 1
    ensures forall i | 0 <= i < k :: r[i] == s[i]
    ensures forall i | k <= i < |r| :: r[i] == s[i + 1]
  {
    s[..k] + s[k + 1..]
  }

  /** No element occurs twice. */
  predicate Distinct<T(==)>(s: seq<T>) {
    forall i, j | 0 <= i < j < |s| :: s[i] != s[j]
  }
}
