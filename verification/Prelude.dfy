/** Small value types and sequence facts shared by every component. */
module Prelude {

  type Byte = b: int | 0 <= b < 256

  datatype Option<+T> = None | Some(value: T)

  datatype Result<+T> = Ok(value: T) | Err

  const U32_LIMIT: nat := 0x1_0000_0000
  const U64_MAX: nat := 0xFFFF_FFFF_FFFF_FFFF

  function Min(a: int, b: int): int {
    if a < b then a else b
  }

  function Max(a: int, b: int): int {
    if a < b then b else a
  }

  // `u64::saturating_sub`
  function SatSub(a: nat, b: nat): nat {
    if a < b then 0 else a - b
  }

  // `u64::saturating_add`
  function SatAdd(a: nat, b: nat): nat {
    Min(a + b, U64_MAX)
  }

  lemma SliceOfSlice<T>(s: seq<T>, lo: nat, hi: nat, a: nat, b: nat)
    requires lo <= hi <= |s| && a <= b <= hi - lo
    ensures s[lo..hi][a..b] == s[lo + a..lo + b]
  {
    var inner, direct := s[lo..hi][a..b], s[lo + a..lo + b];
    assert forall i :: 0 <= i < b - a ==> inner[i] == s[lo + a + i] && direct[i] == s[lo + a + i];
  }

  lemma SlicesJoin<T>(s: seq<T>, a: nat, b: nat, c: nat)
    requires a <= b <= c <= |s|
    ensures s[a..b] + s[b..c] == s[a..c]
  {
  }

  predicate NoDuplicates<T(==)>(s: seq<T>) {
    forall i, j :: 0 <= i < j < |s| ==> s[i] != s[j]
  }
}
