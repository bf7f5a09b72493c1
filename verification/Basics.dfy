/** Notions that several of the models share. */
module Basics {
  const NUL := '\0'
  const M32 := 0x1_0000_0000
  const M64 := 0x1_0000_0000_0000_0000

  /** A C string: what stands before its NUL. */
  type CString = s: string | NUL !in s

  ghost predicate NoDup<T>(s: seq<T>) {
    forall i, j :: 0 <= i < j < |s| ==> s[i] != s[j]
  }

  function Pow2(k: nat): (p: nat)
    ensures p > 0
  {
    if k == 0 then 1 else 2 * Pow2(k - 1)
  }
}
