/** Searching in strings. */
module Strings {
  /** The position of the last dot among the first n characters, or -1. */
  function LastDot(s: string, n: nat): (i: int)
    requires n <= |s|
    ensures -1 <= i < n
    ensures i >= 0 ==> s[i] == '.'
    ensures forall j | i < j < n :: s[j] != '.'
  {
    if n == 0 then -1 else if s[n - 1] == '.' then n - 1 else LastDot(s, n - 1)
  }
}
