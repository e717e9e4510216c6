/** Bounded copies of text. */
module Strings {
  /** What `snprintf` keeps of a text in a buffer with room for `n` characters. */
  function Cut(s: string, n: nat): (t: string)
    ensures t <= s && |t| == (if |s| <= n then |s| else n)
  {
    if |s| <= n then s else s[..n]
  }
}
