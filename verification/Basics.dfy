/** What several components share: an optional value, and the little of Go's `strings` package
    that the channel names, the file links and the address headers are taken apart with. */
module Basics {

  datatype Option<+T> = None | Some(value: T)

  predicate IsDigit(c: char) { '0' <= c <= '9' }

  /** strings.HasPrefix */
  predicate HasPrefix(s: string, prefix: string) {
    |prefix| <= |s| && s[..|prefix|] == prefix
  }

  /** strings.CutPrefix: what follows the prefix, or None when `s` does not start with it. */
  function CutPrefix(s: string, prefix: string): (rest: Option<string>)
    ensures rest.Some? ==> s == prefix + rest.value
  {
    if HasPrefix(s, prefix) then Some(s[|prefix|..]) else None
  }

  lemma CutPrefixOfConcat(prefix: string, rest: string)
    ensures CutPrefix(prefix + rest, prefix) == Some(rest)
  {
  }
}
