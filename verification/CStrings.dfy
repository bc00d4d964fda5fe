/** C strings: the characters before the NUL. */
module CStrings {

  const NUL: char := '\0'

  predicate CString(s: string) {
    forall i :: 0 <= i < |s| ==> s[i] != NUL
  }

  /** Reading at the end, or past it, gives the NUL. */
  function At(s: string, i: int): char {
    if 0 <= i < |s| then s[i] else NUL
  }
}
