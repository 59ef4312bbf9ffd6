/** Helpers shared by the validator and the XLIFF model. */
module Utilities {
  import opened Wrappers

  /** `Utilities.noString`: a missing or empty string. */
  predicate NoString(s: Option<string>) {
    s.None? || |s.value| == 0
  }

  /** Regrouping appended lists (used to keep the writers' proofs small). */
  lemma AppendAssoc<T>(a: seq<T>, b: seq<T>, c: seq<T>)
    ensures a + b + c == a + (b + c)
  {
  }
}
