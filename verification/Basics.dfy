/** What several of the models share. */
module Basics {
  /** A value that may be missing: what the programs express by a false return, a null or an exception. */
  datatype Option<+T> = None | Some(value: T)

  const U32: nat := 0x1_0000_0000

  /** Payload bytes of one slot of a ring (`data_length`, which is also `large_msg_limit`). */
  const SLOT: nat := 64

  predicate Distinct<T(==)>(s: seq<T>) {
    forall i, j :: 0 <= i < j < |s| ==> s[i] != s[j]
  }
}
