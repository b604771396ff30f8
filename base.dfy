/** Values shared by every part of the Apple Media Service model. */
module Base {

  /** One octet on the wire. */
  newtype byte = x: int | 0 <= x < 256

  datatype Option<+T> = None | Some(value: T)

  /** The exceptions the modelled client raises (they all propagate to its caller). */
  datatype Error =
    | PacketTooShort      // RuntimeError("packet too short") from an entity update of length 1 or 2
    | UnsupportedCommand  // the remote advertised commands and the requested one is not among them
    | ValueError          // int() of a playback-info field that is not a decimal integer
    | IndexError          // a playback-info field position past the last comma-separated field

  datatype Result<+T> = Success(value: T) | Failure(error: Error)

  /** The result of an operation that returns nothing but may raise. */
  datatype Outcome = Pass | Fail(error: Error)

  predicate Distinct<T(==)>(s: seq<T>) {
    forall i, j | 0 <= i < j < |s| :: s[i] != s[j]
  }

  lemma DistinctSnoc<T>(s: seq<T>, x: T)
    requires Distinct(s) && x !in s
    ensures Distinct(s + [x])
  {
  }
}
