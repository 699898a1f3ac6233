// Definitions that stay closed in proofs.
module Sealing {
  /** A predicate whose body is "forall k: nat :: Unsealed(k) ==> ..." is taken as a whole by the verifier
      until a proof mentions Unsealed(0). */
  ghost predicate Unsealed(k: nat) { true }

  /** The same for predicates that hold sealed ones, so that these can stay closed. */
  ghost predicate Unwrapped(k: nat) { true }
}
