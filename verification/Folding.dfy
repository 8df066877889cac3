/** A marker to keep large invariants folded: `forall z {:trigger Inside(z)} :: Inside(z) ==> P` is as good
    as P, but the verifier only looks at P once `Inside` of something is asserted. Proofs that merely pass
    the invariant on never see its parts. */
module Folding {

  ghost predicate Inside(z: int) { true }
}
