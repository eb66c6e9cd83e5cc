/** For predicates that most proofs pass on as a whole. One of the form
    `forall s: Seal :: Open(s) ==> ...`, with `Open` a predicate that always holds, is looked into only
    by proofs that mention `Open(Seal)`. */
module Sealed {
  datatype Seal = Seal
}
