/** Failure-carrying values shared by the cpin model, and the errors the script reports. */
module Outcomes {

  datatype Option<+T> = None | Some(value: T)

  datatype Result<+T> = Ok(value: T) | Err(error: Error)

  /** One constructor per fatal message of the script (each aborts the run). */
  datatype Error =
    | NoResidueInfo                           // residue labels or pointers missing from the topology
    | ResidueOutOfRange(number: int)          // a -resnum value that names no residue
    | NotTitratable(number: int, name: string) // a -resnum value whose residue name is not active
    | NoResiduesSelected                      // nothing matched the criteria
    | StateCountMismatch(given: nat, selected: nat) // -states list of the wrong length
    | MissingReferenceData(name: string)      // the reference table has no entry for a name
    | StateOutOfRange(occurrence: nat, state: int) // an initial state outside 0 .. num_states - 1
    | PkaTypeError                            // the pKa filter as written compares a float with a string
}
