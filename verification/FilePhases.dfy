/** The phases of a file, in the status of a knowledge base as in that of a dataset version. */
module FilePhases {
  datatype FilePhase = Pending | Processing | Succeeded | Failed | Skipped
}
