/** How a write or a transaction ends for the caller that sent it. */
module Endings {
  /** With an answer, or with an error that leaves the caller not knowing whether it took effect:
      it did, or it was lost. */
  datatype Ending = Answered | ErroredApplied | ErroredLost
}
