/** Finite runs of a state machine, latest step outermost. */
module Traces {
  datatype Trace<Step> = Start | Then(before: Trace<Step>, last: Step)
}
