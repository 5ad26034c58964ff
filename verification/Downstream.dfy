/** What one call of the downstream answerer comes to. */
module Downstream {

  datatype Outcome = Answered(text: string) | Failed(message: string)
}
