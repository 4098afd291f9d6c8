/**
 * How one run of an option parser ends: normally, early with a message the
 * program prints before leaving (`--help`, `--version`), or with an error.
 */
module Outcomes {
  datatype Outcome = Success | EarlyExit(message: string) | Failure(message: string)
}
