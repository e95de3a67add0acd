/** Why a primitive fails. */
module FailureCodes {
  const FAIL_WRONG_TYPE: nat := 2
  const FAIL_BAD_INDEX: nat := 4
  const FAIL_OVERFLOW: nat := 6
  const FAIL_UNSUPPORTED_CONTEXT: nat := 7
}
