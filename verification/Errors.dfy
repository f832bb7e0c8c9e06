/** Error codes of include/error.h. */
module Errors {
  const E_BAD_ENV: int := 2
  const E_INVAL: int := 3
  const E_NO_MEM: int := 4
  const E_NO_FREE_ENV: int := 6
  const E_IPC_NOT_RECV: int := 7
  const E_NO_DISK: int := 8
  const E_NOT_FOUND: int := 10
  const E_BAD_PATH: int := 11
  const E_FILE_EXISTS: int := 12
}
