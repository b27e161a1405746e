/** Results every operation of the program shares; each module adds its own errors. */
module Status {
  const OK := 0
  const PENDING := 1
  const ERR_INVALID_ARG := -1
}
