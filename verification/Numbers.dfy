/** JavaScript's safe integers. */
module Numbers {
  const MAX_SAFE_INTEGER := 9007199254740991

  /** Number.isSafeInteger(n) && n >= minimum. */
  predicate SafeAtLeast(n: int, minimum: int) { minimum <= n <= MAX_SAFE_INTEGER && -MAX_SAFE_INTEGER <= n }
}
