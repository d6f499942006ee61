/** The number a zod number schema receives: a JavaScript number, which is
    either NaN or a finite value (the infinities are not modelled). With
    `z.coerce`, this is what `Number(input)` produced; absence is an
    `Option` around it. */
module ZodNumber {
  datatype JsNumber = NaN | Finite(v: real)

  /** `Number.MAX_SAFE_INTEGER`, 2^53 - 1. */
  const MAX_SAFE_INTEGER: int := 0x1F_FFFF_FFFF_FFFF

  /** `.int()`: zod 4 accepts only safe integers, finite numbers with no
      fractional part between -(2^53 - 1) and 2^53 - 1. */
  predicate IsInt(n: JsNumber) {
    && n.Finite? && n.v.Floor as real == n.v
    && -MAX_SAFE_INTEGER as real <= n.v <= MAX_SAFE_INTEGER as real
  }
}
