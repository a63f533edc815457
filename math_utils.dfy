/** Small arithmetic helpers (MathUtils.java). */
module MathUtils {
  import opened JavaInt

  /** `narrowLong`: clamps a long into the range of a Java int. */
  function NarrowLong(n: int): (r: int)
    ensures IntMin <= r <= IntMax
    ensures IntMin <= n <= IntMax ==> r == n
    ensures n < IntMin ==> r == IntMin
    ensures n > IntMax ==> r == IntMax
  {
    if n < IntMin then IntMin
    else if n > IntMax then IntMax
    else n
  }

  /** Clamping twice is clamping once, and clamping never reorders two values. */
  lemma NarrowLongIdempotentMonotone(n: int, m: int)
    ensures NarrowLong(NarrowLong(n)) == NarrowLong(n)
    ensures n <= m ==> NarrowLong(n) <= NarrowLong(m)
  {
  }
}
