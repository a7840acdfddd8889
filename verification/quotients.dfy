/** Integer quotients and remainders. */
module Quotients {

  lemma MultipleSign(d: int, length: int)
    requires length >= 1
    ensures d >= 1 ==> d * length >= length
    ensures d <= -1 ==> d * length <= -length
  {
  }

  /** Quotients and remainders are unique. */
  lemma QuotientUnique(p: int, s: int, q: int, r: int, length: int)
    requires length >= 1 && p * length + s == q * length + r && 0 <= s < length && 0 <= r < length
    ensures p == q && s == r
  {
    assert (p - q) * length == r - s;
    MultipleSign(p - q, length);
  }

  lemma Distribute(a: int, b: int, c: int)
    ensures (a + b) * c == a * c + b * c
  {
  }
}
