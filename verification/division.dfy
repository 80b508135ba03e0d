/** Facts about floored division by a positive divisor, kept apart from the proofs that use them. */
module Division {
  lemma Scaled(a: int, b: int, w: int)
    requires w > 0 && a <= b
    ensures a * w <= b * w
  {
  }

  lemma Gap(a: int, b: int, w: int)
    requires w > 0
    ensures a < b ==> a * w + w <= b * w
  {
    if a < b {
      Scaled(a + 1, b, w);
      assert (a + 1) * w == a * w + w;
    }
  }

  lemma Span(t: int, w: int)
    requires w > 0
    ensures (t / w) * w <= t < (t / w) * w + w && t % w == t - (t / w) * w
  {
  }

  lemma QuotientIs(t: int, q: int, w: int)
    requires w > 0 && q * w <= t < q * w + w
    ensures t / w == q
  {
    Span(t, w);
    Gap(t / w, q, w);
    Gap(q, t / w, w);
  }

  lemma QuotientBounds(t: int, q: int, w: int)
    requires w > 0
    ensures t < q * w ==> t / w < q
    ensures q * w <= t ==> q <= t / w
  {
    Span(t, w);
    Gap(t / w, q, w);
    if q <= t / w {
      Scaled(q, t / w, w);
    }
  }

  lemma Monotone(a: int, b: int, w: int)
    requires w > 0 && a <= b
    ensures a / w <= b / w
  {
    Span(a, w);
    QuotientBounds(b, a / w, w);
  }
}
