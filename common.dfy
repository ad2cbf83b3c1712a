/** Values shared by every part of the recommender model. */
module Common {

  /** The conventional optional value (Python's `None` or a value). */
  datatype Option<+T> = None | Some(value: T)

  /** `x or ""` for an optional string: a missing value reads as empty. */
  function OrEmpty(x: Option<string>): (r: string)
    ensures x.None? ==> r == ""
    ensures x.Some? ==> r == x.value
  {
    if x.Some? then x.value else ""
  }

  /** The outcome of an operation that the source lets raise an exception. */
  datatype Result<+R, +E> = Ok(value: R) | Err(error: E)

  /** A score as the source stores it in a float array: a real number, or the
      `-inf` that is written over excluded items. Arithmetic is exact here;
      the source uses float32. */
  datatype Score = NegInf | Finite(v: real)

  /** `a >= b` on scores: `-inf` is below every real, and `-inf >= -inf`
      (two excluded items tie, as two IEEE `-inf` values compare equal). */
  predicate Ge(a: Score, b: Score)
  {
    match (a, b)
    case (_, NegInf) => true
    case (NegInf, Finite(_)) => false
    case (Finite(x), Finite(y)) => x >= y
  }

  /** `Ge` is a total preorder: reflexive, total and transitive. */
  lemma GeTotalPreorder(a: Score, b: Score, c: Score)
    ensures Ge(a, a)
    ensures Ge(a, b) || Ge(b, a)
    ensures Ge(a, b) && Ge(b, c) ==> Ge(a, c)
  {
  }

  /** Scaling a score by a non-negative weight and adding a real, as
      `w * s + b` on floats: `-inf` stays `-inf` when the weight is positive. */
  function Affine(w: real, s: Score, b: real): (r: Score)
    requires w > 0.0
    ensures r.NegInf? <==> s.NegInf?
    ensures s.Finite? ==> r.v - b == w * s.v
  {
    match s
    case NegInf => NegInf
    case Finite(x) => Finite(w * x + b)
  }
}
