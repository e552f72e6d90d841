/** Small shared vocabulary: an optional value and the "subsequence" relation
    used to say that a result keeps the relative order of its input. */
module Common {

  /** An optional value; None stands for Python's None (or pandas' NaN for a cell). */
  datatype Option<T> = None | Some(value: T)

  /** xs is obtained from ys by deleting some elements and keeping the order of the rest. */
  ghost predicate SubsequenceOf<T>(xs: seq<T>, ys: seq<T>)
    decreases |ys|
  {
    if xs == [] then true
    else if ys == [] then false
    else (xs[0] == ys[0] && SubsequenceOf(xs[1..], ys[1..])) || SubsequenceOf(xs, ys[1..])
  }

  /** Dropping or keeping a head element preserves the relation. */
  lemma SubsequenceCons<T>(x: T, xs: seq<T>, ys: seq<T>)
    requires SubsequenceOf(xs, ys)
    ensures SubsequenceOf([x] + xs, [x] + ys)
    ensures SubsequenceOf(xs, [x] + ys)
  {
  }

  /** The elements of a subsequence are elements of the sequence it was taken from. */
  lemma {:induction false} SubsequenceMembers<T>(xs: seq<T>, ys: seq<T>)
    requires SubsequenceOf(xs, ys)
    ensures forall x | x in xs :: x in ys
    decreases |ys|
  {
    if xs != [] && ys != [] {
      if xs[0] == ys[0] && SubsequenceOf(xs[1..], ys[1..]) {
        SubsequenceMembers(xs[1..], ys[1..]);
        forall x | x in xs ensures x in ys {
          if x != xs[0] {
            assert x in xs[1..];
          }
        }
      } else {
        SubsequenceMembers(xs, ys[1..]);
      }
    }
  }

  /** A subsequence is never longer than the sequence it was taken from. */
  lemma {:induction false} SubsequenceLength<T>(xs: seq<T>, ys: seq<T>)
    requires SubsequenceOf(xs, ys)
    ensures |xs| <= |ys|
    decreases |ys|
  {
    if xs != [] && ys != [] {
      if xs[0] == ys[0] && SubsequenceOf(xs[1..], ys[1..]) {
        SubsequenceLength(xs[1..], ys[1..]);
      } else {
        SubsequenceLength(xs, ys[1..]);
      }
    }
  }
}
