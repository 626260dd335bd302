/** Sequence helpers used to state what the relay loops accumulate. */
module Seqs {

  /** Concatenation, in order, of `f(x)` for every `x` of `xs`. */
  function FlatMap<T, U>(xs: seq<T>, f: T -> seq<U>): seq<U>
  {
    if xs == [] then [] else FlatMap(xs[..|xs| - 1], f) + f(xs[|xs| - 1])
  }

  /** Extending the input by one element extends the output by that element's image. */
  lemma FlatMapSnoc<T, U>(xs: seq<T>, x: T, f: T -> seq<U>)
    ensures FlatMap(xs + [x], f) == FlatMap(xs, f) + f(x)
  {
    assert (xs + [x])[..|xs|] == xs;
  }

  /** FlatMap distributes over concatenation, so it preserves order. */
  lemma {:induction false} FlatMapAppend<T, U>(xs: seq<T>, ys: seq<T>, f: T -> seq<U>)
    ensures FlatMap(xs + ys, f) == FlatMap(xs, f) + FlatMap(ys, f)
  {
    if ys == [] {
      assert xs + ys == xs;
    } else {
      var init, last := ys[..|ys| - 1], ys[|ys| - 1];
      assert ys == init + [last];
      assert xs + ys == (xs + init) + [last];
      FlatMapAppend(xs, init, f);
      FlatMapSnoc(xs + init, last, f);
      FlatMapSnoc(init, last, f);
    }
  }

  /** The image of a one-element sequence. */
  lemma FlatMapSingle<T, U>(x: T, f: T -> seq<U>)
    ensures FlatMap([x], f) == f(x)
  {
    FlatMapSnoc([], x, f);
  }

  /** The image of a sequence split around one element. */
  lemma FlatMapMiddle<T, U>(before: seq<T>, x: T, after: seq<T>, f: T -> seq<U>)
    ensures FlatMap(before + [x] + after, f) == FlatMap(before, f) + f(x) + FlatMap(after, f)
  {
    FlatMapAppend(before + [x], after, f);
    FlatMapSnoc(before, x, f);
  }

  /** An element whose image is empty can be removed without changing the image. */
  lemma FlatMapDrop<T, U>(before: seq<T>, x: T, after: seq<T>, f: T -> seq<U>)
    requires f(x) == []
    ensures FlatMap(before + [x] + after, f) == FlatMap(before + after, f)
  {
    FlatMapMiddle(before, x, after, f);
    FlatMapAppend(before, after, f);
    assert FlatMap(before, f) + f(x) == FlatMap(before, f);
  }
}
