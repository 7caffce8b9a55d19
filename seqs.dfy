/** Facts about sequences that the proofs use to take a sequence apart at its ends or to read a short display element by element. */
module Seqs {
  /** A non-empty sequence is its front followed by its last element. */
  lemma LastSplit<T>(s: seq<T>)
    requires s != []
    ensures s == s[..|s| - 1] + [s[|s| - 1]]
  {
  }

  /** A non-empty sequence is its first element followed by the rest. */
  lemma FirstSplit<T>(s: seq<T>)
    requires s != []
    ensures s == [s[0]] + s[1..]
  {
  }

  /** The first `i + 1` elements are the first `i` followed by the element at `i`. */
  lemma TakeOneMore<T>(s: seq<T>, i: nat)
    requires i < |s|
    ensures s[..i + 1] == s[..i] + [s[i]]
  {
  }

  /** Dropping the last element of `a + b`, for a non-empty `b`, drops the last element of
      `b`. */
  lemma ConcatFront<T>(a: seq<T>, b: seq<T>)
    requires b != []
    ensures (a + b)[..|a + b| - 1] == a + b[..|b| - 1] && (a + b)[|a + b| - 1] == b[|b| - 1]
  {
  }

  /** An element of `a` is an element of `a + b`. */
  lemma InFront<T>(x: T, a: seq<T>, b: seq<T>)
    requires x in a
    ensures x in a + b
  {
  }

  /** The element `b` consists of is an element of `a + b`. */
  lemma InBack<T>(x: T, a: seq<T>, b: seq<T>)
    requires b == [x]
    ensures x in a + b
  {
    assert (a + b)[|a|] == x;
  }

  /** A property of six values holds at every index of their sequence. */
  lemma SixHold<T>(p: T -> bool, a: T, b: T, c: T, d: T, e: T, f: T)
    requires p(a) && p(b) && p(c) && p(d) && p(e) && p(f)
    ensures var xs := [a, b, c, d, e, f];
            forall i :: 0 <= i < |xs| ==> p(xs[i])
  {
    var xs := [a, b, c, d, e, f];
    forall i | 0 <= i < |xs| ensures p(xs[i]) {
      if i < 3 {
        assert xs[i] == a || xs[i] == b || xs[i] == c;
      } else {
        assert xs[i] == d || xs[i] == e || xs[i] == f;
      }
    }
  }
}
