/** Generic facts about sequences of sequences and paired elements, stated
    without reference to what the elements are. */
module Seqs {

  /** The parts one after the other. */
  function Flatten<T>(parts: seq<seq<T>>): (r: seq<T>)
    decreases |parts|
  {
    if |parts| == 0 then [] else parts[0] + Flatten(parts[1..])
  }

  lemma FlattenCons<T>(parts: seq<seq<T>>)
    requires |parts| > 0
    ensures Flatten(parts) == parts[0] + Flatten(parts[1..])
  {
  }

  lemma {:induction false} FlattenSnoc<T>(parts: seq<seq<T>>, last: seq<T>)
    ensures Flatten(parts + [last]) == Flatten(parts) + last
    decreases |parts|
  {
    if |parts| == 0 {
      assert (parts + [last])[1..] == [];
      assert Flatten(parts + [last]) == last + Flatten([]);
    } else {
      assert (parts + [last])[0] == parts[0];
      assert (parts + [last])[1..] == parts[1..] + [last];
      FlattenSnoc(parts[1..], last);
    }
  }

  lemma Regroup3<T>(x: seq<T>, y: seq<T>, z: seq<T>)
    ensures x + (y + z) == x + y + z
  {
  }

  lemma IndexAfter<T>(a: seq<T>, b: seq<T>, j: nat)
    requires j < |b|
    ensures (a + b)[|a| + j] == b[j]
  {
  }

  /** Each element's image followed by `sep`. */
  function PairUp<T, U>(xs: seq<T>, f: T -> U, sep: U): (r: seq<U>)
    ensures |r| == 2 * |xs|
    decreases |xs|
  {
    if |xs| == 0 then [] else [f(xs[0]), sep] + PairUp(xs[1..], f, sep)
  }

  /** Indexing past a leading pair. */
  lemma PairIndex<T>(pair: seq<T>, tail: seq<T>, j: nat)
    requires |pair| == 2 && 2 * j + 1 < |tail|
    ensures (pair + tail)[2 * j + 2] == tail[2 * j] && (pair + tail)[2 * j + 3] == tail[2 * j + 1]
  {
  }

  /** Position `2k` holds the image of element `k`, position `2k + 1` the
      separator. */
  lemma {:induction false} PairUpAt<T, U>(xs: seq<T>, f: T -> U, sep: U, k: nat)
    requires k < |xs|
    ensures PairUp(xs, f, sep)[2 * k] == f(xs[k])
    ensures PairUp(xs, f, sep)[2 * k + 1] == sep
    decreases k
  {
    if k > 0 {
      PairUpAt(xs[1..], f, sep, k - 1);
      PairIndex([f(xs[0]), sep], PairUp(xs[1..], f, sep), k - 1);
      assert xs[1..][k - 1] == xs[k];
    }
  }
}
