/** Bounded windows over a growing log: the last `n` of a sequence, and slices of it. */
module Windows {

  function Min(a: nat, b: nat): nat
  {
    if a < b then a else b
  }

  function Max(a: nat, b: nat): nat
  {
    if a < b then b else a
  }

  /** The last `n` elements, or all of them. */
  function Last<T>(s: seq<T>, n: nat): (r: seq<T>)
    ensures |r| == Min(n, |s|)
  {
    if |s| <= n then s else s[|s| - n..]
  }

  /** At most `n` elements starting at position `from`. */
  function Slice<T>(s: seq<T>, from: nat, n: nat): (r: seq<T>)
    ensures |r| == Min(n, |s| - Min(from, |s|))
    ensures forall i :: 0 <= i < |r| ==> r[i] == s[from + i]
  {
    if from >= |s| then [] else if from + n >= |s| then s[from..] else s[from..from + n]
  }

  /** Appending to a window and cutting it again is cutting the whole log. */
  lemma LastAppend<T>(log: seq<T>, e: T, n: nat)
    requires n > 0
    ensures Last(Last(log, n) + [e], n) == Last(log + [e], n)
  {
  }

  lemma SliceHead<T>(s: seq<T>, n: nat)
    requires s != [] && n > 0
    ensures Slice(s, 0, n) == [s[0]] + Slice(s[1..], 0, n - 1)
  {
  }

  lemma SliceTail<T>(s: seq<T>, from: nat, n: nat)
    requires s != [] && from > 0
    ensures Slice(s, from, n) == Slice(s[1..], from - 1, n)
  {
  }

  lemma SliceOfSuffix<T>(s: seq<T>, w: nat, from: nat, n: nat)
    requires w <= |s|
    ensures Slice(s[w..], from, n) == Slice(s, w + from, n)
  {
  }

  lemma SlicesJoin<T>(s: seq<T>, a: nat, b: nat, c: nat)
    requires a <= b <= c <= |s|
    ensures s[a..b] + s[b..c] == s[a..c]
  {
  }
}
