/** Small operations on sequences. */
module Seqs {

  /** `r` with position `k` cut out. */
  function Cut<T>(r: seq<T>, k: nat): seq<T>
    requires k < |r|
  {
    r[..k] + r[k + 1..]
  }

  lemma CutAppend<T>(r: seq<T>, k: nat, b: T)
    requires k < |r|
    ensures Cut(r + [b], k) == Cut(r, k) + [b]
  {
  }

  /** The last `k` elements, or all of them. */
  function Last<T>(s: seq<T>, k: nat): seq<T> {
    if |s| <= k then s else s[|s| - k..]
  }

  predicate Distinct<T(==)>(s: seq<T>) {
    forall i, j :: 0 <= i < j < |s| ==> s[i] != s[j]
  }

  lemma CutDistinct<T>(s: seq<T>, k: nat)
    requires k < |s| && Distinct(s)
    ensures Distinct(Cut(s, k))
    ensures forall i :: 0 <= i < |s| - 1 ==> Cut(s, k)[i] == s[if i < k then i else i + 1]
  {
  }

  lemma LastAppend<T>(s: seq<T>, k: nat, x: T)
    requires k >= 1
    ensures Last(s + [x], k) == (if |s| < k then Last(s, k) else Last(s, k)[1..]) + [x]
  {
  }

  /** `now` is `s` with its first `i` elements rewritten to those of `t`. */
  ghost predicate Mixed<T>(now: seq<T>, s: seq<T>, t: seq<T>, i: int) {
    |now| == |s| == |t| && forall j :: 0 <= j < |s| ==> now[j] == if j < i then t[j] else s[j]
  }

  lemma MixedDone<T>(now: seq<T>, s: seq<T>, t: seq<T>)
    requires Mixed(now, s, t, |s|)
    ensures now == t
  {
  }

  /** One step of a filter that works in place: `w` is what is kept of s[..i], and s[i..] is still
      to come. */
  lemma FilterStep<T>(s: seq<T>, w: seq<T>, i: nat)
    requires i < |s|
    ensures (w + s[i..])[|w|] == s[i]
    ensures Cut(w + s[i..], |w|) == w + s[i + 1..]
    ensures (w + [s[i]]) + s[i + 1..] == w + s[i..]
  {
  }

  // ---------- Left folds with output ----------

  /** The state after feeding the elements of `s` to `next`, one by one. */
  function Fold<X, C>(next: (X, C) -> C, s: seq<X>, start: C): C {
    if s == [] then start else next(s[|s| - 1], Fold(next, s[..|s| - 1], start))
  }

  /** What `out` produces along the way. */
  function Emit<X, C, G>(next: (X, C) -> C, out: (X, C) -> seq<G>, s: seq<X>, start: C): seq<G> {
    if s == [] then [] else
    Emit(next, out, s[..|s| - 1], start) + out(s[|s| - 1], Fold(next, s[..|s| - 1], start))
  }

  lemma {:induction false} FoldConcat<X, C>(next: (X, C) -> C, s: seq<X>, t: seq<X>, start: C)
    ensures Fold(next, s + t, start) == Fold(next, t, Fold(next, s, start))
    decreases |t|
  {
    if t == [] {
      assert s + t == s;
    } else {
      assert (s + t)[..|s + t| - 1] == s + t[..|t| - 1];
      FoldConcat(next, s, t[..|t| - 1], start);
    }
  }

  lemma {:induction false} EmitConcat<X, C, G>(next: (X, C) -> C, out: (X, C) -> seq<G>, s: seq<X>, t: seq<X>, start: C)
    ensures Emit(next, out, s + t, start) == Emit(next, out, s, start) + Emit(next, out, t, Fold(next, s, start))
    decreases |t|
  {
    if t == [] {
      assert s + t == s;
    } else {
      assert (s + t)[..|s + t| - 1] == s + t[..|t| - 1];
      EmitConcat(next, out, s, t[..|t| - 1], start);
      FoldConcat(next, s, t[..|t| - 1], start);
    }
  }
}
