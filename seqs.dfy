/** Facts about cutting and splicing sequences, stated once for any element
    type so that the document modules can use them without unfolding their
    own element functions. */
module Seqs {

  /** `x` written over positions `s .. s + |x|` of `b`. */
  function Splice<T>(b: seq<T>, s: nat, x: seq<T>): (r: seq<T>)
    requires s + |x| <= |b|
    ensures |r| == |b|
    ensures r[..s] == b[..s] && r[s + |x|..] == b[s + |x|..]
    ensures forall i :: 0 <= i < |x| ==> r[s + i] == x[i]
  {
    b[..s] + x + b[s + |x|..]
  }

  /** Splicing nothing leaves `b` as it is. */
  lemma SpliceEmpty<T>(b: seq<T>, s: nat)
    requires s <= |b|
    ensures Splice(b, s, []) == b
  {
    assert b[..s] + b[s..] == b;
  }

  /** Splicing over the whole of `b` gives the spliced part. */
  lemma SpliceWhole<T>(b: seq<T>, x: seq<T>)
    requires |x| == |b|
    ensures Splice(b, 0, x) == x
  {
    assert b[..0] + x + b[|x|..] == x;
  }

  /** Writing one more element over the position right behind a splice
      extends the spliced part by that element. */
  lemma SpliceStep<T>(b: seq<T>, s: nat, x: seq<T>, y: T)
    requires s + |x| < |b|
    ensures Splice(b, s, x)[s + |x|] == b[s + |x|]
    ensures Splice(b, s, x)[s + |x| := y] == Splice(b, s, x + [y])
  {
    var r := Splice(b, s, x)[s + |x| := y];
    var q := Splice(b, s, x + [y]);
    assert |r| == |q|;
    forall j | 0 <= j < |r|
      ensures r[j] == q[j]
    {
      if j < s {
        assert r[j] == b[..s][j];
        assert q[j] == q[..s][j];
      } else if j < s + |x| {
        assert r[j] == x[j - s];
        assert q[j] == (x + [y])[j - s];
      } else if j > s + |x| {
        assert r[j] == Splice(b, s, x)[s + |x|..][j - s - |x|];
        assert q[j] == q[s + |x| + 1..][j - s - |x| - 1];
      }
    }
  }

  /** Keeping the first `m` elements and everything from `t` on. */
  function Cut<T>(b: seq<T>, m: nat, t: nat): (r: seq<T>)
    requires m <= t <= |b|
    ensures |r| == |b| - (t - m)
    ensures r[..m] == b[..m] && r[m..] == b[t..]
    ensures forall j :: 0 <= j < m ==> r[j] == b[j]
  {
    b[..m] + b[t..]
  }

  /** Cutting nothing leaves `b` as it is. */
  lemma CutNone<T>(b: seq<T>, m: nat)
    requires m <= |b|
    ensures Cut(b, m, m) == b
  {
    assert b[..m] + b[m..] == b;
  }

  /** Removing the last kept element cuts one more. */
  lemma CutStep<T>(b: seq<T>, m: nat, t: nat)
    requires 0 < m <= t <= |b|
    ensures Cut(b, m, t)[..m - 1] + Cut(b, m, t)[m..] == Cut(b, m - 1, t)
  {
    assert Cut(b, m, t)[..m - 1] == b[..m - 1];
  }

  /** `b` with `e` inserted at position `p`. */
  function InsertAt<T>(b: seq<T>, p: nat, e: T): (r: seq<T>)
    requires p <= |b|
    ensures |r| == |b| + 1
    ensures r[..p] == b[..p] && r[p] == e && r[p + 1..] == b[p..]
    ensures forall j :: 0 <= j < p ==> r[j] == b[j]
    ensures forall j :: p < j <= |b| ==> r[j] == b[j - 1]
  {
    b[..p] + [e] + b[p..]
  }

  /** `n` copies of `e`. */
  function Copies<T>(e: T, n: nat): (r: seq<T>)
    ensures |r| == n && forall i :: 0 <= i < n ==> r[i] == e
  {
    seq(n, _ => e)
  }

  /** `c` inserted at position `p`. */
  function InsertAll<T>(b: seq<T>, p: nat, c: seq<T>): (r: seq<T>)
    requires p <= |b|
    ensures |r| == |b| + |c|
    ensures r[..p] == b[..p] && r[p + |c|..] == b[p..]
    ensures forall j :: 0 <= j < p ==> r[j] == b[j]
    ensures forall i :: 0 <= i < |c| ==> r[p + i] == c[i]
  {
    b[..p] + c + b[p..]
  }

  /** Sequences that agree position by position up to `m` have the same prefix. */
  lemma SamePrefix<T>(a: seq<T>, b: seq<T>, m: nat)
    requires m <= |a| && m <= |b|
    requires forall j :: 0 <= j < m ==> a[j] == b[j]
    ensures a[..m] == b[..m]
  {
  }

  /** Writing the element that is already there changes nothing. */
  lemma SpliceKeep<T>(b: seq<T>, s: nat, x: seq<T>)
    requires s + |x| < |b|
    ensures Splice(b, s, x) == Splice(b, s, x + [b[s + |x|]])
  {
    SpliceStep(b, s, x, b[s + |x|]);
    assert Splice(b, s, x)[s + |x| := b[s + |x|]] == Splice(b, s, x);
  }

  /** `f` applied to positions `s`, `s + 1`, ... of `b`, together with one item each. */
  function Zipped<T, U>(b: seq<T>, s: nat, items: seq<U>, f: (T, U) -> T): (r: seq<T>)
    requires s + |items| <= |b|
    ensures |r| == |items|
    ensures forall i {:trigger r[i]} :: 0 <= i < |items| ==> r[i] == f(b[s + i], items[i])
  {
    seq(|items|, i requires 0 <= i < |items| => f(b[s + i], items[i]))
  }

  /** One more item zipped in extends the result by one. */
  lemma ZippedSnoc<T, U>(b: seq<T>, s: nat, items: seq<U>, i: nat, f: (T, U) -> T)
    requires s + i < |b| && i < |items|
    ensures Zipped(b, s, items[..i + 1], f) == Zipped(b, s, items[..i], f) + [f(b[s + i], items[i])]
  {
    var l := Zipped(b, s, items[..i + 1], f);
    var r := Zipped(b, s, items[..i], f) + [f(b[s + i], items[i])];
    assert |l| == |r|;
    forall j | 0 <= j < |l|
      ensures l[j] == r[j]
    {
      if j < i {
        assert r[j] == Zipped(b, s, items[..i], f)[j];
      }
    }
  }

  /** One pass of a loop that writes `f(b[s + i], items[i])` over position
      `s + i`: that position still holds what `b` held there, writing it
      extends the zipped positions by one, and when `f` keeps the element
      not writing it does the same. */
  lemma ZipSpliceStep<T, U>(b: seq<T>, s: nat, items: seq<U>, i: nat, f: (T, U) -> T)
    requires s + i < |b| && i < |items|
    ensures var cur := Splice(b, s, Zipped(b, s, items[..i], f));
      var next := Splice(b, s, Zipped(b, s, items[..i + 1], f));
      cur[s + i] == b[s + i] && cur[s + i := f(b[s + i], items[i])] == next &&
      (f(b[s + i], items[i]) == b[s + i] ==> cur == next)
  {
    var x := Zipped(b, s, items[..i], f);
    SpliceStep(b, s, x, f(b[s + i], items[i]));
    ZippedSnoc(b, s, items, i, f);
    if f(b[s + i], items[i]) == b[s + i] {
      SpliceKeep(b, s, x);
    }
  }

  /** Before pass `i` of such a loop position `s + i` still holds what `b` held there. */
  lemma ZipSpliceUntouched<T, U>(b: seq<T>, s: nat, items: seq<U>, i: nat, f: (T, U) -> T)
    requires s + i < |b| && i <= |items|
    ensures Splice(b, s, Zipped(b, s, items[..i], f))[s + i] == b[s + i]
  {
    var x := Zipped(b, s, items[..i], f);
    assert Splice(b, s, x)[s + |x|..][0] == b[s + |x|..][0];
  }

  /** Writing `y == f(b[s + i], items[i])` over position `s + i` is pass `i`. */
  lemma ZipSpliceWrite<T, U>(b: seq<T>, s: nat, items: seq<U>, i: nat, f: (T, U) -> T, y: T)
    requires s + i < |b| && i < |items| && f(b[s + i], items[i]) == y
    ensures Splice(b, s, Zipped(b, s, items[..i], f))[s + i := y] == Splice(b, s, Zipped(b, s, items[..i + 1], f))
  {
    SpliceStep(b, s, Zipped(b, s, items[..i], f), y);
    ZippedSnoc(b, s, items, i, f);
  }

  /** When `f` keeps the element at `s + i`, pass `i` changes nothing. */
  lemma ZipSpliceKeep<T, U>(b: seq<T>, s: nat, items: seq<U>, i: nat, f: (T, U) -> T)
    requires s + i < |b| && i < |items| && f(b[s + i], items[i]) == b[s + i]
    ensures Splice(b, s, Zipped(b, s, items[..i], f)) == Splice(b, s, Zipped(b, s, items[..i + 1], f))
  {
    var x := Zipped(b, s, items[..i], f);
    SpliceKeep(b, s, x);
    ZippedSnoc(b, s, items, i, f);
  }

  /** The sum of `w(b[s + i], items[i])` over the items. */
  function ZipSum<T, U>(b: seq<T>, s: nat, items: seq<U>, w: (T, U) -> nat): nat
    requires s + |items| <= |b|
  {
    if |items| == 0 then 0
    else ZipSum(b, s, items[..|items| - 1], w) + w(b[s + |items| - 1], items[|items| - 1])
  }

  /** One more item adds its own `w`. */
  lemma ZipSumSnoc<T, U>(b: seq<T>, s: nat, items: seq<U>, i: nat, w: (T, U) -> nat)
    requires s + i < |b| && i < |items|
    ensures ZipSum(b, s, items[..i + 1], w) == ZipSum(b, s, items[..i], w) + w(b[s + i], items[i])
  {
    assert items[..i + 1][..i] == items[..i];
  }

  /** A sum of terms each at most `k` is at most `k` times their number. */
  lemma {:induction false} ZipSumAtMost<T, U>(b: seq<T>, s: nat, items: seq<U>, w: (T, U) -> nat, k: nat)
    requires s + |items| <= |b|
    requires forall i :: 0 <= i < |items| ==> w(b[s + i], items[i]) <= k
    ensures ZipSum(b, s, items, w) <= k * |items|
  {
    if |items| > 0 {
      var n := |items| - 1;
      ZipSumAtMost(b, s, items[..n], w, k);
      assert w(b[s + n], items[n]) <= k;
    }
  }

  /** The loop that writes `f(b[s + i], items[i])` over position `s + i`, one
      item after the other, adding up `w` of each pass. */
  method ZipInPlace<T, U>(b: seq<T>, s: nat, items: seq<U>, f: (T, U) -> T, w: (T, U) -> nat)
    returns (out: seq<T>, total: nat)
    requires s + |items| <= |b|
    ensures out == Splice(b, s, Zipped(b, s, items, f))
    ensures total == ZipSum(b, s, items, w)
  {
    out := b;
    total := 0;
    SpliceEmpty(b, s);
    for i := 0 to |items|
      invariant out == Splice(b, s, Zipped(b, s, items[..i], f))
      invariant total == ZipSum(b, s, items[..i], w)
    {
      ZipSpliceUntouched(b, s, items, i, f);
      ZipSpliceWrite(b, s, items, i, f, f(out[s + i], items[i]));
      assert items[..i + 1][..i] == items[..i];
      total := total + w(out[s + i], items[i]);
      out := out[s + i := f(out[s + i], items[i])];
    }
    assert items[..|items|] == items;
  }

  /** `f` applied to every element. */
  function Mapped<T>(b: seq<T>, f: T -> T): (r: seq<T>)
    ensures |r| == |b|
    ensures forall i {:trigger r[i]} :: 0 <= i < |b| ==> r[i] == f(b[i])
  {
    seq(|b|, i requires 0 <= i < |b| => f(b[i]))
  }

  /** `f` applied to every element, built from the front. */
  function MappedTo<A, B>(b: seq<A>, f: A -> B): (r: seq<B>)
    ensures |r| == |b|
  {
    if b == [] then [] else MappedTo(b[..|b| - 1], f) + [f(b[|b| - 1])]
  }

  /** Entry `i` of the mapped sequence is `f` of entry `i`. */
  lemma {:induction false} MappedToAt<A, B>(b: seq<A>, f: A -> B, i: nat)
    requires i < |b|
    ensures MappedTo(b, f)[i] == f(b[i])
    decreases |b|
  {
    var front := b[..|b| - 1];
    if i < |front| {
      MappedToAt(front, f, i);
      assert front[i] == b[i];
    }
  }

  /** The sum of `w` over the elements. */
  function MapSum<T>(b: seq<T>, w: T -> nat): nat {
    if |b| == 0 then 0 else MapSum(b[..|b| - 1], w) + w(b[|b| - 1])
  }

  /** One pass of a loop that applies `f` to position `i`, the positions
      before it done: position `i` still holds its old element, and writing
      `f` of it does one more position. */
  lemma MapStep<T>(b: seq<T>, i: nat, f: T -> T)
    requires i < |b|
    ensures (Mapped(b[..i], f) + b[i..])[i] == b[i]
    ensures (Mapped(b[..i], f) + b[i..])[i := f(b[i])] == Mapped(b[..i + 1], f) + b[i + 1..]
  {
    var cur := Mapped(b[..i], f) + b[i..];
    var next := Mapped(b[..i + 1], f) + b[i + 1..];
    assert cur[i] == b[i..][0];
    forall j | 0 <= j < |b|
      ensures cur[i := f(b[i])][j] == next[j]
    {
      if j > i {
        assert cur[j] == b[i..][j - i] && next[j] == b[i + 1..][j - i - 1];
      }
    }
  }

  /** When `f` keeps position `i`, that pass changes nothing. */
  lemma MapKeep<T>(b: seq<T>, i: nat, f: T -> T)
    requires i < |b| && f(b[i]) == b[i]
    ensures Mapped(b[..i], f) + b[i..] == Mapped(b[..i + 1], f) + b[i + 1..]
  {
    MapStep(b, i, f);
    assert (Mapped(b[..i], f) + b[i..])[i := b[i]] == Mapped(b[..i], f) + b[i..];
  }

  /** One more element adds its own `w`. */
  lemma MapSumSnoc<T>(b: seq<T>, i: nat, w: T -> nat)
    requires i < |b|
    ensures MapSum(b[..i + 1], w) == MapSum(b[..i], w) + w(b[i])
  {
    assert b[..i + 1][..i] == b[..i];
  }

  /** A sum of terms each at most `k` is at most `k` times their number. */
  lemma {:induction false} MapSumAtMost<T>(b: seq<T>, w: T -> nat, k: nat)
    requires forall x :: w(x) <= k
    ensures MapSum(b, w) <= k * |b|
  {
    if |b| > 0 {
      MapSumAtMost(b[..|b| - 1], w, k);
    }
  }

  /** Mapping over the whole of `b`. */
  lemma MapDone<T>(b: seq<T>, f: T -> T)
    ensures Mapped(b[..|b|], f) + b[|b|..] == Mapped(b, f)
  {
    assert b[..|b|] == b;
  }

  // ---------------------------------------------------------------------------
  // A counted left fold: each step updates a state and reports a count.

  /** `step` applied for each of `ts` in order, the counts summed. */
  function Folded<S, T>(s: S, ts: seq<T>, step: (S, T) -> (S, nat)): (S, nat)
    decreases |ts|
  {
    if ts == [] then (s, 0)
    else
      var (s1, c1) := step(s, ts[0]);
      var (s2, c2) := Folded(s1, ts[1..], step);
      (s2, c1 + c2)
  }

  /** The fold after its first step. */
  lemma FoldedStep<S, T>(s: S, ts: seq<T>, step: (S, T) -> (S, nat))
    requires ts != []
    ensures Folded(s, ts, step) ==
      (Folded(step(s, ts[0]).0, ts[1..], step).0, step(s, ts[0]).1 + Folded(step(s, ts[0]).0, ts[1..], step).1)
  {
  }

  /** A fold whose every step counts at most `k` counts at most `k` per item. */
  lemma {:induction false} FoldedAtMost<S, T>(s: S, ts: seq<T>, step: (S, T) -> (S, nat), k: nat)
    requires forall x, t :: step(x, t).1 <= k
    ensures Folded(s, ts, step).1 <= k * |ts|
    decreases |ts|
  {
    if ts != [] {
      FoldedAtMost(step(s, ts[0]).0, ts[1..], step, k);
    }
  }

  /** A fold whose steps keep a measure `m` of the state keeps it too. */
  lemma {:induction false} FoldedKeeps<S, T>(s: S, ts: seq<T>, step: (S, T) -> (S, nat), m: S -> nat)
    requires forall x, t :: m(step(x, t).0) == m(x)
    ensures m(Folded(s, ts, step).0) == m(s)
    decreases |ts|
  {
    if ts != [] {
      FoldedKeeps(step(s, ts[0]).0, ts[1..], step, m);
    }
  }

  /** A fold whose steps grow a measure `m` by at most one grows it by at
      most one per step. */
  lemma {:induction false} FoldedGrowth<S, T>(s: S, ts: seq<T>, step: (S, T) -> (S, nat), m: S -> nat)
    requires forall x, t :: m(step(x, t).0) <= m(x) + 1
    ensures m(Folded(s, ts, step).0) <= m(s) + |ts|
    decreases |ts|
  {
    if ts != [] {
      FoldedGrowth(step(s, ts[0]).0, ts[1..], step, m);
    }
  }

  /** A prefix one longer is the shorter one and the next element. */
  lemma TakeSnoc<T>(s: seq<T>, k: nat)
    requires 0 < k <= |s|
    ensures s[..k] == s[..k - 1] + [s[k - 1]]
  {
  }

  /** Past the head, a cons reads its tail one position back. */
  lemma ConsAt<T>(x: T, t: seq<T>, k: nat)
    requires 1 <= k <= |t|
    ensures ([x] + t)[k] == t[k - 1]
  {
  }

  /** Past the first, a sequence without its head reads one position back. */
  lemma TailAt<T>(s: seq<T>, k: nat)
    requires 1 <= k < |s|
    ensures s[1..][k - 1] == s[k]
  {
  }

  /** Cutting a sequence at `i` and `j` and joining the three pieces gives it back. */
  lemma SplitThree<T>(b: seq<T>, i: nat, j: nat)
    requires i <= j <= |b|
    ensures b[..i] + b[i..j] + b[j..] == b
  {
    assert b[..i] + b[i..j] == b[..j];
  }

  /** A slice that equals `x` reads `x` position by position. */
  lemma SliceReads<T>(a: seq<T>, lo: nat, hi: nat, x: seq<T>)
    requires lo <= hi <= |a| && a[lo..hi] == x
    ensures forall i :: 0 <= i < |x| ==> a[lo + i] == x[i]
  {
    forall i | 0 <= i < |x|
      ensures a[lo + i] == x[i]
    {
      assert a[lo..hi][i] == x[i];
    }
  }

  /** Writing position `i` is cutting it out and putting `x` in its place. */
  lemma UpdateAsSplice<T>(b: seq<T>, i: nat, x: T)
    requires i < |b|
    ensures b[i := x] == b[..i] + [x] + b[i + 1..]
  {
  }

  /** Writing position `i` and then inserting `tail` right after it. */
  lemma UpdateThenInsert<T>(b: seq<T>, i: nat, x: T, tail: seq<T>)
    requires i < |b|
    ensures b[i := x][..i + 1] + tail + b[i := x][i + 1..] == b[..i] + ([x] + tail) + b[i + 1..]
  {
    assert b[i := x][..i + 1] == b[..i] + [x];
    assert b[i := x][i + 1..] == b[i + 1..];
  }

  /** A loop over a snapshot that replaces the current item by `out`: the
      items done so far, then the untouched rest of the snapshot. */
  lemma SnapshotStep<T>(done: seq<T>, snap: seq<T>, k: nat, out: seq<T>)
    requires k < |snap|
    ensures (done + snap[k..])[|done|] == snap[k]
    ensures (done + snap[k..])[..|done|] + out + (done + snap[k..])[|done| + 1..] == (done + out) + snap[k + 1..]
  {
    var cur := done + snap[k..];
    assert cur[..|done|] == done;
    assert cur[|done| + 1..] == snap[k + 1..];
  }

  /** Writing back the value already held changes nothing. */
  lemma UpdateSame<T>(b: seq<T>, i: nat, x: T)
    requires i < |b| && b[i] == x
    ensures b[i := x] == b
  {
  }

  // ---------------------------------------------------------------------------
  // Dropping the items a predicate selects, one position at a time.

  /** `b` without the items `drop` selects, in order. */
  function Filtered<T>(b: seq<T>, drop: T -> bool): (r: seq<T>)
    ensures |r| <= |b|
    decreases |b|
  {
    if b == [] then []
    else Filtered(b[..|b| - 1], drop) + (if drop(b[|b| - 1]) then [] else [b[|b| - 1]])
  }

  /** What is kept comes from `b` and is not selected. */
  lemma {:induction false} FilteredKept<T>(b: seq<T>, drop: T -> bool)
    ensures forall x :: x in Filtered(b, drop) ==> x in b && !drop(x)
    decreases |b|
  {
    if b != [] {
      FilteredKept(b[..|b| - 1], drop);
      forall x | x in b[..|b| - 1]
        ensures x in b
      {
      }
    }
  }

  /** Nothing selected: nothing dropped. */
  lemma {:induction false} FilteredNone<T>(b: seq<T>, drop: T -> bool)
    requires forall i :: 0 <= i < |b| ==> !drop(b[i])
    ensures Filtered(b, drop) == b
    decreases |b|
  {
    if b != [] {
      FilteredNone(b[..|b| - 1], drop);
    }
  }

  /** Everything selected: everything dropped. */
  lemma {:induction false} FilteredAll<T>(b: seq<T>, drop: T -> bool)
    requires forall i :: 0 <= i < |b| ==> drop(b[i])
    ensures Filtered(b, drop) == []
    decreases |b|
  {
    if b != [] {
      FilteredAll(b[..|b| - 1], drop);
    }
  }

  /** `b[lo..hi]` with the items selected so far, those of `b[lo..k]`, dropped. */
  function Pruning<T>(b: seq<T>, lo: nat, k: nat, hi: nat, drop: T -> bool): seq<T>
    requires lo <= k <= hi <= |b|
  {
    b[..lo] + Filtered(b[lo..k], drop) + b[k..]
  }

  /** Before the first step nothing is dropped. */
  lemma PruningStart<T>(b: seq<T>, lo: nat, hi: nat, drop: T -> bool)
    requires lo <= hi <= |b|
    ensures Pruning(b, lo, lo, hi, drop) == b
  {
    assert b[lo..lo] == [];
    assert b[..lo] + b[lo..] == b;
  }

  /** The item `b[k]` sits right after the kept ones. */
  lemma PruningAt<T>(b: seq<T>, lo: nat, k: nat, hi: nat, drop: T -> bool)
    requires lo <= k < hi <= |b|
    ensures var j := lo + |Filtered(b[lo..k], drop)|;
      j < |Pruning(b, lo, k, hi, drop)| && Pruning(b, lo, k, hi, drop)[j] == b[k]
  {
  }

  /** Removing a selected `b[k]` takes one step. */
  lemma PruningDrop<T>(b: seq<T>, lo: nat, k: nat, hi: nat, drop: T -> bool)
    requires lo <= k < hi <= |b| && drop(b[k])
    ensures var j := lo + |Filtered(b[lo..k], drop)|; var cur := Pruning(b, lo, k, hi, drop);
      j < |cur| && cur[..j] + cur[j + 1..] == Pruning(b, lo, k + 1, hi, drop)
    ensures Filtered(b[lo..k + 1], drop) == Filtered(b[lo..k], drop)
  {
    var f := Filtered(b[lo..k], drop);
    var w := b[lo..k + 1];
    assert w[..|w| - 1] == b[lo..k] && w[|w| - 1] == b[k];
    assert Filtered(w, drop) == f;
    var j := lo + |f|;
    var cur := b[..lo] + f + b[k..];
    assert cur[..j] == b[..lo] + f;
    assert cur[j + 1..] == b[k + 1..];
  }

  /** Keeping an unselected `b[k]` takes one step too. */
  lemma PruningKeep<T>(b: seq<T>, lo: nat, k: nat, hi: nat, drop: T -> bool)
    requires lo <= k < hi <= |b| && !drop(b[k])
    ensures Pruning(b, lo, k, hi, drop) == Pruning(b, lo, k + 1, hi, drop)
    ensures |Filtered(b[lo..k + 1], drop)| == |Filtered(b[lo..k], drop)| + 1
  {
    var w := b[lo..k + 1];
    assert w[..|w| - 1] == b[lo..k] && w[|w| - 1] == b[k];
    assert b[k..] == [b[k]] + b[k + 1..];
  }

  // ---------------------------------------------------------------------------
  // Building one value per item.

  /** `f` applied to each of `items`, in order. */
  function MapSeq<U, T>(items: seq<U>, f: U -> T): (r: seq<T>)
    ensures |r| == |items|
    ensures forall i :: 0 <= i < |items| ==> r[i] == f(items[i])
  {
    seq(|items|, i requires 0 <= i < |items| => f(items[i]))
  }

  lemma MapSeqCons<U, T>(items: seq<U>, f: U -> T)
    requires items != []
    ensures MapSeq(items, f) == [f(items[0])] + MapSeq(items[1..], f)
  {
    assert MapSeq(items, f)[1..] == MapSeq(items[1..], f);
  }

  lemma TakeAll<T>(s: seq<T>, n: nat)
    requires |s| == n
    ensures s[..n] == s
  {
  }

  lemma MapSeqThree<U, T>(x: U, y: U, z: U, f: U -> T)
    ensures MapSeq([x, y, z], f) == [f(x), f(y), f(z)]
  {
  }

  /** The loop that builds `MapSeq(items, f)` one item at a time. */
  method MapEach<U, T>(items: seq<U>, f: U -> T) returns (r: seq<T>)
    ensures r == MapSeq(items, f)
  {
    r := [];
    for i := 0 to |items|
      invariant r == MapSeq(items[..i], f)
    {
      assert items[..i + 1] == items[..i] + [items[i]];
      r := r + [f(items[i])];
    }
    assert items[..|items|] == items;
  }
}

